/** Facts about products that the solver is better given one at a time. */
module Arithmetic {
  function Min(a: int, b: int): int {
    if b < a then b else a
  }

  function Product(dims: seq<int>): (p: int)
    ensures (forall i | 0 <= i < |dims| :: dims[i] >= 0) ==> p >= 0
  {
    if dims == [] then 1 else dims[0] * Product(dims[1..])
  }

  lemma Times(a: nat, b: nat, n: nat)
    requires a <= b
    ensures a * n <= b * n
  {
  }

  lemma Associative(a: nat, b: nat, c: nat)
    ensures a * (b * c) == (a * b) * c >= 0
  {
  }

  lemma Commutative(a: nat, b: nat)
    ensures a * b == b * a
  {
  }

  lemma TimesNext(a: nat, n: int)
    ensures (a + 1) * n == a * n + n
  {
  }
}
