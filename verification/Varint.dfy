/** Base 128 varints of 64-bit integers. */
module Varint {
  import opened Wrappers
  import opened Bytes

  const TWO_TO_THE_63: nat := 0x8000_0000_0000_0000
  const TWO_TO_THE_64: nat := 0x1_0000_0000_0000_0000

  // ---------- bits ----------

  /** Bitwise or. */
  function Or(a: nat, b: nat): nat {
    if a == 0 then b else if b == 0 then a
    else (if a % 2 == 1 || b % 2 == 1 then 1 else 0) + 2 * Or(a / 2, b / 2)
  }

  /** Shift to the left, with nothing cut off. */
  function Shl(v: nat, n: nat): nat {
    if n == 0 then v else 2 * Shl(v, n - 1)
  }

  /** Bit i of a number, the lowest being bit 0. */
  predicate Bit(a: nat, i: nat) {
    if i == 0 then a % 2 == 1 else Bit(a / 2, i - 1)
  }

  lemma {:induction false} NoBits(i: nat)
    ensures !Bit(0, i)
  {
    if i > 0 { NoBits(i - 1); }
  }

  /** A bit is set in the bitwise or of two numbers if and only if it is set in one of them. */
  lemma {:induction false} OrSetsBits(a: nat, b: nat, i: nat)
    ensures Bit(Or(a, b), i) <==> Bit(a, i) || Bit(b, i)
  {
    NoBits(i);
    if a != 0 && b != 0 && i > 0 {
      OrSetsBits(a / 2, b / 2, i - 1);
    }
  }

  /** Or-ing a number into the bits above it adds the two. */
  lemma {:induction false} OrIsSum(a: nat, v: nat, n: nat)
    requires a < Shl(1, n)
    ensures Or(a, Shl(v, n)) == a + Shl(v, n)
  {
    if n > 0 {
      OrIsSum(a / 2, v, n - 1);
    }
  }

  lemma {:induction false} ShlAdds(v: nat, w: nat, n: nat)
    ensures Shl(v, n) + Shl(w, n) == Shl(v + w, n)
  {
    if n > 0 {
      ShlAdds(v, w, n - 1);
    }
  }

  /** Shifting by one group more. */
  lemma ShlGroup(v: nat, n: nat)
    ensures Shl(v, n + 7) == 128 * Shl(v, n)
  {
    assert Shl(v, n + 3) == 2 * Shl(v, n + 2) == 4 * Shl(v, n + 1);
    assert Shl(v, n + 6) == 2 * Shl(v, n + 5) == 4 * Shl(v, n + 4);
  }

  lemma {:induction false} ShlOf128(v: nat, n: nat)
    ensures Shl(128 * v, n) == 128 * Shl(v, n)
  {
    if n > 0 {
      ShlOf128(v, n - 1);
    }
  }

  lemma ShlBy63(v: nat)
    ensures Shl(v, 63) == v * TWO_TO_THE_63
  {
    ShlGroup(v, 0);
    ShlGroup(v, 7);
    ShlGroup(v, 14);
    ShlGroup(v, 21);
    ShlGroup(v, 28);
    ShlGroup(v, 35);
    ShlGroup(v, 42);
    ShlGroup(v, 49);
    ShlGroup(v, 56);
  }

  // ---------- specification ----------

  /** The encoding: 7 bits a byte, least significant group first, the high bit set on all but the last. */
  function Varint64(v: nat): (r: seq<Byte>)
    ensures |r| >= 1
  {
    if v < 128 then [v] else [v % 128 + 128] + Varint64(v / 128)
  }

  /** The number that the 7-bit groups of some bytes spell. */
  function Groups(bytes: seq<Byte>): nat {
    if bytes == [] then 0
    else Groups(bytes[..|bytes| - 1]) + Shl(bytes[|bytes| - 1] % 128, 7 * (|bytes| - 1))
  }

  /** What a decoder must accept: at most ten bytes, of which exactly the last has its high bit clear. */
  predicate IsHeader(h: seq<Byte>) {
    1 <= |h| <= 10 && h[|h| - 1] < 128 && forall i | 0 <= i < |h| - 1 :: h[i] >= 128
  }

  /** Bits past the 64th fall off. */
  function HeaderValue(h: seq<Byte>): nat {
    Groups(h) % TWO_TO_THE_64
  }

  // ---------- the program ----------

  method VarintLength(v: nat) returns (len: nat)
    ensures len == |Varint64(v)|
  {
    len := 1;
    var x := v;
    while x >= 128
      invariant len + |Varint64(x)| == 1 + |Varint64(v)|
      decreases x
    {
      x := x / 128;
      len := len + 1;
    }
  }

  method EncodeVarint64(dst: array<Byte>, at: nat, v: nat) returns (end: nat)
    requires at + |Varint64(v)| <= dst.Length
    modifies dst
    ensures end == at + |Varint64(v)|
    ensures dst[..] == old(dst[..at]) + Varint64(v) + old(dst[at + |Varint64(v)|..])
  {
    end := at;
    var x := v;
    while x >= 128
      invariant at <= end && end + |Varint64(x)| == at + |Varint64(v)|
      invariant dst[..end] + Varint64(x) == old(dst[..at]) + Varint64(v)
      invariant forall k | end <= k < dst.Length :: dst[k] == old(dst[k])
      decreases x
    {
      ghost var done := dst[..end];
      HighBit(x % 128);
      dst[end] := Or(x % 128, 128);
      assert dst[..end + 1] == done + [x % 128 + 128];
      x := x / 128;
      end := end + 1;
    }
    ghost var done := dst[..end];
    dst[end] := x;
    end := end + 1;
    assert dst[..end] == done + [x];
    assert dst[..] == dst[..end] + dst[end..];
  }

  lemma HighBit(low: nat)
    requires low < 128
    ensures Or(low, 128) == low + 128
  {
    ShlGroup(1, 0);
    OrIsSum(low, 1, 7);
  }

  method GetVarint64Ptr(input: seq<Byte>, p: nat, limit: nat) returns (next: Option<nat>, value: nat)
    requires p <= limit <= |input|
    ensures next.Some? <==> exists end :: p <= end <= limit && IsHeader(input[p..end])
    ensures next.Some? ==> p < next.value <= limit && IsHeader(input[p..next.value]) && value == HeaderValue(input[p..next.value])
  {
    var q, group := p, 0;
    value := 0;
    while group <= 9 && q < limit
      invariant group <= 10 && q == p + group <= limit
      invariant forall i | p <= i < q :: input[i] >= 128
      invariant group <= 9 ==> value == Groups(input[p..q]) < Shl(1, 7 * group)
    {
      var byte := input[q];
      GroupsStep(input, p, q);
      GroupAdded(value, byte, group);
      q := q + 1;
      value := Or(value, Shl(byte % 128, 7 * group) % TWO_TO_THE_64);
      if byte < 128 {
        return Some(q), value;
      }
      group := group + 1;
    }
    next := None;
    NoHeader(input, p, q, limit);
  }

  lemma GroupsStep(input: seq<Byte>, p: nat, q: nat)
    requires p <= q < |input|
    ensures Groups(input[p..q + 1]) == Groups(input[p..q]) + Shl(input[q] % 128, 7 * (q - p))
  {
    assert input[p..q + 1][..q - p] == input[p..q];
  }

  lemma NoHeader(input: seq<Byte>, p: nat, q: nat, limit: nat)
    requires p <= q <= limit <= |input| && (q == limit || q == p + 10)
    requires forall i | p <= i < q :: input[i] >= 128
    ensures forall end | p <= end <= limit :: !IsHeader(input[p..end])
  {
    forall end | p <= end <= limit ensures !IsHeader(input[p..end]) {
      assert end > p ==> input[end - 1] == input[p..end][end - p - 1];
    }
  }

  /** Or-ing in the next group, shifted to its place in 64 bits, adds it: in groups 0 to 8 nothing is cut off, and of the
      tenth one bit is kept. */
  lemma GroupAdded(result: nat, byte: Byte, group: nat)
    requires group <= 9 && result < Shl(1, 7 * group)
    ensures var shifted := Shl(byte % 128, 7 * group);
            && Or(result, shifted % TWO_TO_THE_64) == (result + shifted) % TWO_TO_THE_64
            && (group < 9 ==> Or(result, shifted % TWO_TO_THE_64) == result + shifted < Shl(1, 7 * (group + 1)))
  {
    if group < 9 {
      LowGroup(result, byte % 128, group);
    } else {
      TenthGroup(result, byte % 128);
    }
  }

  /** What fits in 64 bits is not cut. */
  lemma Uncut(v: nat)
    requires v < TWO_TO_THE_64
    ensures v % TWO_TO_THE_64 == v
  {
  }

  lemma LowGroup(result: nat, b: nat, group: nat)
    requires group < 9 && b < 128 && result < Shl(1, 7 * group)
    ensures Or(result, Shl(b, 7 * group) % TWO_TO_THE_64) == result + Shl(b, 7 * group) < Shl(1, 7 * (group + 1))
    ensures (result + Shl(b, 7 * group)) % TWO_TO_THE_64 == result + Shl(b, 7 * group)
  {
    var sum := result + Shl(b, 7 * group);
    GroupFits(result, b, 7 * group);
    PlaceFits(group + 1);
    Uncut(Shl(b, 7 * group));
    Uncut(sum);
    OrIsSum(result, b, 7 * group);
  }

  lemma GroupFits(result: nat, b: nat, n: nat)
    requires b < 128 && result < Shl(1, n)
    ensures result + Shl(b, n) < Shl(1, n + 7)
  {
    ShlAdds(b, 1, n);
    ShlAdds(b + 1, 127 - b, n);
    ShlOf128(1, n);
    ShlGroup(1, n);
  }

  lemma {:induction false} PlaceFits(group: nat)
    requires group <= 9
    ensures Shl(1, 7 * group) <= TWO_TO_THE_63
    decreases 9 - group
  {
    if group == 9 {
      ShlBy63(1);
    } else {
      PlaceFits(group + 1);
      ShlGroup(1, 7 * group);
    }
  }

  lemma TenthGroup(result: nat, b: nat)
    requires b < 128 && result < Shl(1, 63)
    ensures Or(result, Shl(b, 63) % TWO_TO_THE_64) == (result + Shl(b, 63)) % TWO_TO_THE_64
  {
    ShlBy63(1);
    ShlBy63(b);
    ShlBy63(b % 2);
    OneBitKept(result, b / 2, b % 2);
    OrIsSum(result, b % 2, 63);
  }

  lemma OneBitKept(result: nat, half: nat, bit: nat)
    requires bit < 2 && result < TWO_TO_THE_63
    ensures (2 * half + bit) * TWO_TO_THE_63 % TWO_TO_THE_64 == bit * TWO_TO_THE_63
    ensures (result + (2 * half + bit) * TWO_TO_THE_63) % TWO_TO_THE_64 == result + bit * TWO_TO_THE_63
  {
    assert (2 * half + bit) * TWO_TO_THE_63 == half * TWO_TO_THE_64 + bit * TWO_TO_THE_63;
  }

  lemma EightBytes()
    ensures Pow(256, 8) == TWO_TO_THE_64
  {
    assert Pow(256, 4) == 256 * 256 * Pow(256, 2) == 0x1_0000_0000;
    assert Pow(256, 6) == 256 * 256 * Pow(256, 4);
    assert Pow(256, 8) == 256 * 256 * Pow(256, 6);
  }

  // ---------- the round trip ----------

  lemma {:induction false} VarintGroups(v: nat)
    ensures Groups(Varint64(v)) == v
  {
    if v < 128 {
      assert Groups([v]) == Groups([]) + Shl(v % 128, 0);
    } else {
      VarintGroups(v / 128);
      GroupsCons(v % 128 + 128, Varint64(v / 128));
    }
  }

  lemma {:induction false} VarintContinues(v: nat)
    ensures forall i | 0 <= i < |Varint64(v)| :: Varint64(v)[i] >= 128 <==> i < |Varint64(v)| - 1
  {
    if v >= 128 {
      VarintContinues(v / 128);
    }
  }

  lemma {:induction false} GroupsCons(b: Byte, rest: seq<Byte>)
    ensures Groups([b] + rest) == b % 128 + 128 * Groups(rest)
  {
    if rest == [] {
      assert Groups([b]) == Groups([]) + Shl(b % 128, 0);
      assert [b] + rest == [b];
    } else {
      var last := |rest| - 1;
      GroupsCons(b, rest[..last]);
      assert ([b] + rest)[..last + 1] == [b] + rest[..last];
      ShlGroup(rest[last] % 128, 7 * last);
    }
  }

  lemma {:induction false} VarintLengthBound(v: nat, n: nat)
    requires n >= 1 && v < Shl(1, 7 * n)
    ensures |Varint64(v)| <= n
  {
    ShlGroup(1, 7 * (n - 1));
    if v >= 128 {
      VarintLengthBound(v / 128, n - 1);
    }
  }

  /** Every 64-bit value has a varint that a decoder accepts and reads back as that value. */
  lemma VarintDecodes(v: nat)
    requires v < TWO_TO_THE_64
    ensures IsHeader(Varint64(v)) && HeaderValue(Varint64(v)) == v
  {
    VarintGroups(v);
    VarintContinues(v);
    ShlBy63(1);
    ShlGroup(1, 63);
    VarintLengthBound(v, 10);
  }

  /** No header is a proper prefix of another: a decoder cannot stop at the wrong place. */
  lemma HeaderIsPrefixFree(bytes: seq<Byte>, a: nat, b: nat)
    requires a <= |bytes| && b <= |bytes| && IsHeader(bytes[..a]) && IsHeader(bytes[..b])
    ensures a == b
  {
    assert bytes[..a][a - 1] == bytes[a - 1] && bytes[..b][b - 1] == bytes[b - 1];
  }

  /** 300 is 10 0101100 in groups of seven bits. */
  lemma VarintOf300()
    ensures Varint64(300) == [0xAC, 0x02] && Varint64(127) == [0x7F] && Varint64(128) == [0x80, 0x01]
  {
    assert Varint64(300) == [300 % 128 + 128] + Varint64(2);
    assert Varint64(128) == [128 % 128 + 128] + Varint64(1);
  }
}
