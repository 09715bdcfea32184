/** Fixed-width integers in memory, in either byte order. */
module Bytes {
  type Byte = b: int | 0 <= b < 256

  datatype ByteOrder = LittleEndian | BigEndian

  function Pow(base: nat, n: nat): (r: nat)
    ensures base > 0 ==> r > 0
  {
    if n == 0 then 1 else base * Pow(base, n - 1)
  }

  function Little(v: nat, width: nat): (r: seq<Byte>)
    ensures |r| == width
  {
    if width == 0 then [] else [v % 256] + Little(v / 256, width - 1)
  }

  function FromLittle(bytes: seq<Byte>): nat {
    if bytes == [] then 0 else bytes[0] + 256 * FromLittle(bytes[1..])
  }

  function Reversed<T>(s: seq<T>): (r: seq<T>)
    ensures |r| == |s| && forall i | 0 <= i < |s| :: r[i] == s[|s| - 1 - i]
  {
    seq(|s|, i requires 0 <= i < |s| => s[|s| - 1 - i])
  }

  /** The bytes of an unsigned integer of this width. */
  function Put(order: ByteOrder, v: nat, width: nat): (r: seq<Byte>)
    ensures |r| == width
  {
    if order.LittleEndian? then Little(v, width) else Reversed(Little(v, width))
  }

  function Get(order: ByteOrder, bytes: seq<Byte>): nat {
    FromLittle(if order.LittleEndian? then bytes else Reversed(bytes))
  }

  lemma {:induction false} LittleRoundTrip(v: nat, width: nat)
    requires v < Pow(256, width)
    ensures FromLittle(Little(v, width)) == v
  {
    if width > 0 {
      LittleRoundTrip(v / 256, width - 1);
      assert Little(v, width)[1..] == Little(v / 256, width - 1);
    }
  }

  lemma GetPut(order: ByteOrder, v: nat, width: nat)
    requires v < Pow(256, width)
    ensures Get(order, Put(order, v, width)) == v
  {
    LittleRoundTrip(v, width);
    assert Reversed(Reversed(Little(v, width))) == Little(v, width);
  }

  lemma {:induction false} FromLittleRange(bytes: seq<Byte>)
    ensures FromLittle(bytes) < Pow(256, |bytes|)
    ensures Little(FromLittle(bytes), |bytes|) == bytes
  {
    if bytes != [] {
      FromLittleRange(bytes[1..]);
      FirstByte(bytes[0], FromLittle(bytes[1..]));
      assert |bytes[1..]| == |bytes| - 1;
      assert Little(FromLittle(bytes), |bytes|) == [bytes[0]] + Little(FromLittle(bytes[1..]), |bytes| - 1);
    }
  }

  lemma FirstByte(b: Byte, rest: nat)
    ensures (b + 256 * rest) % 256 == b && (b + 256 * rest) / 256 == rest
  {
  }

  /** Every byte string of the width is the encoding of the integer it decodes to. */
  lemma PutGet(order: ByteOrder, bytes: seq<Byte>)
    ensures Get(order, bytes) < Pow(256, |bytes|) && Put(order, Get(order, bytes), |bytes|) == bytes
  {
    FromLittleRange(bytes);
    FromLittleRange(Reversed(bytes));
    assert Reversed(Reversed(bytes)) == bytes;
  }

  /** The i-th byte of an integer, counted from the least significant one. */
  function ByteAt(v: nat, i: nat): Byte {
    if i == 0 then v % 256 else ByteAt(v / 256, i - 1)
  }

  lemma {:induction false} LittleAt(v: nat, width: nat, i: nat)
    requires i < width
    ensures Little(v, width)[i] == ByteAt(v, i)
  {
    if i > 0 {
      LittleAt(v / 256, width - 1, i - 1);
    }
  }

  /** Little-endian is least significant byte first, big-endian most significant byte first. */
  lemma PutAt(order: ByteOrder, v: nat, width: nat, i: nat)
    requires i < width
    ensures Put(order, v, width)[if order.LittleEndian? then i else width - 1 - i] == ByteAt(v, i)
  {
    LittleAt(v, width, i);
  }

  lemma PutInNumbers()
    ensures Put(LittleEndian, 0x1234, 2) == [0x34, 0x12] && Put(BigEndian, 0x1234, 2) == [0x12, 0x34]
    ensures Get(LittleEndian, [0x34, 0x12]) == 0x1234 && Get(BigEndian, [0x12, 0x34]) == 0x1234
  {
    assert Little(0x1234, 2) == [0x34] + Little(0x12, 1) == [0x34] + ([0x12] + Little(0, 0));
    assert Reversed([0x34, 0x12]) == [0x12, 0x34];
    assert Pow(256, 2) == 256 * Pow(256, 1) == 256 * (256 * Pow(256, 0));
    GetPut(LittleEndian, 0x1234, 2);
    GetPut(BigEndian, 0x1234, 2);
  }
}
