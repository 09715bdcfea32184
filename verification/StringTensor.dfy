/** TF_STRING tensors: a table of 8-byte offsets, then for each string its length as a varint and its bytes. */
module StringTensor {
  import opened Wrappers
  import opened Bytes
  import opened Varint

  type Bytestring = seq<Byte>

  // ---------- specification ----------

  function Record(s: Bytestring): Bytestring {
    Varint64(|s|) + s
  }

  function Records(strings: seq<Bytestring>): Bytestring {
    if strings == [] then [] else Records(strings[..|strings| - 1]) + Record(strings[|strings| - 1])
  }

  function OffsetTable(order: ByteOrder, strings: seq<Bytestring>): (r: Bytestring)
    ensures |r| == 8 * |strings|
  {
    if strings == [] then []
    else OffsetTable(order, strings[..|strings| - 1]) + Put(order, |Records(strings[..|strings| - 1])|, 8)
  }

  function Encoding(order: ByteOrder, strings: seq<Bytestring>): Bytestring {
    OffsetTable(order, strings) + Records(strings)
  }

  function OffsetAt(order: ByteOrder, input: Bytestring, i: nat): nat
    requires 8 * (i + 1) <= |input|
  {
    Get(order, input[8 * i..8 * (i + 1)])
  }

  /** The data starts with a header that a varint decoder accepts, for exactly the length of s, and then s. */
  ghost predicate StartsWithRecord(data: Bytestring, s: Bytestring) {
    exists h :: IsRecordHeader(h, data, s)
  }

  ghost predicate IsRecordHeader(h: Bytestring, data: Bytestring, s: Bytestring) {
    IsHeader(h) && HeaderValue(h) == |s| && h + s <= data
  }

  /** The i-th string of a buffer that is read as n strings: its record lies wholly in the data region. */
  ghost predicate Element(order: ByteOrder, input: Bytestring, n: nat, i: nat, s: Bytestring)
    requires i < n && 8 * n <= |input|
  {
    var offset := OffsetAt(order, input, i);
    offset < |input| - 8 * n && StartsWithRecord(input[8 * n + offset..], s)
  }

  /** The buffer holds these strings. */
  ghost predicate Decodes(order: ByteOrder, input: Bytestring, strings: seq<Bytestring>) {
    && 8 * |strings| <= |input|
    && forall i | 0 <= i < |strings| :: Element(order, input, |strings|, i, strings[i])
  }

  /** The decoder's casts to ptrdiff_t change no value: no offset of the table, and no length found at one, has
      its top bit set. */
  ghost predicate InSignedRange(order: ByteOrder, input: Bytestring, n: nat) {
    8 * n <= |input| ==> forall i | 0 <= i < n ::
      && OffsetAt(order, input, i) < TWO_TO_THE_63
      && LengthsInSignedRange(input, 8 * n + OffsetAt(order, input, i))
  }

  ghost predicate LengthsInSignedRange(input: Bytestring, start: nat) {
    forall end | start <= end <= |input| && IsHeader(input[start..end]) :: HeaderValue(input[start..end]) < TWO_TO_THE_63
  }

  /** The i-th record lies wholly in the data region. */
  ghost predicate HasElement(order: ByteOrder, input: Bytestring, n: nat, i: nat)
    requires i < n && 8 * n <= |input|
  {
    exists s :: Element(order, input, n, i, s)
  }

  // ---------- the program ----------

  method CopyTo(dst: array<Byte>, at: nat, s: Bytestring)
    requires at + |s| <= dst.Length
    modifies dst
    ensures dst[..] == old(dst[..at]) + s + old(dst[at + |s|..])
  {
    forall i | 0 <= i < |s| {
      dst[at + i] := s[i];
    }
  }

  /** Bytes needed for encoding. */
  method EncodedSize(strings: seq<Bytestring>) returns (size: nat)
    ensures size == 8 * |strings| + |Records(strings)|
  {
    size := 0;
    for i := 0 to |strings|
      invariant size == 8 * i + |Records(strings[..i])|
    {
      var len := VarintLength(|strings[i]|);
      RecordsStep(strings, i);
      size := size + 8 + len + |strings[i]|;
    }
    assert strings[..|strings|] == strings;
  }

  /** The first i strings are encoded, and the next record goes to `dst`. */
  ghost predicate PartlyEncoded(order: ByteOrder, strings: seq<Bytestring>, i: nat, buffer: Bytestring, dst: nat)
    requires i <= |strings|
  {
    && |buffer| == |Encoding(order, strings)|
    && dst == 8 * |strings| + |Records(strings[..i])| <= |buffer|
    && buffer[..8 * i] == OffsetTable(order, strings[..i])
    && buffer[8 * |strings|..dst] == Records(strings[..i])
  }

  method EncodeStrings(order: ByteOrder, strings: seq<Bytestring>) returns (base: array<Byte>)
    ensures fresh(base) && base[..] == Encoding(order, strings)
  {
    var size := EncodedSize(strings);
    base := new Byte[size](_ => 0);
    var dst: nat := 8 * |strings|;
    for i := 0 to |strings|
      invariant PartlyEncoded(order, strings, i, base[..], dst)
    {
      dst := EncodeNext(order, strings, i, base, dst);
    }
    FullyEncoded(order, strings, base[..], dst);
    assert dst == size;  // CHECK_EQ(dst, base + size)
  }

  lemma FullyEncoded(order: ByteOrder, strings: seq<Bytestring>, buffer: Bytestring, dst: nat)
    requires PartlyEncoded(order, strings, |strings|, buffer, dst)
    ensures buffer == Encoding(order, strings) && dst == |buffer|
  {
    assert strings[..|strings|] == strings;
    assert buffer == buffer[..8 * |strings|] + buffer[8 * |strings|..dst];
  }

  method EncodeNext(order: ByteOrder, strings: seq<Bytestring>, i: nat, base: array<Byte>, dst: nat) returns (next: nat)
    requires i < |strings| && PartlyEncoded(order, strings, i, base[..], dst)
    modifies base
    ensures PartlyEncoded(order, strings, i + 1, base[..], next)
  {
    RecordsStep(strings, i);
    OffsetTableStep(order, strings, i);
    RecordsGrow(strings, i + 1);
    next := EncodeOne(order, base, i, 8 * |strings|, dst, strings[i]);
  }

  lemma RecordsStep(strings: seq<Bytestring>, i: nat)
    requires i < |strings|
    ensures Records(strings[..i + 1]) == Records(strings[..i]) + Record(strings[i])
  {
    assert strings[..i + 1][..i] == strings[..i];
  }

  lemma OffsetTableStep(order: ByteOrder, strings: seq<Bytestring>, i: nat)
    requires i < |strings|
    ensures OffsetTable(order, strings[..i + 1]) == OffsetTable(order, strings[..i]) + Put(order, |Records(strings[..i])|, 8)
  {
    assert strings[..i + 1][..i] == strings[..i];
  }

  /** The body of the encoding loop: writes the i-th offset, and its record where `dst` points. */
  method EncodeOne(order: ByteOrder, base: array<Byte>, i: nat, dataStart: nat, dst: nat, s: Bytestring) returns (next: nat)
    requires 8 * (i + 1) <= dataStart <= dst && dst + |Record(s)| <= base.Length
    modifies base
    ensures next == dst + |Record(s)|
    ensures base[..8 * (i + 1)] == old(base[..8 * i]) + Put(order, dst - dataStart, 8)
    ensures base[dataStart..next] == old(base[dataStart..dst]) + Record(s)
  {
    ghost var before := base[..];
    CopyTo(base, 8 * i, Put(order, dst - dataStart, 8));
    ghost var tabled := base[..];
    assert tabled[..8 * (i + 1)] == before[..8 * i] + Put(order, dst - dataStart, 8);
    assert tabled[dataStart..dst] == before[dataStart..dst];
    next := WriteRecord(base, dst, s);
    assert base[..next] == tabled[..dst] + Record(s);
    assert base[..8 * (i + 1)] == base[..next][..8 * (i + 1)] == tabled[..8 * (i + 1)];
    assert base[dataStart..next] == base[..next][dataStart..] == tabled[dataStart..dst] + Record(s);
  }

  method WriteRecord(base: array<Byte>, dst: nat, s: Bytestring) returns (next: nat)
    requires dst + |Record(s)| <= base.Length
    modifies base
    ensures next == dst + |Record(s)|
    ensures base[..next] == old(base[..dst]) + Record(s)
  {
    next := EncodeVarint64(base, dst, |s|);
    CopyTo(base, next, s);
    next := next + |s|;
  }

  lemma {:induction false} RecordsGrow(strings: seq<Bytestring>, i: nat)
    requires i <= |strings|
    ensures |Records(strings[..i])| <= |Records(strings)|
    decreases |strings|
  {
    if i < |strings| {
      RecordsGrow(strings[..|strings| - 1], i);
      assert strings[..|strings| - 1][..i] == strings[..i];
    } else {
      assert strings[..i] == strings;
    }
  }

  method DecodeStrings(order: ByteOrder, input: Bytestring, n: nat) returns (ok: bool, dst: seq<Bytestring>)
    requires InSignedRange(order, input, n)
    ensures ok <==> 8 * n <= |input| && forall i | 0 <= i < n :: HasElement(order, input, n, i)
    ensures ok ==> |dst| == n && Decodes(order, input, dst)
  {
    dst := [];
    if |input| / 8 < n { return false, dst; }
    for i := 0 to n
      invariant |dst| == i
      invariant forall k | 0 <= k < i :: HasElement(order, input, n, k) && Element(order, input, n, k, dst[k])
    {
      var s := DecodeOne(order, input, n, i);
      if s.None? {
        return false, dst;
      }
      dst := dst + [s.value];
    }
    ok := true;
  }

  /** static_cast<ptrdiff_t> of a uint64. */
  function ToPtrdiff(v: nat): int {
    if v < TWO_TO_THE_63 then v else v - TWO_TO_THE_64
  }

  lemma ToPtrdiffIsTwosComplement(v: nat)
    requires v < TWO_TO_THE_64
    ensures -0x8000_0000_0000_0000 <= ToPtrdiff(v) < TWO_TO_THE_63 && (v - ToPtrdiff(v)) % TWO_TO_THE_64 == 0
  {
  }

  /** The body of the decoding loop. */
  method DecodeOne(order: ByteOrder, input: Bytestring, n: nat, i: nat) returns (s: Option<Bytestring>)
    requires i < n && 8 * n <= |input|
    requires OffsetAt(order, input, i) < TWO_TO_THE_63 && LengthsInSignedRange(input, 8 * n + OffsetAt(order, input, i))
    ensures s.Some? <==> HasElement(order, input, n, i)
    ensures s.Some? ==> Element(order, input, n, i, s.value)
  {
    var dataStart, limit := 8 * n, |input|;
    var offset := OffsetAt(order, input, i);
    if ToPtrdiff(offset) >= limit - dataStart {
      return None;
    }
    var p, len := GetVarint64Ptr(input, dataStart + offset, limit);
    if p.None? {
      NoHeaderNoRecord(input, dataStart + offset);
      return None;
    }
    HeaderDecidesElement(order, input, n, i, p.value);
    if ToPtrdiff(len) > limit - p.value {
      return None;
    }
    s := Some(input[p.value..p.value + len]);
  }

  lemma HeaderDecidesElement(order: ByteOrder, input: Bytestring, n: nat, i: nat, end: nat)
    requires i < n && 8 * n <= |input|
    requires var start := 8 * n + OffsetAt(order, input, i); start < |input| && start <= end <= |input| && IsHeader(input[start..end])
    ensures var len := HeaderValue(input[8 * n + OffsetAt(order, input, i)..end]);
            && (HasElement(order, input, n, i) <==> end + len <= |input|)
            && (end + len <= |input| ==> Element(order, input, n, i, input[end..end + len]))
  {
    HeaderDecidesRecord(input, 8 * n + OffsetAt(order, input, i), end);
    var len := HeaderValue(input[8 * n + OffsetAt(order, input, i)..end]);
    if end + len <= |input| { assert Element(order, input, n, i, input[end..end + len]); }
  }

  lemma NoHeaderNoRecord(input: Bytestring, start: nat)
    requires start <= |input|
    requires forall end | start <= end <= |input| :: !IsHeader(input[start..end])
    ensures forall s :: !StartsWithRecord(input[start..], s)
  {
    forall h: Bytestring | h <= input[start..] ensures !IsHeader(h) {
      assert h == input[start..start + |h|];
    }
  }

  /** Where there is a header there is at most one record: the bytes of the length it gives, if they are there. */
  lemma HeaderDecidesRecord(input: Bytestring, start: nat, end: nat)
    requires start <= end <= |input| && IsHeader(input[start..end])
    ensures var len := HeaderValue(input[start..end]);
            forall s :: StartsWithRecord(input[start..], s) <==> end + len <= |input| && s == input[end..end + len]
  {
    var len := HeaderValue(input[start..end]);
    forall s ensures StartsWithRecord(input[start..], s) <==> end + len <= |input| && s == input[end..end + len] {
      if StartsWithRecord(input[start..], s) {
        var h :| IsRecordHeader(h, input[start..], s);
        RecordFollowsHeader(input, start, end, h, s);
      }
      if end + len <= |input| && s == input[end..end + len] {
        assert input[start..end] + s <= input[start..];
        assert IsRecordHeader(input[start..end], input[start..], s);
      }
    }
  }

  lemma RecordFollowsHeader(input: Bytestring, start: nat, end: nat, h: Bytestring, s: Bytestring)
    requires start <= end <= |input| && IsHeader(input[start..end]) && IsRecordHeader(h, input[start..], s)
    ensures h == input[start..end] && end + |s| <= |input| && s == input[end..end + |s|]
  {
    var data := input[start..];
    assert h == data[..|h|] && input[start..end] == data[..end - start];
    HeaderIsPrefixFree(data, |h|, end - start);
    assert s == data[|h|..|h| + |s|];
  }

  // ---------- the round trip ----------

  lemma SliceOfFirst<T>(a: seq<T>, b: seq<T>, lo: nat, hi: nat)
    requires lo <= hi <= |a|
    ensures (a + b)[lo..hi] == a[lo..hi] && (a + b)[lo..] == a[lo..] + b
  {
  }

  lemma SliceOfSecond<T>(a: seq<T>, b: seq<T>, lo: nat)
    requires lo <= |b|
    ensures (a + b)[|a| + lo..] == b[lo..]
  {
  }

  lemma EntryOf(table: Bytestring, last: Bytestring, n: nat, i: nat)
    requires |table| == 8 * n && |last| == 8 && i <= n
    ensures (table + last)[8 * i..8 * (i + 1)] == if i < n then table[8 * i..8 * (i + 1)] else last
  {
  }

  lemma {:induction false} OffsetTableAt(order: ByteOrder, strings: seq<Bytestring>, n: nat, i: nat)
    requires i < n <= |strings|
    ensures OffsetTable(order, strings[..n])[8 * i..8 * (i + 1)] == Put(order, |Records(strings[..i])|, 8)
    decreases n
  {
    OffsetTableStep(order, strings, n - 1);
    EntryOf(OffsetTable(order, strings[..n - 1]), Put(order, |Records(strings[..n - 1])|, 8), n - 1, i);
    if i < n - 1 { OffsetTableAt(order, strings, n - 1, i); }
  }

  lemma {:induction false} RecordsAt(strings: seq<Bytestring>, n: nat, i: nat)
    requires i < n <= |strings|
    ensures |Records(strings[..i])| < |Records(strings[..n])|
    ensures Record(strings[i]) <= Records(strings[..n])[|Records(strings[..i])|..]
    decreases n
  {
    RecordsStep(strings, n - 1);
    if i < n - 1 {
      RecordsAt(strings, n - 1, i);
      SliceOfFirst(Records(strings[..n - 1]), Record(strings[n - 1]), |Records(strings[..i])|, |Records(strings[..n - 1])|);
    }
  }

  /** The i-th offset leads to the i-th record, inside the data region. */
  lemma EncodedElement(order: ByteOrder, strings: seq<Bytestring>, i: nat)
    requires i < |strings| && |Encoding(order, strings)| < TWO_TO_THE_64
    ensures var offset := OffsetAt(order, Encoding(order, strings), i);
            offset < |Records(strings)| && Record(strings[i]) <= Encoding(order, strings)[8 * |strings| + offset..]
  {
    assert strings[..|strings|] == strings;
    var at := |Records(strings[..i])|;
    OffsetTableAt(order, strings, |strings|, i);
    SliceOfFirst(OffsetTable(order, strings), Records(strings), 8 * i, 8 * (i + 1));
    RecordsAt(strings, |strings|, i);
    EightBytes();
    GetPut(order, at, 8);
    SliceOfSecond(OffsetTable(order, strings), Records(strings), at);
  }

  /** The encoding of any strings holds those strings. */
  lemma EncodingDecodes(order: ByteOrder, strings: seq<Bytestring>)
    requires |Encoding(order, strings)| < TWO_TO_THE_64
    ensures Decodes(order, Encoding(order, strings), strings)
  {
    var input, n := Encoding(order, strings), |strings|;
    forall i | 0 <= i < n ensures Element(order, input, n, i, strings[i]) {
      EncodedElement(order, strings, i);
      VarintDecodes(|strings[i]|);
      assert IsRecordHeader(Varint64(|strings[i]|), input[8 * n + OffsetAt(order, input, i)..], strings[i]);
    }
  }

  /** An encoding that fits in memory meets what the decoder asks of its input. */
  lemma EncodingInSignedRange(order: ByteOrder, strings: seq<Bytestring>)
    requires |Encoding(order, strings)| < TWO_TO_THE_63
    ensures InSignedRange(order, Encoding(order, strings), |strings|)
  {
    forall i | 0 <= i < |strings|
      ensures OffsetAt(order, Encoding(order, strings), i) < TWO_TO_THE_63
      ensures LengthsInSignedRange(Encoding(order, strings), 8 * |strings| + OffsetAt(order, Encoding(order, strings), i))
    {
      EncodedElementInSignedRange(order, strings, i);
    }
  }

  lemma EncodedElementInSignedRange(order: ByteOrder, strings: seq<Bytestring>, i: nat)
    requires i < |strings| && |Encoding(order, strings)| < TWO_TO_THE_63
    ensures OffsetAt(order, Encoding(order, strings), i) < TWO_TO_THE_63
    ensures LengthsInSignedRange(Encoding(order, strings), 8 * |strings| + OffsetAt(order, Encoding(order, strings), i))
  {
    var input := Encoding(order, strings);
    EncodedElement(order, strings, i);
    var offset := OffsetAt(order, input, i);
    assert 8 * |strings| + offset <= |input| == 8 * |strings| + |Records(strings)|;
    RecordIsOnlyHeader(input, 8 * |strings| + offset, strings[i]);
  }

  lemma RecordIsOnlyHeader(input: Bytestring, start: nat, s: Bytestring)
    requires start <= |input| < TWO_TO_THE_63 && Record(s) <= input[start..]
    ensures LengthsInSignedRange(input, start)
  {
    var header := Varint64(|s|);
    assert |Record(s)| == |header| + |s|;
    VarintDecodes(|s|);
    assert header <= Record(s);
    OneHeaderOneLength(input, start, header);
  }

  lemma OneHeaderOneLength(input: Bytestring, start: nat, header: Bytestring)
    requires start <= |input| && header <= input[start..] && IsHeader(header) && HeaderValue(header) < TWO_TO_THE_63
    ensures LengthsInSignedRange(input, start)
  {
    var data := input[start..];
    forall end | start <= end <= |input| && IsHeader(input[start..end]) ensures input[start..end] == header {
      assert header == data[..|header|] && input[start..end] == data[..end - start];
      HeaderIsPrefixFree(data, |header|, end - start);
    }
  }

  /** A buffer read as n strings holds at most one list of them. */
  lemma DecodingIsUnique(order: ByteOrder, input: Bytestring, a: seq<Bytestring>, b: seq<Bytestring>)
    requires |a| == |b| && Decodes(order, input, a) && Decodes(order, input, b)
    ensures a == b
  {
    forall i | 0 <= i < |a| ensures a[i] == b[i] {
      ElementIsUnique(order, input, |a|, i, a[i], b[i]);
    }
  }

  lemma ElementIsUnique(order: ByteOrder, input: Bytestring, n: nat, i: nat, s: Bytestring, t: Bytestring)
    requires i < n && 8 * n <= |input| && Element(order, input, n, i, s) && Element(order, input, n, i, t)
    ensures s == t
  {
    OneRecord(input, 8 * n + OffsetAt(order, input, i), s, t);
  }

  lemma OneRecord(input: Bytestring, start: nat, s: Bytestring, t: Bytestring)
    requires start <= |input| && StartsWithRecord(input[start..], s) && StartsWithRecord(input[start..], t)
    ensures s == t
  {
    var h :| IsRecordHeader(h, input[start..], s);
    assert h == input[start..start + |h|];
    HeaderDecidesRecord(input, start, start + |h|);
  }

  lemma EncodingHasElements(order: ByteOrder, strings: seq<Bytestring>)
    requires |Encoding(order, strings)| < TWO_TO_THE_64
    ensures forall i | 0 <= i < |strings| :: HasElement(order, Encoding(order, strings), |strings|, i)
  {
    EncodingDecodes(order, strings);
    forall i | 0 <= i < |strings| ensures HasElement(order, Encoding(order, strings), |strings|, i) {
      assert Element(order, Encoding(order, strings), |strings|, i, strings[i]);
    }
  }

  /** Decoding what was encoded succeeds, and gives back the strings. */
  method RoundTrip(order: ByteOrder, strings: seq<Bytestring>) returns (ok: bool, out: seq<Bytestring>)
    requires |Encoding(order, strings)| < TWO_TO_THE_63
    ensures ok && out == strings
  {
    var buffer := EncodeStrings(order, strings);
    EncodingDecodes(order, strings);
    EncodingHasElements(order, strings);
    EncodingInSignedRange(order, strings);
    ok, out := DecodeStrings(order, buffer[..], |strings|);
    DecodingIsUnique(order, Encoding(order, strings), out, strings);
  }

  lemma RecordsOfTwo(strings: seq<Bytestring>)
    requires |strings| == 2
    ensures Records(strings[..1]) == Record(strings[0]) && Records(strings) == Record(strings[0]) + Record(strings[1])
  {
    assert strings[..2] == strings && strings[..0] == [];
    RecordsStep(strings, 0);
    RecordsStep(strings, 1);
  }

  lemma TableOfTwo(order: ByteOrder, strings: seq<Bytestring>)
    requires |strings| == 2
    ensures OffsetTable(order, strings) == Put(order, |Records(strings[..0])|, 8) + Put(order, |Records(strings[..1])|, 8)
  {
    assert strings[..2] == strings && strings[..0] == [];
    OffsetTableStep(order, strings, 0);
    OffsetTableStep(order, strings, 1);
  }

  lemma EncodingOfTwo(order: ByteOrder, strings: seq<Bytestring>)
    requires |strings| == 2
    ensures Encoding(order, strings) ==
            Put(order, 0, 8) + Put(order, |Record(strings[0])|, 8) + (Record(strings[0]) + Record(strings[1]))
  {
    RecordsOfTwo(strings);
    TableOfTwo(order, strings);
    assert Records(strings[..0]) == [];
  }

  lemma ShortRecord(s: Bytestring)
    requires |s| < 128
    ensures Record(s) == [|s|] + s
  {
  }

  lemma SmallOffsets()
    ensures Put(LittleEndian, 0, 8) == [0, 0, 0, 0, 0, 0, 0, 0] && Put(LittleEndian, 2, 8) == [2, 0, 0, 0, 0, 0, 0, 0]
  {
    Zeros(8);
    Zeros(7);
    assert Little(2, 8) == [2] + Little(0, 7);
  }

  /** "A" and the empty string: two offsets into the data region, and there a length and a byte, and a length. */
  lemma EncodingInNumbers(strings: seq<Bytestring>)
    requires strings == [[65], []]
    ensures Encoding(LittleEndian, strings) == [0, 0, 0, 0, 0, 0, 0, 0, 2, 0, 0, 0, 0, 0, 0, 0, 1, 65, 0]
  {
    EncodingOfTwo(LittleEndian, strings);
    ShortRecord(strings[0]);
    ShortRecord(strings[1]);
    SmallOffsets();
  }

  lemma {:induction false} Zeros(n: nat)
    ensures Little(0, n) == seq(n, _ => 0)
  {
    if n > 0 {
      Zeros(n - 1);
    }
  }
}
