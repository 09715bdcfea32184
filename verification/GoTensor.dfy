/** The Go tensor codec: a nested slice or array is written to a byte buffer, element after element, and read
    back at the recorded shape. */
module GoTensor {
  import opened Arithmetic
  import opened Bytes
  import opened Wrappers

  // ---------- Go values and their types ----------

  /** The kinds in the table of data types, and one for all that are not. */
  datatype Kind =
    | Int8 | Int16 | Int32 | Int64 | Uint8 | Uint16 | Float32 | Float64 | Complex64 | Complex128
    | Bool | String
    | Unsupported

  datatype GoType = Basic(kind: Kind) | SliceOf(elem: GoType) | ArrayOf(len: nat, elem: GoType)

  /** A scalar is kept as its bit pattern: one unsigned integer, or two for a complex number. */
  datatype Value = Scalar(kind: Kind, parts: seq<nat>) | Elements(typ: GoType, elems: seq<Value>)

  /** The kinds that encodeTensor and decodeTensor know. */
  predicate Encodable(kind: Kind) {
    !kind.Bool? && !kind.String? && !kind.Unsupported?
  }

  function PartWidth(kind: Kind): nat {
    match kind
    case Int8 | Uint8 => 1
    case Int16 | Uint16 => 2
    case Int32 | Float32 | Complex64 => 4
    case Int64 | Float64 | Complex128 => 8
    case Bool | String | Unsupported => 0
  }

  function PartCount(kind: Kind): nat {
    if kind.Complex64? || kind.Complex128? then 2 else 1
  }

  function Width(kind: Kind): nat {
    PartCount(kind) * PartWidth(kind)
  }

  function Depth(t: GoType): nat {
    if t.Basic? then 0 else 1 + Depth(t.elem)
  }

  function ElementKind(t: GoType): Kind {
    if t.Basic? then t.kind else ElementKind(t.elem)
  }

  ghost predicate HasType(v: Value, t: GoType) {
    match v
    case Scalar(kind, parts) =>
      t == Basic(kind) && (Encodable(kind) ==> |parts| == PartCount(kind) && forall p | p in parts :: p < Pow(256, PartWidth(kind)))
    case Elements(typ, elems) =>
      t == typ && !t.Basic? && (t.ArrayOf? ==> |elems| == t.len) && forall e | e in elems :: HasType(e, t.elem)
  }

  /** The value is rectangular with these dimensions. */
  ghost predicate HasShape(v: Value, dims: seq<int>) {
    match v
    case Scalar(_, _) => dims == []
    case Elements(_, elems) => dims != [] && dims[0] == |elems| && forall e | e in elems :: HasShape(e, dims[1..])
  }

  ghost predicate Rectangular(v: Value) {
    exists dims :: HasShape(v, dims)
  }

  predicate NonNegative(shape: seq<int>) {
    forall i | 0 <= i < |shape| :: shape[i] >= 0
  }

  /** The bytes that a tensor of this shape takes. */
  function Size(dims: seq<int>, kind: Kind): int {
    if dims == [] then Width(kind) else dims[0] * Size(dims[1..], kind)
  }

  // ---------- what encoding writes ----------

  function PartsBytes(order: ByteOrder, parts: seq<nat>, width: nat): seq<Byte> {
    if parts == [] then [] else Put(order, parts[0], width) + PartsBytes(order, parts[1..], width)
  }

  function Flatten(order: ByteOrder, v: Value): seq<Byte>
    decreases v, 1
  {
    match v
    case Scalar(kind, parts) => PartsBytes(order, parts, PartWidth(kind))
    case Elements(_, elems) => FlattenAll(order, elems)
  }

  function FlattenAll(order: ByteOrder, vs: seq<Value>): seq<Byte>
    decreases vs, 0
  {
    if vs == [] then [] else FlattenAll(order, vs[..|vs| - 1]) + Flatten(order, vs[|vs| - 1])
  }

  /** The shape slice after encoding a value: each element overwrites what the ones before it recorded. */
  function Record(shape: seq<int>, v: Value): (r: seq<int>)
    ensures |r| == |shape| && (NonNegative(shape) ==> NonNegative(r))
    decreases v, 1
  {
    if shape == [] || v.Scalar? then shape else [|v.elems|] + RecordAll(shape[1..], v.elems)
  }

  function RecordAll(shape: seq<int>, vs: seq<Value>): (r: seq<int>)
    ensures |r| == |shape| && (NonNegative(shape) ==> NonNegative(r))
    decreases vs, 0
  {
    if vs == [] then shape else Record(RecordAll(shape, vs[..|vs| - 1]), vs[|vs| - 1])
  }

  /** What encodeTensor accepts: known kinds, and for each slice or array of slices, elements of one length. Slices
      under different parents are not compared. */
  ghost predicate Accepts(v: Value) {
    match v
    case Scalar(kind, _) => Encodable(kind)
    case Elements(typ, elems) => SiblingsAgree(v) && forall e | e in elems :: Accepts(e)
  }

  function Len(v: Value): nat {
    if v.Elements? then |v.elems| else 0
  }

  predicate SiblingsAgree(v: Value)
    requires v.Elements?
  {
    v.elems != [] && !v.typ.Basic? && v.typ.elem.SliceOf? ==> forall e | e in v.elems :: Len(e) == Len(v.elems[0])
  }

  // ---------- the program ----------

  /** bytes.Buffer: writes go to the end, reads consume from the front. */
  class Buffer {
    var contents: seq<Byte>

    constructor ()
      ensures contents == []
    {
      contents := [];
    }

    method Write(bytes: seq<Byte>)
      modifies this
      ensures contents == old(contents) + bytes
    {
      contents := contents + bytes;
    }

    /** Reads n bytes, or fails if there are fewer. */
    method ReadFull(n: nat) returns (bytes: Option<seq<Byte>>)
      modifies this
      ensures n <= |old(contents)| ==> bytes == Some(old(contents)[..n]) && contents == old(contents)[n..]
      ensures n > |old(contents)| ==> bytes == None && contents == []
    {
      if n <= |contents| {
        bytes, contents := Some(contents[..n]), contents[n..];
      } else {
        bytes, contents := None, [];
      }
    }
  }

  method CheckSiblings(v: Value) returns (ok: bool)
    requires v.Elements? && !v.typ.Basic?
    ensures ok <==> SiblingsAgree(v)
  {
    if |v.elems| > 0 && v.typ.elem.SliceOf? {
      var expected := Len(v.elems[0]);
      for i := 1 to |v.elems|
        invariant forall k | 0 <= k < i :: Len(v.elems[k]) == expected
      {
        if Len(v.elems[i]) != expected { return false; }
      }
    }
    ok := true;
  }

  method EncodeTensor(order: ByteOrder, buf: Buffer, shape: array<int>, at: nat, v: Value, ghost t: GoType) returns (ok: bool)
    requires HasType(v, t) && at + Depth(t) == shape.Length
    modifies buf, shape
    ensures ok <==> Accepts(v)
    ensures shape[..at] == old(shape[..at])
    ensures ok ==> buf.contents == old(buf.contents) + Flatten(order, v) && shape[at..] == Record(old(shape[at..]), v)
    decreases v, 1
  {
    match v
    case Scalar(kind, parts) =>
      if !Encodable(kind) { return false; }
      buf.Write(PartsBytes(order, parts, PartWidth(kind)));
      ok := true;
    case Elements(typ, elems) =>
      ok := CheckSiblings(v);
      if !ok { return; }
      ghost var before := shape[at..];
      shape[at] := |elems|;
      assert shape[at + 1..] == before[1..];
      ok := EncodeElements(order, buf, shape, at + 1, elems, t.elem);
      if ok { assert shape[at..] == [shape[..at + 1][at]] + shape[at + 1..]; }
      assert shape[..at] == shape[..at + 1][..at];
  }

  method EncodeElements(order: ByteOrder, buf: Buffer, shape: array<int>, at: nat, elems: seq<Value>, ghost t: GoType) returns (ok: bool)
    requires at + Depth(t) == shape.Length && forall e | e in elems :: HasType(e, t)
    modifies buf, shape
    ensures ok <==> forall e | e in elems :: Accepts(e)
    ensures shape[..at] == old(shape[..at])
    ensures ok ==> buf.contents == old(buf.contents) + FlattenAll(order, elems) && shape[at..] == RecordAll(old(shape[at..]), elems)
    decreases elems, 0
  {
    ghost var bytes, before := buf.contents, shape[at..];
    for i := 0 to |elems|
      invariant forall e | e in elems[..i] :: Accepts(e)
      invariant shape[..at] == old(shape[..at])
      invariant Encoded(order, elems[..i], bytes, before, buf.contents, shape[at..])
    {
      EncodedOneMore(order, elems, i, bytes, before, buf.contents, shape[at..]);
      ok := EncodeTensor(order, buf, shape, at, elems[i], t);
      if !ok { return; }
    }
    assert elems[..|elems|] == elems;
    ok := true;
  }

  ghost predicate Encoded(order: ByteOrder, vs: seq<Value>, before: seq<Byte>, shapeBefore: seq<int>, after: seq<Byte>, shapeAfter: seq<int>) {
    after == before + FlattenAll(order, vs) && shapeAfter == RecordAll(shapeBefore, vs)
  }

  lemma EncodedOneMore(order: ByteOrder, vs: seq<Value>, i: nat, before: seq<Byte>, shapeBefore: seq<int>, after: seq<Byte>, shapeAfter: seq<int>)
    requires i < |vs| && Encoded(order, vs[..i], before, shapeBefore, after, shapeAfter)
    ensures vs[i] in vs && vs[..i + 1] == vs[..i] + [vs[i]]
    ensures Encoded(order, vs[..i + 1], before, shapeBefore, after + Flatten(order, vs[i]), Record(shapeAfter, vs[i]))
  {
    TakeOneMore(vs, i);
    FlattenAllStep(order, vs[..i], vs[i]);
    RecordAllStep(shapeBefore, vs[..i], vs[i]);
  }

  lemma TakeOneMore<T>(s: seq<T>, i: nat)
    requires i < |s|
    ensures s[i] in s && s[..i + 1] == s[..i] + [s[i]]
  {
  }

  lemma FlattenAllStep(order: ByteOrder, vs: seq<Value>, v: Value)
    ensures FlattenAll(order, vs + [v]) == FlattenAll(order, vs) + Flatten(order, v)
  {
    assert (vs + [v])[..|vs|] == vs;
  }

  lemma RecordAllStep(shape: seq<int>, vs: seq<Value>, v: Value)
    ensures RecordAll(shape, vs + [v]) == Record(RecordAll(shape, vs), v)
  {
    assert (vs + [v])[..|vs|] == vs;
  }

  function Parts(order: ByteOrder, bytes: seq<Byte>, kind: Kind): seq<nat>
    requires |bytes| == Width(kind)
  {
    var w := PartWidth(kind);
    if PartCount(kind) == 1 then [Get(order, bytes)] else [Get(order, bytes[..w]), Get(order, bytes[w..])]
  }

  lemma PartsOfBytes(order: ByteOrder, bytes: seq<Byte>, kind: Kind)
    requires Encodable(kind) && |bytes| == Width(kind)
    ensures HasType(Scalar(kind, Parts(order, bytes, kind)), Basic(kind))
    ensures PartsBytes(order, Parts(order, bytes, kind), PartWidth(kind)) == bytes
  {
    var w, parts := PartWidth(kind), Parts(order, bytes, kind);
    if PartCount(kind) == 1 {
      PutGet(order, bytes);
    } else {
      PutGet(order, bytes[..w]);
      PutGet(order, bytes[w..]);
      TwoParts(order, parts, w);
    }
  }

  lemma ScalarLength(order: ByteOrder, kind: Kind, parts: seq<nat>)
    requires |parts| == PartCount(kind)
    ensures |PartsBytes(order, parts, PartWidth(kind))| == Width(kind)
  {
    if |parts| == 2 { TwoParts(order, parts, PartWidth(kind)); }
  }

  lemma OnePart(order: ByteOrder, parts: seq<nat>, width: nat)
    requires |parts| == 1
    ensures PartsBytes(order, parts, width) == Put(order, parts[0], width)
  {
    assert PartsBytes(order, parts[1..], width) == [];
  }

  lemma TwoParts(order: ByteOrder, parts: seq<nat>, width: nat)
    requires |parts| == 2
    ensures PartsBytes(order, parts, width) == Put(order, parts[0], width) + Put(order, parts[1], width)
  {
    assert parts[1..][1..] == [];
    assert PartsBytes(order, parts[1..], width) == Put(order, parts[1], width) + PartsBytes(order, parts[1..][1..], width);
  }

  predicate SlicesOnly(t: GoType) {
    t.Basic? || (t.SliceOf? && SlicesOnly(t.elem))
  }

  lemma {:induction false} SizeIsProduct(shape: seq<int>, kind: Kind)
    requires NonNegative(shape)
    ensures Product(shape) >= 0 && Size(shape, kind) == Product(shape) * Width(kind) >= 0
  {
    if shape != [] {
      SizeIsProduct(shape[1..], kind);
      Associative(shape[0], Product(shape[1..]), Width(kind));
    }
  }

  /** There is no scalar to decode, or its kind is known. */
  predicate Decodable(kind: Kind, shape: seq<int>) {
    Encodable(kind) || Product(shape) == 0
  }

  ghost predicate Decoded(order: ByteOrder, bytes: seq<Byte>, shape: seq<int>, t: GoType, v: Value, rest: seq<Byte>) {
    HasType(v, t) && HasShape(v, shape) && bytes == Flatten(order, v) + rest
  }

  ghost predicate DecodedAll(order: ByteOrder, bytes: seq<Byte>, shape: seq<int>, t: GoType, vs: seq<Value>, rest: seq<Byte>) {
    (forall v | v in vs :: HasType(v, t) && HasShape(v, shape)) && bytes == FlattenAll(order, vs) + rest
  }

  lemma DecodedScalar(order: ByteOrder, bytes: seq<Byte>, kind: Kind, rest: seq<Byte>)
    requires Encodable(kind) && |bytes| == Width(kind)
    ensures Decoded(order, bytes + rest, [], Basic(kind), Scalar(kind, Parts(order, bytes, kind)), rest)
  {
    PartsOfBytes(order, bytes, kind);
  }

  lemma DecodedSlice(order: ByteOrder, bytes: seq<Byte>, shape: seq<int>, t: GoType, vs: seq<Value>, rest: seq<Byte>)
    requires t.SliceOf? && shape != [] && |vs| == shape[0] && DecodedAll(order, bytes, shape[1..], t.elem, vs, rest)
    ensures Decoded(order, bytes, shape, t, Elements(t, vs), rest)
  {
  }

  lemma DecodableSlice(kind: Kind, shape: seq<int>)
    requires shape != []
    ensures Decodable(kind, shape) <==> shape[0] == 0 || Decodable(kind, shape[1..])
  {
    assert Product(shape) == shape[0] * Product(shape[1..]);
  }

  method DecodeTensor(order: ByteOrder, buf: Buffer, shape: seq<int>, t: GoType) returns (ok: bool, v: Value)
    requires SlicesOnly(t) && |shape| == Depth(t) && NonNegative(shape)
    modifies buf
    ensures ok <==> Decodable(ElementKind(t), shape) && |old(buf.contents)| >= Size(shape, ElementKind(t))
    ensures ok ==> Decoded(order, old(buf.contents), shape, t, v, buf.contents)
    decreases t, 1, 0
  {
    v := Scalar(Unsupported, []);
    if t.Basic? {
      if !Encodable(t.kind) { return false, v; }
      var bytes := buf.ReadFull(Width(t.kind));
      if bytes.None? { return false, v; }
      v := Scalar(t.kind, Parts(order, bytes.value, t.kind));
      DecodedScalar(order, bytes.value, t.kind, buf.contents);
      ok := true;
    } else {
      var vs;
      ghost var before := buf.contents;
      DecodableSlice(ElementKind(t), shape);
      ok, vs := DecodeElements(order, buf, shape[0], shape[1..], t.elem);
      v := Elements(t, vs);
      if ok { DecodedSlice(order, before, shape, t, vs, buf.contents); }
    }
  }

  method DecodeElements(order: ByteOrder, buf: Buffer, n: nat, shape: seq<int>, t: GoType) returns (ok: bool, vs: seq<Value>)
    requires SlicesOnly(t) && |shape| == Depth(t) && NonNegative(shape)
    modifies buf
    ensures ok <==> (n == 0 || Decodable(ElementKind(t), shape)) && |old(buf.contents)| >= n * Size(shape, ElementKind(t))
    ensures ok ==> |vs| == n && DecodedAll(order, old(buf.contents), shape, t, vs, buf.contents)
    decreases t, 2, 0
  {
    SizeIsProduct(shape, ElementKind(t));
    vs := [];
    for i := 0 to n
      invariant |vs| == i && DecodedAll(order, old(buf.contents), shape, t, vs, buf.contents)
      invariant i > 0 ==> Decodable(ElementKind(t), shape)
    {
      var v;
      FlattenAllLength(order, vs, shape, t);
      UnitsStep(i, n, Size(shape, ElementKind(t)));
      ghost var before := buf.contents;
      ok, v := DecodeTensor(order, buf, shape, t);
      if !ok { return; }
      DecodedOneMore(order, old(buf.contents), shape, t, vs, before, v, buf.contents);
      vs := vs + [v];
    }
    FlattenAllLength(order, vs, shape, t);
    ok := true;
  }

  lemma DecodedOneMore(order: ByteOrder, bytes: seq<Byte>, shape: seq<int>, t: GoType, vs: seq<Value>, before: seq<Byte>, v: Value, rest: seq<Byte>)
    requires DecodedAll(order, bytes, shape, t, vs, before) && Decoded(order, before, shape, t, v, rest)
    ensures DecodedAll(order, bytes, shape, t, vs + [v], rest)
  {
    assert (vs + [v])[..|vs|] == vs;
  }

  lemma UnitsStep(i: nat, n: nat, unit: nat)
    requires i < n
    ensures (i + 1) * unit == i * unit + unit <= n * unit
  {
    assert n * unit == (i + 1) * unit + (n - i - 1) * unit;
  }

  // ---------- lengths ----------

  lemma {:induction false} FlattenLength(order: ByteOrder, v: Value, dims: seq<int>, t: GoType)
    requires HasType(v, t) && HasShape(v, dims) && Decodable(ElementKind(t), dims)
    ensures |Flatten(order, v)| == Size(dims, ElementKind(t))
    decreases v, 1
  {
    if v.Scalar? {
      ScalarLength(order, v.kind, v.parts);
    } else {
      if v.elems != [] { assert Product(dims) == |v.elems| * Product(dims[1..]); }
      FlattenAllLength(order, v.elems, dims[1..], t.elem);
    }
  }

  lemma {:induction false} FlattenAllLength(order: ByteOrder, vs: seq<Value>, dims: seq<int>, t: GoType)
    requires forall v | v in vs :: HasType(v, t) && HasShape(v, dims)
    requires vs == [] || Decodable(ElementKind(t), dims)
    ensures |FlattenAll(order, vs)| == |vs| * Size(dims, ElementKind(t))
    decreases vs, 0
  {
    if vs != [] {
      var last := |vs| - 1;
      FlattenAllLength(order, vs[..last], dims, t);
      FlattenLength(order, vs[last], dims, t);
      TimesNext(last, Size(dims, ElementKind(t)));
    }
  }

  // ---------- the round trip ----------

  function Zeros(n: nat): (r: seq<int>)
    ensures |r| == n && NonNegative(r)
  {
    seq(n, _ => 0)
  }

  /** The shape that NewTensor records. */
  function RecordedShape(v: Value, t: GoType): seq<int> {
    Record(Zeros(Depth(t)), v)
  }

  /** What a rectangular value records, whatever it is: its dimensions, up to the first that is zero. */
  function Merge(shape: seq<int>, dims: seq<int>): (r: seq<int>)
    ensures |r| == |shape|
  {
    if shape == [] || dims == [] then shape
    else [dims[0]] + if dims[0] == 0 then shape[1..] else Merge(shape[1..], dims[1..])
  }

  lemma {:induction false} MergeTwice(shape: seq<int>, dims: seq<int>)
    ensures Merge(Merge(shape, dims), dims) == Merge(shape, dims)
  {
    if shape != [] && dims != [] { MergeTwice(shape[1..], dims[1..]); }
  }

  lemma {:induction false} RecordRectangular(shape: seq<int>, v: Value, dims: seq<int>)
    requires HasShape(v, dims)
    ensures Record(shape, v) == Merge(shape, dims)
    decreases v, 1
  {
    if v.Elements? && shape != [] {
      RecordAllRectangular(shape[1..], v.elems, dims[1..]);
    }
  }

  lemma {:induction false} RecordAllRectangular(shape: seq<int>, vs: seq<Value>, dims: seq<int>)
    requires forall v | v in vs :: HasShape(v, dims)
    ensures RecordAll(shape, vs) == if vs == [] then shape else Merge(shape, dims)
    decreases vs, 0
  {
    if vs != [] {
      var last := |vs| - 1;
      RecordAllRectangular(shape, vs[..last], dims);
      RecordRectangular(RecordAll(shape, vs[..last]), vs[last], dims);
      MergeTwice(shape, dims);
    }
  }

  /** Merging loses nothing that a value of this type could disagree with. */
  lemma {:induction false} MergeKeepsShape(shape: seq<int>, v: Value, dims: seq<int>, t: GoType)
    requires HasType(v, t) && HasShape(v, dims) && |shape| == Depth(t) && NonNegative(shape)
    ensures HasShape(v, Merge(shape, dims)) && NonNegative(Merge(shape, dims))
    decreases v
  {
    if v.Elements? && v.elems != [] {
      forall e | e in v.elems ensures HasShape(e, Merge(shape[1..], dims[1..])) {
        MergeKeepsShape(shape[1..], e, dims[1..], t.elem);
      }
      MergeKeepsShape(shape[1..], v.elems[0], dims[1..], t.elem);
    }
  }

  /** A rectangular value has the shape that is recorded for it, also where it has empty slices. */
  lemma RectangularHasRecordedShape(v: Value, t: GoType)
    requires HasType(v, t) && Rectangular(v)
    ensures HasShape(v, RecordedShape(v, t)) && NonNegative(RecordedShape(v, t))
  {
    var dims :| HasShape(v, dims);
    RecordRectangular(Zeros(Depth(t)), v, dims);
    MergeKeepsShape(Zeros(Depth(t)), v, dims, t);
  }

  lemma {:induction false} RectangularIsAccepted(v: Value, t: GoType, dims: seq<int>)
    requires HasType(v, t) && HasShape(v, dims) && Decodable(ElementKind(t), dims)
    ensures Accepts(v)
    decreases v
  {
    if v.Elements? {
      if v.elems != [] { assert Product(dims) == |v.elems| * Product(dims[1..]); }
      forall e | e in v.elems ensures Accepts(e) && (t.elem.SliceOf? ==> Len(e) == dims[1]) {
        RectangularIsAccepted(e, t.elem, dims[1..]);
      }
    }
  }

  lemma {:induction false} AcceptedIsDecodable(v: Value, t: GoType, dims: seq<int>)
    requires HasType(v, t) && HasShape(v, dims) && Accepts(v)
    ensures Decodable(ElementKind(t), dims)
    decreases v
  {
    if v.Elements? && v.elems != [] {
      AcceptedIsDecodable(v.elems[0], t.elem, dims[1..]);
      assert Product(dims) == dims[0] * Product(dims[1..]);
    }
  }

  /** Two values of one type and shape that are written as the same bytes are the same. */
  lemma {:induction false} FlattenInjective(order: ByteOrder, v: Value, w: Value, dims: seq<int>, t: GoType)
    requires HasType(v, t) && HasType(w, t) && HasShape(v, dims) && HasShape(w, dims) && Decodable(ElementKind(t), dims)
    requires Flatten(order, v) == Flatten(order, w)
    ensures v == w
    decreases v, 1
  {
    match v
    case Scalar(kind, parts) =>
      PartsInjective(order, kind, parts, w.parts);
    case Elements(_, elems) =>
      if elems != [] { assert Product(dims) == dims[0] * Product(dims[1..]); }
      FlattenAllInjective(order, elems, w.elems, dims[1..], t.elem);
  }

  lemma {:induction false} FlattenAllInjective(order: ByteOrder, vs: seq<Value>, ws: seq<Value>, dims: seq<int>, t: GoType)
    requires |vs| == |ws| && forall v | v in vs + ws :: HasType(v, t) && HasShape(v, dims)
    requires vs == [] || Decodable(ElementKind(t), dims)
    requires FlattenAll(order, vs) == FlattenAll(order, ws)
    ensures vs == ws
    decreases vs, 0
  {
    if vs != [] {
      var last := |vs| - 1;
      assert vs[last] in vs + ws && ws[last] in vs + ws;
      FlattenLength(order, vs[last], dims, t);
      FlattenLength(order, ws[last], dims, t);
      SameTail(FlattenAll(order, vs[..last]), Flatten(order, vs[last]), FlattenAll(order, ws[..last]), Flatten(order, ws[last]));
      FlattenInjective(order, vs[last], ws[last], dims, t);
      FlattenAllInjective(order, vs[..last], ws[..last], dims, t);
    }
  }

  lemma SameTail<T>(a: seq<T>, b: seq<T>, c: seq<T>, d: seq<T>)
    requires a + b == c + d && |b| == |d|
    ensures a == c && b == d
  {
    assert (a + b)[..|a|] == a && (c + d)[..|a|] == c;
    assert (a + b)[|a|..] == b && (c + d)[|a|..] == d;
  }

  lemma PutInjective(order: ByteOrder, p: nat, q: nat, width: nat)
    requires p < Pow(256, width) && q < Pow(256, width) && Put(order, p, width) == Put(order, q, width)
    ensures p == q
  {
    GetPut(order, p, width);
    GetPut(order, q, width);
  }

  lemma PartsInjective(order: ByteOrder, kind: Kind, a: seq<nat>, b: seq<nat>)
    requires Encodable(kind) && HasType(Scalar(kind, a), Basic(kind)) && HasType(Scalar(kind, b), Basic(kind))
    requires PartsBytes(order, a, PartWidth(kind)) == PartsBytes(order, b, PartWidth(kind))
    ensures a == b
  {
    var w := PartWidth(kind);
    assert a[0] in a && b[0] in b;
    if |a| == 1 {
      OnePart(order, a, w);
      OnePart(order, b, w);
    } else {
      assert a[1] in a && b[1] in b;
      TwoParts(order, a, w);
      TwoParts(order, b, w);
      SameTail(Put(order, a[0], w), Put(order, a[1], w), Put(order, b[0], w), Put(order, b[1], w));
      PutInjective(order, a[1], b[1], w);
    }
    PutInjective(order, a[0], b[0], w);
  }

  /** The type that decoding produces: n slices around a basic type. */
  function SliceType(kind: Kind, n: nat): (t: GoType)
    ensures SlicesOnly(t) && Depth(t) == n && ElementKind(t) == kind
  {
    if n == 0 then Basic(kind) else SliceOf(SliceType(kind, n - 1))
  }

  /** The type with every array made a slice, and a value likewise. */
  function SlicesOf(t: GoType): GoType {
    SliceType(ElementKind(t), Depth(t))
  }

  function AsSlices(v: Value): Value
    decreases v, 1
  {
    if v.Scalar? then v else Elements(SlicesOf(v.typ), AllAsSlices(v.elems))
  }

  function AllAsSlices(vs: seq<Value>): (r: seq<Value>)
    ensures |r| == |vs|
    decreases vs, 0
  {
    if vs == [] then [] else AllAsSlices(vs[..|vs| - 1]) + [AsSlices(vs[|vs| - 1])]
  }

  lemma {:induction false} AsSlicesType(v: Value, t: GoType)
    requires HasType(v, t)
    ensures HasType(AsSlices(v), SlicesOf(t))
    decreases v, 1
  {
    if v.Elements? { AllAsSlicesType(v.elems, t.elem); }
  }

  lemma {:induction false} AllAsSlicesType(vs: seq<Value>, t: GoType)
    requires forall v | v in vs :: HasType(v, t)
    ensures forall v | v in AllAsSlices(vs) :: HasType(v, SlicesOf(t))
    decreases vs, 0
  {
    if vs != [] {
      AllAsSlicesType(vs[..|vs| - 1], t);
      AsSlicesType(vs[|vs| - 1], t);
    }
  }

  lemma {:induction false} AsSlicesBytes(order: ByteOrder, v: Value)
    ensures Flatten(order, AsSlices(v)) == Flatten(order, v)
    decreases v, 1
  {
    if v.Elements? { AllAsSlicesBytes(order, v.elems); }
  }

  lemma {:induction false} AllAsSlicesBytes(order: ByteOrder, vs: seq<Value>)
    ensures FlattenAll(order, AllAsSlices(vs)) == FlattenAll(order, vs)
    decreases vs, 0
  {
    if vs != [] {
      var last := |vs| - 1;
      AllAsSlicesBytes(order, vs[..last]);
      AsSlicesBytes(order, vs[last]);
      assert AllAsSlices(vs)[..last] == AllAsSlices(vs[..last]);
    }
  }

  lemma {:induction false} AsSlicesShape(v: Value, dims: seq<int>)
    ensures HasShape(AsSlices(v), dims) <==> HasShape(v, dims)
    decreases v, 1
  {
    if v.Elements? && dims != [] {
      AllAsSlicesShape(v.elems, dims[1..]);
      assert AsSlices(v).elems == AllAsSlices(v.elems);
    }
  }

  lemma {:induction false} AllAsSlicesShape(vs: seq<Value>, dims: seq<int>)
    ensures (forall v | v in AllAsSlices(vs) :: HasShape(v, dims)) <==> (forall v | v in vs :: HasShape(v, dims))
    decreases vs, 0
  {
    if vs != [] {
      var last := |vs| - 1;
      AllAsSlicesShape(vs[..last], dims);
      AsSlicesShape(vs[last], dims);
      assert vs == vs[..last] + [vs[last]];
    }
  }

  /** What is decoded from a value's encoding, at its recorded shape, is that value if and only if the value is
      rectangular; and then nothing is left over. */
  lemma DecodedIsEncoded(order: ByteOrder, v: Value, t: GoType, w: Value, rest: seq<Byte>)
    requires HasType(v, t) && Accepts(v)
    requires Decoded(order, Flatten(order, v), RecordedShape(v, t), SlicesOf(t), w, rest)
    ensures w == AsSlices(v) <==> Rectangular(v)
    ensures Rectangular(v) ==> rest == []
  {
    var shape := RecordedShape(v, t);
    AsSlicesType(v, t);
    AsSlicesBytes(order, v);
    AsSlicesShape(v, shape);
    if Rectangular(v) {
      RectangularHasRecordedShape(v, t);
      AcceptedIsDecodable(v, t, shape);
      FlattenLength(order, v, shape, t);
      FlattenLength(order, w, shape, SlicesOf(t));
      assert Flatten(order, v) == Flatten(order, w) + rest;
      FlattenInjective(order, w, AsSlices(v), shape, SlicesOf(t));
    }
  }

  // ---------- Tensor ----------

  method DimsAndKindOf(t: GoType) returns (ok: bool, dims: nat, kind: Kind)
    ensures dims == Depth(t) && kind == ElementKind(t) && (ok <==> !kind.Unsupported?)
  {
    dims := 0;
    var elem := t;
    while !elem.Basic?
      invariant dims + Depth(elem) == Depth(t) && ElementKind(elem) == ElementKind(t)
      decreases elem
    {
      dims, elem := dims + 1, elem.elem;
    }
    kind := elem.kind;
    ok := !kind.Unsupported?;
  }

  method TypeOf(kind: Kind, shape: seq<int>) returns (ok: bool, t: GoType)
    ensures t == SliceType(kind, |shape|) && (ok <==> !kind.Unsupported?)
  {
    t := Basic(kind);
    for i := 0 to |shape|
      invariant t == SliceType(kind, i)
    {
      t := SliceOf(t);
    }
    ok := !kind.Unsupported?;
  }

  class Tensor {
    const buf: Buffer
    const kind: Kind
    const shape: seq<int>

    constructor (buf: Buffer, kind: Kind, shape: seq<int>)
      ensures this.buf == buf && this.kind == kind && this.shape == shape
    {
      this.buf, this.kind, this.shape := buf, kind, shape;
    }

    /** Consumes the buffer; fails where the Go program panics. */
    method Value(order: ByteOrder) returns (ok: bool, v: Value)
      requires NonNegative(shape)
      modifies buf
      ensures ok <==> !kind.Unsupported? && Decodable(kind, shape) && |old(buf.contents)| >= Product(shape) * Width(kind)
      ensures ok ==> Decoded(order, old(buf.contents), shape, SliceType(kind, |shape|), v, buf.contents)
    {
      var t;
      ok, t := TypeOf(kind, shape);
      v := Scalar(Unsupported, []);
      if !ok { return; }
      SizeIsProduct(shape, kind);
      ok, v := DecodeTensor(order, buf, shape, t);
    }
  }

  method NewTensor(order: ByteOrder, v: Value, t: GoType) returns (tensor: Option<Tensor>)
    requires HasType(v, t)
    ensures tensor.Some? <==> !ElementKind(t).Unsupported? && Accepts(v)
    ensures tensor.Some? ==> fresh(tensor.value) && fresh(tensor.value.buf)
    ensures tensor.Some? ==> tensor.value.kind == ElementKind(t) && tensor.value.shape == RecordedShape(v, t)
    ensures tensor.Some? ==> tensor.value.buf.contents == Flatten(order, v)
  {
    var ok, dims, kind := DimsAndKindOf(t);
    if !ok { return None; }
    var buf := new Buffer();
    var shape := new int[dims](_ => 0);
    assert shape[0..] == Zeros(dims);
    ok := EncodeTensor(order, buf, shape, 0, v, t);
    if !ok { return None; }
    assert shape[..] == shape[0..];
    var made := new Tensor(buf, kind, shape[..]);
    tensor := Some(made);
  }

  /** NewTensor and then Value give a value back, with arrays as slices, if and only if it is rectangular. */
  method RoundTrip(order: ByteOrder, v: Value, t: GoType) returns (ok: bool, w: Value)
    requires HasType(v, t) && Accepts(v) && !ElementKind(t).Unsupported?
    ensures ok && w == AsSlices(v) <==> Rectangular(v)
  {
    var tensor := NewTensor(order, v, t);
    ok, w := tensor.value.Value(order);
    if ok {
      DecodedIsEncoded(order, v, t, w, tensor.value.buf.contents);
    } else if Rectangular(v) {
      RectangularFillsShape(order, v, t);
    }
  }

  /** The bytes of a rectangular value: the element size times the product of the recorded shape. */
  lemma RectangularFillsShape(order: ByteOrder, v: Value, t: GoType)
    requires HasType(v, t) && Accepts(v) && Rectangular(v)
    ensures Decodable(ElementKind(t), RecordedShape(v, t))
    ensures |Flatten(order, v)| == Product(RecordedShape(v, t)) * Width(ElementKind(t))
  {
    var shape := RecordedShape(v, t);
    RectangularHasRecordedShape(v, t);
    AcceptedIsDecodable(v, t, shape);
    FlattenLength(order, v, shape, t);
    SizeIsProduct(shape, ElementKind(t));
  }

  // ---------- elements in numbers ----------

  /** How many bytes an element takes. */
  lemma ElementSizes(order: ByteOrder, kind: Kind, parts: seq<nat>)
    requires HasType(Scalar(kind, parts), Basic(kind))
    ensures Encodable(kind) <==>
            || kind == Int8 || kind == Int16 || kind == Int32 || kind == Int64 || kind == Uint8 || kind == Uint16
            || kind == Float32 || kind == Float64 || kind == Complex64 || kind == Complex128
    ensures kind == Int8 || kind == Uint8 ==> |Flatten(order, Scalar(kind, parts))| == 1
    ensures kind == Int16 || kind == Uint16 ==> |Flatten(order, Scalar(kind, parts))| == 2
    ensures kind == Int32 || kind == Float32 ==> |Flatten(order, Scalar(kind, parts))| == 4
    ensures kind == Int64 || kind == Float64 || kind == Complex64 ==> |Flatten(order, Scalar(kind, parts))| == 8
    ensures kind == Complex128 ==> |Flatten(order, Scalar(kind, parts))| == 16
  {
    if Encodable(kind) {
      ScalarLength(order, kind, parts);
    }
  }

  /** Which bit patterns an element can have. */
  lemma ElementRanges(kind: Kind, parts: seq<nat>)
    ensures var typed := HasType(Scalar(kind, parts), Basic(kind));
            && (kind == Int8 || kind == Uint8 ==> (typed <==> |parts| == 1 && parts[0] < 0x100))
            && (kind == Int16 || kind == Uint16 ==> (typed <==> |parts| == 1 && parts[0] < 0x1_0000))
            && (kind == Int32 || kind == Float32 ==> (typed <==> |parts| == 1 && parts[0] < 0x1_0000_0000))
            && (kind == Int64 || kind == Float64 ==> (typed <==> |parts| == 1 && parts[0] < 0x1_0000_0000_0000_0000))
            && (kind == Complex64 ==> (typed <==> |parts| == 2 && parts[0] < 0x1_0000_0000 && parts[1] < 0x1_0000_0000))
            && (kind == Complex128 ==>
                  (typed <==> |parts| == 2 && parts[0] < 0x1_0000_0000_0000_0000 && parts[1] < 0x1_0000_0000_0000_0000))
  {
    PowersOf256();
    AllBelow(parts, Pow(256, PartWidth(kind)));
  }

  lemma AllBelow(parts: seq<nat>, bound: nat)
    ensures |parts| == 1 ==> ((forall p | p in parts :: p < bound) <==> parts[0] < bound)
    ensures |parts| == 2 ==> ((forall p | p in parts :: p < bound) <==> parts[0] < bound && parts[1] < bound)
  {
    assert |parts| > 0 ==> parts[0] in parts;
    assert |parts| > 1 ==> parts[1] in parts;
  }

  lemma PowersOf256()
    ensures Pow(256, 1) == 0x100 && Pow(256, 2) == 0x1_0000 && Pow(256, 4) == 0x1_0000_0000
    ensures Pow(256, 8) == 0x1_0000_0000_0000_0000
  {
    assert Pow(256, 2) == 256 * Pow(256, 1) == 256 * (256 * Pow(256, 0));
    assert Pow(256, 4) == 256 * Pow(256, 3) == 256 * (256 * Pow(256, 2));
    assert Pow(256, 6) == 256 * Pow(256, 5) == 256 * (256 * Pow(256, 4));
    assert Pow(256, 8) == 256 * Pow(256, 7) == 256 * (256 * Pow(256, 6));
  }

  /** An element's bytes are those of its bit pattern, of a complex number the real part's before the imaginary part's. */
  lemma ElementBytes(order: ByteOrder, p: nat, q: nat)
    ensures Flatten(order, Scalar(Int8, [p])) == Flatten(order, Scalar(Uint8, [p])) == Put(order, p, 1)
    ensures Flatten(order, Scalar(Int16, [p])) == Flatten(order, Scalar(Uint16, [p])) == Put(order, p, 2)
    ensures Flatten(order, Scalar(Int32, [p])) == Flatten(order, Scalar(Float32, [p])) == Put(order, p, 4)
    ensures Flatten(order, Scalar(Int64, [p])) == Flatten(order, Scalar(Float64, [p])) == Put(order, p, 8)
    ensures Flatten(order, Scalar(Complex64, [p, q])) == Put(order, p, 4) + Put(order, q, 4)
    ensures Flatten(order, Scalar(Complex128, [p, q])) == Put(order, p, 8) + Put(order, q, 8)
  {
    OnePart(order, [p], 1);
    OnePart(order, [p], 2);
    OnePart(order, [p], 4);
    OnePart(order, [p], 8);
    TwoParts(order, [p, q], 4);
    TwoParts(order, [p, q], 8);
  }

  lemma {:induction false} ElementFollows(order: ByteOrder, vs: seq<Value>, i: nat)
    requires i < |vs|
    ensures FlattenAll(order, vs[..i]) + Flatten(order, vs[i]) <= FlattenAll(order, vs)
    decreases |vs|
  {
    var last := |vs| - 1;
    if i < last {
      ElementFollows(order, vs[..last], i);
      assert vs[..last][..i] == vs[..i];
    }
  }

  /** The elements follow each other in their order, each in its own stretch of one size: a tensor is in row-major order. */
  lemma ElementsInOrder(order: ByteOrder, vs: seq<Value>, dims: seq<int>, t: GoType, i: nat)
    requires forall v | v in vs :: HasType(v, t) && HasShape(v, dims)
    requires Decodable(ElementKind(t), dims) && i < |vs|
    ensures FlattenAll(order, vs[..i]) + Flatten(order, vs[i]) <= FlattenAll(order, vs)
    ensures |FlattenAll(order, vs[..i])| == i * Size(dims, ElementKind(t)) && |Flatten(order, vs[i])| == Size(dims, ElementKind(t))
  {
    ElementFollows(order, vs, i);
    FlattenLength(order, vs[i], dims, t);
    FlattenAllLength(order, vs[..i], dims, t);
  }

  // ---------- what is accepted ----------

  /** The value at the end of a path of indices. */
  function Sub(v: Value, path: seq<nat>): Option<Value> {
    if path == [] then Some(v)
    else if v.Elements? && path[0] < |v.elems| then Sub(v.elems[path[0]], path[1..])
    else None
  }

  /** A scalar of a kind that is neither Bool nor String, or elements that, if they are slices, have one length. */
  ghost predicate FineHere(v: Value) {
    match v
    case Scalar(kind, _) => kind != Bool && kind != String && kind != Unsupported
    case Elements(typ, elems) =>
      !typ.Basic? && typ.elem.SliceOf? ==> forall i, j | 0 <= i < j < |elems| :: Len(elems[i]) == Len(elems[j])
  }

  /** A value is accepted if and only if nothing inside it, at any depth, is amiss. */
  lemma {:induction false} AcceptedIff(v: Value)
    ensures Accepts(v) <==> forall path | Sub(v, path).Some? :: FineHere(Sub(v, path).value)
    decreases v
  {
    if Accepts(v) {
      forall path | Sub(v, path).Some? ensures FineHere(Sub(v, path).value) {
        AcceptedInside(v, path);
      }
    } else {
      var path := Amiss(v);
    }
  }

  lemma {:induction false} AcceptedInside(v: Value, path: seq<nat>)
    requires Accepts(v) && Sub(v, path).Some?
    ensures FineHere(Sub(v, path).value)
    decreases path
  {
    if path != [] {
      AcceptedInside(v.elems[path[0]], path[1..]);
    }
  }

  lemma {:induction false} Amiss(v: Value) returns (path: seq<nat>)
    requires !Accepts(v)
    ensures Sub(v, path).Some? && !FineHere(Sub(v, path).value)
    decreases v
  {
    if v.Scalar? || !SiblingsAgree(v) {
      path := [];
    } else {
      var i :| 0 <= i < |v.elems| && !Accepts(v.elems[i]);
      var inside := Amiss(v.elems[i]);
      path := [i] + inside;
      assert path[1..] == inside;
    }
  }

  /** A []int8. */
  function Row(ns: seq<nat>): Value {
    Elements(SliceOf(Basic(Int8)), seq(|ns|, i requires 0 <= i < |ns| => Scalar(Int8, [ns[i]])))
  }

  /** A [][]int8 of two rows. */
  function Rows(a: Value, b: Value): Value {
    Elements(SliceOf(SliceOf(Basic(Int8))), [a, b])
  }

  lemma RowFacts(ns: seq<nat>)
    requires ns != []
    ensures Accepts(Row(ns)) && forall dims :: HasShape(Row(ns), dims) <==> dims == [|ns|]
  {
    var v := Row(ns);
    forall e | e in v.elems ensures e.Scalar? && Accepts(e) {}
    forall dims ensures HasShape(v, dims) <==> dims == [|ns|] {
      assert v.elems[0] in v.elems;
      assert dims != [] && dims[1..] == [] ==> dims == [dims[0]];
    }
  }

  lemma RowsFacts(a: seq<nat>, b: seq<nat>)
    requires |a| == |b| > 0
    ensures Accepts(Rows(Row(a), Row(b))) && forall dims :: HasShape(Rows(Row(a), Row(b)), dims) <==> dims == [2, |a|]
  {
    RowFacts(a);
    RowFacts(b);
    var v := Rows(Row(a), Row(b));
    forall dims ensures HasShape(v, dims) <==> dims == [2, |a|] {
      assert v.elems[0] in v.elems;
      assert dims != [] && dims[1..] == [|a|] ==> dims == [dims[0], |a|];
    }
  }

  /** Slices under different parents are not compared: [[[1, 2], [3, 4]], [[5], [6]]] is accepted, with the shape
      [2, 2, 1] that only its last elements have. */
  lemma CousinsAreNotCompared()
    ensures var t := SliceOf(SliceOf(SliceOf(Basic(Int8))));
            var v := Elements(t, [Rows(Row([1, 2]), Row([3, 4])), Rows(Row([5]), Row([6]))]);
            Accepts(v) && !Rectangular(v) && RecordedShape(v, t) == [2, 2, 1]
  {
    var t := SliceOf(SliceOf(SliceOf(Basic(Int8))));
    RowsFacts([1, 2], [3, 4]);
    RowsFacts([5], [6]);
    CousinsDisagree(t, Rows(Row([1, 2]), Row([3, 4])), Rows(Row([5]), Row([6])));
  }

  lemma CousinsDisagree(t: GoType, wide: Value, narrow: Value)
    requires Depth(t) == 3 && Accepts(wide) && Accepts(narrow) && Len(wide) == Len(narrow)
    requires forall dims :: HasShape(wide, dims) <==> dims == [2, 2]
    requires forall dims :: HasShape(narrow, dims) <==> dims == [2, 1]
    ensures var v := Elements(t, [wide, narrow]); Accepts(v) && !Rectangular(v) && RecordedShape(v, t) == [2, 2, 1]
  {
    var v := Elements(t, [wide, narrow]);
    forall dims ensures !HasShape(v, dims) {
      assert v.elems[0] in v.elems && v.elems[1] in v.elems;
    }
    CousinsShape(wide, narrow);
    assert Zeros(3)[1..] == [0, 0];
  }

  lemma CousinsShape(wide: Value, narrow: Value)
    requires HasShape(wide, [2, 2]) && HasShape(narrow, [2, 1])
    ensures RecordAll([0, 0], [wide, narrow]) == [2, 1]
  {
    RecordRectangular([0, 0], wide, [2, 2]);
    RecordRectangular([2, 2], narrow, [2, 1]);
    assert [wide, narrow][..1] == [wide] && [wide][..0] == [];
    assert RecordAll([0, 0], [wide]) == Merge([0, 0], [2, 2]) == [2] + Merge([0], [2]) == [2, 2];
    assert Merge([2, 2], [2, 1]) == [2] + Merge([2], [1]) == [2, 1];
  }
}
