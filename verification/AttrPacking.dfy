/** Reading list attributes of an operation: the strings or shapes packed one after the other into storage of the
    caller's, which the attribute's metadata says the size of.

    Pointers into the storage are positions in it. Lengths are not truncated to 32 bits. */
module AttrPacking {
  import opened Arithmetic
  import opened Bytes
  import opened Wrappers

  datatype AttrType = StringType | IntType | FloatType | BoolType | TypeType | ShapeType | TensorType | PlaceholderType | FuncType

  datatype ShapeProto = ShapeProto(unknownRank: bool, dims: seq<int>)

  /** Of lists that are only counted here, the number of elements. */
  datatype ListValue = ListValue(s: seq<seq<Byte>>, i: nat, f: nat, b: nat, types: nat, shape: seq<ShapeProto>, tensor: nat)

  datatype AttrValue = NotSet | StringValue(s: seq<Byte>) | ShapeValue(shape: ShapeProto) | List(list: ListValue) | Single(single: AttrType)

  /** The element type that the operation's definition gives an attribute that is a list. */
  datatype Declared = ListOf(element: AttrType) | Unrecognized

  /** `listSize` is -1 where there is no list; the type is left unset for an empty list that is not declared. */
  datatype Metadata = Metadata(isList: bool, listSize: int, attrType: Option<AttrType>, totalSize: int)

  /** The status of the call, and what it has returned. */
  datatype Status = Fine | InvalidArgument

  // ---------- packed parts ----------

  function Total<T>(parts: seq<seq<T>>): nat {
    if parts == [] then 0 else Total(parts[..|parts| - 1]) + |parts[|parts| - 1]|
  }

  function Concat<T>(parts: seq<seq<T>>): (s: seq<T>)
    ensures |s| == Total(parts)
  {
    if parts == [] then [] else Concat(parts[..|parts| - 1]) + parts[|parts| - 1]
  }

  lemma OneMore<T>(parts: seq<seq<T>>, i: nat)
    requires i < |parts|
    ensures Total(parts[..i + 1]) == Total(parts[..i]) + |parts[i]|
    ensures Concat(parts[..i + 1]) == Concat(parts[..i]) + parts[i]
  {
    assert parts[..i + 1][..i] == parts[..i];
  }

  lemma {:induction false} TotalMonotone<T>(parts: seq<seq<T>>, i: nat, j: nat)
    requires i <= j <= |parts|
    ensures Total(parts[..i]) <= Total(parts[..j])
    ensures Concat(parts[..i]) <= Concat(parts[..j])
  {
    if i < j {
      TotalMonotone(parts, i, j - 1);
      OneMore(parts, j - 1);
    }
  }

  /** Each part is where the lengths before it put it: the segments are consecutive and disjoint. */
  lemma PartAt<T>(parts: seq<seq<T>>, n: nat, i: nat)
    requires i < n <= |parts|
    ensures Total(parts[..i]) + |parts[i]| == Total(parts[..i + 1]) <= Total(parts[..n])
    ensures Concat(parts[..n])[Total(parts[..i])..Total(parts[..i + 1])] == parts[i]
  {
    OneMore(parts, i);
    TotalMonotone(parts, i + 1, n);
    assert Concat(parts[..n])[..Total(parts[..i + 1])] == Concat(parts[..i + 1]);
  }

  /** The number of parts, of the first n, before the first that exceeds the storage. */
  ghost predicate Fits<T>(parts: seq<seq<T>>, n: nat, size: int, k: nat) {
    && k <= n <= |parts|
    && AllTaken(parts, k, size)
    && (k < n ==> !Taken(parts, k, size))
  }

  ghost predicate AllTaken<T>(parts: seq<seq<T>>, k: nat, size: int) {
    forall i | 0 <= i < k :: Taken(parts, i, size)
  }

  lemma TakeOne<T>(parts: seq<seq<T>>, k: nat, size: int)
    requires AllTaken(parts, k, size) && Taken(parts, k, size)
    ensures AllTaken(parts, k + 1, size)
  {
  }

  ghost predicate Taken<T>(parts: seq<seq<T>>, i: int, size: int) {
    0 <= i < |parts| && Total(parts[..i + 1]) <= size
  }

  lemma AllFit<T>(parts: seq<seq<T>>, n: nat, size: nat, k: nat)
    requires Fits(parts, n, size, k)
    ensures k == n <==> Total(parts[..n]) <= size
  {
    if k == n {
      if n > 0 { assert Taken(parts, n - 1, size); }
    } else {
      TotalMonotone(parts, k + 1, n);
    }
  }

  // ---------- metadata ----------

  function Dims(shape: ShapeProto): seq<int> {
    if shape.unknownRank then [] else shape.dims
  }

  /** What the shapes of a list take up: nothing where the rank is unknown. */
  function Parts(shapes: seq<ShapeProto>): (parts: seq<seq<int>>)
    ensures |parts| == |shapes|
  {
    seq(|shapes|, i requires 0 <= i < |shapes| => Dims(shapes[i]))
  }

  /** Does an operation's attribute have a list that is empty, whatever its type? */
  predicate IsEmpty(list: ListValue) {
    list.s == [] && list.i == 0 && list.f == 0 && list.b == 0 && list.types == 0 && list.shape == [] && list.tensor == 0
  }

  /** The lists of a value by element type, in the order in which they are looked at. */
  function Sizes(list: ListValue): seq<(AttrType, nat)> {
    [(StringType, |list.s|), (IntType, list.i), (FloatType, list.f), (BoolType, list.b), (TypeType, list.types),
     (ShapeType, |list.shape|), (TensorType, list.tensor)]
  }

  ghost predicate FirstNonEmpty(list: ListValue, k: int) {
    0 <= k < |Sizes(list)| && Sizes(list)[k].1 > 0 && forall j | 0 <= j < k :: Sizes(list)[j].1 == 0
  }

  method TotalBytes(strings: seq<seq<Byte>>) returns (total: nat)
    ensures total == Total(strings)
  {
    total := 0;
    var i := 0;
    while i < |strings|
      invariant i <= |strings| && total == Total(strings[..i])
    {
      OneMore(strings, i);
      total := total + |strings[i]|;
      i := i + 1;
    }
    assert strings[..i] == strings;
  }

  method TotalDims(shapes: seq<ShapeProto>) returns (total: nat)
    ensures total == Total(Parts(shapes))
  {
    total := 0;
    var i := 0;
    while i < |shapes|
      invariant i <= |shapes| && total == Total(Parts(shapes)[..i])
    {
      OneMore(Parts(shapes), i);
      total := total + if shapes[i].unknownRank then 0 else |shapes[i].dims|;
      i := i + 1;
    }
    assert Parts(shapes)[..i] == Parts(shapes);
  }

  lemma FirstKind(list: ListValue)
    ensures FirstNonEmpty(list, 0) <==> list.s != []
    ensures FirstNonEmpty(list, 1) <==> list.s == [] && list.i > 0
    ensures FirstNonEmpty(list, 2) <==> list.s == [] && list.i == 0 && list.f > 0
    ensures FirstNonEmpty(list, 3) <==> list.s == [] && list.i == 0 && list.f == 0 && list.b > 0
    ensures FirstNonEmpty(list, 4) <==> list.s == [] && list.i == 0 && list.f == 0 && list.b == 0 && list.types > 0
    ensures FirstNonEmpty(list, 5) <==> list.shape != [] && list.s == [] && list.i == 0 && list.f == 0 && list.b == 0 && list.types == 0
    ensures FirstNonEmpty(list, 6) <==> list.tensor > 0 && IsEmpty(list.(tensor := 0))
  {
    var z := Sizes(list);
    assert z[0].1 == |list.s| && z[1].1 == list.i && z[2].1 == list.f && z[3].1 == list.b && z[4].1 == list.types;
    assert z[5].1 == |list.shape| && z[6].1 == list.tensor;
  }

  method ListMetadata(list: ListValue, declared: Option<Declared>) returns (status: Status, m: Metadata)
    ensures m.isList
    ensures list.s != [] ==> status == Fine && m == Metadata(true, |list.s|, Some(StringType), Total(list.s))
    ensures list.shape != [] && IsEmpty(list.(shape := [])) ==>
              status == Fine && m == Metadata(true, |list.shape|, Some(ShapeType), Total(Parts(list.shape)))
    ensures IsEmpty(list) ==> m.listSize == 0 && m.totalSize == -1
    ensures !IsEmpty(list) ==> status == Fine && exists k :: FirstNonEmpty(list, k) && m.listSize == Sizes(list)[k].1 && m.attrType == Some(Sizes(list)[k].0)
    ensures list.s == [] ==>
              && (list.i > 0 ==> m.attrType == Some(IntType) && m.listSize == list.i)
              && (list.i == 0 && list.f > 0 ==> m.attrType == Some(FloatType) && m.listSize == list.f)
              && (list.i == list.f == 0 && list.b > 0 ==> m.attrType == Some(BoolType) && m.listSize == list.b)
              && (list.i == list.f == list.b == 0 && list.types > 0 ==> m.attrType == Some(TypeType) && m.listSize == list.types)
    ensures list.tensor > 0 && IsEmpty(list.(tensor := 0)) ==> m.attrType == Some(TensorType) && m.listSize == list.tensor
    ensures list.s == [] && list.shape == [] ==> m.totalSize == -1
    ensures IsEmpty(list) ==> (status == InvalidArgument <==> declared == Some(Unrecognized))
    ensures IsEmpty(list) ==> m.attrType == if declared.Some? && declared.value.ListOf? then Some(declared.value.element) else None
  {
    m := Metadata(true, 0, None, -1);
    status := Fine;
    FirstKind(list);
    if |list.s| > 0 {
      var total := TotalBytes(list.s);
      m := Metadata(true, |list.s|, Some(StringType), total);
    } else if list.i > 0 {
      m := Metadata(true, list.i, Some(IntType), -1);
    } else if list.f > 0 {
      m := Metadata(true, list.f, Some(FloatType), -1);
    } else if list.b > 0 {
      m := Metadata(true, list.b, Some(BoolType), -1);
    } else if list.types > 0 {
      m := Metadata(true, list.types, Some(TypeType), -1);
    } else if |list.shape| > 0 {
      var total := TotalDims(list.shape);
      m := Metadata(true, |list.shape|, Some(ShapeType), total);
    } else if list.tensor > 0 {
      m := Metadata(true, list.tensor, Some(TensorType), -1);
    } else if declared == Some(Unrecognized) {
      status := InvalidArgument;
    } else if declared.Some? {
      m := Metadata(true, 0, Some(declared.value.element), -1);
    }
  }

  /** With the status on entry, which an attribute that is found does not clear. No metadata is returned as none is set. */
  method GetAttrMetadata(attr: Option<AttrValue>, declared: Option<Declared>, entry: Status) returns (status: Status, m: Option<Metadata>)
    ensures status == Fine <==> entry == Fine && attr.Some? && !attr.value.NotSet?
                                && !(attr.value.List? && IsEmpty(attr.value.list) && declared == Some(Unrecognized))
    ensures status == Fine ==> m.Some?
    ensures status == Fine && attr.value.Single? ==> m.value == Metadata(false, -1, Some(attr.value.single), -1)
    ensures entry == InvalidArgument || attr.None? ==> status == InvalidArgument && m.None?
    ensures entry == Fine && attr.Some? && attr.value.List? ==> m.Some? && DescribesList(attr.value.list, declared, status, m.value)
    ensures status == Fine && !attr.value.List? ==> !m.value.isList && m.value.listSize == -1
    ensures status == Fine && attr.value.StringValue? ==> m.value.attrType == Some(StringType) && m.value.totalSize == |attr.value.s|
    ensures status == Fine && attr.value.ShapeValue? ==>
              m.value.attrType == Some(ShapeType)
              && m.value.totalSize == if attr.value.shape.unknownRank then -1 else |attr.value.shape.dims|
  {
    if attr.None? || entry == InvalidArgument {
      return InvalidArgument, None;
    }
    match attr.value {
      case NotSet => status, m := InvalidArgument, None;
      case StringValue(s) => status, m := Fine, Some(Metadata(false, -1, Some(StringType), |s|));
      case ShapeValue(shape) =>
        status, m := Fine, Some(Metadata(false, -1, Some(ShapeType), if shape.unknownRank then -1 else |shape.dims|));
      case Single(single) => status, m := Fine, Some(Metadata(false, -1, Some(single), -1));
      case List(list) =>
        var metadata;
        status, metadata := ListMetadata(list, declared);
        m := Some(metadata);
    }
  }

  /** The number of elements and, for strings and shapes, what they take up together; of an empty list, -1 instead of 0. */
  ghost predicate DescribesList(list: ListValue, declared: Option<Declared>, status: Status, m: Metadata) {
    && m.isList
    && (list.s != [] ==> status == Fine && m == Metadata(true, |list.s|, Some(StringType), Total(list.s)))
    && (list.shape != [] && IsEmpty(list.(shape := [])) ==>
          status == Fine && m == Metadata(true, |list.shape|, Some(ShapeType), Total(Parts(list.shape))))
    && (!IsEmpty(list) ==> exists k :: FirstNonEmpty(list, k) && m.listSize == Sizes(list)[k].1 && m.attrType == Some(Sizes(list)[k].0))
    && (IsEmpty(list) ==> m.listSize == 0 && m.totalSize == -1 && (status == InvalidArgument <==> declared == Some(Unrecognized)))
  }

  // ---------- the getters ----------

  /** The first k parts are in the storage one after the other, and the rest of it is as it was. */
  ghost predicate Packed<T>(parts: seq<seq<T>>, k: nat, storage: seq<T>, before: seq<T>)
    requires k <= |parts| && Total(parts[..k]) <= |before|
  {
    storage == Concat(parts[..k]) + before[Total(parts[..k])..]
  }

  /** The first positions are where the parts start, the others as they were. */
  ghost predicate Positions<T>(parts: seq<seq<T>>, touched: nat, values: seq<nat>, before: seq<nat>)
    requires touched <= |parts|
  {
    && |values| == |before|
    && forall i | 0 <= i < |values| :: values[i] == if i < touched then Total(parts[..i]) else before[i]
  }

  ghost predicate Lengths(strings: seq<seq<Byte>>, touched: nat, lengths: seq<nat>, before: seq<nat>)
    requires touched <= |strings|
  {
    && |lengths| == |before|
    && forall i | 0 <= i < |lengths| :: lengths[i] == if i < touched then |strings[i]| else before[i]
  }

  /** Of the part that does not fit, if there is one, the position and the length are set too. */
  function Touched(k: nat, n: nat): nat {
    if k < n then k + 1 else k
  }

  function Overwritten<T>(s: seq<T>, p: nat, part: seq<T>): seq<T>
    requires p + |part| <= |s|
  {
    s[..p] + part + s[p + |part|..]
  }

  method CopyInto<T>(storage: array<T>, p: nat, part: seq<T>)
    requires p + |part| <= storage.Length
    modifies storage
    ensures storage[..] == Overwritten(old(storage[..]), p, part)
  {
    forall j | 0 <= j < |part| {
      storage[p + j] := part[j];
    }
  }

  lemma PackOne<T>(parts: seq<seq<T>>, k: nat, storage: seq<T>, before: seq<T>)
    requires k < |parts| && Total(parts[..k]) <= |before| && Packed(parts, k, storage, before)
    requires Total(parts[..k]) + |parts[k]| <= |storage|
    ensures Total(parts[..k + 1]) <= |before| && Packed(parts, k + 1, Overwritten(storage, Total(parts[..k]), parts[k]), before)
  {
    OneMore(parts, k);
  }

  /** How many elements the getter goes through. */
  function Requested(maxValues: int, size: nat): nat {
    if Min(maxValues, size) < 0 then 0 else Min(maxValues, size)
  }

  method GetAttrStringList(attr: Option<AttrValue>, entry: Status, values: array<nat>, lengths: array<nat>, maxValues: int,
                           storage: array<Byte>, storageSize: nat) returns (status: Status, ghost k: nat)
    requires maxValues <= values.Length && maxValues <= lengths.Length && values != lengths && storageSize <= storage.Length
    modifies values, lengths, storage
    ensures entry == InvalidArgument || attr.None? || !attr.value.List? ==>
              status == InvalidArgument && values[..] == old(values[..]) && lengths[..] == old(lengths[..]) && storage[..] == old(storage[..])
    ensures entry == Fine && attr.Some? && attr.value.List? ==>
              var strings := attr.value.list.s;
              var n := Requested(maxValues, |strings|);
              && Fits(strings, n, storageSize, k) && Total(strings[..k]) <= storageSize
              && (status == Fine <==> Total(strings[..n]) <= storageSize) && (status == Fine <==> k == n)
              && Packed(strings, k, storage[..], old(storage[..]))
              && Positions(strings, Touched(k, n), values[..], old(values[..]))
              && Lengths(strings, Touched(k, n), lengths[..], old(lengths[..]))
  {
    k := 0;
    if attr.None? || entry == InvalidArgument || !attr.value.List? {
      return InvalidArgument, 0;
    }
    var ok;
    ok, k := PackStrings(attr.value.list.s, Min(maxValues, |attr.value.list.s|), values, lengths, storage, storageSize);
    status := if ok then Fine else InvalidArgument;
  }

  /** The loop of the getter. */
  method PackStrings(strings: seq<seq<Byte>>, len: int, values: array<nat>, lengths: array<nat>,
                     storage: array<Byte>, storageSize: nat) returns (ok: bool, ghost k: nat)
    requires len <= |strings| && len <= values.Length && len <= lengths.Length && values != lengths && storageSize <= storage.Length
    modifies values, lengths, storage
    ensures var n := if len < 0 then 0 else len;
            && Fits(strings, n, storageSize, k) && Total(strings[..k]) <= storageSize
            && (ok <==> Total(strings[..n]) <= storageSize) && (ok <==> k == n)
            && Packed(strings, k, storage[..], old(storage[..]))
            && Positions(strings, Touched(k, n), values[..], old(values[..]))
            && Lengths(strings, Touched(k, n), lengths[..], old(lengths[..]))
  {
    ghost var n := if len < 0 then 0 else len;
    var p, i := 0, 0;
    while i < len
      invariant i <= n
      invariant p == Total(strings[..i]) <= storageSize
      invariant AllTaken(strings, i, storageSize)
      invariant Packed(strings, i, storage[..], old(storage[..]))
      invariant Positions(strings, i, values[..], old(values[..]))
      invariant Lengths(strings, i, lengths[..], old(lengths[..]))
    {
      OneMore(strings, i);
      values[i] := p;
      lengths[i] := |strings[i]|;
      if p + |strings[i]| > storageSize {
        k := i;
        AllFit(strings, n, storageSize, k);
        return false, k;
      }
      TakeOne(strings, i, storageSize);
      PackOne(strings, i, storage[..], old(storage[..]));
      CopyInto(storage, p, strings[i]);
      p := p + |strings[i]|;
      i := i + 1;
    }
    k := i;
    AllFit(strings, n, storageSize, k);
    ok := true;
  }

  // ---------- shapes ----------

  predicate ValidShape(shape: ShapeProto) {
    && (shape.unknownRank ==> shape.dims == [])
    && forall d | d in shape.dims :: d >= -1
  }

  /** Does the attribute have a list of valid shapes? An attribute without a value counts as an empty list. */
  predicate HasShapes(attr: Option<AttrValue>) {
    && attr.Some?
    && (attr.value.NotSet? || (attr.value.List? && IsEmpty(attr.value.list.(shape := []))))
    && forall shape | shape in ShapesOf(attr.value) :: ValidShape(shape)
  }

  function ShapesOf(attr: AttrValue): seq<ShapeProto> {
    if attr.List? then attr.list.shape else []
  }

  /** An attribute has shapes if it has no value, or a list of nothing but shapes: a shape of unknown rank has no dimensions,
      and any other only ones that are not negative, or -1 for one that is not known. */
  lemma HasShapesIff(attr: Option<AttrValue>)
    ensures HasShapes(attr) <==>
            && attr.Some?
            && (attr.value.NotSet?
                || (attr.value.List?
                    && (var l := attr.value.list; l.s == [] && l.i == l.f == l.b == l.types == l.tensor == 0)
                    && forall i | 0 <= i < |attr.value.list.shape| :: GoodShape(attr.value.list.shape[i])))
  {
    if attr.Some? && attr.value.List? {
      forall i | 0 <= i < |attr.value.list.shape|
        ensures ValidShape(attr.value.list.shape[i]) <==> GoodShape(attr.value.list.shape[i]) {
        ShapeIsGood(attr.value.list.shape[i]);
      }
    }
  }

  predicate GoodShape(shape: ShapeProto) {
    if shape.unknownRank then |shape.dims| == 0
    else forall j | 0 <= j < |shape.dims| :: shape.dims[j] == -1 || shape.dims[j] >= 0
  }

  lemma ShapeIsGood(shape: ShapeProto)
    ensures ValidShape(shape) <==> GoodShape(shape)
  {
    if ValidShape(shape) {
      forall j | 0 <= j < |shape.dims| ensures shape.dims[j] == -1 || shape.dims[j] >= 0 {
        assert shape.dims[j] in shape.dims;
      }
    }
  }

  /** A shape of unknown rank always fits, also into storage of negative size. */
  ghost predicate ShapesFit(shapes: seq<ShapeProto>, n: nat, size: int, k: nat) {
    && k <= n <= |shapes|
    && AllShapesTaken(shapes, k, size)
    && (k < n ==> !ShapeTaken(shapes, k, size))
  }

  ghost predicate AllShapesTaken(shapes: seq<ShapeProto>, k: nat, size: int) {
    forall i | 0 <= i < k :: ShapeTaken(shapes, i, size)
  }

  lemma TakeOneShape(shapes: seq<ShapeProto>, k: nat, size: int)
    requires AllShapesTaken(shapes, k, size) && ShapeTaken(shapes, k, size)
    ensures AllShapesTaken(shapes, k + 1, size)
  {
  }

  ghost predicate ShapeTaken(shapes: seq<ShapeProto>, i: int, size: int) {
    0 <= i < |shapes| && (shapes[i].unknownRank || Total(Parts(shapes)[..i + 1]) <= size)
  }

  ghost predicate Ranks(shapes: seq<ShapeProto>, touched: nat, numDims: seq<int>, before: seq<int>)
    requires touched <= |shapes|
  {
    && |numDims| == |before|
    && forall i | 0 <= i < |numDims| ::
         numDims[i] == if i >= touched then before[i] else if shapes[i].unknownRank then -1 else |shapes[i].dims|
  }

  lemma {:induction false} ShapesFitLikeParts(shapes: seq<ShapeProto>, n: nat, size: nat, k: nat)
    requires ShapesFit(shapes, n, size, k)
    ensures Total(Parts(shapes)[..k]) <= size && (k == n <==> Total(Parts(shapes)[..n]) <= size)
  {
    FittingTotal(shapes, n, size, k, k);
    if k < n {
      TotalMonotone(Parts(shapes), k + 1, n);
      OneMore(Parts(shapes), k);
    }
  }

  lemma {:induction false} FittingTotal(shapes: seq<ShapeProto>, n: nat, size: nat, k: nat, i: nat)
    requires ShapesFit(shapes, n, size, k) && i <= k
    ensures Total(Parts(shapes)[..i]) <= size
  {
    if i > 0 {
      FittingTotal(shapes, n, size, k, i - 1);
      OneMore(Parts(shapes), i - 1);
      assert ShapeTaken(shapes, i - 1, size);
    }
  }

  /** The status on entry is overwritten. */
  method GetAttrShapeList(attr: Option<AttrValue>, entry: Status, values: array<nat>, numDims: array<int>, maxValues: int,
                          storage: array<int>, storageSize: int) returns (status: Status, ghost k: nat)
    requires maxValues <= values.Length && maxValues <= numDims.Length && numDims != storage && storageSize <= storage.Length
    modifies values, numDims, storage
    ensures !HasShapes(attr) ==>
              status == InvalidArgument && values[..] == old(values[..]) && numDims[..] == old(numDims[..]) && storage[..] == old(storage[..])
    ensures HasShapes(attr) ==>
              var shapes := ShapesOf(attr.value);
              var n := Requested(maxValues, |shapes|);
              && ShapesFit(shapes, n, storageSize, k) && Total(Parts(shapes)[..k]) <= storage.Length && (status == Fine <==> k == n)
              && (storageSize >= 0 ==> (status == Fine <==> Total(Parts(shapes)[..n]) <= storageSize))
              && Packed(Parts(shapes), k, storage[..], old(storage[..]))
              && Positions(Parts(shapes), Touched(k, n), values[..], old(values[..]))
              && Ranks(shapes, Touched(k, n), numDims[..], old(numDims[..]))
  {
    k := 0;
    if !HasShapes(attr) {
      return InvalidArgument, 0;
    }
    var shapes := ShapesOf(attr.value);
    var ok;
    ok, k := PackShapes(shapes, Min(|shapes|, maxValues), values, numDims, storage, storageSize);
    status := if ok then Fine else InvalidArgument;
    if storageSize >= 0 {
      ShapesFitLikeParts(shapes, Requested(maxValues, |shapes|), storageSize, k);
    }
  }

  /** Nothing is stored of a shape of unknown rank, and room for it is not asked for. */
  method StoreDims(shape: ShapeProto, p: nat, storageLeft: int, storage: array<int>) returns (fits: bool, p': nat, storageLeft': int)
    requires p <= storage.Length && p + storageLeft <= storage.Length
    modifies storage
    ensures fits <==> shape.unknownRank || |shape.dims| <= storageLeft
    ensures fits ==> p' == p + |Dims(shape)| <= storage.Length && storageLeft' == storageLeft - |Dims(shape)|
                     && storage[..] == Overwritten(old(storage[..]), p, Dims(shape))
    ensures !fits ==> storage[..] == old(storage[..])
  {
    fits, p', storageLeft' := true, p, storageLeft;
    if !shape.unknownRank {
      if storageLeft < |shape.dims| {
        return false, p, storageLeft;
      }
      storageLeft' := storageLeft - |shape.dims|;
      CopyInto(storage, p, shape.dims);
      p' := p + |shape.dims|;
    }
  }

  /** The loop of the getter. */
  method PackShapes(shapes: seq<ShapeProto>, len: int, values: array<nat>, numDims: array<int>,
                    storage: array<int>, storageSize: int) returns (ok: bool, ghost k: nat)
    requires len <= |shapes| && len <= values.Length && len <= numDims.Length && numDims != storage && storageSize <= storage.Length
    modifies values, numDims, storage
    ensures var n := if len < 0 then 0 else len;
            && ShapesFit(shapes, n, storageSize, k) && Total(Parts(shapes)[..k]) <= storage.Length && (ok <==> k == n)
            && Packed(Parts(shapes), k, storage[..], old(storage[..]))
            && Positions(Parts(shapes), Touched(k, n), values[..], old(values[..]))
            && Ranks(shapes, Touched(k, n), numDims[..], old(numDims[..]))
  {
    ghost var n := if len < 0 then 0 else len;
    ghost var parts := Parts(shapes);
    var p, storageLeft, i := 0, storageSize, 0;
    while i < len
      invariant i <= n && p == Total(parts[..i]) <= storage.Length && storageLeft == storageSize - p
      invariant AllShapesTaken(shapes, i, storageSize)
      invariant Packed(parts, i, storage[..], old(storage[..]))
      invariant Positions(parts, i, values[..], old(values[..]))
      invariant Ranks(shapes, i, numDims[..], old(numDims[..]))
    {
      OneMore(parts, i);
      numDims[i] := if shapes[i].unknownRank then -1 else |shapes[i].dims|;
      values[i] := p;
      ghost var before := storage[..];
      var fits;
      fits, p, storageLeft := StoreDims(shapes[i], p, storageLeft, storage);
      if !fits {
        k := i;
        return false, k;
      }
      TakeOneShape(shapes, i, storageSize);
      PackOne(parts, i, before, old(storage[..]));
      i := i + 1;
    }
    k := i;
    ok := true;
  }

  // ---------- storage sized from the metadata ----------

  /** The storage holds the parts and nothing else, each where its position and its length say. */
  lemma ReadBack<T>(parts: seq<seq<T>>, i: nat, storage: seq<T>, position: nat)
    requires i < |parts| && storage == Concat(parts) && position == Total(parts[..i])
    ensures position + |parts[i]| <= |storage| && storage[position..position + |parts[i]|] == parts[i]
  {
    PartAt(parts, |parts|, i);
    assert parts[..|parts|] == parts;
  }

  lemma FilledExactly<T>(parts: seq<seq<T>>, storage: seq<T>, before: seq<T>)
    requires |before| == Total(parts) && Total(parts[..|parts|]) <= |before| && Packed(parts, |parts|, storage, before)
    ensures storage == Concat(parts)
  {
    assert parts[..|parts|] == parts;
  }

  lemma AllOf<T>(parts: seq<T>)
    ensures parts[..|parts|] == parts
  {
  }

  /** A caller that asks for the metadata first: the storage is filled exactly, and what is read back is the list. */
  method FetchStrings(list: ListValue, declared: Option<Declared>) returns (status: Status, strings: seq<seq<Byte>>)
    requires list.s != [] || IsEmpty(list)
    ensures status == InvalidArgument <==> IsEmpty(list) && declared == Some(Unrecognized)
    ensures status == Fine ==> strings == list.s
  {
    var m;
    status, m := GetAttrMetadata(Some(List(list)), declared, Fine);
    if status == InvalidArgument {
      return InvalidArgument, [];
    }
    strings := ReadStrings(list, m.value.listSize, if m.value.totalSize < 0 then 0 else m.value.totalSize);
  }

  method ReadStrings(list: ListValue, listSize: nat, totalSize: nat) returns (strings: seq<seq<Byte>>)
    requires listSize == |list.s| && totalSize == Total(list.s)
    ensures strings == list.s
  {
    var values, lengths, storage := new nat[listSize], new nat[listSize], new Byte[totalSize];
    ghost var before := storage[..];
    var status;
    ghost var k;
    AllOf(list.s);
    status, k := GetAttrStringList(Some(List(list)), Fine, values, lengths, listSize, storage, totalSize);
    FilledExactly(list.s, storage[..], before);
    strings := [];
    var i := 0;
    while i < listSize
      invariant i <= listSize && strings == list.s[..i]
      modifies {}
    {
      assert values[i] == values[..][i] && lengths[i] == lengths[..][i];
      ReadBack(list.s, i, storage[..], values[i]);
      strings := strings + [storage[values[i]..values[i] + lengths[i]]];
      i := i + 1;
    }
  }

  method FetchShapes(list: ListValue, declared: Option<Declared>) returns (status: Status, shapes: seq<ShapeProto>)
    requires HasShapes(Some(List(list)))
    ensures status == InvalidArgument <==> IsEmpty(list) && declared == Some(Unrecognized)
    ensures status == Fine ==> shapes == list.shape
  {
    var m;
    status, m := GetAttrMetadata(Some(List(list)), declared, Fine);
    if status == InvalidArgument {
      return InvalidArgument, [];
    }
    if m.value.listSize == 0 {
      shapes := [];
    } else {
      shapes := ReadShapes(list, m.value.listSize, m.value.totalSize);
    }
  }

  method ReadShapes(list: ListValue, listSize: nat, totalSize: nat) returns (shapes: seq<ShapeProto>)
    requires HasShapes(Some(List(list))) && listSize == |list.shape| && totalSize == Total(Parts(list.shape))
    ensures shapes == list.shape
  {
    var values, numDims, storage := new nat[listSize], new int[listSize], new int[totalSize];
    ghost var before := storage[..];
    var status;
    ghost var k;
    AllOf(Parts(list.shape));
    status, k := GetAttrShapeList(Some(List(list)), Fine, values, numDims, listSize, storage, totalSize);
    FilledExactly(Parts(list.shape), storage[..], before);
    shapes := [];
    var i := 0;
    while i < listSize
      invariant i <= listSize && shapes == list.shape[..i]
      modifies {}
    {
      assert values[i] == values[..][i] && numDims[i] == numDims[..][i];
      ReadBack(Parts(list.shape), i, storage[..], values[i]);
      assert ValidShape(list.shape[i]);
      shapes := shapes + [if numDims[i] < 0 then ShapeProto(true, []) else ShapeProto(false, storage[values[i]..values[i] + numDims[i]])];
      i := i + 1;
    }
  }

  // ---------- where the code differs from its header ----------

  /** The total size of a declared list of strings that is empty is -1, not the cumulative size. */
  method EmptyListHasNegativeTotal() returns (status: Status, totalSize: int)
    ensures status == Fine && totalSize == -1
  {
    var m;
    status, m := GetAttrMetadata(Some(List(ListValue([], 0, 0, 0, 0, [], 0))), Some(ListOf(StringType)), Fine);
    totalSize := m.value.totalSize;
  }

  /** An error from before makes the string list getter fail where there is room enough, and nothing is written; without
      one it succeeds. The shape list getter succeeds in spite of it. */
  method StaleErrorFails() returns (stale: Status, written: seq<Byte>, clean: Status, shapes: Status)
    ensures stale == InvalidArgument && written == [0] && clean == Fine && shapes == Fine
  {
    var attr := Some(List(ListValue([[65]], 0, 0, 0, 0, [], 0)));
    var values, lengths, numDims := new nat[1], new nat[1], new int[1];
    var storage, noDims := new Byte[1](_ => 0), new int[0];
    ghost var k;
    stale, k := GetAttrStringList(attr, InvalidArgument, values, lengths, 1, storage, 1);
    written := storage[..];
    OneMore([[65]], 0);
    AllOf([[65]]);
    clean, k := GetAttrStringList(attr, Fine, values, lengths, 1, storage, 1);
    shapes, k := GetAttrShapeList(Some(List(ListValue([], 0, 0, 0, 0, [], 0))), InvalidArgument, values, numDims, 0, noDims, 0);
  }
}
