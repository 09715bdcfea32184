/** Tensor layouts: reordering dimensions between layouts, and the addresses that strides give to coordinates.

    Dimensions are naturals without a width: exact as long as no product overflows an int64. */
module Layout {
  import opened Arithmetic

  datatype DataLayout = YXDepthBatch | YXBatchDepth | BatchYXDepth | BatchDepthYX

  datatype DimIndices = DimIndices(depth: nat, batch: nat, spatial: nat)

  function GetDimIndices(layout: DataLayout, dataDims: nat): DimIndices
    requires dataDims >= 2
  {
    match layout
    case YXBatchDepth => DimIndices(dataDims - 1, dataDims - 2, 0)
    case YXDepthBatch => DimIndices(dataDims - 2, dataDims - 1, 0)
    case BatchYXDepth => DimIndices(dataDims - 1, 0, 1)
    case BatchDepthYX => DimIndices(1, 0, 2)
  }

  // ---------- what a layout is ----------

  /** One value for the batch, one for the depth, and one for each spatial axis: what a vector holds in any layout. */
  datatype Axes<T> = Axes(batch: T, depth: T, spatial: seq<T>)

  function Arrange<T>(layout: DataLayout, axes: Axes<T>): (v: seq<T>)
    ensures |v| == |axes.spatial| + 2
  {
    match layout
    case YXBatchDepth => axes.spatial + [axes.batch, axes.depth]
    case YXDepthBatch => axes.spatial + [axes.depth, axes.batch]
    case BatchYXDepth => [axes.batch] + axes.spatial + [axes.depth]
    case BatchDepthYX => [axes.batch, axes.depth] + axes.spatial
  }

  function AxesOf<T>(layout: DataLayout, v: seq<T>): (axes: Axes<T>)
    requires |v| >= 2
    ensures |axes.spatial| == |v| - 2
  {
    var n := |v|;
    match layout
    case YXBatchDepth => Axes(v[n - 2], v[n - 1], v[..n - 2])
    case YXDepthBatch => Axes(v[n - 1], v[n - 2], v[..n - 2])
    case BatchYXDepth => Axes(v[0], v[n - 1], v[1..n - 1])
    case BatchDepthYX => Axes(v[0], v[1], v[2..])
  }

  lemma ArrangeAxesOf<T>(layout: DataLayout, v: seq<T>)
    requires |v| >= 2
    ensures Arrange(layout, AxesOf(layout, v)) == v
  {
  }

  lemma AxesOfArrange<T>(layout: DataLayout, axes: Axes<T>)
    ensures AxesOf(layout, Arrange(layout, axes)) == axes
  {
    assert AxesOf(layout, Arrange(layout, axes)).spatial == axes.spatial;
  }

  function Reorder<T>(v: seq<T>, from: DataLayout, to: DataLayout): (w: seq<T>)
    requires |v| >= 2
    ensures |w| == |v|
  {
    Arrange(to, AxesOf(from, v))
  }

  /** Indices that cover n dimensions, each once. */
  predicate Separate(at: DimIndices, n: nat)
    requires n >= 2
  {
    && at.batch < n && at.depth < n && at.batch != at.depth && at.spatial + n - 2 <= n
    && !(at.spatial <= at.batch < at.spatial + n - 2) && !(at.spatial <= at.depth < at.spatial + n - 2)
  }

  /** What a vector holds where the indices say that the axes are. */
  function AxesAt<T>(at: DimIndices, v: seq<T>): Axes<T>
    requires |v| >= 2 && Separate(at, |v|)
  {
    Axes(v[at.batch], v[at.depth], v[at.spatial..at.spatial + |v| - 2])
  }

  /** The indices are where the layout puts each axis. */
  lemma DimIndicesLocateAxes<T>(layout: DataLayout, v: seq<T>)
    requires |v| >= 2
    ensures var at := GetDimIndices(layout, |v|); Separate(at, |v|) && AxesAt(at, v) == AxesOf(layout, v)
  {
  }

  method ReorderDims(input: seq<nat>, from: DataLayout, to: DataLayout) returns (output: seq<nat>)
    requires |input| >= 2 || from == to
    ensures from == to ==> output == input
    ensures |input| >= 2 ==> output == Reorder(input, from, to)
  {
    if from == to {
      if |input| >= 2 { ArrangeAxesOf(from, input); }
      return input;
    }
    var source, target := GetDimIndices(from, |input|), GetDimIndices(to, |input|);
    DimIndicesLocateAxes(from, input);
    DimIndicesLocateAxes(to, input);
    output := CopyDims(input, source, target);
    CopiedAxes(source, input, target, output);
    DimIndicesLocateAxes(to, output);
    ArrangeAxesOf(to, output);
  }

  predicate Copied(source: DimIndices, v: seq<nat>, target: DimIndices, w: seq<nat>)
    requires |v| == |w| >= 2 && Separate(source, |v|) && Separate(target, |w|)
  {
    && w[target.batch] == v[source.batch] && w[target.depth] == v[source.depth]
    && forall p | target.spatial <= p < target.spatial + |w| - 2 :: w[p] == v[p - target.spatial + source.spatial]
  }

  lemma CopiedAxes(source: DimIndices, v: seq<nat>, target: DimIndices, w: seq<nat>)
    requires |v| == |w| >= 2 && Separate(source, |v|) && Separate(target, |w|) && Copied(source, v, target, w)
    ensures AxesAt(target, w) == AxesAt(source, v)
  {
    var a, b := AxesAt(target, w).spatial, AxesAt(source, v).spatial;
    forall k | 0 <= k < |a| ensures a[k] == b[k] {
      assert w[target.spatial + k] == v[source.spatial + k];
    }
  }

  /** The copying part of `ReorderDims`. */
  method CopyDims(input: seq<nat>, source: DimIndices, target: DimIndices) returns (output: seq<nat>)
    requires |input| >= 2 && Separate(source, |input|) && Separate(target, |input|)
    ensures |output| == |input| && Copied(source, input, target, output)
  {
    var spatialFrom, spatialTo := source.spatial, target.spatial;
    var reordered := new nat[|input|];
    reordered[target.batch] := input[source.batch];
    reordered[target.depth] := input[source.depth];
    var i := 0;
    while i < |input| - 2
      invariant 0 <= i <= |input| - 2
      invariant spatialFrom == source.spatial + i && spatialTo == target.spatial + i
      invariant reordered[target.batch] == input[source.batch] && reordered[target.depth] == input[source.depth]
      invariant forall p | target.spatial <= p < spatialTo :: reordered[p] == input[p - target.spatial + source.spatial]
    {
      reordered[spatialTo] := input[spatialFrom];
      i, spatialFrom, spatialTo := i + 1, spatialFrom + 1, spatialTo + 1;
    }
    output := reordered[..];
  }

  // ---------- laws of reordering ----------

  lemma ReorderThereAndBack<T>(v: seq<T>, a: DataLayout, b: DataLayout)
    requires |v| >= 2
    ensures Reorder(Reorder(v, a, b), b, a) == v
  {
    AxesOfArrange(b, AxesOf(a, v));
    ArrangeAxesOf(a, v);
  }

  lemma ReorderComposes<T>(v: seq<T>, a: DataLayout, b: DataLayout, c: DataLayout)
    requires |v| >= 2
    ensures Reorder(Reorder(v, a, b), b, c) == Reorder(v, a, c)
  {
    AxesOfArrange(b, AxesOf(a, v));
  }

  lemma ReorderKeepsEntries<T>(v: seq<T>, a: DataLayout, b: DataLayout)
    requires |v| >= 2
    ensures multiset(Reorder(v, a, b)) == multiset(v)
  {
    ArrangeAxesOf(a, v);
    ArrangedEntries(a, AxesOf(a, v));
    ArrangedEntries(b, AxesOf(a, v));
  }

  lemma ArrangedEntries<T>(layout: DataLayout, axes: Axes<T>)
    ensures multiset(Arrange(layout, axes)) == multiset{axes.batch, axes.depth} + multiset(axes.spatial)
  {
  }

  // ---------- products ----------

  lemma {:induction false} ProductOfConcat(s: seq<nat>, t: seq<nat>)
    ensures Product(s + t) == Product(s) * Product(t)
  {
    if s == [] {
      assert s + t == t;
    } else {
      assert (s + t)[1..] == s[1..] + t;
      ProductOfConcat(s[1..], t);
      Associative(s[0], Product(s[1..]), Product(t));
    }
  }

  lemma ProductOfPair(a: nat, b: nat)
    ensures Product([a, b]) == a * b && Product([a]) == a
  {
    assert [a, b][1..] == [b] && [b][1..] == [] && [a][1..] == [];
    assert Product([b]) == b * Product([]) && Product([a]) == a * Product([]);
  }

  /** Whatever the layout, the product of the dimensions is the number of elements. */
  lemma ProductOfArranged(layout: DataLayout, axes: Axes<nat>)
    ensures Product(Arrange(layout, axes)) == axes.batch * axes.depth * Product(axes.spatial)
  {
    var b, d, s := axes.batch, axes.depth, axes.spatial;
    ProductOfPair(b, d);
    ProductOfPair(d, b);
    ProductOfConcat(s, [b, d]);
    ProductOfConcat(s, [d, b]);
    ProductOfConcat([b, d], s);
    ProductOfConcat([b] + s, [d]);
    ProductOfConcat([b], s);
    Shuffle(b, d, Product(s));
  }

  lemma Shuffle(b: nat, d: nat, p: nat)
    ensures b * d * p == p * (b * d) == p * (d * b) == b * p * d
  {
  }

  // ---------- the batch descriptor ----------

  datatype BatchDescriptor = BatchDescriptor(count: nat, featureMapCount: nat, spatialSize: seq<nat>, layout: DataLayout) {

    function Sizes(): Axes<nat> {
      Axes(count, featureMapCount, spatialSize)
    }

    /** The specification of `FullDims`: the sizes as the layout arranges them. */
    function Dims(asLayout: DataLayout): seq<nat> {
      Arrange(asLayout, Sizes())
    }

    method FullDims(asLayout: DataLayout) returns (dims: seq<nat>)
      ensures dims == Dims(asLayout)
      ensures asLayout == BatchDepthYX ==> dims == [count, featureMapCount] + spatialSize
      ensures asLayout == BatchYXDepth ==> dims == [count] + spatialSize + [featureMapCount]
      ensures asLayout == YXDepthBatch ==> dims == spatialSize + [featureMapCount, count]
      ensures asLayout == YXBatchDepth ==> dims == spatialSize + [count, featureMapCount]
      ensures |dims| == |spatialSize| + 2
      ensures var at := GetDimIndices(asLayout, |dims|);
              && Separate(at, |dims|) && dims[at.batch] == count && dims[at.depth] == featureMapCount
              && dims[at.spatial..at.spatial + |spatialSize|] == spatialSize
    {
      var bdyxDims := [count, featureMapCount] + spatialSize;
      dims := ReorderDims(bdyxDims, BatchDepthYX, asLayout);
      AxesOfArrange(BatchDepthYX, Sizes());
      AxesOfArrange(asLayout, Sizes());
      DimIndicesLocateAxes(asLayout, dims);
    }

    /** The specification of `FullStrides`: row-major strides of the physical layout, in the order of the other. */
    function Strides(asLayout: DataLayout): (strides: seq<nat>)
      ensures |strides| == |spatialSize| + 2
    {
      Reorder(RowMajor(Dims(layout)), layout, asLayout)
    }

    method FullStrides(asLayout: DataLayout) returns (strides: seq<nat>)
      ensures strides == Strides(asLayout)
    {
      var physDims := FullDims(layout);
      var physStrides := PhysicalStrides(physDims);
      strides := ReorderDims(physStrides, layout, asLayout);
    }

    /** The loop of `FullStrides`, for the physical dimensions. */
    static method PhysicalStrides(physDims: seq<nat>) returns (strides: seq<nat>)
      requires |physDims| >= 2
      ensures strides == RowMajor(physDims)
    {
      var ndims := |physDims| - 2;
      var physStrides := new nat[|physDims|];
      physStrides[ndims + 1] := 1;
      LastStride(physDims);
      var i := ndims;
      while i >= 0
        invariant -1 <= i <= ndims
        invariant forall k | i < k < |physDims| :: physStrides[k] == RowMajor(physDims)[k]
      {
        RowMajorStep(physDims, i);
        physStrides[i] := physStrides[i + 1] * physDims[i + 1];
        i := i - 1;
      }
      strides := physStrides[..];
    }

    method NodesPerFeatureMap() returns (nodes: nat)
      ensures nodes == Product(spatialSize)
    {
      nodes := 1;
      var i := 0;
      while i < |spatialSize|
        invariant 0 <= i <= |spatialSize|
        invariant nodes == Product(spatialSize[..i])
      {
        assert spatialSize[..i + 1] == spatialSize[..i] + [spatialSize[i]];
        ProductOfConcat(spatialSize[..i], [spatialSize[i]]);
        ProductOfPair(spatialSize[i], 0);
        nodes := nodes * spatialSize[i];
        i := i + 1;
      }
      assert spatialSize[..i] == spatialSize;
    }

    method ElementCount() returns (elements: nat)
      ensures forall asLayout :: elements == Product(Dims(asLayout))
      ensures elements == count * featureMapCount * Product(spatialSize)
    {
      var nodes := NodesPerFeatureMap();
      elements := count * featureMapCount * nodes;
      forall asLayout ensures elements == Product(Dims(asLayout)) {
        ProductOfArranged(asLayout, Sizes());
      }
    }

    /** The address of a coordinate, both the coordinate and the strides given in the same layout. */
    function Address(asLayout: DataLayout, c: seq<nat>): nat
      requires |c| == |spatialSize| + 2
    {
      Dot(c, Strides(asLayout))
    }

    /** The coordinate, in a layout, of an address. */
    function Locate(asLayout: DataLayout, address: nat): (c: seq<nat>)
      requires address < Product(Dims(layout))
      ensures |c| == |spatialSize| + 2
    {
      Reorder(Digits(address, Dims(layout)), layout, asLayout)
    }
  }

  // ---------- row-major addressing ----------

  function RowMajor(dims: seq<nat>): (strides: seq<nat>)
    ensures |strides| == |dims|
  {
    if dims == [] then [] else [Product(dims[1..])] + RowMajor(dims[1..])
  }

  lemma {:induction false} RowMajorAt(dims: seq<nat>, k: nat)
    requires k < |dims|
    ensures RowMajor(dims)[k] == Product(dims[k + 1..])
  {
    if k > 0 {
      RowMajorAt(dims[1..], k - 1);
      assert dims[1..][k..] == dims[k + 1..];
    }
  }

  lemma {:induction false} LastStride(dims: seq<nat>)
    requires dims != []
    ensures RowMajor(dims)[|dims| - 1] == 1
  {
    if |dims| > 1 {
      LastStride(dims[1..]);
    }
  }

  /** A stride is the next one times the next dimension. */
  lemma {:induction false} RowMajorStep(dims: seq<nat>, k: nat)
    requires k + 1 < |dims|
    ensures RowMajor(dims)[k] == RowMajor(dims)[k + 1] * dims[k + 1]
  {
    if k == 0 {
      FirstStride(dims[0], dims[1..]);
      assert dims == [dims[0]] + dims[1..];
    } else {
      RowMajorStep(dims[1..], k - 1);
    }
  }

  lemma FirstStride(dim: nat, rest: seq<nat>)
    requires rest != []
    ensures RowMajor([dim] + rest)[0] == RowMajor([dim] + rest)[1] * rest[0]
  {
    assert ([dim] + rest)[1..] == rest;
    assert RowMajor([dim] + rest)[1] == RowMajor(rest)[0];
    Commutative(rest[0], Product(rest[1..]));
  }

  function Dot(c: seq<nat>, strides: seq<nat>): nat
    requires |c| == |strides|
  {
    if c == [] then 0 else c[0] * strides[0] + Dot(c[1..], strides[1..])
  }

  predicate InBounds(c: seq<nat>, dims: seq<nat>) {
    |c| == |dims| && forall i | 0 <= i < |c| :: c[i] < dims[i]
  }

  function Quotient(a: nat, n: nat): nat
    requires n > 0
  {
    a / n
  }

  function Remainder(a: nat, n: nat): (r: nat)
    requires n > 0
    ensures r < n
  {
    a % n
  }

  /** The digits of an address in the mixed radix that the dimensions are. */
  function Digits(address: nat, dims: seq<nat>): (c: seq<nat>)
    requires address < Product(dims)
    ensures |c| == |dims|
  {
    if dims == [] then []
    else
      var rest := Product(dims[1..]);
      LeadingDigit(address, dims[0], rest);
      [Quotient(address, rest)] + Digits(Remainder(address, rest), dims[1..])
  }

  lemma LeadingDigit(address: nat, dim: nat, rest: nat)
    requires address < dim * rest
    ensures rest > 0 && address / rest < dim && address == address / rest * rest + address % rest
  {
    if rest > 0 && address / rest >= dim {
      Times(dim, address / rest, rest);
    }
  }

  lemma DigitAndRest(digit: nat, low: nat, dim: nat, rest: nat)
    requires digit < dim && low < rest
    ensures digit * rest + low < dim * rest
    ensures (digit * rest + low) / rest == digit && (digit * rest + low) % rest == low
  {
    Times(digit + 1, dim, rest);
    TimesNext(digit, rest);
    var address := digit * rest + low;
    OneQuotient(digit, low, address / rest, address % rest, rest);
  }

  /** There is one way to divide. */
  lemma OneQuotient(q: nat, r: nat, q': nat, r': nat, n: nat)
    requires r < n && r' < n && q * n + r == q' * n + r'
    ensures q == q' && r == r'
  {
    TimesNext(q, n);
    TimesNext(q', n);
    if q < q' {
      Times(q + 1, q', n);
    } else if q' < q {
      Times(q' + 1, q, n);
    }
  }

  /** Every coordinate has an address below the number of elements, and is the digits of that address. */
  lemma {:induction false} DigitsOfAddress(c: seq<nat>, dims: seq<nat>)
    requires InBounds(c, dims)
    ensures Dot(c, RowMajor(dims)) < Product(dims) && Digits(Dot(c, RowMajor(dims)), dims) == c
  {
    if c != [] {
      DigitsOfAddress(c[1..], dims[1..]);
      DigitAndRest(c[0], Dot(c[1..], RowMajor(dims[1..])), dims[0], Product(dims[1..]));
    }
  }

  /** Every address below the number of elements is that of its digits, which are a coordinate. */
  lemma {:induction false} AddressOfDigits(address: nat, dims: seq<nat>)
    requires address < Product(dims)
    ensures InBounds(Digits(address, dims), dims) && Dot(Digits(address, dims), RowMajor(dims)) == address
  {
    if dims != [] {
      LeadingDigit(address, dims[0], Product(dims[1..]));
      AddressOfDigits(address % Product(dims[1..]), dims[1..]);
    }
  }

  // ---------- addresses do not depend on the layout ----------

  lemma {:induction false} DotOfConcat(c: seq<nat>, s: seq<nat>, c': seq<nat>, s': seq<nat>)
    requires |c| == |s| && |c'| == |s'|
    ensures Dot(c + c', s + s') == Dot(c, s) + Dot(c', s')
  {
    if c == [] {
      assert c + c' == c' && s + s' == s';
    } else {
      assert (c + c')[1..] == c[1..] + c' && (s + s')[1..] == s[1..] + s';
      DotOfConcat(c[1..], s[1..], c', s');
    }
  }

  lemma DotOfPair(a: nat, b: nat, x: nat, y: nat)
    ensures Dot([a, b], [x, y]) == a * x + b * y && Dot([a], [x]) == a * x
  {
    assert [a, b][1..] == [b] && [x, y][1..] == [y];
    assert [b][1..] == [] && [y][1..] == [] && [a][1..] == [] && [x][1..] == [];
    assert Dot([b], [y]) == b * y + Dot([], []);
  }

  lemma DotOfArranged(layout: DataLayout, c: Axes<nat>, s: Axes<nat>)
    requires |c.spatial| == |s.spatial|
    ensures Dot(Arrange(layout, c), Arrange(layout, s)) == c.batch * s.batch + c.depth * s.depth + Dot(c.spatial, s.spatial)
  {
    DotOfPair(c.batch, c.depth, s.batch, s.depth);
    DotOfPair(c.depth, c.batch, s.depth, s.batch);
    match layout {
      case YXBatchDepth => DotOfConcat(c.spatial, s.spatial, [c.batch, c.depth], [s.batch, s.depth]);
      case YXDepthBatch => DotOfConcat(c.spatial, s.spatial, [c.depth, c.batch], [s.depth, s.batch]);
      case BatchYXDepth =>
        DotOfConcat([c.batch] + c.spatial, [s.batch] + s.spatial, [c.depth], [s.depth]);
        DotOfConcat([c.batch], [s.batch], c.spatial, s.spatial);
      case BatchDepthYX => DotOfConcat([c.batch, c.depth], [s.batch, s.depth], c.spatial, s.spatial);
    }
  }

  lemma ReorderedDot(c: seq<nat>, s: seq<nat>, a: DataLayout, b: DataLayout)
    requires |c| == |s| >= 2
    ensures Dot(Reorder(c, a, b), Reorder(s, a, b)) == Dot(c, s)
  {
    ArrangeAxesOf(a, c);
    ArrangeAxesOf(a, s);
    DotOfArranged(a, AxesOf(a, c), AxesOf(a, s));
    DotOfArranged(b, AxesOf(a, c), AxesOf(a, s));
  }

  /** An element has one address, whichever layout its coordinate and the strides are expressed in. */
  lemma AddressIsLayoutIndependent(d: BatchDescriptor, c: seq<nat>, a: DataLayout, b: DataLayout)
    requires |c| == |d.spatialSize| + 2
    ensures d.Address(b, Reorder(c, a, b)) == d.Address(a, c)
  {
    var physical := RowMajor(d.Dims(d.layout));
    ReorderComposes(physical, d.layout, a, b);
    ReorderedDot(c, d.Strides(a), a, b);
  }

  lemma ReorderKeepsBounds(c: seq<nat>, d: BatchDescriptor, a: DataLayout, b: DataLayout)
    requires InBounds(c, d.Dims(a))
    ensures InBounds(Reorder(c, a, b), d.Dims(b))
  {
    ArrangeAxesOf(a, c);
    BoundsByAxis(a, AxesOf(a, c), d.Sizes());
    BoundsByAxis(b, AxesOf(a, c), d.Sizes());
  }

  lemma BoundsOfConcat(c: seq<nat>, s: seq<nat>, c': seq<nat>, s': seq<nat>)
    requires |c| == |s| && |c'| == |s'|
    ensures InBounds(c + c', s + s') <==> InBounds(c, s) && InBounds(c', s')
  {
    if InBounds(c + c', s + s') {
      forall i | 0 <= i < |c| ensures c[i] < s[i] {
        assert (c + c')[i] < (s + s')[i];
      }
      forall i | 0 <= i < |c'| ensures c'[i] < s'[i] {
        assert (c + c')[|c| + i] < (s + s')[|c| + i];
      }
    }
  }

  lemma BoundsOfPair(a: nat, b: nat, x: nat, y: nat)
    ensures InBounds([a, b], [x, y]) <==> a < x && b < y
    ensures InBounds([a], [x]) <==> a < x
  {
    if InBounds([a, b], [x, y]) {
      assert [a, b][0] < [x, y][0] && [a, b][1] < [x, y][1];
    }
    if InBounds([a], [x]) {
      assert [a][0] < [x][0];
    }
  }

  lemma BoundsByAxis(layout: DataLayout, c: Axes<nat>, s: Axes<nat>)
    requires |c.spatial| == |s.spatial|
    ensures InBounds(Arrange(layout, c), Arrange(layout, s)) <==>
            c.batch < s.batch && c.depth < s.depth && InBounds(c.spatial, s.spatial)
  {
    BoundsOfPair(c.batch, c.depth, s.batch, s.depth);
    BoundsOfPair(c.depth, c.batch, s.depth, s.batch);
    match layout {
      case YXBatchDepth => BoundsOfConcat(c.spatial, s.spatial, [c.batch, c.depth], [s.batch, s.depth]);
      case YXDepthBatch => BoundsOfConcat(c.spatial, s.spatial, [c.depth, c.batch], [s.depth, s.batch]);
      case BatchYXDepth =>
        BoundsOfConcat([c.batch] + c.spatial, [s.batch] + s.spatial, [c.depth], [s.depth]);
        BoundsOfConcat([c.batch], [s.batch], c.spatial, s.spatial);
      case BatchDepthYX => BoundsOfConcat([c.batch, c.depth], [s.batch, s.depth], c.spatial, s.spatial);
    }
  }

  /** In every layout, addresses number the valid coordinates: each has an address below the element count, and is
      what is located there. */
  lemma LocateOfAddress(d: BatchDescriptor, layout: DataLayout, c: seq<nat>)
    requires InBounds(c, d.Dims(layout))
    ensures d.Address(layout, c) < Product(d.Dims(d.layout))
    ensures d.Locate(layout, d.Address(layout, c)) == c
  {
    var physical := Reorder(c, layout, d.layout);
    ReorderKeepsBounds(c, d, layout, d.layout);
    DigitsOfAddress(physical, d.Dims(d.layout));
    AddressIsLayoutIndependent(d, c, layout, d.layout);
    ArrangeAxesOf(d.layout, RowMajor(d.Dims(d.layout)));
    ReorderThereAndBack(c, layout, d.layout);
  }

  /** And every address below the element count is that of the valid coordinate located there. */
  lemma AddressOfLocate(d: BatchDescriptor, layout: DataLayout, address: nat)
    requires address < Product(d.Dims(d.layout))
    ensures InBounds(d.Locate(layout, address), d.Dims(layout))
    ensures d.Address(layout, d.Locate(layout, address)) == address
  {
    var physical := Digits(address, d.Dims(d.layout));
    AddressOfDigits(address, d.Dims(d.layout));
    ReorderKeepsBounds(physical, d, d.layout, layout);
    AddressIsLayoutIndependent(d, physical, d.layout, layout);
    ArrangeAxesOf(d.layout, RowMajor(d.Dims(d.layout)));
  }

  /** Reading an element of one layout and writing it at its place in another is a permutation of the storage. */
  lemma ConversionIsBijective(d: BatchDescriptor, e: BatchDescriptor, address: nat)
    requires d.Sizes() == e.Sizes() && address < Product(d.Dims(d.layout))
    ensures var c := d.Locate(BatchDepthYX, address);
            var there := e.Address(BatchDepthYX, c);
            there < Product(d.Dims(d.layout)) && there < Product(e.Dims(e.layout))
            && d.Address(BatchDepthYX, e.Locate(BatchDepthYX, there)) == address
  {
    ProductOfArranged(d.layout, d.Sizes());
    ProductOfArranged(e.layout, e.Sizes());
    AddressOfLocate(d, BatchDepthYX, address);
    LocateOfAddress(e, BatchDepthYX, d.Locate(BatchDepthYX, address));
  }

  /** In the physical layout strides are row-major. */
  lemma StridesAreRowMajor(d: BatchDescriptor)
    ensures var n, strides := |d.spatialSize|, d.Strides(d.layout);
            && |strides| == n + 2 && strides[n + 1] == 1
            && forall k | 0 <= k <= n :: strides[k] == strides[k + 1] * d.Dims(d.layout)[k + 1]
  {
    var n, dims := |d.spatialSize|, d.Dims(d.layout);
    ArrangeAxesOf(d.layout, RowMajor(dims));
    LastStride(dims);
    forall k | 0 <= k <= n ensures RowMajor(dims)[k] == RowMajor(dims)[k + 1] * dims[k + 1] {
      RowMajorStep(dims, k);
    }
  }

  /** Each axis has the stride that it has in the physical layout, wherever the indices say that another layout puts it. */
  lemma StridesFollowAxes(d: BatchDescriptor, layout: DataLayout)
    ensures var n := |d.spatialSize| + 2;
            var at, physical := GetDimIndices(layout, n), GetDimIndices(d.layout, n);
            && Separate(at, n) && Separate(physical, n)
            && AxesAt(at, d.Strides(layout)) == AxesAt(physical, d.Strides(d.layout))
  {
    var rowMajor := RowMajor(d.Dims(d.layout));
    ArrangeAxesOf(d.layout, rowMajor);
    AxesOfArrange(layout, AxesOf(d.layout, rowMajor));
    DimIndicesLocateAxes(layout, d.Strides(layout));
    DimIndicesLocateAxes(d.layout, d.Strides(d.layout));
  }

  /** Two images of three 4 by 5 feature maps: the images are 60 elements apart and the maps 20. */
  lemma StridesOfImages()
    ensures var d := BatchDescriptor(2, 3, [4, 5], BatchDepthYX);
            && d.Strides(BatchDepthYX) == [60, 20, 5, 1]
            && d.Strides(BatchYXDepth) == [60, 5, 1, 20]
            && d.Strides(YXDepthBatch) == [5, 1, 20, 60]
            && d.Strides(YXBatchDepth) == [5, 1, 60, 20]
  {
    var dims := [2, 3, 4, 5];
    assert [2, 3] + [4, 5] == dims;
    assert dims[1..] == [3, 4, 5] && [3, 4, 5][1..] == [4, 5] && [4, 5][1..] == [5] && [5][1..] == [];
    assert Product([5]) == 5 * Product([]);
    assert Product([4, 5]) == 4 * Product([5]);
    assert Product([3, 4, 5]) == 3 * Product([4, 5]);
    assert RowMajor([5]) == [Product([])] + RowMajor([]);
    assert RowMajor([4, 5]) == [Product([5])] + RowMajor([5]) == [5, 1];
    assert RowMajor([3, 4, 5]) == [Product([4, 5])] + RowMajor([4, 5]) == [20, 5, 1];
    assert RowMajor(dims) == [Product([3, 4, 5])] + RowMajor([3, 4, 5]) == [60, 20, 5, 1];
    assert [60, 20, 5, 1][2..] == [5, 1];
  }
}
