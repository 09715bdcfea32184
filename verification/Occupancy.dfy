/** GPU occupancy: how many blocks fit on a core, and the most registers a thread may use for a target.

    uint64 products are modelled on unbounded naturals: exact as long as none of them overflows. What the search
    converts to int is converted. */
module Occupancy {
  import opened Arithmetic

  const UNINITIALIZED: nat := 0xFFFF_FFFF_FFFF_FFFF
  const INT_MAX: nat := 0x7FFF_FFFF

  datatype Device = Device(
    registersPerThreadLimit: nat, threadsPerWarp: nat, warpAllocGranularity: nat, registerAllocGranularity: nat,
    registersPerBlockLimit: nat, sharedMemoryPerCore: nat, blocksPerCoreLimit: nat,
    sharedMemoryAllocGranularity: nat, threadsPerCoreLimit: nat, threadsPerBlockLimit: nat)

  datatype ThreadDim = ThreadDim(x: nat, y: nat, z: nat)

  function Threads(dims: ThreadDim): nat {
    dims.x * dims.y * dims.z
  }

  // ---------- rounding ----------

  function CeilOfRatio(numerator: nat, denominator: nat): nat
    requires denominator > 0
  {
    var rounded := numerator / denominator;
    rounded + if numerator > rounded * denominator then 1 else 0
  }

  function RoundUp(value: nat, n: nat): nat
    requires n > 0
  {
    CeilOfRatio(value, n) * n
  }

  function RoundDown(value: nat, n: nat): nat
    requires n > 0
  {
    value / n * n
  }

  /** The least k with k * n >= value, from which all that is needed about rounding up follows. */
  lemma CeilIsLeast(value: nat, n: nat, k: nat)
    requires n > 0
    ensures CeilOfRatio(value, n) <= k <==> value <= k * n
  {
    var q := value / n;
    assert value == q * n + value % n;
    if k <= q { Times(k, q, n); } else { Times(q + 1, k, n); }
  }

  lemma RoundUpIsLeastMultiple(value: nat, n: nat, k: nat)
    requires n > 0
    ensures value <= RoundUp(value, n) && (value <= k * n ==> RoundUp(value, n) <= k * n)
  {
    CeilIsLeast(value, n, CeilOfRatio(value, n));
    CeilIsLeast(value, n, k);
    if value <= k * n { Times(CeilOfRatio(value, n), k, n); }
  }

  lemma RoundUpMonotone(a: nat, b: nat, n: nat)
    requires n > 0 && a <= b
    ensures RoundUp(a, n) <= RoundUp(b, n)
  {
    RoundUpIsLeastMultiple(b, n, 0);
    RoundUpIsLeastMultiple(a, n, CeilOfRatio(b, n));
  }

  function Floor(numerator: nat, denominator: nat): nat
    requires denominator > 0
  {
    numerator / denominator
  }

  /** The floor of a ratio is the greatest count that fits. */
  lemma FloorIsGreatest(capacity: nat, each: nat, n: nat)
    requires each > 0
    ensures n <= Floor(capacity, each) <==> n * each <= capacity
  {
    var q := capacity / each;
    assert capacity == q * each + capacity % each;
    if n <= q { Times(n, q, each); } else { Times(q + 1, n, each); }
  }

  /** The fewest blocks that hold the elements; a single block is cut down to just them. */
  method CalculateDimensionality(d: Device, elementCount: nat) returns (threadsPerBlock: nat, blockCount: nat)
    requires d.threadsPerBlockLimit > 0
    ensures threadsPerBlock <= d.threadsPerBlockLimit && elementCount <= blockCount * threadsPerBlock
    ensures forall b: nat, t: nat | t <= d.threadsPerBlockLimit && elementCount <= b * t :: blockCount <= b
    ensures blockCount == 1 ==> threadsPerBlock == elementCount
    ensures blockCount != 1 ==> threadsPerBlock == d.threadsPerBlockLimit
  {
    threadsPerBlock := d.threadsPerBlockLimit;
    blockCount := CeilOfRatio(elementCount, threadsPerBlock);
    CeilIsLeast(elementCount, threadsPerBlock, blockCount);
    forall b: nat, t: nat | t <= d.threadsPerBlockLimit && elementCount <= b * t ensures blockCount <= b {
      Times(t, d.threadsPerBlockLimit, b);
      CeilIsLeast(elementCount, d.threadsPerBlockLimit, b);
    }
    if blockCount == 1 {
      assert elementCount <= threadsPerBlock; // CHECK_LE
      threadsPerBlock := elementCount;
    }
  }

  // ---------- occupancy ----------

  predicate Initialized(d: Device) {
    && d.registersPerThreadLimit != UNINITIALIZED && d.threadsPerWarp != UNINITIALIZED
    && d.warpAllocGranularity != UNINITIALIZED && d.registerAllocGranularity != UNINITIALIZED
    && d.registersPerBlockLimit != UNINITIALIZED && d.sharedMemoryPerCore != UNINITIALIZED
    && d.blocksPerCoreLimit != UNINITIALIZED
  }

  /** The divisors that describe the device are not zero. */
  predicate WellFormed(d: Device) {
    d.threadsPerWarp > 0 && d.warpAllocGranularity > 0 && d.registerAllocGranularity > 0 && d.sharedMemoryAllocGranularity > 0
  }

  function WarpsPerBlock(d: Device, dims: ThreadDim): nat
    requires WellFormed(d)
  {
    CeilOfRatio(Threads(dims), d.threadsPerWarp)
  }

  function RegistersPerWarp(d: Device, registers: nat): nat
    requires WellFormed(d)
  {
    RoundUp(d.threadsPerWarp * registers, d.registerAllocGranularity)
  }

  function RegistersPerBlock(d: Device, registers: nat, dims: ThreadDim): nat
    requires WellFormed(d)
  {
    RoundUp(WarpsPerBlock(d, dims), d.warpAllocGranularity) * RegistersPerWarp(d, registers)
  }

  function CalculateOccupancy(d: Device, registers: nat, sharedMemory: nat, dims: ThreadDim): nat
    requires WellFormed(d) && registers > 0 && Threads(dims) > 0
  {
    if !Initialized(d) then 0
    else if registers > d.registersPerThreadLimit then 0
    else
      PositiveUse(d, registers, dims);
      var regsPerBlock, threads := RegistersPerBlock(d, registers, dims), WarpsPerBlock(d, dims) * d.threadsPerWarp;
      var regLimit := Floor(d.registersPerBlockLimit, regsPerBlock);
      var smem := RoundUp(sharedMemory, d.sharedMemoryAllocGranularity);
      var smemLimit := if smem > 0 then Floor(d.sharedMemoryPerCore, smem) else d.blocksPerCoreLimit;
      var threadLimit := Floor(d.threadsPerCoreLimit, threads);
      Min(Min(d.blocksPerCoreLimit, regLimit), Min(smemLimit, threadLimit))
  }

  lemma PositiveUse(d: Device, registers: nat, dims: ThreadDim)
    requires WellFormed(d) && registers > 0 && Threads(dims) > 0
    ensures RegistersPerBlock(d, registers, dims) > 0 && WarpsPerBlock(d, dims) * d.threadsPerWarp > 0
  {
    RoundUpIsLeastMultiple(Threads(dims), d.threadsPerWarp, 0);
    RoundUpIsLeastMultiple(WarpsPerBlock(d, dims), d.warpAllocGranularity, 0);
    Times(1, registers, d.threadsPerWarp);
    RoundUpIsLeastMultiple(d.threadsPerWarp * registers, d.registerAllocGranularity, 0);
    Times(1, RegistersPerWarp(d, registers), RoundUp(WarpsPerBlock(d, dims), d.warpAllocGranularity));
  }

  /** n blocks fit on a core together: none of what they are allocated exceeds what there is. */
  predicate Fit(d: Device, registers: nat, sharedMemory: nat, dims: ThreadDim, n: nat)
    requires WellFormed(d)
  {
    && n <= d.blocksPerCoreLimit
    && n * RegistersPerBlock(d, registers, dims) <= d.registersPerBlockLimit
    && n * RoundUp(sharedMemory, d.sharedMemoryAllocGranularity) <= d.sharedMemoryPerCore
    && n * (WarpsPerBlock(d, dims) * d.threadsPerWarp) <= d.threadsPerCoreLimit
  }

  /** The occupancy is the greatest number of blocks that fit, for a thread that may use so many registers at all. */
  lemma OccupancyIsGreatestFit(d: Device, registers: nat, sharedMemory: nat, dims: ThreadDim, n: nat)
    requires WellFormed(d) && registers > 0 && Threads(dims) > 0
    ensures Initialized(d) && registers <= d.registersPerThreadLimit ==>
              (n <= CalculateOccupancy(d, registers, sharedMemory, dims) <==> Fit(d, registers, sharedMemory, dims, n))
    ensures !Initialized(d) || registers > d.registersPerThreadLimit ==> CalculateOccupancy(d, registers, sharedMemory, dims) == 0
  {
    PositiveUse(d, registers, dims);
    var smem := RoundUp(sharedMemory, d.sharedMemoryAllocGranularity);
    FloorIsGreatest(d.registersPerBlockLimit, RegistersPerBlock(d, registers, dims), n);
    if smem > 0 { FloorIsGreatest(d.sharedMemoryPerCore, smem, n); }
    FloorIsGreatest(d.threadsPerCoreLimit, WarpsPerBlock(d, dims) * d.threadsPerWarp, n);
  }

  /** The least number of units of this size that reach a value. */
  predicate IsLeastCount(k: nat, unit: nat, value: nat) {
    value <= k * unit && (k > 0 ==> (k - 1) * unit < value)
  }

  lemma LeastCountIsCeil(k: nat, unit: nat, value: nat)
    requires unit > 0
    ensures IsLeastCount(k, unit, value) <==> CeilOfRatio(value, unit) == k
  {
    CeilIsLeast(value, unit, k);
    if k > 0 { CeilIsLeast(value, unit, k - 1); }
  }

  /** The occupancy in numbers: for the least number of warps for the threads, of granules of warps for these, of granules of
      registers for the threads of a warp, and of granules of shared memory, that many blocks fit at once. */
  lemma OccupancyInNumbers(d: Device, registers: nat, sharedMemory: nat, dims: ThreadDim,
                           warps: nat, warpGranules: nat, registerGranules: nat, memoryGranules: nat, n: nat)
    requires d.threadsPerWarp > 0 && d.warpAllocGranularity > 0 && d.registerAllocGranularity > 0 && d.sharedMemoryAllocGranularity > 0
    requires registers > 0 && dims.x * dims.y * dims.z > 0
    requires IsLeastCount(warps, d.threadsPerWarp, dims.x * dims.y * dims.z)
    requires IsLeastCount(warpGranules, d.warpAllocGranularity, warps)
    requires IsLeastCount(registerGranules, d.registerAllocGranularity, d.threadsPerWarp * registers)
    requires IsLeastCount(memoryGranules, d.sharedMemoryAllocGranularity, sharedMemory)
    ensures var unset: nat := 0xFFFF_FFFF_FFFF_FFFF;
            var usable := && d.registersPerThreadLimit != unset && d.threadsPerWarp != unset && d.warpAllocGranularity != unset
                          && d.registerAllocGranularity != unset && d.registersPerBlockLimit != unset
                          && d.sharedMemoryPerCore != unset && d.blocksPerCoreLimit != unset
                          && registers <= d.registersPerThreadLimit;
            var allocatedWarps, registersPerWarp := warpGranules * d.warpAllocGranularity, registerGranules * d.registerAllocGranularity;
            && (usable ==> (n <= CalculateOccupancy(d, registers, sharedMemory, dims) <==>
                              && n <= d.blocksPerCoreLimit
                              && n * (allocatedWarps * registersPerWarp) <= d.registersPerBlockLimit
                              && n * (memoryGranules * d.sharedMemoryAllocGranularity) <= d.sharedMemoryPerCore
                              && n * (warps * d.threadsPerWarp) <= d.threadsPerCoreLimit))
            && (!usable ==> CalculateOccupancy(d, registers, sharedMemory, dims) == 0)
  {
    LeastCountIsCeil(warps, d.threadsPerWarp, Threads(dims));
    LeastCountIsCeil(warpGranules, d.warpAllocGranularity, warps);
    LeastCountIsCeil(registerGranules, d.registerAllocGranularity, d.threadsPerWarp * registers);
    LeastCountIsCeil(memoryGranules, d.sharedMemoryAllocGranularity, sharedMemory);
    OccupancyIsGreatestFit(d, registers, sharedMemory, dims, n);
  }

  lemma FitsAtMost(n: nat, use: nat, more: nat, capacity: nat)
    requires use <= more && n * more <= capacity
    ensures n * use <= capacity
  {
    Times(use, more, n);
  }

  /** Using more registers, more shared memory or more threads never increases the occupancy. */
  lemma OccupancyAntitone(d: Device, r: nat, s: nat, dims: ThreadDim, r': nat, s': nat, dims': ThreadDim)
    requires WellFormed(d) && 0 < r <= r' && s <= s' && 0 < Threads(dims) <= Threads(dims')
    ensures CalculateOccupancy(d, r', s', dims') <= CalculateOccupancy(d, r, s, dims)
  {
    var n := CalculateOccupancy(d, r', s', dims');
    OccupancyIsGreatestFit(d, r', s', dims', n);
    OccupancyIsGreatestFit(d, r, s, dims, n);
    if Initialized(d) && r' <= d.registersPerThreadLimit {
      UseMonotone(d, r, s, dims, r', s', dims');
      FitsAtMost(n, RegistersPerBlock(d, r, dims), RegistersPerBlock(d, r', dims'), d.registersPerBlockLimit);
      FitsAtMost(n, RoundUp(s, d.sharedMemoryAllocGranularity), RoundUp(s', d.sharedMemoryAllocGranularity), d.sharedMemoryPerCore);
      FitsAtMost(n, WarpsPerBlock(d, dims) * d.threadsPerWarp, WarpsPerBlock(d, dims') * d.threadsPerWarp, d.threadsPerCoreLimit);
    }
  }

  lemma UseMonotone(d: Device, r: nat, s: nat, dims: ThreadDim, r': nat, s': nat, dims': ThreadDim)
    requires WellFormed(d) && r <= r' && s <= s' && Threads(dims) <= Threads(dims')
    ensures RegistersPerBlock(d, r, dims) <= RegistersPerBlock(d, r', dims')
    ensures RoundUp(s, d.sharedMemoryAllocGranularity) <= RoundUp(s', d.sharedMemoryAllocGranularity)
    ensures WarpsPerBlock(d, dims) * d.threadsPerWarp <= WarpsPerBlock(d, dims') * d.threadsPerWarp
  {
    RoundUpMonotone(s, s', d.sharedMemoryAllocGranularity);
    RoundUpMonotone(Threads(dims), Threads(dims'), d.threadsPerWarp);
    CeilIsLeast(Threads(dims'), d.threadsPerWarp, WarpsPerBlock(d, dims'));
    CeilIsLeast(Threads(dims), d.threadsPerWarp, WarpsPerBlock(d, dims'));
    RoundUpMonotone(WarpsPerBlock(d, dims), WarpsPerBlock(d, dims'), d.warpAllocGranularity);
    Times(r, r', d.threadsPerWarp);
    RoundUpMonotone(d.threadsPerWarp * r, d.threadsPerWarp * r', d.registerAllocGranularity);
    var a, a' := RoundUp(WarpsPerBlock(d, dims), d.warpAllocGranularity), RoundUp(WarpsPerBlock(d, dims'), d.warpAllocGranularity);
    Times(a, a', RegistersPerWarp(d, r));
    Times(RegistersPerWarp(d, r), RegistersPerWarp(d, r'), a');
  }

  // ---------- the register search ----------

  /** `DividesByZero`: RoundDown is reached with a step of zero. */
  datatype SearchResult = Found(registers: nat) | DividesByZero

  /** A uint64 as an int: the low 32 bits, in two's complement. */
  function ToInt(v: nat): int {
    var low := v % 0x1_0000_0000;
    if low <= INT_MAX then low else low - 0x1_0000_0000
  }

  /** An int as a uint64. */
  function ToUint64(v: int): nat
    requires v + INT_MAX + 1 >= 0
  {
    if v >= 0 then v else v + UNINITIALIZED + 1
  }

  lemma ConversionsAreTwosComplement(v: nat, i: int)
    requires -0x8000_0000 <= i < 0x8000_0000
    ensures -0x8000_0000 <= ToInt(v) < 0x8000_0000 && (v - ToInt(v)) % 0x1_0000_0000 == 0
    ensures ToUint64(i) < 0x1_0000_0000_0000_0000 && (ToUint64(i) - i) % 0x1_0000_0000_0000_0000 == 0
  {
    assert v - ToInt(v) == v / 0x1_0000_0000 * 0x1_0000_0000 + if ToInt(v) < 0 then 0x1_0000_0000 else 0;
  }

  /** The step is kept as an int, and rounded down to as a uint64. */
  function Step(d: Device): nat
    requires WellFormed(d)
  {
    ToUint64(ToInt(d.registerAllocGranularity / d.threadsPerWarp))
  }

  /** What the search is for: the most registers that reach the target, or zero if no number does. */
  ghost predicate IsBest(d: Device, sharedMemory: nat, dims: ThreadDim, target: nat, r: nat)
    requires WellFormed(d) && Threads(dims) > 0
  {
    && (r > 0 ==> r <= d.registersPerThreadLimit && CalculateOccupancy(d, r, sharedMemory, dims) >= target)
    && forall k | r < k <= d.registersPerThreadLimit :: CalculateOccupancy(d, k, sharedMemory, dims) < target
  }

  /** The search from r down. */
  function Search(d: Device, sharedMemory: nat, dims: ThreadDim, target: nat, r: nat): SearchResult
    requires WellFormed(d) && Threads(dims) > 0
    decreases r
  {
    if r == 0 then Found(0)
    else if CalculateOccupancy(d, r, sharedMemory, dims) >= target then Found(r)
    else if Step(d) == 0 then DividesByZero
    else
      RoundDownShrinks(r, Step(d));
      Search(d, sharedMemory, dims, target, RoundDown(r - 1, Step(d)))
  }

  /** Rounding down gives the greatest multiple that is not above the value. */
  lemma RoundDownIsGreatestMultiple(value: nat, n: nat, k: nat)
    requires n > 0
    ensures RoundDown(value, n) <= value < RoundDown(value, n) + n && (k * n <= value ==> k * n <= RoundDown(value, n))
  {
    FloorIsGreatest(value, n, k);
    if k * n <= value { Times(k, value / n, n); }
  }

  lemma RoundDownShrinks(r: nat, step: nat)
    requires r > 0 && step > 0
    ensures RoundDown(r - 1, step) < r <= RoundDown(r - 1, step) + step
  {
  }

  method CalculateRegisterLimitForTargetOccupancy(d: Device, sharedMemory: nat, dims: ThreadDim, target: nat) returns (result: SearchResult)
    requires WellFormed(d) && Threads(dims) > 0
    ensures ToInt(d.registersPerThreadLimit) <= 0 ==> result == Found(0)
    ensures ToInt(d.registersPerThreadLimit) > 0 ==> result == Search(d, sharedMemory, dims, target, ToInt(d.registersPerThreadLimit))
    ensures d.registersPerThreadLimit == UNINITIALIZED ==> result == Found(0)
    ensures d.registersPerThreadLimit <= INT_MAX && StepIsSafe(d.threadsPerWarp, d.registerAllocGranularity) ==>
              result.Found? && IsBest(d, sharedMemory, dims, target, result.registers)
  {
    if d.registersPerThreadLimit <= INT_MAX && StepIsSafe(d.threadsPerWarp, d.registerAllocGranularity) {
      SafeSearchFindsBest(d, sharedMemory, dims, target, d.registersPerThreadLimit);
    }
    var step := ToUint64(ToInt(d.registerAllocGranularity / d.threadsPerWarp));
    var r: int := ToInt(d.registersPerThreadLimit);
    ghost var start := r;
    while r > 0
      invariant start > 0 ==> r >= 0 && Search(d, sharedMemory, dims, target, r) == Search(d, sharedMemory, dims, target, start)
      invariant start <= 0 ==> r == start
      decreases r
    {
      var occupancy := CalculateOccupancy(d, r, sharedMemory, dims);
      if occupancy >= target {
        return Found(r);
      }
      if step == 0 {
        return DividesByZero;
      }
      RoundDownShrinks(r, step);
      r := RoundDown(r - 1, step);
    }
    result := Found(0);
  }

  /** The step is one that skips nothing, or the granularity is a whole number of warps. */
  predicate StepIsSafe(threadsPerWarp: nat, registerAllocGranularity: nat)
    requires threadsPerWarp > 0
  {
    var step := registerAllocGranularity / threadsPerWarp;
    step == 1 || (1 < step <= INT_MAX && registerAllocGranularity % threadsPerWarp == 0)
  }

  ghost predicate FindsBest(d: Device, sharedMemory: nat, dims: ThreadDim, target: nat)
    requires WellFormed(d) && Threads(dims) > 0
  {
    var result := Search(d, sharedMemory, dims, target, d.registersPerThreadLimit);
    result.Found? && IsBest(d, sharedMemory, dims, target, result.registers)
  }

  lemma SameRegistersSameOccupancy(d: Device, sharedMemory: nat, dims: ThreadDim, k: nat, r: nat)
    requires WellFormed(d) && Threads(dims) > 0 && 0 < k <= d.registersPerThreadLimit && 0 < r <= d.registersPerThreadLimit
    requires RegistersPerWarp(d, k) == RegistersPerWarp(d, r)
    ensures CalculateOccupancy(d, k, sharedMemory, dims) == CalculateOccupancy(d, r, sharedMemory, dims)
  {
  }

  /** Between two values that the search visits, every number of registers is allocated the same. */
  lemma SkippedAllocateTheSame(d: Device, r: nat, k: nat)
    requires WellFormed(d) && StepIsSafe(d.threadsPerWarp, d.registerAllocGranularity)
    requires 0 < r && RoundDown(r - 1, Step(d)) < k <= r
    ensures RegistersPerWarp(d, k) == RegistersPerWarp(d, r)
  {
    var w, g, step := d.threadsPerWarp, d.registerAllocGranularity, Step(d);
    RoundDownShrinks(r, step);
    if step == 1 {
      assert k == r;
    } else {
      assert g == step * w;
      var j := (r - 1) / step;
      OneGranule(w, step, j, k);
      OneGranule(w, step, j, r);
    }
  }

  lemma OneGranule(w: nat, step: nat, j: nat, k: nat)
    requires w > 0 && step > 0 && j * step < k <= j * step + step
    ensures CeilOfRatio(w * k, step * w) == j + 1
  {
    var g := step * w;
    Times(1, step, w);
    Times(k, (j + 1) * step, w);
    Times(j * step + 1, k, w);
    assert (j + 1) * step * w == (j + 1) * g && j * step * w == j * g;
    CeilIsLeast(w * k, g, j + 1);
    CeilIsLeast(w * k, g, j);
  }

  /** Where the step is safe, the search finds the best. */
  lemma {:induction false} SafeSearchFindsBest(d: Device, sharedMemory: nat, dims: ThreadDim, target: nat, r: nat)
    requires WellFormed(d) && Threads(dims) > 0 && StepIsSafe(d.threadsPerWarp, d.registerAllocGranularity)
    requires r <= d.registersPerThreadLimit
    requires forall k | r < k <= d.registersPerThreadLimit :: CalculateOccupancy(d, k, sharedMemory, dims) < target
    ensures var result := Search(d, sharedMemory, dims, target, r);
            result.Found? && IsBest(d, sharedMemory, dims, target, result.registers)
    decreases r
  {
    if r > 0 && CalculateOccupancy(d, r, sharedMemory, dims) < target {
      var next := RoundDown(r - 1, Step(d));
      RoundDownShrinks(r, Step(d));
      forall k | next < k <= d.registersPerThreadLimit ensures CalculateOccupancy(d, k, sharedMemory, dims) < target {
        if k <= r {
          SkippedAllocateTheSame(d, r, k);
          SameRegistersSameOccupancy(d, sharedMemory, dims, k, r);
        }
      }
      SafeSearchFindsBest(d, sharedMemory, dims, target, next);
    }
  }

  lemma {:induction false} SearchStaysBelow(d: Device, sharedMemory: nat, dims: ThreadDim, target: nat, r: nat)
    requires WellFormed(d) && Threads(dims) > 0
    ensures var result := Search(d, sharedMemory, dims, target, r); result.Found? ==> result.registers <= r
    decreases r
  {
    if r > 0 && Step(d) > 0 {
      RoundDownShrinks(r, Step(d));
      SearchStaysBelow(d, sharedMemory, dims, target, RoundDown(r - 1, Step(d)));
    }
  }

  /** Where it is not, there is a device on which the search divides by zero, or skips the best value. */
  lemma UnsafeSearchFails(w: nat, g: nat) returns (d: Device)
    requires 0 < w && 0 < g && w * g + g <= INT_MAX && !StepIsSafe(w, g)
    ensures OfKind(d, w, g)
    ensures !FindsBest(d, 0, ThreadDim(1, 1, 1), 1)
  {
    if g < w {
      d := NoStepDevice(w, g);
    } else {
      d := SkippingDevice(w, g);
    }
  }

  lemma NoStepDevice(w: nat, g: nat) returns (d: Device)
    requires 0 < g < w
    ensures OfKind(d, w, g)
    ensures !FindsBest(d, 0, ThreadDim(1, 1, 1), 1)
  {
    d := Device(1, w, 1, g, 0, 0, 0, 1, 0, 0);
    var dims := ThreadDim(1, 1, 1);
    OccupancyIsGreatestFit(d, 1, 0, dims, 1);
    SmallQuotient(g, w);
  }

  lemma SmallQuotient(g: nat, w: nat)
    requires g < w
    ensures g / w == 0
  {
  }

  lemma Spread(a: nat, b: nat, c: nat)
    ensures a * (b + c) == a * b + a * c
  {
  }

  lemma Regroup(a: nat, b: nat, c: nat)
    ensures a * (b * c) == c * (a * b)
  {
  }

  /** A warp of threads with `best` registers each is allocated at most k granules, one with `top` registers more. */
  lemma Gap(w: nat, g: nat, step: nat, rest: nat, k: nat, top: nat, best: nat, room: nat)
    requires 0 < rest < w && step >= 2 && w <= k * rest < w + rest && g == step * w + rest
    requires top == k * step + step && best == k * step + 1 && room == k * g
    ensures w * best <= room < w * top && best <= top
  {
    Spread(k, step * w, rest);
    Spread(w, k * step, 1);
    Spread(w, k * step, step);
    Regroup(k, step, w);
    Times(2, step, w);
  }

  lemma EnoughRest(w: nat, rest: nat) returns (k: nat)
    requires 0 < rest < w
    ensures w <= k * rest < w + rest && 0 < k <= w
  {
    k := CeilOfRatio(w, rest);
    CeilIsLeast(w, rest, k);
    CeilIsLeast(w, rest, k - 1);
    CeilIsLeast(w, rest, w);
    Times(1, rest, w);
  }

  lemma SkippingDevice(w: nat, g: nat) returns (d: Device)
    requires 0 < w <= g && w * g + g <= INT_MAX && !StepIsSafe(w, g)
    ensures OfKind(d, w, g)
    ensures !FindsBest(d, 0, ThreadDim(1, 1, 1), 1)
  {
    Times(1, w, g);
    Quotient(g, w);
    var k := EnoughRest(w, g % w);
    d := SkippingDeviceFrom(w, g, g / w, g % w, k);
  }

  lemma SkippingDeviceFrom(w: nat, g: nat, step: nat, rest: nat, k: nat) returns (d: Device)
    requires 0 < rest < w && 2 <= step <= g && g == step * w + rest && step == g / w && w * g + g <= INT_MAX
    requires w <= k * rest < w + rest && 0 < k <= w
    ensures OfKind(d, w, g)
    ensures !FindsBest(d, 0, ThreadDim(1, 1, 1), 1)
  {
    var top, best, room := k * step + step, k * step + 1, k * g;
    Spread(step, k, 1);
    Gap(w, g, step, rest, k, top, best, room);
    Bounded(w, g, step, k);
    d := RoomFor(w, g, top, room);
    Skips(w, g, step, k, top, best, room);
  }

  lemma Skips(w: nat, g: nat, step: nat, k: nat, top: nat, best: nat, room: nat)
    requires 0 < w <= INT_MAX && 0 < g <= INT_MAX && 0 < best <= top <= INT_MAX && room <= INT_MAX
    requires step == g / w && step >= 2 && top == (k + 1) * step && best == k * step + 1 && room == k * g
    requires w * best <= room < w * top
    ensures !FindsBest(RoomFor(w, g, top, room), 0, ThreadDim(1, 1, 1), 1)
  {
    OneWarp(w, g, top, room, top);
    OneWarp(w, g, top, room, best);
    RoundUpIsLeastMultiple(w * top, g, k);
    RoundUpIsLeastMultiple(w * best, g, k);
    // From the top value the search goes on below the best one.
    FloorIsGreatest(top - 1, step, k);
    FloorIsGreatest(top - 1, step, k + 1);
    assert (top - 1) / step == k;
    SearchStaysBelow(RoomFor(w, g, top, room), 0, ThreadDim(1, 1, 1), 1, k * step);
  }

  lemma Quotient(g: nat, w: nat)
    requires 0 < w <= g <= INT_MAX && !StepIsSafe(w, g)
    ensures g == (g / w) * w + g % w && 2 <= g / w <= g && 0 < g % w < w
  {
    var step := g / w;
    assert g == step * w + g % w;
    FloorIsGreatest(g, w, 1);
    Times(1, w, step);
  }

  lemma Bounded(w: nat, g: nat, step: nat, k: nat)
    requires 0 < g && 0 < k <= w && step <= g && w * g + g <= INT_MAX
    ensures (k + 1) * step <= INT_MAX && k * g <= INT_MAX && w <= INT_MAX && g <= INT_MAX
  {
    Times(k, w, g);
    Times(step, g, k + 1);
    Times(k + 1, w + 1, g);
    assert (w + 1) * g == w * g + g;
    Times(1, g, w);
  }

  /** A device with room for one block of one warp that is allocated at most so many registers. */
  function RoomFor(w: nat, g: nat, top: nat, room: nat): Device {
    Device(top, w, 1, g, room, 0, 1, 1, w, 0)
  }

  lemma OneWarp(w: nat, g: nat, top: nat, room: nat, r: nat)
    requires 0 < w <= INT_MAX && 0 < g <= INT_MAX && 0 < r <= top <= INT_MAX && room <= INT_MAX
    ensures CalculateOccupancy(RoomFor(w, g, top, room), r, 0, ThreadDim(1, 1, 1)) >= 1 <==> RoundUp(w * r, g) <= room
  {
    var d, dims := RoomFor(w, g, top, room), ThreadDim(1, 1, 1);
    OccupancyIsGreatestFit(d, r, 0, dims, 1);
    CeilIsLeast(1, w, 1);
    CeilIsLeast(1, w, 0);
    assert WarpsPerBlock(d, dims) == 1;
    assert RoundUp(1, 1) == 1 && RoundUp(0, 1) == 0;
  }

  /** The register limit is one that the search's counter can hold. */
  predicate OfKind(d: Device, w: nat, g: nat) {
    WellFormed(d) && d.threadsPerWarp == w && d.registerAllocGranularity == g && d.registersPerThreadLimit <= INT_MAX
  }

  /** The search finds the best number of registers, for every device of this warp size and granularity and every
      input, if and only if the step is safe. */
  lemma SearchFindsBestIff(w: nat, g: nat)
    requires 0 < w && 0 < g && w * g + g <= INT_MAX
    ensures StepIsSafe(w, g) <==>
            forall d: Device, sharedMemory: nat, dims: ThreadDim, target: nat |
              OfKind(d, w, g) && Threads(dims) > 0 ::
              FindsBest(d, sharedMemory, dims, target)
  {
    if StepIsSafe(w, g) {
      forall d: Device, sharedMemory: nat, dims: ThreadDim, target: nat |
        OfKind(d, w, g) && Threads(dims) > 0
        ensures FindsBest(d, sharedMemory, dims, target)
      {
        SafeSearchFindsBest(d, sharedMemory, dims, target, d.registersPerThreadLimit);
      }
    } else {
      var d := UnsafeSearchFails(w, g);
      assert Threads(ThreadDim(1, 1, 1)) == 1 && !FindsBest(d, 0, ThreadDim(1, 1, 1), 1);
    }
  }
}
