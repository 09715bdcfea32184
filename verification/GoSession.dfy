/** The Run/Close protocol of the Go Session: a handle, a mutex and a WaitGroup shared by any number of
    goroutines, each making any number of Run and Close calls.

    `faulted` is set by a use of a nil handle or of a deleted C session, by deleting a C session that a Run is
    inside of, or by driving the WaitGroup below zero (which panics in Go). */
module GoSession {
  import opened Wrappers

  /** Where a goroutine is. Every constructor but `Idle` is inside a call. */
  datatype Pc =
    | Idle
    // Run
    | RunWantsLock | RunLocked | RunRefused | RunAdded | RunInFlight | RunInC | RunReturning
    // Close
    | CloseWantsLock | CloseWaiting | CloseChecking | CloseClosing | CloseDeleting | CloseClearing | CloseUnlocking

  /** `handle` is `s.c != nil`; `deletes` counts calls of TF_DeleteSessionWithGraph. */
  datatype State = State(handle: bool, deletes: nat, mu: Option<nat>, wg: int, pcs: seq<Pc>, faulted: bool)

  datatype Step =
    | BeginRun(t: nat)
    | BeginClose(t: nat)
    | Advance(t: nat, closeOk: bool)  // closeOk: what TF_CloseSessionWithGraph answers, where it is called

  ghost predicate Initial(s: State) {
    s.handle && s.deletes == 0 && s.mu.None? && s.wg == 0 && !s.faulted && forall i | 0 <= i < |s.pcs| :: s.pcs[i] == Idle
  }

  /** A goroutine blocks on a mutex that is taken, and in wg.Wait() while the counter is positive. */
  predicate Enabled(s: State, x: Step) {
    && x.t < |s.pcs|
    && match x
       case BeginRun(t) => s.pcs[t].Idle?
       case BeginClose(t) => s.pcs[t].Idle?
       case Advance(t, _) =>
         match s.pcs[t]
         case Idle => false
         case RunWantsLock | CloseWantsLock => s.mu.None?
         case CloseWaiting => s.wg <= 0
         case _ => true
  }

  function Apply(s: State, x: Step): State
    requires Enabled(s, x)
  {
    match x
    case BeginRun(t) => s.(pcs := s.pcs[t := RunWantsLock])
    case BeginClose(t) => s.(pcs := s.pcs[t := CloseWantsLock])
    case Advance(t, closeOk) =>
      match s.pcs[t]
      case RunWantsLock => s.(mu := Some(t), pcs := s.pcs[t := RunLocked])
      case RunLocked =>
        if !s.handle then s.(pcs := s.pcs[t := RunRefused])
        else s.(wg := s.wg + 1, pcs := s.pcs[t := RunAdded])
      case RunRefused => s.(mu := None, pcs := s.pcs[t := Idle])
      case RunAdded => s.(mu := None, pcs := s.pcs[t := RunInFlight])
      case RunInFlight => s.(faulted := s.faulted || !s.handle || s.deletes > 0, pcs := s.pcs[t := RunInC])
      case RunInC => s.(faulted := s.faulted || s.deletes > 0, pcs := s.pcs[t := RunReturning])
      case RunReturning => s.(faulted := s.faulted || s.wg <= 0, wg := s.wg - 1, pcs := s.pcs[t := Idle])
      case CloseWantsLock => s.(mu := Some(t), pcs := s.pcs[t := CloseWaiting])
      case CloseWaiting => s.(pcs := s.pcs[t := CloseChecking])
      case CloseChecking => s.(pcs := s.pcs[t := if s.handle then CloseClosing else CloseUnlocking])
      case CloseClosing =>
        s.(faulted := s.faulted || s.deletes > 0, pcs := s.pcs[t := if closeOk then CloseDeleting else CloseUnlocking])
      case CloseDeleting =>
        s.(faulted := s.faulted || s.deletes > 0 || RunInC in s.pcs, deletes := s.deletes + 1, pcs := s.pcs[t := CloseClearing])
      case CloseClearing => s.(handle := false, pcs := s.pcs[t := CloseUnlocking])
      case CloseUnlocking => s.(mu := None, pcs := s.pcs[t := Idle])
  }

  ghost predicate Follows(trace: seq<State>, steps: seq<Step>) {
    && |trace| == |steps| + 1
    && forall i :: 0 <= i < |steps| ==> Enabled(trace[i], steps[i]) && trace[i + 1] == Apply(trace[i], steps[i])
  }

  ghost predicate Run(trace: seq<State>, steps: seq<Step>) {
    Follows(trace, steps) && Initial(trace[0])
  }

  // ---------- the invariant ----------

  predicate HoldsMutex(pc: Pc) {
    pc.RunLocked? || pc.RunRefused? || pc.RunAdded? || InClose(pc)
  }

  /** Close has the mutex. */
  predicate InClose(pc: Pc) {
    pc.CloseWaiting? || PastWait(pc)
  }

  /** wg.Wait() has returned and the mutex is still held. */
  predicate PastWait(pc: Pc) {
    pc.CloseChecking? || pc.CloseClosing? || pc.CloseDeleting? || pc.CloseClearing? || pc.CloseUnlocking?
  }

  /** Between wg.Add(1) and wg.Done(). */
  predicate InFlight(pc: Pc) {
    pc.RunAdded? || pc.RunInFlight? || pc.RunInC? || pc.RunReturning?
  }

  /** The sum of a weight over all goroutines. */
  function Total(pcs: seq<Pc>, weight: Pc -> nat): nat {
    if pcs == [] then 0 else Total(pcs[..|pcs| - 1], weight) + weight(pcs[|pcs| - 1])
  }

  function FlightWeight(pc: Pc): nat {
    if InFlight(pc) then 1 else 0
  }

  ghost predicate ThreadInv(s: State, t: nat)
    requires t < |s.pcs|
  {
    var pc := s.pcs[t];
    && (HoldsMutex(pc) <==> s.mu == Some(t))
    && (PastWait(pc) ==> s.wg == 0)
    && (InFlight(pc) || pc.CloseClosing? || pc.CloseDeleting? || pc.CloseClearing? ==> s.handle)
    && (pc.RunRefused? ==> !s.handle)
  }

  /** The C session has been deleted exactly when the handle is nil, or is about to be set to nil. */
  ghost predicate HandleInv(s: State) {
    && (s.mu.Some? ==> s.mu.value < |s.pcs|)
    && s.deletes == (if s.handle && (s.mu.None? || !s.pcs[s.mu.value].CloseClearing?) then 0 else 1)
    && (!s.handle ==> s.wg == 0)
  }

  ghost predicate Inv(s: State) {
    && !s.faulted
    && s.wg == Total(s.pcs, FlightWeight)
    && HandleInv(s)
    && forall t | 0 <= t < |s.pcs| :: ThreadInv(s, t)
  }

  lemma {:induction false} TotalUpdate(pcs: seq<Pc>, t: nat, pc: Pc, weight: Pc -> nat)
    requires t < |pcs|
    ensures Total(pcs[t := pc], weight) == Total(pcs, weight) - weight(pcs[t]) + weight(pc)
    ensures Total(pcs, weight) >= weight(pcs[t])
  {
    var last := |pcs| - 1;
    if t == last {
      assert pcs[t := pc][..last] == pcs[..last];
    } else {
      TotalUpdate(pcs[..last], t, pc, weight);
      assert pcs[t := pc][..last] == pcs[..last][t := pc];
    }
  }

  lemma {:induction false} TotalZero(pcs: seq<Pc>, weight: Pc -> nat)
    requires forall i | 0 <= i < |pcs| :: weight(pcs[i]) == 0
    ensures Total(pcs, weight) == 0
  {
    if pcs != [] { TotalZero(pcs[..|pcs| - 1], weight); }
  }

  /** A goroutine in flight keeps the WaitGroup's counter positive. */
  lemma FlightCounts(s: State, t: nat)
    requires s.wg == Total(s.pcs, FlightWeight) && t < |s.pcs| && InFlight(s.pcs[t])
    ensures s.wg >= 1
  {
    TotalUpdate(s.pcs, t, s.pcs[t], FlightWeight);
  }

  /** One goroutine moves in a step. */
  lemma OneMoves(s: State, x: Step)
    requires Enabled(s, x)
    ensures |Apply(s, x).pcs| == |s.pcs| && Apply(s, x).pcs == s.pcs[x.t := Apply(s, x).pcs[x.t]]
  {
  }

  /** The counter goes up when a goroutine takes off, and down when it lands. */
  lemma CounterFollows(s: State, x: Step)
    requires Enabled(s, x) && |Apply(s, x).pcs| == |s.pcs|
    ensures Apply(s, x).wg - s.wg == FlightWeight(Apply(s, x).pcs[x.t]) - FlightWeight(s.pcs[x.t])
  {
  }

  lemma CountKept(s: State, x: Step)
    requires s.wg == Total(s.pcs, FlightWeight) && Enabled(s, x)
    ensures Apply(s, x).wg == Total(Apply(s, x).pcs, FlightWeight)
    ensures s.wg >= FlightWeight(s.pcs[x.t])
  {
    OneMoves(s, x);
    CounterFollows(s, x);
    TotalUpdate(s.pcs, x.t, Apply(s, x).pcs[x.t], FlightWeight);
  }

  lemma StepKeepsInv(s: State, x: Step)
    requires Inv(s) && Enabled(s, x)
    ensures Inv(Apply(s, x))
  {
    var n := Apply(s, x);
    CountKept(s, x);
    assert ThreadInv(s, x.t);
    if RunInC in s.pcs {
      var t :| 0 <= t < |s.pcs| && s.pcs[t] == RunInC;
      FlightCounts(s, t);
    }
    if InFlight(s.pcs[x.t]) { FlightCounts(s, x.t); }
    if s.mu.Some? { assert ThreadInv(s, s.mu.value); }
    assert !n.faulted && HandleInv(n);
    forall t | 0 <= t < |n.pcs| ensures ThreadInv(n, t) {
      ThreadKept(s, x, t);
    }
  }

  lemma ThreadKept(s: State, x: Step, t: nat)
    requires Inv(s) && Enabled(s, x) && t < |s.pcs|
    ensures ThreadInv(Apply(s, x), t)
  {
    assert ThreadInv(s, t) && ThreadInv(s, x.t);
    if InFlight(s.pcs[t]) { FlightCounts(s, t); }
    if InFlight(s.pcs[x.t]) { FlightCounts(s, x.t); }
    if t == x.t {
      ActorKept(s, x);
    } else {
      BystanderKept(s, x, t);
    }
  }

  lemma ActorKept(s: State, x: Step)
    requires Enabled(s, x) && ThreadInv(s, x.t) && s.wg >= 0
    ensures ThreadInv(Apply(s, x), x.t)
  {
  }

  lemma BystanderKept(s: State, x: Step, t: nat)
    requires Enabled(s, x) && t < |s.pcs| && t != x.t && ThreadInv(s, t) && ThreadInv(s, x.t)
    requires InFlight(s.pcs[t]) ==> s.wg >= 1
    requires InFlight(s.pcs[x.t]) ==> s.wg >= 1
    ensures ThreadInv(Apply(s, x), t)
  {
  }

  lemma {:induction false} RunKeepsInv(trace: seq<State>, steps: seq<Step>, i: nat)
    requires Run(trace, steps) && i < |trace|
    ensures Inv(trace[i])
    decreases i
  {
    if i == 0 {
      TotalZero(trace[0].pcs, FlightWeight);
    } else {
      RunKeepsInv(trace, steps, i - 1);
      StepKeepsInv(trace[i - 1], steps[i - 1]);
    }
  }

  /** A fault is a use of a C session that is nil, deleted, or, to delete it, in use, and a count below zero. */
  lemma FaultsAreNoticed(s: State, t: nat, closeOk: bool)
    requires Enabled(s, Advance(t, closeOk))
    ensures var pc := s.pcs[t];
            Apply(s, Advance(t, closeOk)).faulted <==>
              || s.faulted
              || (s.deletes > 0 && (pc.RunInFlight? || pc.RunInC? || pc.CloseClosing? || pc.CloseDeleting?))
              || (pc.RunInFlight? && !s.handle)
              || (pc.CloseDeleting? && exists u :: 0 <= u < |s.pcs| && s.pcs[u].RunInC?)
              || (pc.RunReturning? && s.wg <= 0)
  {
  }

  // ---------- what every run keeps ----------

  /** No Run uses a nil handle or a deleted C session, and no Close deletes one under a Run. */
  lemma NeverFaults(trace: seq<State>, steps: seq<Step>, i: nat)
    requires Run(trace, steps) && i < |trace|
    ensures !trace[i].faulted
    ensures forall t | 0 <= t < |trace[i].pcs| && InFlight(trace[i].pcs[t]) :: trace[i].handle && trace[i].deletes == 0
  {
    RunKeepsInv(trace, steps, i);
    var s := trace[i];
    forall t | 0 <= t < |s.pcs| && InFlight(s.pcs[t]) ensures s.handle && s.deletes == 0 {
      assert ThreadInv(s, t);
      FlightCounts(s, t);
      if s.mu.Some? { assert ThreadInv(s, s.mu.value); }
    }
  }

  /** What the steps that use the C session or count down the WaitGroup find: a session that is set and has not been deleted,
      a counter that is positive, and, where the session is deleted, no Run inside it. */
  lemma StepsFindTheSession(trace: seq<State>, steps: seq<Step>, i: nat, t: nat)
    requires Run(trace, steps) && i < |trace| && t < |trace[i].pcs|
    ensures var s, pc := trace[i], trace[i].pcs[t];
            && (InFlight(pc) ==> s.handle && s.deletes == 0 && s.wg > 0)
            && (pc.CloseClosing? || pc.CloseDeleting? ==> s.handle && s.deletes == 0 && forall pc | pc in s.pcs :: !InFlight(pc))
  {
    NeverFaults(trace, steps, i);
    RunKeepsInv(trace, steps, i);
    var s := trace[i];
    assert ThreadInv(s, t);
    if InFlight(s.pcs[t]) { FlightCounts(s, t); }
    if s.pcs[t].CloseClosing? || s.pcs[t].CloseDeleting? {
      forall pc | pc in s.pcs ensures !InFlight(pc) {
        var u :| 0 <= u < |s.pcs| && s.pcs[u] == pc;
        if InFlight(pc) { FlightCounts(s, u); }
      }
    }
  }

  /** However many Close calls there are, and whether or not TF_CloseSessionWithGraph fails in them, the C
      session is deleted at most once; the handle is nil only after that, and stays nil with no Run in flight. */
  lemma DeletedAtMostOnce(trace: seq<State>, steps: seq<Step>, i: nat, j: nat)
    requires Run(trace, steps) && i <= j < |trace|
    ensures trace[i].deletes <= trace[j].deletes <= 1
    ensures !trace[i].handle ==> trace[i].deletes == 1
    ensures !trace[i].handle ==> !trace[j].handle && trace[j].wg == 0 && forall t | 0 <= t < |trace[j].pcs| :: !InFlight(trace[j].pcs[t])
    decreases j
  {
    RunKeepsInv(trace, steps, j);
    if i < j {
      DeletedAtMostOnce(trace, steps, i, j - 1);
    }
    forall t | 0 <= t < |trace[j].pcs| && InFlight(trace[j].pcs[t]) ensures trace[j].handle {
      FlightCounts(trace[j], t);
    }
  }

  /** How many steps a goroutine's call still has to take. */
  function Remaining(pc: Pc): nat {
    match pc
    case Idle => 0
    case RunWantsLock => 6
    case RunLocked => 5
    case RunRefused => 1
    case RunAdded => 4
    case RunInFlight => 3
    case RunInC => 2
    case RunReturning => 1
    case CloseWantsLock => 7
    case CloseWaiting => 6
    case CloseChecking => 5
    case CloseClosing => 4
    case CloseDeleting => 3
    case CloseClearing => 2
    case CloseUnlocking => 1
  }

  /** There is no deadlock: while some call is in progress, some call can take a step. A Close that waits for
      the WaitGroup holds the mutex, and the goroutines it waits for do not need it. */
  lemma SomeCallCanProceed(s: State, t: nat) returns (u: nat)
    requires Inv(s) && t < |s.pcs| && !s.pcs[t].Idle?
    ensures forall ok :: Enabled(s, Advance(u, ok))
  {
    if forall ok :: Enabled(s, Advance(t, ok)) {
      u := t;
    } else {
      assert ThreadInv(s, t);
      u := if s.pcs[t].CloseWaiting? then t else s.mu.value;
      assert ThreadInv(s, u);
      if s.pcs[u].CloseWaiting? && s.wg > 0 {
        u := SomeoneInFlight(s.pcs);
        assert ThreadInv(s, u);
      }
    }
  }

  lemma {:induction false} SomeoneInFlight(pcs: seq<Pc>) returns (u: nat)
    requires Total(pcs, FlightWeight) > 0
    ensures u < |pcs| && InFlight(pcs[u])
  {
    u := |pcs| - 1;
    if !InFlight(pcs[u]) {
      u := SomeoneInFlight(pcs[..|pcs| - 1]);
    }
  }

  /** No call in progress can take a step. */
  ghost predicate Stuck(s: State) {
    forall t, ok :: !Enabled(s, Advance(t, ok))
  }

  ghost predicate NoCallInProgress(s: State) {
    forall t | 0 <= t < |s.pcs| :: s.pcs[t].Idle?
  }

  lemma StuckMeansNoCallInProgress(s: State)
    requires Inv(s)
    ensures Stuck(s) ==> NoCallInProgress(s)
  {
    if t: nat :| t < |s.pcs| && !s.pcs[t].Idle? {
      var u := SomeCallCanProceed(s, t);
      assert Enabled(s, Advance(u, true));
    }
  }

  lemma CallComesCloser(s: State, x: Step)
    requires Enabled(s, x) && x.Advance? && |Apply(s, x).pcs| == |s.pcs|
    ensures Remaining(Apply(s, x).pcs[x.t]) < Remaining(s.pcs[x.t])
  {
  }

  lemma AdvanceShrinksWork(s: State, x: Step)
    requires Enabled(s, x) && x.Advance?
    ensures Total(Apply(s, x).pcs, Remaining) < Total(s.pcs, Remaining)
  {
    OneMoves(s, x);
    CallComesCloser(s, x);
    TotalUpdate(s.pcs, x.t, Apply(s, x).pcs[x.t], Remaining);
  }

  /** From any reachable state the calls in progress all return: without new calls a run is at most as long as
      the work that is left, and it only stops once no call is in progress. */
  lemma {:induction false} CallsReturn(trace: seq<State>, steps: seq<Step>, i: nat)
    requires Follows(trace, steps) && Inv(trace[0]) && i <= |steps|
    requires forall k | 0 <= k < |steps| :: steps[k].Advance?
    ensures Inv(trace[i]) && i + Total(trace[i].pcs, Remaining) <= Total(trace[0].pcs, Remaining)
    ensures Stuck(trace[i]) ==> NoCallInProgress(trace[i])
    decreases i
  {
    if i > 0 {
      CallsReturn(trace, steps, i - 1);
      StepKeepsInv(trace[i - 1], steps[i - 1]);
      AdvanceShrinksWork(trace[i - 1], steps[i - 1]);
    }
    StuckMeansNoCallInProgress(trace[i]);
  }

  // ---------- what a Close waits for ----------

  /** Past its wait, a Close has no Run beside it. */
  lemma NoRunBesideClose(s: State, t: nat)
    requires Inv(s) && t < |s.pcs| && PastWait(s.pcs[t])
    ensures forall u | 0 <= u < |s.pcs| :: !InFlight(s.pcs[u])
  {
    assert ThreadInv(s, t);
    forall u | 0 <= u < |s.pcs| ensures !InFlight(s.pcs[u]) {
      if InFlight(s.pcs[u]) { FlightCounts(s, u); }
    }
  }

  lemma LandsOrFlies(s: State, x: Step, u: nat)
    requires Enabled(s, x) && u < |s.pcs| == |Apply(s, x).pcs| && InFlight(s.pcs[u])
    ensures InFlight(Apply(s, x).pcs[u]) || (Apply(s, x).pcs[u].Idle? && x.Advance? && x.t == u)
  {
  }

  /** Close blocks until all previous calls of Run have returned: a Run that was in flight at any time before a Close got
      past its wait has returned in between. */
  lemma {:induction false} CloseWaitsForRun(trace: seq<State>, steps: seq<Step>, i: nat, j: nat, u: nat, t: nat) returns (k: nat)
    requires Run(trace, steps) && i <= j < |trace| && u < |trace[i].pcs| && t < |trace[j].pcs|
    requires InFlight(trace[i].pcs[u]) && PastWait(trace[j].pcs[t])
    ensures i < k <= j && u < |trace[k].pcs| && trace[k].pcs[u].Idle? && steps[k - 1].Advance? && steps[k - 1].t == u
    decreases j - i
  {
    RunKeepsInv(trace, steps, i);
    if i == j {
      NoRunBesideClose(trace[i], t);
      assert false;
    } else {
      OneMoves(trace[i], steps[i]);
      LandsOrFlies(trace[i], steps[i], u);
      if trace[i + 1].pcs[u].Idle? {
        k := i + 1;
      } else {
        k := CloseWaitsForRun(trace, steps, i + 1, j, u, t);
      }
    }
  }

  /** The steps left of the calls that a Close which has the mutex can have beside it, and of itself. */
  function ClosingWork(pc: Pc): nat {
    if InFlight(pc) || InClose(pc) then Remaining(pc) else 0
  }

  /** While a Close has the mutex, only Runs in flight and the Close itself can go on. */
  lemma OnlyClosingWork(s: State, x: Step, t: nat)
    requires Inv(s) && Enabled(s, x) && t < |s.pcs| && InClose(s.pcs[t])
    ensures x.Advance? ==> InFlight(s.pcs[x.t]) || x.t == t
  {
    assert ThreadInv(s, t) && ThreadInv(s, x.t);
  }

  lemma ClosingWorkOfOne(s: State, x: Step)
    requires Enabled(s, x) && |Apply(s, x).pcs| == |s.pcs|
    requires x.Advance? ==> InFlight(s.pcs[x.t]) || InClose(s.pcs[x.t])
    ensures x.Advance? ==> ClosingWork(Apply(s, x).pcs[x.t]) < ClosingWork(s.pcs[x.t])
    ensures !x.Advance? ==> ClosingWork(Apply(s, x).pcs[x.t]) == ClosingWork(s.pcs[x.t])
  {
  }

  lemma ClosingWorkShrinks(s: State, x: Step, t: nat)
    requires Inv(s) && Enabled(s, x) && t < |s.pcs| && InClose(s.pcs[t])
    ensures x.Advance? ==> Total(Apply(s, x).pcs, ClosingWork) < Total(s.pcs, ClosingWork)
    ensures !x.Advance? ==> Total(Apply(s, x).pcs, ClosingWork) == Total(s.pcs, ClosingWork)
  {
    OneMoves(s, x);
    OnlyClosingWork(s, x, t);
    ClosingWorkOfOne(s, x);
    TotalUpdate(s.pcs, x.t, Apply(s, x).pcs[x.t], ClosingWork);
  }

  /** How many of the steps from i to j are steps of calls, and not the beginning of one. */
  function Advances(steps: seq<Step>, i: nat, j: nat): nat
    requires i <= j <= |steps|
  {
    if i == j then 0 else Advances(steps, i, j - 1) + if steps[j - 1].Advance? then 1 else 0
  }

  /** While a Close has the mutex there is a call that can go on: its own, or a Run in flight. */
  lemma CloseCanProceed(s: State, t: nat) returns (u: nat)
    requires Inv(s) && t < |s.pcs| && InClose(s.pcs[t])
    ensures u < |s.pcs| && (u == t || InFlight(s.pcs[u])) && forall ok :: Enabled(s, Advance(u, ok))
  {
    u := SomeCallCanProceed(s, t);
    assert Enabled(s, Advance(u, true));
    OnlyClosingWork(s, Advance(u, true), t);
  }

  /** From state i to state j a Close keeps the mutex. */
  ghost predicate ClosesThroughout(trace: seq<State>, i: nat, j: nat, t: nat) {
    i <= j < |trace| && forall k | i <= k <= j :: t < |trace[k].pcs| && InClose(trace[k].pcs[t])
  }

  lemma ClosingWorkOfStep(trace: seq<State>, steps: seq<Step>, j: nat, t: nat)
    requires Run(trace, steps) && 0 < j < |trace| && t < |trace[j - 1].pcs| && InClose(trace[j - 1].pcs[t])
    ensures WorkAt(trace, j) + (if steps[j - 1].Advance? then 1 else 0) <= WorkAt(trace, j - 1)
  {
    RunKeepsInv(trace, steps, j - 1);
    ClosingWorkShrinks(trace[j - 1], steps[j - 1], t);
  }

  function WorkAt(trace: seq<State>, i: nat): nat
    requires i < |trace|
  {
    Total(trace[i].pcs, ClosingWork)
  }

  lemma {:induction false} ClosingWorkRunsOut(trace: seq<State>, steps: seq<Step>, i: nat, j: nat, t: nat)
    requires Run(trace, steps) && ClosesThroughout(trace, i, j, t)
    ensures Advances(steps, i, j) + WorkAt(trace, j) <= WorkAt(trace, i)
    decreases j
  {
    if i < j {
      ClosingWorkRunsOut(trace, steps, i, j - 1, t);
      ClosingWorkOfStep(trace, steps, j, t);
    }
  }

  /** A Close that has the mutex returns, however many calls of Run and Close begin meanwhile: as long as it has not, fewer
      steps of calls have been taken since than there was work when it was first seen there, and some call of those that
      count can take the next. */
  lemma CloseReturns(trace: seq<State>, steps: seq<Step>, i: nat, j: nat, t: nat) returns (u: nat)
    requires Run(trace, steps) && ClosesThroughout(trace, i, j, t)
    ensures Advances(steps, i, j) < WorkAt(trace, i)
    ensures u < |trace[j].pcs| && (u == t || InFlight(trace[j].pcs[u])) && forall ok :: Enabled(trace[j], Advance(u, ok))
  {
    RunKeepsInv(trace, steps, j);
    ClosingWorkRunsOut(trace, steps, i, j, t);
    TotalUpdate(trace[j].pcs, t, trace[j].pcs[t], ClosingWork);
    u := CloseCanProceed(trace[j], t);
  }

  // ---------- what calls do ----------

  /** What a goroutine's last call has done: whether it found the handle set, how often a Run has returned from the C
      session's run, and what TF_CloseSessionWithGraph has answered a Close. */
  datatype Call = NoCall | RunCall(found: Option<bool>, ran: nat) | CloseCall(found: Option<bool>, answer: Option<bool>)

  function Recorded(c: Call, s: State, x: Step): Call
    requires x.t < |s.pcs|
  {
    match x
    case BeginRun(_) => RunCall(None, 0)
    case BeginClose(_) => CloseCall(None, None)
    case Advance(t, closeOk) =>
      if s.pcs[t].RunLocked? && c.RunCall? then RunCall(Some(s.handle), c.ran)
      else if s.pcs[t].RunInC? && c.RunCall? then RunCall(c.found, c.ran + 1)
      else if s.pcs[t].CloseChecking? && c.CloseCall? then CloseCall(Some(s.handle), c.answer)
      else if s.pcs[t].CloseClosing? && c.CloseCall? then CloseCall(c.found, Some(closeOk))
      else c
  }

  function CallOf(trace: seq<State>, steps: seq<Step>, m: nat, t: nat): Call
    requires m <= |steps| <= |trace| && forall k | 0 <= k < m :: steps[k].t < |trace[k].pcs|
  {
    if m == 0 then NoCall
    else if steps[m - 1].t != t then CallOf(trace, steps, m - 1, t)
    else Recorded(CallOf(trace, steps, m - 1, t), trace[m - 1], steps[m - 1])
  }

  /** What a call has done when the goroutine is there, and the handle and the deletions where nobody else can change them. */
  ghost predicate DoneBy(s: State, t: nat, c: Call)
    requires t < |s.pcs|
  {
    match s.pcs[t]
    case Idle => c.NoCall? || c == RunCall(Some(true), 1) || c == RunCall(Some(false), 0) || (c.CloseCall? && c.found.Some?)
    case RunWantsLock | RunLocked => c == RunCall(None, 0)
    case RunRefused => c == RunCall(Some(false), 0)
    case RunAdded | RunInFlight | RunInC => c == RunCall(Some(true), 0)
    case RunReturning => c == RunCall(Some(true), 1)
    case CloseWantsLock | CloseWaiting | CloseChecking => c == CloseCall(None, None)
    case CloseClosing => c == CloseCall(Some(true), None) && s.handle && s.deletes == 0
    case CloseDeleting => c == CloseCall(Some(true), Some(true)) && s.handle && s.deletes == 0
    case CloseClearing => c == CloseCall(Some(true), Some(true)) && s.handle && s.deletes == 1
    case CloseUnlocking => CloseDone(s, c)
  }

  /** A Close that finds the handle set deletes the C session and clears the handle if and only if closing has succeeded; one
      that does not find it set closes nothing. */
  ghost predicate CloseDone(s: State, c: Call) {
    || (c == CloseCall(Some(true), Some(true)) && !s.handle && s.deletes == 1)
    || (c == CloseCall(Some(true), Some(false)) && s.handle && s.deletes == 0)
    || (c == CloseCall(Some(false), None) && !s.handle && s.deletes == 1)
  }

  lemma ActorDoes(s: State, x: Step, c: Call)
    requires Enabled(s, x) && DoneBy(s, x.t, c) && ThreadInv(s, x.t) && HandleInv(s)
    ensures DoneBy(Apply(s, x), x.t, Recorded(c, s, x))
  {
  }

  /** While a goroutine has the mutex nobody else changes the handle or deletes the session. */
  lemma BystanderChangesNothing(s: State, x: Step, t: nat)
    requires Enabled(s, x) && t < |s.pcs| && t != x.t && ThreadInv(s, t) && ThreadInv(s, x.t)
    ensures |Apply(s, x).pcs| == |s.pcs| && Apply(s, x).pcs[t] == s.pcs[t]
    ensures InClose(s.pcs[t]) ==> Apply(s, x).handle == s.handle && Apply(s, x).deletes == s.deletes
  {
  }

  lemma {:induction false} CallsDo(trace: seq<State>, steps: seq<Step>, m: nat, t: nat)
    requires Run(trace, steps) && m < |trace| && t < |trace[m].pcs|
    ensures DoneBy(trace[m], t, CallOf(trace, steps, m, t))
    decreases m
  {
    if m > 0 {
      var s, x := trace[m - 1], steps[m - 1];
      RunKeepsInv(trace, steps, m - 1);
      OneMoves(s, x);
      CallsDo(trace, steps, m - 1, t);
      assert ThreadInv(s, t) && ThreadInv(s, x.t);
      if x.t == t {
        ActorDoes(s, x, CallOf(trace, steps, m - 1, t));
      } else {
        BystanderChangesNothing(s, x, t);
      }
    }
  }

  ghost predicate ReturnsAt(trace: seq<State>, m: nat, t: nat) {
    && 0 < m < |trace| && t < |trace[m - 1].pcs| && t < |trace[m].pcs|
    && !trace[m - 1].pcs[t].Idle? && trace[m].pcs[t].Idle?
  }

  lemma ReturnStep(s: State, x: Step, t: nat, c: Call)
    requires Enabled(s, x) && t < |s.pcs| == |Apply(s, x).pcs| && !s.pcs[t].Idle? && Apply(s, x).pcs[t].Idle?
    requires DoneBy(s, t, c)
    ensures x.t == t && Recorded(c, s, x) == c
    ensures c == RunCall(Some(true), 1) || c == RunCall(Some(false), 0) || CloseDone(Apply(s, x), c)
  {
  }

  /** When a Run returns it has run the C session once, or found the handle nil and not run it. When a Close returns, having
      found the handle set, the session is deleted and the handle is nil if closing has succeeded, and nothing has been
      changed if not; having found it nil, nothing has been changed. */
  lemma CallHasDone(trace: seq<State>, steps: seq<Step>, m: nat, t: nat)
    requires Run(trace, steps) && ReturnsAt(trace, m, t)
    ensures var c := CallOf(trace, steps, m, t);
            c == RunCall(Some(true), 1) || c == RunCall(Some(false), 0) || CloseDone(trace[m], c)
  {
    CallsDo(trace, steps, m - 1, t);
    OneMoves(trace[m - 1], steps[m - 1]);
    ReturnStep(trace[m - 1], steps[m - 1], t, CallOf(trace, steps, m - 1, t));
  }

  predicate Answered(c: Call, closeOk: bool) {
    c.CloseCall? && c.answer == Some(closeOk)
  }

  lemma AnswerStep(s: State, x: Step, c: Call, closeOk: bool)
    requires Enabled(s, x) && DoneBy(s, x.t, c) && Answered(c, closeOk) && !s.pcs[x.t].Idle?
    ensures Answered(Recorded(c, s, x), closeOk)
  {
  }

  lemma {:induction false} AnswerIsKept(trace: seq<State>, steps: seq<Step>, k: nat, m: nat, t: nat)
    requires Run(trace, steps) && k < m < |trace| && t < |trace[k].pcs| && steps[k].Advance? && steps[k].t == t
    requires trace[k].pcs[t].CloseClosing?
    requires forall j | k < j < m :: t < |trace[j].pcs| && !trace[j].pcs[t].Idle?
    ensures Answered(CallOf(trace, steps, m, t), steps[k].closeOk)
    decreases m
  {
    var s, x := trace[m - 1], steps[m - 1];
    CallsDo(trace, steps, m - 1, t);
    if m - 1 > k {
      AnswerIsKept(trace, steps, k, m - 1, t);
      if x.t == t {
        AnswerStep(s, x, CallOf(trace, steps, m - 1, t), steps[k].closeOk);
      }
    }
  }

  /** From TF_CloseSessionWithGraph on: when the Close returns, the handle is nil and the C session has been deleted once if
      and only if it answered that all is well; otherwise both are as they were. */
  lemma CloseOutcome(trace: seq<State>, steps: seq<Step>, k: nat, m: nat, t: nat)
    requires Run(trace, steps) && k < m && ReturnsAt(trace, m, t) && t < |trace[k].pcs|
    requires trace[k].pcs[t].CloseClosing? && steps[k].Advance? && steps[k].t == t
    requires forall j | k < j < m :: t < |trace[j].pcs| && !trace[j].pcs[t].Idle?
    ensures !trace[m].handle && trace[m].deletes == 1 <==> steps[k].closeOk
    ensures !steps[k].closeOk ==> trace[m].handle == trace[k].handle && trace[m].deletes == trace[k].deletes
  {
    CallsDo(trace, steps, k, t);
    AnswerIsKept(trace, steps, k, m, t);
    CallHasDone(trace, steps, m, t);
  }

  /** A Close that finds a nil handle changes neither. */
  lemma CloseOfClosed(trace: seq<State>, steps: seq<Step>, m: nat, t: nat)
    requires Run(trace, steps) && ReturnsAt(trace, m, t)
    requires CallOf(trace, steps, m, t).CloseCall? && CallOf(trace, steps, m, t).found == Some(false)
    ensures CallOf(trace, steps, m, t).answer == None && !trace[m].handle && trace[m].deletes == 1
  {
    CallHasDone(trace, steps, m, t);
  }
}
