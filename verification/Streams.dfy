/** Streams of the executor: sticky errors, operations gated on them, and the pool of sub-streams.

    What the platform answers (whether an allocation, an operation or a drain succeeds) is a parameter. A failed CHECK
    or LOG(FATAL), which ends the process, is an outcome. */
module Streams {
  datatype Checked<+T> = Passed(value: T) | CheckFails

  /** `Relocks`: the thread locks a mutex again that it holds and that is not recursive, and does not get on. */
  datatype Drained = Returned(success: bool) | Relocks

  /** How a client refers to a stream: one that there was before, or a sub-stream by its place in the pool. */
  datatype Name = Existing(stream: Stream) | SubStreamAt(index: nat)

  datatype Operation =
    | Initialize(allocates: bool)
    | Blas(supported: bool, succeeds: bool)
    | Report(succeeded: bool)
    | WaitFor(name: Name, succeeds: bool)
    | Lend(allocates: bool)
    | TakeBack(name: Name)
    | Drain(drains: Stream -> bool)
    | OnSubStream(index: nat, operation: Operation)

  /** The operations that can fail a CHECK or lock a mutex twice. */
  predicate MayStop(operation: Operation) {
    match operation
    case Blas(_, _) | Report(_) => false
    case OnSubStream(_, onSubStream) => MayStop(onSubStream)
    case _ => true
  }

  /** What happens to the pool of sub-streams. */
  datatype Event = Nothing | Lent(stream: Stream) | TakenBack(stream: Stream) | AllDrained

  ghost predicate Records(operation: Operation, event: Event) {
    && (event.Lent? <==> operation.Lend?)
    && (event.TakenBack? ==> operation.TakeBack?)
    && (event.AllDrained? ==> operation.Drain?)
  }

  ghost function After(out: set<Stream>, event: Event): set<Stream> {
    match event
    case Nothing => out
    case Lent(stream) => out + {stream}
    case TakenBack(stream) => out - {stream}
    case AllDrained => {}
  }

  ghost function OutAfter(out: set<Stream>, events: seq<Event>): set<Stream> {
    if events == [] then out else After(OutAfter(out, events[..|events| - 1]), events[|events| - 1])
  }

  ghost predicate Possible(out: set<Stream>, event: Event) {
    event.Lent? ==> event.stream !in out
  }

  /** No sub-stream is lent that is out. */
  ghost predicate Lawful(out: set<Stream>, events: seq<Event>) {
    forall i | 0 <= i < |events| :: Possible(OutAfter(out, events[..i]), events[i])
  }

  lemma OneMoreEvent(out: set<Stream>, events: seq<Event>, event: Event)
    requires Lawful(out, events) && Possible(OutAfter(out, events), event)
    ensures Lawful(out, events + [event])
    ensures OutAfter(out, events + [event]) == After(OutAfter(out, events), event)
  {
    var all := events + [event];
    assert all[..|events|] == events;
    forall i | 0 <= i < |all| ensures Possible(OutAfter(out, all[..i]), all[i]) {
      if i < |events| {
        assert all[..i] == events[..i];
        assert Possible(OutAfter(out, events[..i]), events[i]);
      }
    }
  }

  /** A sub-stream is given up by a return of it, or by a drain that gets to its end. */
  ghost predicate GivenUp(event: Event, s: Stream) {
    event == TakenBack(s) || event == AllDrained
  }

  lemma {:induction false} StaysOut(out: set<Stream>, events: seq<Event>, i: nat, j: nat)
    requires i < j <= |events| && events[i].Lent?
    requires forall k | i < k < j :: !GivenUp(events[k], events[i].stream)
    ensures events[i].stream in OutAfter(out, events[..j])
  {
    assert events[..j][..j - 1] == events[..j - 1];
    if i < j - 1 {
      StaysOut(out, events, i, j - 1);
    }
  }

  /** Between two times that one sub-stream is lent it is given up. */
  lemma NeverLentTwice(out: set<Stream>, events: seq<Event>, i: nat, j: nat) returns (k: nat)
    requires Lawful(out, events) && i < j < |events|
    requires events[i].Lent? && events[j] == events[i]
    ensures i < k < j && GivenUp(events[k], events[i].stream)
  {
    assert Possible(OutAfter(out, events[..j]), events[j]);
    if forall k | i < k < j :: !GivenUp(events[k], events[i].stream) {
      StaysOut(out, events, i, j);
      assert false;
    }
    k :| i < k < j && GivenUp(events[k], events[i].stream);
  }

  ghost predicate LentInTurns(events: seq<Event>) {
    forall i, j | 0 <= i < j < |events| && events[i].Lent? && events[j] == events[i] ::
      exists k :: i < k < j && GivenUp(events[k], events[i].stream)
  }

  lemma LawfulMeansInTurns(out: set<Stream>, events: seq<Event>)
    requires Lawful(out, events)
    ensures LentInTurns(events)
  {
    forall i, j | 0 <= i < j < |events| && events[i].Lent? && events[j] == events[i]
      ensures exists k :: i < k < j && GivenUp(events[k], events[i].stream) {
      var k := NeverLentTwice(out, events, i, j);
    }
  }

  class Stream {
    var isAllocated: bool
    var ok: bool
    var subStreams: seq<Stream>
    var available: seq<bool>
    /** How many operations have reached the executor. */
    var issued: nat
    ghost var Repr: set<Stream>

    /** Streams own their sub-streams: they form a tree. */
    ghost predicate Valid()
      reads this, Repr
      decreases Repr
    {
      && this in Repr && |available| == |subStreams| && (ok ==> isAllocated)
      && (forall i | 0 <= i < |subStreams| ::
            subStreams[i] in Repr && subStreams[i].Repr < Repr && this !in subStreams[i].Repr && subStreams[i].Valid())
      && forall i, j | 0 <= i < j < |subStreams| :: subStreams[i].Repr !! subStreams[j].Repr
    }

    constructor ()
      ensures Valid() && fresh(Repr) && !isAllocated && !ok && subStreams == [] && issued == 0
    {
      isAllocated, ok, subStreams, available, issued := false, false, [], [], 0;
      Repr := {this};
    }

    /** A successful initialisation cannot be repeated, a failed one can. */
    method Init(allocates: bool) returns (outcome: Checked<()>)
      requires Valid()
      modifies `isAllocated, `ok
      ensures Valid()
      ensures outcome == if old(isAllocated) then CheckFails else Passed(())
      ensures outcome.Passed? ==> isAllocated == ok == allocates
      ensures outcome.CheckFails? ==> isAllocated == old(isAllocated) && ok == old(ok)
    {
      if isAllocated {
        return CheckFails;
      }
      if ok {
        return CheckFails;
      }
      if allocates {
        isAllocated, ok := true, true;
      }
      outcome := Passed(());
    }

    method CheckError(succeeded: bool)
      requires Valid()
      modifies `ok
      ensures Valid() && ok == (old(ok) && succeeded)
    {
      if succeeded {
        return;
      }
      ok := false;
    }

    /** What all operations of the BLAS wrapper are: `supported` says whether the executor has BLAS at all. */
    method ThenBlas(supported: bool, succeeds: bool)
      requires Valid()
      modifies `ok, `issued
      ensures Valid()
      ensures ok == (old(ok) && supported && succeeds)
      ensures issued == old(issued) + if old(ok) && supported then 1 else 0
    {
      if ok {
        if supported {
          issued := issued + 1;
          CheckError(succeeds);
        } else {
          CheckError(false);
        }
      }
    }

    method ThenWaitFor(other: Stream, succeeds: bool) returns (outcome: Checked<()>)
      requires Valid()
      modifies `ok, `issued
      ensures Valid()
      ensures outcome == if other == this then CheckFails else Passed(())
      ensures outcome.Passed? ==> ok == (old(ok) && old(other.ok) && succeeds)
      ensures issued == old(issued) + if outcome.Passed? && old(ok) && old(other.ok) then 1 else 0
      ensures outcome.CheckFails? ==> ok == old(ok)
    {
      if other == this {
        return CheckFails;
      }
      if ok && other.ok {
        issued := issued + 1;
        CheckError(succeeds);
      } else {
        CheckError(false);
      }
      outcome := Passed(());
    }

    // ---------- sub-streams ----------

    /** The sub-streams that have been handed out. */
    ghost function Out(): set<Stream>
      requires |available| == |subStreams|
      reads this
    {
      OutOf(subStreams, available)
    }

    static ghost function OutOf(streams: seq<Stream>, free: seq<bool>): set<Stream>
      requires |free| == |streams|
    {
      set i | 0 <= i < |streams| && !free[i] :: streams[i]
    }

    /** Hands out a sub-stream that is not out yet. A new one is made only if none is available, and then it is the error
        of this stream, not of the new one, that is checked. */
    method GetOrCreateSubStream(allocates: bool) returns (result: Checked<Stream>)
      requires Valid()
      modifies this
      ensures Valid() && isAllocated == old(isAllocated) && ok == old(ok) && issued == old(issued) && old(Repr) <= Repr && fresh(Repr - old(Repr))
      ensures result.CheckFails? <==> !(true in old(available)) && !old(ok)
      ensures result.Passed? ==> result.value !in old(Out()) && Out() == old(Out()) + {result.value}
      ensures forall i | 0 <= i < |old(available)| && old(available)[i] && !(true in old(available)[..i]) ::
                result == Passed(old(subStreams)[i]) && subStreams == old(subStreams) && available == old(available)[i := false]
      ensures result.Passed? && !(true in old(available)) ==>
                fresh(result.value) && result.value.ok == allocates
                && subStreams == old(subStreams) + [result.value] && available == old(available) + [false]
    {
      var i := 0;
      while i < |subStreams|
        invariant 0 <= i <= |subStreams|
        invariant forall j | 0 <= j < i :: !available[j]
      {
        if available[i] {
          HandedOut(i);
          available := available[i := false];
          return Passed(subStreams[i]);
        }
        i := i + 1;
      }
      var subStream := AddSubStream(allocates);
      if !ok {
        return CheckFails;
      }
      result := Passed(subStream);
    }

    method AddSubStream(allocates: bool) returns (subStream: Stream)
      requires Valid()
      modifies `subStreams, `available, `Repr
      ensures Valid() && fresh(subStream) && old(Repr) <= Repr && fresh(Repr - old(Repr)) && subStream.ok == allocates
      ensures subStreams == old(subStreams) + [subStream] && available == old(available) + [false]
      ensures Out() == old(Out()) + {subStream}
    {
      subStream := new Stream();
      var _ := subStream.Init(allocates);
      subStreams, available := subStreams + [subStream], available + [false];
      Repr := Repr + subStream.Repr;
      OneMoreOut(old(subStreams), old(available), subStream);
    }

    static lemma OneMoreOut(streams: seq<Stream>, free: seq<bool>, s: Stream)
      requires |free| == |streams|
      ensures OutOf(streams + [s], free + [false]) == OutOf(streams, free) + {s}
    {
      var all, open := streams + [s], free + [false];
      assert all[|streams|] == s && !open[|streams|];
      forall t | t in OutOf(streams, free) ensures t in OutOf(all, open) {
        var i :| 0 <= i < |streams| && !free[i] && streams[i] == t;
        assert all[i] == t && !open[i];
      }
    }

    /** Taking an available sub-stream adds just that one to those that are out. */
    lemma HandedOut(i: nat)
      requires Valid() && i < |subStreams| && available[i]
      ensures subStreams[i] !in Out()
      ensures OutOf(subStreams, available[i := false]) == Out() + {subStreams[i]}
    {
      var after := available[i := false];
      forall j | 0 <= j < |subStreams| && j != i ensures subStreams[j] != subStreams[i] {
        assert subStreams[j] in subStreams[j].Repr && subStreams[i] in subStreams[i].Repr;
      }
      assert subStreams[i] in OutOf(subStreams, after);
      forall s | s in Out() ensures s in OutOf(subStreams, after) {
        var j :| 0 <= j < |subStreams| && !available[j] && subStreams[j] == s;
        assert !after[j];
      }
    }

    method ReturnSubStream(subStream: Stream) returns (outcome: Checked<()>)
      requires Valid()
      modifies `available
      ensures Valid()
      ensures outcome == if subStream in subStreams then Passed(()) else CheckFails
      ensures Out() == old(Out()) - {subStream}
    {
      var i := 0;
      while i < |subStreams|
        invariant 0 <= i <= |subStreams|
        invariant forall j | 0 <= j < i :: subStreams[j] != subStream
        invariant available == old(available)
      {
        if subStreams[i] == subStream {
          available := available[i := true];
          return Passed(());
        }
        i := i + 1;
      }
      outcome := CheckFails;
    }

    // ---------- draining ----------

    /** The stream has had no error, the executor drains it, and the same holds of every sub-stream that is out. */
    ghost predicate Healthy(drains: Stream -> bool)
      requires Valid()
      reads this, Repr
      decreases Repr
    {
      ok && drains(this) && forall i | 0 <= i < |subStreams| && !available[i] :: subStreams[i].Healthy(drains)
    }

    /** Every sub-stream is available, and those that have just become so have drained in the same way. */
    ghost predicate SubStreamsHealthy(drains: Stream -> bool)
      requires Valid()
      reads this, Repr
    {
      forall i | 0 <= i < |subStreams| && !available[i] :: subStreams[i].Healthy(drains)
    }

    /** The stream and, through sub-streams that are out, all that it waits for. */
    ghost function Waiting(): (all: set<Stream>)
      requires Valid()
      reads this, Repr
      decreases Repr
      ensures this in all && all <= Repr
    {
      {this} + set i, s | 0 <= i < |subStreams| && !available[i] && s in subStreams[i].Waiting() :: s
    }

    /** Of none of the streams, a sub-stream is out. */
    static ghost predicate Settled(all: set<Stream>)
      reads all
    {
      forall s | s in all :: |s.available| == |s.subStreams| && s.Out() == {}
    }

    /** So draining succeeds if and only if all that are waited for have had no error and are drained by the executor. */
    lemma {:induction false} HealthyIffAllDrain(drains: Stream -> bool)
      requires Valid()
      ensures Healthy(drains) <==> forall s | s in Waiting() :: s.ok && drains(s)
      decreases Repr
    {
      forall i | 0 <= i < |subStreams| && !available[i]
        ensures subStreams[i].Healthy(drains) <==> forall s | s in subStreams[i].Waiting() :: s.ok && drains(s)
        ensures subStreams[i].Waiting() <= Waiting() {
        subStreams[i].HealthyIffAllDrain(drains);
      }
      if Healthy(drains) {
        forall s | s in Waiting() ensures s.ok && drains(s) {
          if s != this {
            var i :| 0 <= i < |subStreams| && !available[i] && s in subStreams[i].Waiting();
          }
        }
      }
    }

    /** Draining allocates nothing and issues nothing, and clears no error. */
    static twostate predicate OnlyDrained(all: set<Stream>)
      reads all
    {
      forall s | s in all :: s.isAllocated == old(s.isAllocated) && s.issued == old(s.issued) && (s.ok ==> old(s.ok))
    }

    ghost function Waits(): (all: seq<set<Stream>>)
      requires Valid()
      reads this, Repr
      ensures |all| == |subStreams| && forall j | 0 <= j < |all| :: all[j] == subStreams[j].Waiting()
    {
      seq(|subStreams|, j requires 0 <= j < |subStreams| && Valid() reads this, Repr => subStreams[j].Waiting())
    }

    ghost function Healths(drains: Stream -> bool): (all: seq<bool>)
      requires Valid()
      reads this, Repr
      ensures |all| == |subStreams| && forall j | 0 <= j < |all| :: all[j] == subStreams[j].Healthy(drains)
    {
      seq(|subStreams|, j requires 0 <= j < |subStreams| && Valid() reads this, Repr => subStreams[j].Healthy(drains))
    }

    /** Streams below the sub-streams before i, none of which has a sub-stream out. */
    ghost predicate Clear(done: set<Stream>, i: nat)
      requires Valid() && i <= |subStreams|
      reads this, Repr
    {
      done <= Repr - {this} && Settled(done) && forall j | i <= j < |subStreams| :: done !! subStreams[j].Repr
    }

    /** The sub-streams from i on wait for what they did, and are as healthy. */
    ghost predicate AsBefore(i: nat, waiting: seq<set<Stream>>, healthy: seq<bool>, drains: Stream -> bool)
      requires Valid() && i <= |subStreams| == |waiting| == |healthy|
      reads this, Repr
    {
      forall j | i <= j < |subStreams| :: subStreams[j].Waiting() == waiting[j] && subStreams[j].Healthy(drains) == healthy[j]
    }

    /** Waits for the stream and for every sub-stream that is out, and takes these back. */
    method BlockHostUntilDone(drains: Stream -> bool) returns (outcome: Drained)
      requires Valid()
      modifies Repr
      ensures outcome == Returned(true) <==> old(Healthy(drains))
      ensures outcome == Relocks <==> old(ok) && !old(SubStreamsHealthy(drains))
      ensures Repr == old(Repr) && subStreams == old(subStreams)
      ensures outcome.Returned? ==> Valid() && ok == outcome.success
      ensures outcome == Returned(true) ==> Settled(old(Waiting()))
      ensures OnlyDrained(Repr)
      ensures !old(ok) ==> !ok && available == old(available)
      ensures outcome.Returned? && old(ok) ==> Out() == {}
      decreases Repr, 2
    {
      if !ok {
        return Returned(false);
      }
      var drained := DrainSubStreams(drains);
      if !drained {
        return Relocks;
      }
      CheckError(drains(this));
      outcome := Returned(ok);
    }

    /** The loop that holds the mutex: it gets to its end if and only if no sub-stream that is out reports an error. */
    method DrainSubStreams(drains: Stream -> bool) returns (drained: bool)
      requires Valid() && ok
      modifies Repr
      ensures drained <==> old(SubStreamsHealthy(drains))
      ensures Repr == old(Repr) && subStreams == old(subStreams)
      ensures drained ==> Valid() && ok && Settled(old(Waiting()))
      ensures drained ==> forall j | 0 <= j < |available| :: available[j]
      ensures OnlyDrained(Repr)
      decreases Repr, 1
    {
      ghost var waiting, healthy := Waits(), Healths(drains);
      ghost var done: set<Stream> := {};
      var i := 0;
      while i < |subStreams|
        invariant 0 <= i <= |subStreams|
        invariant Valid() && ok && Repr == old(Repr) && subStreams == old(subStreams)
        invariant forall j | 0 <= j < i :: available[j] && (old(available)[j] || (healthy[j] && waiting[j] <= done))
        invariant forall j | i <= j < |subStreams| :: available[j] == old(available)[j]
        invariant AsBefore(i, waiting, healthy, drains)
        invariant Clear(done, i) && OnlyDrained(Repr)
      {
        if !available[i] {
          var outcome := DrainSubStream(i, drains, done, waiting, healthy);
          if outcome != Returned(true) {
            assert !healthy[i];
            return false;
          }
          done := done + waiting[i];
        }
        i := i + 1;
      }
      drained := true;
    }

    /** One sub-stream is drained and taken back; the others are not touched. */
    method DrainSubStream(i: nat, drains: Stream -> bool, ghost done: set<Stream>,
                          ghost waiting: seq<set<Stream>>, ghost healthy: seq<bool>) returns (outcome: Drained)
      requires Valid() && i < |subStreams| && !available[i]
      requires Clear(done, i) && |waiting| == |healthy| == |subStreams| && AsBefore(i, waiting, healthy, drains)
      modifies `available, subStreams[i].Repr
      ensures outcome == Returned(true) <==> healthy[i]
      ensures outcome == Returned(true) ==> Valid() && available == old(available)[i := true]
      ensures outcome == Returned(true) ==> Clear(done + waiting[i], i + 1) && AsBefore(i + 1, waiting, healthy, drains)
      ensures OnlyDrained(old(subStreams[i].Repr))
      ensures subStreams[i].Repr == old(subStreams[i].Repr)
      decreases Repr, 0
    {
      outcome := subStreams[i].BlockHostUntilDone(drains);
      if outcome == Returned(true) {
        available := available[i := true];
        forall j | 0 <= j < |subStreams| && j != i
          ensures subStreams[j].Valid() && subStreams[j].Repr == old(subStreams[j].Repr)
          ensures j > i ==> subStreams[j].Waiting() == waiting[j] && subStreams[j].Healthy(drains) == healthy[j] {
          assert subStreams[j].Repr !! subStreams[i].Repr;
        }
      }
    }

    // ---------- runs ----------

    /** The stream that a client refers to, if it can. */
    function Find(name: Name): (found: seq<Stream>)
      reads this
    {
      match name
      case Existing(stream) => [stream]
      case SubStreamAt(index) => if index < |subStreams| then [subStreams[index]] else []
    }

    /** An error that comes after the initialisation stays, and a stream that has one issues nothing. */
    static twostate predicate ErrorsStay(all: set<Stream>)
      reads all
    {
      forall s | s in all && old(s.isAllocated) ::
        s.isAllocated && (!old(s.ok) ==> !s.ok && s.issued == old(s.issued))
    }

    /** The stream that an operation is performed on in the end, and what is performed on it. */
    ghost function Target(operation: Operation): (target: (Stream, Operation))
      requires Valid()
      reads this, Repr
      ensures target.0 in Repr && target.0.Valid() && target.0.Repr <= Repr
      ensures operation.OnSubStream? || target == (this, operation)
      ensures MayStop(target.1) ==> MayStop(operation)
      decreases operation
    {
      if operation.OnSubStream? && operation.index < |subStreams| then subStreams[operation.index].Target(operation.operation)
      else (this, operation)
    }

    /** When the process goes on after an operation: no CHECK fails, and no mutex is locked twice. */
    ghost predicate GoesOn(operation: Operation)
      requires Valid()
      reads this, Repr
    {
      match operation
      case Initialize(_) => !isAllocated
      case WaitFor(name, _) => Find(name) == [] || Find(name)[0] != this
      case Lend(_) => ok || true in available
      case TakeBack(name) => Find(name) == [] || Find(name)[0] in subStreams
      case Drain(drains) => !ok || SubStreamsHealthy(drains)
      case Blas(_, _) | Report(_) | OnSubStream(_, _) => true
    }

    /** What an operation does to the pool of the stream that it is performed on. */
    twostate predicate Tells(operation: Operation, new event: Event)
      reads this
    {
      match operation
      case Lend(_) => event.Lent?
      case TakeBack(name) => event == if old(Find(name)) == [] then Nothing else TakenBack(old(Find(name))[0])
      case Drain(_) => event == if old(ok) then AllDrained else Nothing
      case _ => event == Nothing
    }

    /** What an operation does to the stream that it is performed on, but for the pool. */
    twostate predicate Did(operation: Operation)
      reads this
    {
      match operation
      case Initialize(allocates) => isAllocated == allocates && ok == allocates && issued == old(issued)
      case Blas(supported, succeeds) =>
        ok == (old(ok) && supported && succeeds) && issued == old(issued) + if old(ok) && supported then 1 else 0
      case Report(succeeded) => ok == (old(ok) && succeeded) && issued == old(issued)
      case WaitFor(name, succeeds) =>
        old(Find(name)) != [] ==>
          var otherOk := old(Find(name)[0].ok);
          ok == (old(ok) && otherOk && succeeds) && issued == old(issued) + if old(ok) && otherOk then 1 else 0
      case Drain(_) => (ok ==> old(ok)) && issued == old(issued)
      case Lend(_) | TakeBack(_) | OnSubStream(_, _) => ok == old(ok) && issued == old(issued)
    }

    /** The operations that concern this stream alone. */
    method PerformHere(operation: Operation) returns (goesOn: bool)
      requires Valid() && (operation.Initialize? || operation.Blas? || operation.Report? || operation.WaitFor?)
      modifies `isAllocated, `ok, `issued
      ensures Valid()
      ensures goesOn <==> old(GoesOn(operation))
      ensures goesOn ==> Did(operation)
      ensures goesOn && old(isAllocated) ==> isAllocated && (!old(ok) ==> !ok && issued == old(issued))
    {
      goesOn := true;
      match operation {
        case Initialize(allocates) =>
          var outcome := Init(allocates);
          goesOn := outcome.Passed?;
        case Blas(supported, succeeds) =>
          ThenBlas(supported, succeeds);
        case Report(succeeded) =>
          CheckError(succeeded);
        case WaitFor(name, succeeds) =>
          if Find(name) != [] {
            var outcome := ThenWaitFor(Find(name)[0], succeeds);
            goesOn := outcome.Passed?;
          }
      }
    }

    /** The operations that concern the pool of sub-streams; what happens to it is recorded as an event. */
    method PerformOnPool(operation: Operation) returns (goesOn: bool, ghost event: Event)
      requires Valid() && (operation.Lend? || operation.TakeBack? || operation.Drain?)
      modifies Repr
      ensures goesOn <==> old(GoesOn(operation))
      ensures goesOn ==> Valid() && old(Repr) <= Repr && fresh(Repr - old(Repr)) && ErrorsStay(old(Repr)) && Did(operation)
      ensures goesOn ==> Possible(old(Out()), event) && Out() == After(old(Out()), event)
      ensures goesOn ==> Tells(operation, event)
    {
      goesOn, event := true, Nothing;
      match operation {
        case Lend(allocates) =>
          var result := GetOrCreateSubStream(allocates);
          goesOn := result.Passed?;
          if goesOn { event := Lent(result.value); }
        case TakeBack(name) =>
          if Find(name) != [] {
            event := TakenBack(Find(name)[0]);
            var outcome := ReturnSubStream(Find(name)[0]);
            goesOn := outcome.Passed?;
          }
        case Drain(drains) =>
          ghost var hadError := !ok;
          var outcome := BlockHostUntilDone(drains);
          goesOn := outcome.Returned?;
          if !hadError { event := AllDrained; }
      }
    }

    /** One operation of a client on the stream, or on one of its sub-streams. The process goes on unless a CHECK fails
        or the thread relocks a mutex. */
    method Perform(operation: Operation) returns (goesOn: bool, ghost event: Event)
      requires Valid()
      modifies Repr
      ensures goesOn ==> Valid() && old(Repr) <= Repr && fresh(Repr - old(Repr))
      ensures goesOn ==> ErrorsStay(old(Repr))
      ensures goesOn ==> Possible(old(Out()), event) && Out() == After(old(Out()), event)
      ensures goesOn <==> old(Target(operation).0.GoesOn(Target(operation).1))
      ensures goesOn ==> old(Target(operation).0).Did(old(Target(operation).1))
      ensures goesOn || MayStop(operation)
      ensures goesOn ==> Tells(operation, event)
      decreases operation, 0
    {
      goesOn, event := true, Nothing;
      match operation {
        case OnSubStream(index, onSubStream) =>
          if index < |subStreams| {
            ghost var target := subStreams[index].Target(onSubStream);
            goesOn := PerformOnSubStream(index, onSubStream, target.0, target.1);
          }
        case Lend(_) | TakeBack(_) | Drain(_) =>
          goesOn, event := PerformOnPool(operation);
        case _ =>
          goesOn := PerformHere(operation);
      }
    }

    /** What is done on one sub-stream, and what it gets from it, has nothing to do with the others. */
    twostate lemma OthersAreApart(i: nat)
      requires old(Valid()) && i < |old(subStreams)| && subStreams == old(subStreams) && Repr == old(Repr)
      requires fresh(subStreams[i].Repr - old(subStreams[i].Repr))
      requires forall s | s in old(Repr) && s !in old(subStreams[i].Repr) :: unchanged(s)
      ensures this !in subStreams[i].Repr
      ensures forall j | 0 <= j < |subStreams| && j != i ::
                subStreams[j].Valid() && subStreams[j].Repr == old(subStreams[j].Repr) && subStreams[j].Repr !! subStreams[i].Repr
    {
      forall j | 0 <= j < |subStreams| && j != i
        ensures subStreams[j].Valid() && subStreams[j].Repr == old(subStreams[j].Repr) && subStreams[j].Repr !! subStreams[i].Repr {
        assert old(subStreams[j].Repr !! subStreams[i].Repr);
      }
    }

    method PerformOnSubStream(index: nat, operation: Operation, ghost target: Stream, ghost core: Operation) returns (goesOn: bool)
      requires Valid() && index < |subStreams| && subStreams[index].Target(operation) == (target, core)
      modifies Repr
      ensures goesOn ==> Valid() && old(Repr) <= Repr && fresh(Repr - old(Repr))
      ensures goesOn ==> ErrorsStay(old(Repr)) && Out() == old(Out())
      ensures goesOn <==> old(target.GoesOn(core))
      ensures goesOn ==> target.Did(core)
      decreases operation, 1
    {
      ghost var event;
      goesOn, event := subStreams[index].Perform(operation);
      if goesOn {
        OthersAreApart(index);
      }
      Repr := Repr + subStreams[index].Repr;
    }

    /** Whatever a client does with a stream and the sub-streams it gets from it: errors stay, and what is lent was not
        out. */
    method Entrain(operations: seq<Operation>) returns (goesOn: bool, ghost events: seq<Event>)
      requires Valid()
      modifies Repr
      ensures |events| <= |operations| && Lawful(old(Out()), events) && LentInTurns(events)
      ensures forall i | 0 <= i < |events| :: Records(operations[i], events[i])
      ensures goesOn <==> |events| == |operations|
      ensures !goesOn ==> MayStop(operations[|events|])
      ensures goesOn ==> Valid() && ErrorsStay(old(Repr)) && Out() == OutAfter(old(Out()), events)
    {
      goesOn, events := true, [];
      var i := 0;
      while i < |operations|
        invariant 0 <= i <= |operations|
        invariant Valid() && old(Repr) <= Repr && fresh(Repr - old(Repr)) && ErrorsStay(old(Repr))
        invariant |events| == i && Lawful(old(Out()), events) && Out() == OutAfter(old(Out()), events)
        invariant forall j | 0 <= j < i :: Records(operations[j], events[j])
      {
        ghost var event;
        goesOn, event := Perform(operations[i]);
        if !goesOn {
          LawfulMeansInTurns(old(Out()), events);
          return;
        }
        OneMoreEvent(old(Out()), events, event);
        events := events + [event];
        i := i + 1;
      }
      LawfulMeansInTurns(old(Out()), events);
    }
  }

  /** A sub-stream that could not be initialised is handed out all the same, and then waiting for the stream never ends:
      the stream's own mutex is locked again. */
  method FailedSubStreamRelocks() returns (ok: bool, subStreamOk: bool, outcome: Drained)
    ensures ok && !subStreamOk && outcome == Relocks
  {
    var s := new Stream();
    var _ := s.Init(true);
    var result := s.GetOrCreateSubStream(false);
    ok, subStreamOk := s.ok, result.value.ok;
    outcome := s.BlockHostUntilDone(Always);
  }

  /** An executor that drains every stream. */
  function Always(s: Stream): bool {
    true
  }
}
