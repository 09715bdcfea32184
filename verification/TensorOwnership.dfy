/** Who owns a tensor's memory: reference counts, deallocators, and the inputs and outputs of a session's run.

    A buffer is named by the memory it owns, which it owns alone; its deallocator runs when its count drops to
    zero. Holders of a buffer are the C API's tensors, owned by the client, and the tensors (views) inside the runtime. */
module TensorOwnership {
  import opened Sequences
  import opened Wrappers

  datatype Memory = Client(id: nat) | Internal(id: nat)
  datatype Holder = CTensor(id: nat) | View(id: nat)

  // ---------- counts ----------

  function HoldersOf(holders: map<Holder, Memory>, m: Memory): set<Holder> {
    set h | h in holders && holders[h] == m
  }

  ghost predicate Backed(refs: map<Memory, nat>, holders: map<Holder, Memory>, h: Holder)
    requires h in holders
  {
    holders[h] in refs
  }

  ghost predicate RightCount(refs: map<Memory, nat>, holders: map<Holder, Memory>, m: Memory)
    requires m in refs
  {
    refs[m] > 0 && refs[m] == |HoldersOf(holders, m)|
  }

  /** Every count is the number of holders, and no buffer is left without one. */
  ghost predicate Counted(refs: map<Memory, nat>, holders: map<Holder, Memory>) {
    && (forall h {:trigger Backed(refs, holders, h)} | h in holders :: Backed(refs, holders, h))
    && forall m {:trigger RightCount(refs, holders, m)} | m in refs :: RightCount(refs, holders, m)
  }

  lemma HoldersAfterAdd(holders: map<Holder, Memory>, h: Holder, m: Memory, k: Memory)
    requires h !in holders
    ensures |HoldersOf(holders[h := m], k)| == |HoldersOf(holders, k)| + if k == m then 1 else 0
  {
    assert HoldersOf(holders[h := m], k) == HoldersOf(holders, k) + if k == m then {h} else {};
  }

  lemma HoldersAfterRemove(holders: map<Holder, Memory>, h: Holder, k: Memory)
    requires h in holders
    ensures |HoldersOf(holders - {h}, k)| == |HoldersOf(holders, k)| - if k == holders[h] then 1 else 0
  {
    assert HoldersOf(holders - {h}, k) == HoldersOf(holders, k) - if k == holders[h] then {h} else {};
    assert k == holders[h] ==> h in HoldersOf(holders, k);
  }

  /** No other holder has the same buffer. */
  ghost predicate Sole(holders: map<Holder, Memory>, h: Holder)
    requires h in holders
  {
    forall k | k in holders && k != h :: holders[k] != holders[h]
  }

  lemma SoleHolder(refs: map<Memory, nat>, holders: map<Holder, Memory>, h: Holder)
    requires Counted(refs, holders) && h in holders
    ensures Backed(refs, holders, h) && refs[holders[h]] > 0
    ensures refs[holders[h]] == 1 <==> Sole(holders, h)
  {
    var all := HoldersOf(holders, holders[h]);
    assert Backed(refs, holders, h) && RightCount(refs, holders, holders[h]);
    assert h in all;
    if |all| == 1 {
      assert |all - {h}| == 0;
      forall k | k in holders && k != h ensures holders[k] != holders[h] {
        assert k !in all - {h};
      }
    } else {
      assert all != {h};
      var k :| k in all - {h};
    }
  }

  lemma CountedAdopt(refs: map<Memory, nat>, holders: map<Holder, Memory>, h: Holder, m: Memory)
    requires Counted(refs, holders) && h !in holders && m !in refs
    ensures Counted(refs[m := 1], holders[h := m])
  {
    forall k | k in holders ensures holders[k] in refs {
      assert Backed(refs, holders, k);
    }
    assert HoldersOf(holders, m) == {};
    var refs' := refs[m := 1];
    forall k | k in refs' ensures RightCount(refs', holders[h := m], k) {
      HoldersAfterAdd(holders, h, m, k);
      assert k != m ==> RightCount(refs, holders, k);
    }
  }

  lemma CountedRef(refs: map<Memory, nat>, holders: map<Holder, Memory>, h: Holder, m: Memory)
    requires Counted(refs, holders) && h !in holders && m in refs
    ensures Counted(refs[m := refs[m] + 1], holders[h := m])
  {
    forall k | k in holders ensures holders[k] in refs {
      assert Backed(refs, holders, k);
    }
    forall k | k in refs ensures RightCount(refs[m := refs[m] + 1], holders[h := m], k) {
      HoldersAfterAdd(holders, h, m, k);
      assert RightCount(refs, holders, k);
    }
  }

  function Released(refs: map<Memory, nat>, m: Memory): map<Memory, nat>
    requires m in refs && refs[m] > 0
  {
    if refs[m] == 1 then refs - {m} else refs[m := refs[m] - 1]
  }

  lemma CountedUnref(refs: map<Memory, nat>, holders: map<Holder, Memory>, h: Holder)
    requires Counted(refs, holders) && h in holders && holders[h] in refs && refs[holders[h]] > 0
    ensures Counted(Released(refs, holders[h]), holders - {h})
  {
    SoleHolder(refs, holders, h);
    var m := holders[h];
    forall k | k in holders && k != h ensures holders[k] in Released(refs, m) {
      assert Backed(refs, holders, k);
    }
    forall k | k in Released(refs, m) ensures RightCount(Released(refs, m), holders - {h}, k) {
      HoldersAfterRemove(holders, h, k);
      assert RightCount(refs, holders, k);
    }
  }

  lemma PlusAssociates(a: map<Holder, Memory>, b: map<Holder, Memory>, c: map<Holder, Memory>)
    ensures (a + b) + c == a + (b + c)
  {
  }

  // ---------- deallocations ----------

  ghost predicate FreedOnce(acquired: set<Memory>, refs: map<Memory, nat>, freed: seq<Memory>, m: Memory) {
    multiset(freed)[m] == if m in acquired && m !in refs then 1 else 0
  }

  /** Every memory taken over either backs a live buffer, or has been deallocated exactly once. */
  ghost predicate Conserved(acquired: set<Memory>, refs: map<Memory, nat>, freed: seq<Memory>) {
    && refs.Keys <= acquired
    && forall m {:trigger FreedOnce(acquired, refs, freed, m)} :: FreedOnce(acquired, refs, freed, m)
  }

  lemma ConservedAdopt(acquired: set<Memory>, refs: map<Memory, nat>, freed: seq<Memory>, m: Memory)
    requires Conserved(acquired, refs, freed) && m !in acquired
    ensures Conserved(acquired + {m}, refs[m := 1], freed)
  {
    var refs' := refs[m := 1];
    forall k ensures FreedOnce(acquired + {m}, refs', freed, k) {
      assert FreedOnce(acquired, refs, freed, k);
    }
  }

  lemma ConservedRef(acquired: set<Memory>, refs: map<Memory, nat>, freed: seq<Memory>, m: Memory, n: nat)
    requires Conserved(acquired, refs, freed) && m in refs
    ensures Conserved(acquired, refs[m := n], freed)
  {
    var refs' := refs[m := n];
    forall k ensures FreedOnce(acquired, refs', freed, k) {
      assert FreedOnce(acquired, refs, freed, k);
    }
  }

  lemma ConservedFree(acquired: set<Memory>, refs: map<Memory, nat>, freed: seq<Memory>, m: Memory)
    requires Conserved(acquired, refs, freed) && (m in refs || m !in acquired)
    ensures Conserved(acquired + {m}, refs - {m}, freed + [m])
  {
    forall k ensures FreedOnce(acquired + {m}, refs - {m}, freed + [m], k) {
      assert FreedOnce(acquired, refs, freed, k);
    }
  }

  /** What is held is not deallocated; once nobody holds anything, all that was taken over is, each exactly once. */
  lemma HeldIsNotFreed(refs: map<Memory, nat>, holders: map<Holder, Memory>, acquired: set<Memory>, freed: seq<Memory>)
    requires Counted(refs, holders) && Conserved(acquired, refs, freed)
    ensures forall h | h in holders :: holders[h] in acquired && holders[h] !in freed
    ensures forall m | m in acquired :: multiset(freed)[m] == if HoldersOf(holders, m) == {} then 1 else 0
    ensures forall m | m in freed :: m in acquired
  {
    forall h | h in holders ensures holders[h] in acquired && holders[h] !in freed {
      assert Backed(refs, holders, h) && FreedOnce(acquired, refs, freed, holders[h]);
      assert multiset(freed)[holders[h]] == 0;
    }
    forall m | m in acquired ensures multiset(freed)[m] == if HoldersOf(holders, m) == {} then 1 else 0 {
      assert FreedOnce(acquired, refs, freed, m);
      if m in refs {
        assert RightCount(refs, holders, m);
      } else {
        NobodyHolds(refs, holders, m);
      }
    }
    forall m | m in freed ensures m in acquired {
      assert FreedOnce(acquired, refs, freed, m) && m in multiset(freed);
    }
  }

  lemma NobodyHolds(refs: map<Memory, nat>, holders: map<Holder, Memory>, m: Memory)
    requires Counted(refs, holders) && m !in refs
    ensures HoldersOf(holders, m) == {}
  {
    forall h | h in holders ensures holders[h] != m {
      assert Backed(refs, holders, h);
    }
  }

  lemma ValuesAcquired(refs: map<Memory, nat>, holders: map<Holder, Memory>, acquired: set<Memory>, freed: seq<Memory>)
    requires Counted(refs, holders) && Conserved(acquired, refs, freed)
    ensures holders.Values <= acquired
  {
    HeldIsNotFreed(refs, holders, acquired, freed);
  }

  // ---------- identifiers ----------

  /** Identifiers from `next` on are unused. */
  ghost predicate UsedBelow(holders: map<Holder, Memory>, acquired: set<Memory>, next: nat) {
    && (forall h {:trigger Below(h.id, next)} | h in holders :: Below(h.id, next))
    && forall m {:trigger Below(m.id, next)} | m in acquired && m.Internal? :: Below(m.id, next)
  }

  predicate Below(id: nat, next: nat) {
    id < next
  }

  lemma Unused(holders: map<Holder, Memory>, acquired: set<Memory>, next: nat)
    requires UsedBelow(holders, acquired, next)
    ensures CTensor(next) !in holders && View(next) !in holders && Internal(next) !in acquired
  {
    assert !Below(CTensor(next).id, next) && !Below(View(next).id, next) && !Below(Internal(next).id, next);
  }

  lemma StillUsedBelow(holders: map<Holder, Memory>, acquired: set<Memory>, next: nat,
                       holders': map<Holder, Memory>, acquired': set<Memory>, next': nat)
    requires UsedBelow(holders, acquired, next) && next <= next'
    requires forall h | h in holders' && h !in holders :: h.id < next'
    requires forall m | m in acquired' && m !in acquired && m.Internal? :: m.id < next'
    ensures UsedBelow(holders', acquired', next')
  {
    forall h | h in holders' ensures Below(h.id, next') {
      assert h in holders ==> Below(h.id, next);
    }
    forall m | m in acquired' && m.Internal? ensures Below(m.id, next') {
      assert m in acquired ==> Below(m.id, next);
    }
  }

  // ---------- what a run is given ----------

  /** What one input is to `TF_Run_Inputs`: shared as it is, or decoded, which may fail. */
  datatype Input = Shared | Decodes | Malformed

  /** What a run produces for one output: nothing or no elements, strings, a new buffer, or a buffer of an input or of
      another holder. */
  datatype Output = NoElements | Strings | Produced | OfInput(index: nat) | OfHolder(holder: Holder)

  /** How the call of the session ends, in the order in which `TF_Run_Helper` finds out. */
  datatype Outcome = UnparseableOptions | NonEmptyMetadata | RunFails | Returns(outputs: seq<Output>)

  datatype Status = Success | Failure

  function Tensors(ids: seq<nat>): set<Holder> {
    set t | t in ids :: CTensor(t)
  }

  function Somes<T>(s: seq<Option<T>>): set<T> {
    set o | o in s && o.Some? :: o.value
  }

  ghost predicate DistinctSomes<T>(s: seq<Option<T>>) {
    forall i, j | 0 <= i < j < |s| && s[i].Some? && s[j].Some? :: s[i] != s[j]
  }

  ghost predicate AllNone(cOutputs: seq<Option<nat>>) {
    forall i | 0 <= i < |cOutputs| :: cOutputs[i] == None
  }

  /** An output that a run may have: a buffer of an input is one of a shared input, and whoever else holds a buffer is not an
      input of this run. */
  ghost predicate Possible(h: map<Holder, Memory>, inputs: seq<nat>, kinds: seq<Input>, output: Output)
    requires |kinds| == |inputs|
  {
    && (output.OfInput? ==> output.index < |inputs| && kinds[output.index] == Shared)
    && (output.OfHolder? ==> output.holder in h && output.holder !in Tensors(inputs))
  }

  /** Every output has become a tensor of its own, with an identifier from `low` on, and shares what it should. */
  ghost predicate Delivered(h: map<Holder, Memory>, pairs: seq<Option<Holder>>, outputs: seq<Output>, ts: seq<nat>,
                            given: map<Holder, Memory>, low: nat)
    requires forall o | o in outputs :: Sourced(h, pairs, o)
  {
    && |ts| == |outputs| && given.Keys == Tensors(ts) && Distinct(ts) && (forall t | t in ts :: low <= t)
    && forall i | 0 <= i < |ts| :: outputs[i] in outputs && GivenAs(SourceOf(h, pairs, outputs[i]), ts[i], given)
  }

  ghost predicate GivenAs(source: Option<Memory>, t: nat, given: map<Holder, Memory>) {
    source.Some? ==> CTensor(t) in given && given[CTensor(t)] == source.value
  }

  /** The same in terms of what the caller passed. */
  ghost predicate RunDelivered(h: map<Holder, Memory>, inputs: seq<nat>, outputs: seq<Output>, ts: seq<nat>,
                               given: map<Holder, Memory>, low: nat)
  {
    && |ts| == |outputs| && given.Keys == Tensors(ts) && Distinct(ts) && (forall t | t in ts :: low <= t)
    && forall i | 0 <= i < |ts| :: GivenAs(CallersSource(h, inputs, outputs[i]), ts[i], given)
  }

  ghost function CallersSource(h: map<Holder, Memory>, inputs: seq<nat>, output: Output): Option<Memory> {
    match output
    case OfInput(j) => if j < |inputs| && CTensor(inputs[j]) in h then Some(h[CTensor(inputs[j])]) else None
    case OfHolder(k) => if k in h then Some(h[k]) else None
    case _ => None
  }

  lemma DeliveredAll(h: map<Holder, Memory>, pairs: seq<Option<Holder>>, outputs: seq<Output>, results: seq<Option<Holder>>,
                     produced: map<Holder, Memory>, ts: seq<nat>, given: map<Holder, Memory>, low: nat, middle: nat, high: nat)
    requires forall o | o in outputs :: Sourced(h, pairs, o)
    requires low <= middle && OutputsProduced(h, pairs, outputs, results, produced, low, middle)
    requires Stored(h + produced, results, ts, given, middle, high)
    ensures Delivered(h, pairs, outputs, ts, given, low)
  {
    forall i | 0 <= i < |ts| ensures outputs[i] in outputs && GivenAs(SourceOf(h, pairs, outputs[i]), ts[i], given) {
      assert ProducedAs(h, pairs, outputs[i], results[i], produced);
      assert StoredAs(h + produced, results[i], ts[i], given);
    }
  }

  /** Views with identifiers that were unused can be dropped without touching anything else. */
  lemma ScopeEnds(h: map<Holder, Memory>, acquired: set<Memory>, produced: map<Holder, Memory>, given: map<Holder, Memory>,
                  results: seq<Option<Holder>>, ts: seq<nat>, low: nat, middle: nat, high: nat)
    requires UsedBelow(h, acquired, low) && AreViews(results, produced, low, middle)
    requires given.Keys == Tensors(ts)
    ensures ((h + produced) + given) - Somes(results) == h + given
    ensures Somes(results) <= ((h + produced) + given).Keys
  {
    forall k | k in h ensures k !in produced {
      assert Below(k.id, low);
    }
  }

  lemma ViewsAreNew(h: map<Holder, Memory>, acquired: set<Memory>, inputs: seq<nat>, pairs: seq<Option<Holder>>,
                    views: map<Holder, Memory>, given: map<Holder, Memory>, low: nat, middle: nat, from: nat)
    requires UsedBelow(h, acquired, low) && AreViews(pairs, views, low, middle)
    requires forall t | t in given :: t.CTensor?
    ensures (((h - Tensors(inputs)) + views) + given) - Somes(pairs) == (h - Tensors(inputs)) + given
    ensures Somes(pairs) <= (((h - Tensors(inputs)) + views) + given).Keys
  {
    forall k | k in h ensures k !in views {
      assert Below(k.id, low);
    }
  }

  /** What the outputs name is held when the run ends: by a view of the runtime, or by whoever held it. */
  lemma SourcesReady(h: map<Holder, Memory>, acquired: set<Memory>, inputs: seq<nat>, kinds: seq<Input>, pairs: seq<Option<Holder>>,
                     views: map<Holder, Memory>, outputs: seq<Output>, low: nat, middle: nat)
    requires UsedBelow(h, acquired, low) && AreViews(pairs, views, low, middle)
    requires |kinds| == |inputs| == |pairs| && Tensors(inputs) <= h.Keys && AllShared(h, inputs, kinds, pairs, views)
    requires forall o | o in outputs :: Possible(h, inputs, kinds, o)
    ensures forall o | o in outputs :: Sourced((h - Tensors(inputs)) + views, pairs, o)
                                       && SourceOf((h - Tensors(inputs)) + views, pairs, o) == CallersSource(h, inputs, o)
  {
    forall k | k in h ensures k !in views {
      assert Below(k.id, low);
    }
    forall o | o in outputs ensures Sourced((h - Tensors(inputs)) + views, pairs, o)
                                    && SourceOf((h - Tensors(inputs)) + views, pairs, o) == CallersSource(h, inputs, o) {
      assert Possible(h, inputs, kinds, o);
      if o.OfInput? {
        assert Views(views, pairs[o.index], h[CTensor(inputs[o.index])]);
      }
    }
  }

  lemma DeliveredOverall(h: map<Holder, Memory>, acquired: set<Memory>, inputs: seq<nat>, kinds: seq<Input>, pairs: seq<Option<Holder>>,
                         views: map<Holder, Memory>, outputs: seq<Output>, ts: seq<nat>, given: map<Holder, Memory>, low: nat, middle: nat)
    requires low <= middle && |kinds| == |inputs| == |pairs| && Tensors(inputs) <= h.Keys
    requires forall o | o in outputs :: Sourced((h - Tensors(inputs)) + views, pairs, o)
                                        && SourceOf((h - Tensors(inputs)) + views, pairs, o) == CallersSource(h, inputs, o)
    requires Delivered((h - Tensors(inputs)) + views, pairs, outputs, ts, given, middle)
    ensures RunDelivered(h, inputs, outputs, ts, given, low)
    ensures forall t | t in given :: t.CTensor?
  {
    forall i | 0 <= i < |ts| ensures GivenAs(CallersSource(h, inputs, outputs[i]), ts[i], given) {
      assert outputs[i] in outputs && GivenAs(SourceOf((h - Tensors(inputs)) + views, pairs, outputs[i]), ts[i], given);
    }
  }

  /** The handles of the tensors are all there. */
  function AllSome(ts: seq<nat>): (s: seq<Option<nat>>)
    ensures |s| == |ts| && forall i | 0 <= i < |s| :: s[i] == Some(ts[i])
  {
    seq(|ts|, i requires 0 <= i < |ts| => Some(ts[i]))
  }

  /** New tensors of the C API, each on the buffer of its result if that has one. */
  ghost predicate Stored(h: map<Holder, Memory>, results: seq<Option<Holder>>, ts: seq<nat>, given: map<Holder, Memory>, low: nat, high: nat) {
    && |ts| == |results| && given.Keys == Tensors(ts) && Distinct(ts)
    && (forall t | t in ts :: low <= t < high)
    && forall i | 0 <= i < |ts| :: StoredAs(h, results[i], ts[i], given)
  }

  ghost predicate StoredAs(h: map<Holder, Memory>, result: Option<Holder>, t: nat, given: map<Holder, Memory>) {
    result.Some? && result.value in h ==> CTensor(t) in given && given[CTensor(t)] == h[result.value]
  }

  lemma SameHeld(h: map<Holder, Memory>, acquired: set<Memory>, low: nat, results: seq<Option<Holder>>, i: nat,
                 ts: seq<nat>, given: map<Holder, Memory>, high: nat)
    requires i < |results| && Somes(results) <= h.Keys && UsedBelow(h, acquired, low)
    requires Stored(h, results[..i], ts, given, low, high)
    ensures results[i].Some? ==> results[i].value in h && (h + given)[results[i].value] == h[results[i].value]
  {
    if results[i].Some? {
      assert results[i] in results;
      assert results[i].value in Somes(results) && Below(results[i].value.id, low);
    }
  }

  lemma OneMoreStored(h: map<Holder, Memory>, results: seq<Option<Holder>>, i: nat, ts: seq<nat>, given: map<Holder, Memory>,
                      low: nat, middle: nat, high: nat, t: nat, m: Memory)
    requires i < |results| && low <= middle <= t < high && Stored(h, results[..i], ts, given, low, middle)
    requires results[i].Some? && results[i].value in h ==> m == h[results[i].value]
    ensures Stored(h, results[..i + 1], ts + [t], given + map[CTensor(t) := m], low, high)
  {
    assert Tensors(ts + [t]) == Tensors(ts) + {CTensor(t)};
    forall j | 0 <= j < i + 1 ensures StoredAs(h, results[..i + 1][j], (ts + [t])[j], given + map[CTensor(t) := m]) {
      if j < i {
        assert results[..i][j] == results[j] && StoredAs(h, results[..i][j], ts[j], given);
      }
    }
  }

  /** What the output names is there. */
  ghost predicate Sourced(h: map<Holder, Memory>, pairs: seq<Option<Holder>>, output: Output) {
    && (output.OfInput? ==> output.index < |pairs| && pairs[output.index].Some? && pairs[output.index].value in h)
    && (output.OfHolder? ==> output.holder in h)
  }

  /** The buffer that an output shares, if it shares one. */
  ghost function SourceOf(h: map<Holder, Memory>, pairs: seq<Option<Holder>>, output: Output): Option<Memory>
    requires Sourced(h, pairs, output)
  {
    match output
    case OfInput(j) => Some(h[pairs[j].value])
    case OfHolder(k) => Some(h[k])
    case _ => None
  }

  ghost predicate OutputsProduced(h: map<Holder, Memory>, pairs: seq<Option<Holder>>, outputs: seq<Output>,
                                  results: seq<Option<Holder>>, produced: map<Holder, Memory>, low: nat, high: nat)
    requires forall o | o in outputs :: Sourced(h, pairs, o)
  {
    && |results| == |outputs| && AreViews(results, produced, low, high)
    && forall i {:trigger outputs[i]} | 0 <= i < |outputs| :: outputs[i] in outputs && ProducedAs(h, pairs, outputs[i], results[i], produced)
  }

  ghost predicate ProducedAs(h: map<Holder, Memory>, pairs: seq<Option<Holder>>, output: Output, result: Option<Holder>, produced: map<Holder, Memory>)
    requires Sourced(h, pairs, output)
  {
    var source := SourceOf(h, pairs, output);
    && (result.Some? <==> output.Produced? || source.Some?)
    && (source.Some? ==> Views(produced, result, source.value))
  }

  // ---------- buffers that an output shares with nobody ----------

  /** The memories that are own ones are new, and not those of anything before them; all are known afterwards. */
  ghost predicate Apart(own: seq<bool>, ms: seq<Option<Memory>>, before: set<Memory>, after: set<Memory>) {
    && |own| == |ms|
    && (forall i | 0 <= i < |ms| && ms[i].Some? :: ms[i].value in after)
    && forall i | 0 <= i < |ms| && own[i] :: ms[i].Some? && ms[i].value !in before && ms[i] !in ms[..i]
  }

  lemma OneMoreApart(own: seq<bool>, ms: seq<Option<Memory>>, isOwn: bool, m: Option<Memory>,
                     before: set<Memory>, middle: set<Memory>, after: set<Memory>)
    requires before <= middle <= after && Apart(own, ms, before, middle)
    requires m.Some? ==> m.value in after
    requires isOwn ==> m.Some? && m.value !in middle
    ensures Apart(own + [isOwn], ms + [m], before, after)
  {
    forall i | 0 <= i < |ms| + 1 && (own + [isOwn])[i]
      ensures (ms + [m])[i].Some? && (ms + [m])[i].value !in before && (ms + [m])[i] !in (ms + [m])[..i] {
      assert (ms + [m])[..i] == ms[..i];
    }
  }

  function IsProduced(outputs: seq<Output>): (own: seq<bool>)
    ensures |own| == |outputs| && forall i | 0 <= i < |own| :: own[i] == outputs[i].Produced?
  {
    seq(|outputs|, i requires 0 <= i < |outputs| => outputs[i].Produced?)
  }

  function HasNone(results: seq<Option<Holder>>): (own: seq<bool>)
    ensures |own| == |results| && forall i | 0 <= i < |own| :: own[i] == results[i].None?
  {
    seq(|results|, i requires 0 <= i < |results| => results[i].None?)
  }

  lemma OneMoreOwn(outputs: seq<Output>, results: seq<Option<Holder>>, i: nat)
    ensures i < |outputs| ==> IsProduced(outputs[..i + 1]) == IsProduced(outputs[..i]) + [outputs[i].Produced?]
    ensures i < |results| ==> HasNone(results[..i + 1]) == HasNone(results[..i]) + [results[i].None?]
  {
  }

  /** These are the memories of the results. */
  ghost predicate MemoriesOf(results: seq<Option<Holder>>, produced: map<Holder, Memory>, ms: seq<Option<Memory>>) {
    && |ms| == |results|
    && forall i | 0 <= i < |ms| && results[i].Some? :: ms[i].Some? && Views(produced, results[i], ms[i].value)
  }

  /** These are the memories of the tensors. */
  ghost predicate GivenMemories(ts: seq<nat>, given: map<Holder, Memory>, ms: seq<Option<Memory>>) {
    && |ms| == |ts|
    && forall i | 0 <= i < |ms| :: CTensor(ts[i]) in given && ms[i] == Some(given[CTensor(ts[i])])
  }

  predicate SharesNothing(output: Output) {
    output.NoElements? || output.Strings? || output.Produced?
  }

  /** A tensor for an output that shares nothing is on memory that is new, and that no other output is on. */
  ghost predicate OwnBuffers(outputs: seq<Output>, ts: seq<nat>, given: map<Holder, Memory>, before: set<Memory>) {
    && |ts| == |outputs| && (forall t | t in ts :: CTensor(t) in given)
    && (forall i | 0 <= i < |ts| && SharesNothing(outputs[i]) :: ts[i] in ts && given[CTensor(ts[i])] !in before)
    && forall i, j | 0 <= i < |ts| && 0 <= j < |ts| && i != j && SharesNothing(outputs[i]) ::
         ts[i] in ts && ts[j] in ts && given[CTensor(ts[i])] != given[CTensor(ts[j])]
  }

  lemma ResultMemory(outputs: seq<Output>, i: nat, results: seq<Option<Holder>>, produced: map<Holder, Memory>, ms: seq<Option<Memory>>,
                     result: Option<Holder>, m: Memory, low: nat, middle: nat, high: nat,
                     before: set<Memory>, known: set<Memory>, after: set<Memory>)
    requires i < |outputs| && low <= middle <= high && before <= known <= after
    requires AreViews(results, produced, low, middle) && MemoriesOf(results, produced, ms)
    requires Apart(IsProduced(outputs[..i]), ms, before, known)
    requires result.Some? ==> result.value.View? && middle <= result.value.id < high && m in after
    requires outputs[i].Produced? ==> result.Some? && m !in known
    ensures var mine := if result.Some? then Some(m) else None;
            && Apart(IsProduced(outputs[..i + 1]), ms + [mine], before, after)
            && MemoriesOf(results + [result], produced + Held(result, m), ms + [mine])
  {
    OneMoreOwn(outputs, [], i);
    OneMoreApart(IsProduced(outputs[..i]), ms, outputs[i].Produced?, if result.Some? then Some(m) else None, before, known, after);
    OneMoreView(results, produced, result, m, low, middle, high);
  }

  lemma TensorMemory(results: seq<Option<Holder>>, i: nat, ts: seq<nat>, given: map<Holder, Memory>, ms: seq<Option<Memory>>,
                     t: nat, m: Memory, before: set<Memory>, known: set<Memory>, after: set<Memory>)
    requires i < |results| && before <= known <= after && GivenMemories(ts, given, ms) && CTensor(t) !in given
    requires Apart(HasNone(results[..i]), ms, before, known)
    requires m in after && (results[i].None? ==> m !in known)
    ensures Apart(HasNone(results[..i + 1]), ms + [Some(m)], before, after)
    ensures GivenMemories(ts + [t], given + map[CTensor(t) := m], ms + [Some(m)])
  {
    OneMoreOwn([], results, i);
    OneMoreApart(HasNone(results[..i]), ms, results[i].None?, Some(m), before, known, after);
  }

  /** What an output shares, by way of its result, was known before the run; what is new among the results is not that of
      another; and what is new among the tensors is not that of any result. */
  lemma SharedWithNobody(h: map<Holder, Memory>, pairs: seq<Option<Holder>>, outputs: seq<Output>, results: seq<Option<Holder>>,
                         produced: map<Holder, Memory>, ms: seq<Option<Memory>>, ts: seq<nat>, given: map<Holder, Memory>,
                         tms: seq<Option<Memory>>, low: nat, middle: nat, high: nat,
                         before: set<Memory>, known: set<Memory>, after: set<Memory>)
    requires (forall o | o in outputs :: Sourced(h, pairs, o)) && h.Values <= before <= known <= after
    requires OutputsProduced(h, pairs, outputs, results, produced, low, middle)
    requires Stored(h + produced, results, ts, given, middle, high)
    requires Apart(IsProduced(outputs), ms, before, known) && MemoriesOf(results, produced, ms)
    requires Apart(HasNone(results), tms, known, after) && GivenMemories(ts, given, tms)
    ensures OwnBuffers(outputs, ts, given, before)
  {
    forall i | 0 <= i < |ts|
      ensures results[i].Some? ==> tms[i] == ms[i]
      ensures results[i].Some? && !outputs[i].Produced? ==> tms[i].value in before
      ensures results[i].None? <==> outputs[i].NoElements? || outputs[i].Strings? {
      TensorOfResult(h, pairs, outputs, results, produced, ms, ts, given, tms, low, middle, high, before, i);
    }
    forall i, j | 0 <= i < |ts| && 0 <= j < |ts| && i != j && SharesNothing(outputs[i]) ensures tms[i] != tms[j] {
      PairApart(outputs, results, ms, tms, before, known, after, i, j);
    }
    forall i | 0 <= i < |ts| && SharesNothing(outputs[i]) ensures ts[i] in ts && given[CTensor(ts[i])] !in before {
      assert outputs[i].Produced? ==> IsProduced(outputs)[i];
      assert results[i].None? ==> HasNone(results)[i];
    }
  }

  lemma TensorOfResult(h: map<Holder, Memory>, pairs: seq<Option<Holder>>, outputs: seq<Output>, results: seq<Option<Holder>>,
                       produced: map<Holder, Memory>, ms: seq<Option<Memory>>, ts: seq<nat>, given: map<Holder, Memory>,
                       tms: seq<Option<Memory>>, low: nat, middle: nat, high: nat, before: set<Memory>, i: nat)
    requires (forall o | o in outputs :: Sourced(h, pairs, o)) && h.Values <= before && i < |ts|
    requires OutputsProduced(h, pairs, outputs, results, produced, low, middle)
    requires Stored(h + produced, results, ts, given, middle, high)
    requires MemoriesOf(results, produced, ms) && GivenMemories(ts, given, tms)
    ensures results[i].Some? ==> tms[i] == ms[i]
    ensures results[i].Some? && !outputs[i].Produced? ==> tms[i].value in before
    ensures results[i].None? <==> outputs[i].NoElements? || outputs[i].Strings?
  {
    assert outputs[i] in outputs && Sourced(h, pairs, outputs[i]);
    assert ProducedAs(h, pairs, outputs[i], results[i], produced);
    assert StoredAs(h + produced, results[i], ts[i], given);
  }

  lemma PairApart(outputs: seq<Output>, results: seq<Option<Holder>>, ms: seq<Option<Memory>>, tms: seq<Option<Memory>>,
                  before: set<Memory>, known: set<Memory>, after: set<Memory>, i: nat, j: nat)
    requires before <= known && i < |outputs| == |results| && j < |outputs| && i != j && SharesNothing(outputs[i])
    requires Apart(IsProduced(outputs), ms, before, known) && Apart(HasNone(results), tms, known, after)
    requires forall k | 0 <= k < |results| :: results[k].Some? ==> tms[k] == ms[k]
    requires forall k | 0 <= k < |results| :: results[k].Some? && !outputs[k].Produced? ==> tms[k].Some? && tms[k].value in before
    requires forall k | 0 <= k < |results| :: results[k].None? <==> outputs[k].NoElements? || outputs[k].Strings?
    requires tms[i].Some? && tms[j].Some?
    ensures tms[i] != tms[j]
  {
    var low, high := if i < j then i else j, if i < j then j else i;
    assert tms[low] in tms[..high] && ms[low] in ms[..high];
    assert IsProduced(outputs)[i] == outputs[i].Produced? && HasNone(results)[i] == results[i].None?;
    assert IsProduced(outputs)[j] == outputs[j].Produced? && HasNone(results)[j] == results[j].None?;
  }

  /** What a run has added does not touch what an output names. */
  lemma SameSource(h: map<Holder, Memory>, acquired: set<Memory>, low: nat, produced: map<Holder, Memory>,
                   pairs: seq<Option<Holder>>, output: Output)
    requires Sourced(h, pairs, output) && UsedBelow(h, acquired, low)
    requires forall v | v in produced :: low <= v.id
    ensures Sourced(h + produced, pairs, output) && SourceOf(h + produced, pairs, output) == SourceOf(h, pairs, output)
  {
    forall k | k in h ensures k !in produced {
      assert Below(k.id, low);
    }
  }

  lemma OutputProduced(h: map<Holder, Memory>, pairs: seq<Option<Holder>>, outputs: seq<Output>, i: nat,
                       results: seq<Option<Holder>>, produced: map<Holder, Memory>, low: nat, middle: nat, high: nat,
                       result: Option<Holder>, m: Memory)
    requires i < |outputs| && low <= middle <= high
    requires forall o | o in outputs :: Sourced(h, pairs, o)
    requires OutputsProduced(h, pairs, outputs[..i], results, produced, low, middle)
    requires Sourced(h, pairs, outputs[i])
    requires result.Some? <==> outputs[i].Produced? || SourceOf(h, pairs, outputs[i]).Some?
    requires result.Some? ==> result.value.View? && middle <= result.value.id < high
    requires SourceOf(h, pairs, outputs[i]).Some? ==> m == SourceOf(h, pairs, outputs[i]).value
    ensures OutputsProduced(h, pairs, outputs[..i + 1], results + [result], produced + Held(result, m), low, high)
  {
    OneMoreView(results, produced, result, m, low, middle, high);
    forall j | 0 <= j < i + 1
      ensures ProducedAs(h, pairs, outputs[..i + 1][j], (results + [result])[j], produced + Held(result, m)) {
      assert outputs[..i + 1][j] == outputs[j] && outputs[j] in outputs;
      if j < i {
        assert outputs[..i][j] == outputs[j];
        assert ProducedAs(h, pairs, outputs[..i][j], results[j], produced);
      }
    }
  }

  ghost predicate InputsDone(h0: map<Holder, Memory>, h: map<Holder, Memory>, inputs: seq<nat>, kinds: seq<Input>, ok: bool,
                             pairs: seq<Option<Holder>>, views: map<Holder, Memory>, low: nat, high: nat)
    requires |kinds| == |inputs| && Tensors(inputs) <= h0.Keys
  {
    && (ok <==> Malformed !in kinds)
    && h == (h0 - Tensors(inputs)) + views
    && AreViews(pairs, views, low, high) && |pairs| == |inputs|
    && (ok ==> AllShared(h0, inputs, kinds, pairs, views))
  }

  /** Every shared input's buffer is held by its view. */
  ghost predicate AllShared(h0: map<Holder, Memory>, inputs: seq<nat>, kinds: seq<Input>,
                            pairs: seq<Option<Holder>>, views: map<Holder, Memory>)
    requires |kinds| == |inputs| == |pairs| && Tensors(inputs) <= h0.Keys
  {
    forall i | 0 <= i < |inputs| && kinds[i] == Shared :: inputs[i] in inputs && Views(views, pairs[i], h0[CTensor(inputs[i])])
  }

  lemma InputReady(h0: map<Holder, Memory>, h: map<Holder, Memory>, inputs: seq<nat>, kinds: seq<Input>, i: nat, ok: bool,
                   pairs: seq<Option<Holder>>, views: map<Holder, Memory>, low: nat, high: nat)
    requires i < |inputs| == |kinds| && Distinct(inputs) && Tensors(inputs) <= h0.Keys && Tensors(inputs[..i]) <= h0.Keys
    requires InputsDone(h0, h, inputs[..i], kinds[..i], ok, pairs, views, low, high)
    ensures CTensor(inputs[i]) in h
  {
    OneMoreInput(h0, inputs, i, views, map[]);
  }

  lemma InputDone(h0: map<Holder, Memory>, h: map<Holder, Memory>, inputs: seq<nat>, kinds: seq<Input>, i: nat, ok: bool,
                  pairs: seq<Option<Holder>>, views: map<Holder, Memory>, low: nat, middle: nat, high: nat, pair: Option<Holder>)
    requires i < |inputs| == |kinds| && Distinct(inputs) && Tensors(inputs) <= h0.Keys && low <= middle <= high
    requires Tensors(inputs[..i]) <= h0.Keys
    requires InputsDone(h0, h, inputs[..i], kinds[..i], ok, pairs, views, low, middle)
    requires pair.Some? <==> ok && kinds[i] == Shared
    requires pair.Some? ==> pair.value.View? && middle <= pair.value.id < high
    requires CTensor(inputs[i]) in h
    ensures Tensors(inputs[..i + 1]) <= h0.Keys
    ensures var p := Held(pair, h[CTensor(inputs[i])]);
            InputsDone(h0, (h - {CTensor(inputs[i])}) + p, inputs[..i + 1], kinds[..i + 1], ok && kinds[i] != Malformed,
                       pairs + [pair], views + p, low, high)
  {
    var m := h[CTensor(inputs[i])];
    var p := Held(pair, m);
    OneMoreInput(h0, inputs, i, views, p);
    OneMoreView(pairs, views, pair, m, low, middle, high);
    assert kinds[..i + 1] == kinds[..i] + [kinds[i]];
    if ok && kinds[i] != Malformed {
      forall j | 0 <= j < i + 1 && kinds[..i + 1][j] == Shared
        ensures Views(views + p, (pairs + [pair])[j], h0[CTensor(inputs[..i + 1][j])]) {
        if j < i {
          assert kinds[..i][j] == Shared && inputs[..i][j] == inputs[j];
          assert Views(views, pairs[j], h0[CTensor(inputs[..i][j])]);
        }
      }
    }
  }

  /** What a tensor of the runtime, if there is one, holds. */
  ghost function Held(view: Option<Holder>, m: Memory): map<Holder, Memory> {
    if view.Some? then map[view.value := m] else map[]
  }

  ghost predicate Views(views: map<Holder, Memory>, view: Option<Holder>, m: Memory) {
    view.Some? && view.value in views && views[view.value] == m
  }

  /** The tensors of a vector of the runtime, with identifiers of a range, and what they hold. */
  ghost predicate AreViews(pairs: seq<Option<Holder>>, views: map<Holder, Memory>, low: nat, high: nat) {
    && DistinctSomes(pairs) && views.Keys == Somes(pairs)
    && forall v | v in views :: v.View? && low <= v.id < high
  }

  lemma OneMoreSome<T>(s: seq<Option<T>>, i: nat)
    requires i < |s| && DistinctSomes(s)
    ensures Somes(s[..i + 1]) == Somes(s[..i]) + (if s[i].Some? then {s[i].value} else {})
    ensures s[i].Some? ==> s[i].value in Somes(s) && s[i].value !in Somes(s[..i])
  {
    assert s[..i + 1] == s[..i] + [s[i]];
    if s[i].Some? {
      assert s[i] in s;
      assert s[i] !in s[..i];
    }
  }

  lemma OneMoreView(pairs: seq<Option<Holder>>, views: map<Holder, Memory>, pair: Option<Holder>, m: Memory,
                    low: nat, middle: nat, high: nat)
    requires low <= middle <= high && AreViews(pairs, views, low, middle)
    requires pair.Some? ==> pair.value.View? && middle <= pair.value.id < high
    ensures AreViews(pairs + [pair], views + Held(pair, m), low, high)
    ensures forall p, k | Views(views, p, k) :: Views(views + Held(pair, m), p, k)
    ensures pair.Some? ==> Views(views + Held(pair, m), pair, m)
  {
    var all := pairs + [pair];
    forall i, j | 0 <= i < j < |all| && all[i].Some? && all[j].Some? ensures all[i] != all[j] {
      if j == |pairs| {
        assert all[i].value in Somes(pairs);
      }
    }
    assert Somes(all) == Somes(pairs) + (if pair.Some? then {pair.value} else {});
  }

  lemma OneMoreInput(h0: map<Holder, Memory>, inputs: seq<nat>, i: nat, views: map<Holder, Memory>, p: map<Holder, Memory>)
    requires i < |inputs| && Distinct(inputs) && Tensors(inputs) <= h0.Keys
    requires forall v | v in views :: v.View?
    ensures var t := CTensor(inputs[i]); var h := (h0 - Tensors(inputs[..i])) + views;
            && t in h && h[t] == h0[t]
            && (h - {t}) + p == (h0 - Tensors(inputs[..i + 1])) + (views + p)
  {
    var t := CTensor(inputs[i]);
    assert inputs[i] in inputs && inputs[i] !in inputs[..i];
    assert t in Tensors(inputs) && t !in Tensors(inputs[..i]);
    assert inputs[..i + 1] == inputs[..i] + [inputs[i]];
    assert Tensors(inputs[..i + 1]) == Tensors(inputs[..i]) + {t};
  }

  class Heap {
    var refs: map<Memory, nat>
    var holders: map<Holder, Memory>
    var acquired: set<Memory>
    var freed: seq<Memory>
    var next: nat

    ghost predicate Valid()
      reads this
    {
      Counted(refs, holders) && Conserved(acquired, refs, freed) && UsedBelow(holders, acquired, next)
    }

    constructor ()
      ensures Valid() && holders == map[] && acquired == {} && freed == []
    {
      refs, holders, acquired, freed, next := map[], map[], {}, [], 0;
    }

    // ---------- counting ----------

    /** The first holder of a new buffer. */
    method Adopt(h: Holder, m: Memory)
      requires Valid() && h !in holders && m !in acquired && h.id < next && (m.Internal? ==> m.id < next)
      modifies this
      ensures Valid() && next == old(next)
      ensures holders == old(holders)[h := m] && acquired == old(acquired) + {m} && freed == old(freed)
    {
      CountedAdopt(refs, holders, h, m);
      ConservedAdopt(acquired, refs, freed, m);
      StillUsedBelow(holders, acquired, next, holders[h := m], acquired + {m}, next);
      refs, holders, acquired := refs[m := 1], holders[h := m], acquired + {m};
    }

    /** One more holder of a live buffer. */
    method Ref(h: Holder, m: Memory)
      requires Valid() && h !in holders && m in refs && h.id < next
      modifies this
      ensures Valid() && next == old(next)
      ensures holders == old(holders)[h := m] && acquired == old(acquired) && freed == old(freed)
    {
      CountedRef(refs, holders, h, m);
      ConservedRef(acquired, refs, freed, m, refs[m] + 1);
      StillUsedBelow(holders, acquired, next, holders[h := m], acquired, next);
      refs, holders := refs[m := refs[m] + 1], holders[h := m];
    }

    /** A holder lets go: the last one has the deallocator run. */
    method Unref(h: Holder)
      requires Valid() && h in holders
      modifies this
      ensures Valid() && next == old(next)
      ensures holders == old(holders) - {h} && acquired == old(acquired)
      ensures freed == old(freed) + if Sole(old(holders), h) then [old(holders)[h]] else []
    {
      SoleHolder(refs, holders, h);
      CountedUnref(refs, holders, h);
      StillUsedBelow(holders, acquired, next, holders - {h}, acquired, next);
      var m := holders[h];
      holders := holders - {h};
      if refs[m] == 1 {
        ConservedFree(acquired, refs, freed, m);
        assert acquired + {m} == acquired;
        refs, freed := refs - {m}, freed + [m];
      } else {
        ConservedRef(acquired, refs, freed, m, refs[m] - 1);
        refs := refs[m := refs[m] - 1];
      }
    }

    // ---------- tensors of the C API ----------

    /** The client's memory becomes the tensor's, unless it is misaligned: then it is copied, and deallocated at once. */
    method NewTensor(data: Memory, aligned: bool) returns (t: nat, ghost m: Memory)
      requires Valid() && data !in acquired && (data.Internal? ==> data.id < next)
      modifies this
      ensures Valid() && old(next) <= t < next && CTensor(t) !in old(holders)
      ensures (aligned <==> m == data) && m !in old(acquired) && (m == data || m.Internal?)
      ensures freed == old(freed) + if aligned then [] else [data]
      ensures holders == old(holders)[CTensor(t) := m] && acquired == old(acquired) + {data, m}
    {
      var buffer := data;
      Unused(holders, acquired, next);
      if !aligned {
        buffer := Internal(next);
        ConservedFree(acquired, refs, freed, data);
        assert data !in refs;
        assert refs - {data} == refs;
        StillUsedBelow(holders, acquired, next, holders, acquired + {data}, next + 1);
        acquired, freed, next := acquired + {data}, freed + [data], next + 1;
      }
      Unused(holders, acquired, next);
      StillUsedBelow(holders, acquired, next, holders, acquired, next + 1);
      t, m := next, buffer;
      next := next + 1;
      Adopt(CTensor(t), buffer);
      assert acquired == old(acquired) + {data, m};
    }

    method DeleteTensor(t: nat)
      requires Valid() && CTensor(t) in holders
      modifies this
      ensures Valid() && next == old(next)
      ensures holders == old(holders) - {CTensor(t)} && acquired == old(acquired)
      ensures freed == old(freed) + if Sole(old(holders), CTensor(t)) then [old(holders)[CTensor(t)]] else []
    {
      Unref(CTensor(t));
    }

    // ---------- running a session ----------

    /** Tensors of the runtime go out of scope. */
    method Drop(views: seq<Option<Holder>>)
      requires Valid() && DistinctSomes(views) && Somes(views) <= holders.Keys
      modifies this
      ensures Valid() && next == old(next) && acquired == old(acquired) && old(freed) <= freed
      ensures holders == old(holders) - Somes(views)
    {
      var i := 0;
      while i < |views|
        invariant 0 <= i <= |views|
        invariant Valid() && next == old(next) && acquired == old(acquired) && old(freed) <= freed
        invariant holders == old(holders) - Somes(views[..i])
      {
        OneMoreSome(views, i);
        if views[i].Some? {
          Unref(views[i].value);
        }
        i := i + 1;
      }
      assert views[..i] == views;
    }

    /** One input: viewed by the runtime if it is shared and none before it failed, deleted in any case. */
    method RunInput(src: nat, kind: Input, ok: bool) returns (stillOk: bool, pair: Option<Holder>)
      requires Valid() && CTensor(src) in holders
      modifies this
      ensures Valid() && acquired == old(acquired) && old(freed) <= freed && next >= old(next)
      ensures stillOk <==> ok && kind != Malformed
      ensures pair.Some? <==> ok && kind == Shared
      ensures pair.Some? ==> pair.value.View? && old(next) <= pair.value.id < next
      ensures holders == (old(holders) - {CTensor(src)}) + Held(pair, old(holders)[CTensor(src)])
    {
      stillOk, pair := ok, None;
      if ok {
        if kind == Shared {
          Unused(holders, acquired, next);
          StillUsedBelow(holders, acquired, next, holders, acquired, next + 1);
          SoleHolder(refs, holders, CTensor(src));
          pair := Some(View(next));
          next := next + 1;
          Ref(pair.value, holders[CTensor(src)]);
        } else {
          stillOk := kind == Decodes;
        }
      }
      DeleteTensor(src);
    }

    /** Every input is deleted, also after one that does not decode; those shared are viewed by the runtime. */
    method RunInputs(inputs: seq<nat>, kinds: seq<Input>)
      returns (ok: bool, pairs: seq<Option<Holder>>, ghost views: map<Holder, Memory>)
      requires Valid() && |kinds| == |inputs| && Distinct(inputs) && Tensors(inputs) <= holders.Keys
      modifies this
      ensures Valid() && acquired == old(acquired) && old(freed) <= freed && next >= old(next)
      ensures InputsDone(old(holders), holders, inputs, kinds, ok, pairs, views, old(next), next)
    {
      ok, pairs, views := true, [], map[];
      var i := 0;
      while i < |inputs|
        invariant i <= |inputs|
        invariant Valid() && acquired == old(acquired) && old(freed) <= freed && next >= old(next)
        invariant InputsDone(old(holders), holders, inputs[..i], kinds[..i], ok, pairs, views, old(next), next)
      {
        InputReady(old(holders), holders, inputs, kinds, i, ok, pairs, views, old(next), next);
        ghost var before, middle, m, wasOk, done := holders, next, holders[CTensor(inputs[i])], ok, pairs;
        var pair;
        ok, pair := RunInput(inputs[i], kinds[i], ok);
        pairs := pairs + [pair];
        InputDone(old(holders), before, inputs, kinds, i, wasOk, done, views, old(next), middle, next, pair);
        views := views + Held(pair, m);
        i := i + 1;
      }
      assert inputs[..i] == inputs && kinds[..i] == kinds;
    }

    /** What the session leaves for one output: a tensor of the runtime, on a new buffer or on one already held. */
    method ProduceOne(output: Output, pairs: seq<Option<Holder>>) returns (result: Option<Holder>, ghost m: Memory)
      requires Valid() && Sourced(holders, pairs, output)
      modifies this
      ensures Valid() && old(next) <= next && old(acquired) <= acquired && old(freed) <= freed
      ensures holders == old(holders) + Held(result, m)
      ensures result.Some? <==> output.Produced? || SourceOf(old(holders), pairs, output).Some?
      ensures result.Some? ==> result.value.View? && old(next) <= result.value.id < next
      ensures SourceOf(old(holders), pairs, output).Some? ==> m == SourceOf(old(holders), pairs, output).value
      ensures result.Some? ==> m in acquired
      ensures output.Produced? ==> m !in old(acquired)
    {
      result, m := None, Internal(next);
      Unused(holders, acquired, next);
      StillUsedBelow(holders, acquired, next, holders, acquired, next + 1);
      if output.Produced? {
        result, next := Some(View(next)), next + 1;
        Adopt(result.value, Internal(next - 1));
      } else if output.OfInput? || output.OfHolder? {
        var from := if output.OfInput? then pairs[output.index].value else output.holder;
        SoleHolder(refs, holders, from);
        result, next, m := Some(View(next)), next + 1, holders[from];
        Ref(result.value, holders[from]);
      }
    }

    method Produce(outputs: seq<Output>, pairs: seq<Option<Holder>>)
      returns (results: seq<Option<Holder>>, ghost produced: map<Holder, Memory>, ghost ms: seq<Option<Memory>>)
      requires Valid() && forall o | o in outputs :: Sourced(holders, pairs, o)
      modifies this
      ensures Valid() && old(next) <= next && old(acquired) <= acquired && old(freed) <= freed
      ensures holders == old(holders) + produced
      ensures OutputsProduced(old(holders), pairs, outputs, results, produced, old(next), next)
      ensures Apart(IsProduced(outputs), ms, old(acquired), acquired) && MemoriesOf(results, produced, ms)
    {
      results, produced, ms := [], map[], [];
      var i := 0;
      while i < |outputs|
        invariant i <= |outputs|
        invariant Valid() && old(next) <= next && old(acquired) <= acquired && old(freed) <= freed
        invariant holders == old(holders) + produced
        invariant OutputsProduced(old(holders), pairs, outputs[..i], results, produced, old(next), next)
        invariant Apart(IsProduced(outputs[..i]), ms, old(acquired), acquired) && MemoriesOf(results, produced, ms)
      {
        ghost var middle, done, known := next, results, acquired;
        SameSource(old(holders), old(acquired), old(next), produced, pairs, outputs[i]);
        assert outputs[i] in outputs;
        var result;
        ghost var m;
        result, m := ProduceOne(outputs[i], pairs);
        results := results + [result];
        OutputProduced(old(holders), pairs, outputs, i, done, produced, old(next), middle, next, result, m);
        PlusAssociates(old(holders), produced, Held(result, m));
        ResultMemory(outputs, i, done, produced, ms, result, m, old(next), middle, next, old(acquired), known, acquired);
        ms := ms + [if result.Some? then Some(m) else None];
        produced := produced + Held(result, m);
        i := i + 1;
      }
      assert outputs[..i] == outputs;
    }

    /** A result becomes a tensor of the C API: the buffer of a result is shared, nothing and strings get one of their own. */
    method StoreOne(result: Option<Holder>, aligned: bool) returns (t: nat, ghost m: Memory)
      requires Valid() && (result.Some? ==> result.value in holders)
      modifies this
      ensures Valid() && old(next) <= t < next && old(acquired) <= acquired && old(freed) <= freed
      ensures holders == old(holders) + map[CTensor(t) := m]
      ensures result.Some? ==> m == old(holders)[result.value]
      ensures result.None? ==> m !in old(acquired)
      ensures m in acquired
    {
      Unused(holders, acquired, next);
      StillUsedBelow(holders, acquired, next, holders, acquired, next + 1);
      next := next + 1;
      if result.Some? {
        SoleHolder(refs, holders, result.value);
        t, m := next - 1, holders[result.value];
        Ref(CTensor(t), holders[result.value]);
      } else {
        t, m := NewTensor(Internal(next - 1), aligned);
      }
    }

    method Store(results: seq<Option<Holder>>, aligned: seq<bool>, cOutputs: array<Option<nat>>)
      returns (ghost ts: seq<nat>, ghost given: map<Holder, Memory>, ghost ms: seq<Option<Memory>>)
      requires Valid() && Somes(results) <= holders.Keys && cOutputs.Length == |results| == |aligned|
      modifies this, cOutputs
      ensures Valid() && old(next) <= next && old(acquired) <= acquired && old(freed) <= freed
      ensures holders == old(holders) + given
      ensures Stored(old(holders), results, ts, given, old(next), next)
      ensures Apart(HasNone(results), ms, old(acquired), acquired) && GivenMemories(ts, given, ms)
      ensures cOutputs[..] == AllSome(ts)
    {
      ts, given, ms := [], map[], [];
      var i := 0;
      while i < |results|
        invariant i <= |results|
        invariant Valid() && old(next) <= next && old(acquired) <= acquired && old(freed) <= freed
        invariant holders == old(holders) + given
        invariant Stored(old(holders), results[..i], ts, given, old(next), next)
        invariant Apart(HasNone(results[..i]), ms, old(acquired), acquired) && GivenMemories(ts, given, ms)
        invariant |ts| == i && forall k | 0 <= k < i :: cOutputs[k] == Some(ts[k])
      {
        ghost var middle, done, known := next, ts, acquired;
        SameHeld(old(holders), old(acquired), old(next), results, i, ts, given, next);
        var t;
        ghost var m;
        t, m := StoreOne(results[i], aligned[i]);
        cOutputs[i] := Some(t);
        OneMoreStored(old(holders), results, i, done, given, old(next), middle, next, t, m);
        assert holders == (old(holders) + given) + map[CTensor(t) := m];
        PlusAssociates(old(holders), given, map[CTensor(t) := m]);
        TensorMemory(results, i, done, given, ms, t, m, old(acquired), known, acquired);
        ts, given, ms := ts + [t], given + map[CTensor(t) := m], ms + [Some(m)];
        i := i + 1;
      }
      assert results[..i] == results;
    }

    /** The results that were produced go to the caller, and out of the runtime's scope. */
    method Deliver(outputs: seq<Output>, pairs: seq<Option<Holder>>, aligned: seq<bool>, cOutputs: array<Option<nat>>)
      returns (ghost ts: seq<nat>, ghost given: map<Holder, Memory>)
      requires Valid() && (forall o | o in outputs :: Sourced(holders, pairs, o))
      requires cOutputs.Length == |outputs| == |aligned|
      modifies this, cOutputs
      ensures Valid() && old(next) <= next && old(acquired) <= acquired && old(freed) <= freed
      ensures holders == old(holders) + given && cOutputs[..] == AllSome(ts)
      ensures Delivered(old(holders), pairs, outputs, ts, given, old(next)) && OwnBuffers(outputs, ts, given, old(acquired))
    {
      var results;
      ghost var produced, ms, tms;
      ValuesAcquired(refs, holders, acquired, freed);
      results, produced, ms := Produce(outputs, pairs);
      ghost var middle, known := next, acquired;
      ts, given, tms := Store(results, aligned, cOutputs);
      SharedWithNobody(old(holders), pairs, outputs, results, produced, ms, ts, given, tms, old(next), middle, next,
                       old(acquired), known, acquired);
      ScopeEnds(old(holders), old(acquired), produced, given, results, ts, old(next), middle, next);
      DeliveredAll(old(holders), pairs, outputs, results, produced, ts, given, old(next), middle, next);
      Drop(results);
    }

    /** `TF_Run_Helper`: the outputs are stored only if the session has returned them. */
    method RunHelper(outcome: Outcome, pairs: seq<Option<Holder>>, aligned: seq<bool>, cOutputs: array<Option<nat>>)
      returns (status: Status, ghost ts: seq<nat>, ghost given: map<Holder, Memory>)
      requires Valid()
      requires outcome.Returns? ==> forall o | o in outcome.outputs :: Sourced(holders, pairs, o)
      requires outcome.Returns? ==> cOutputs.Length == |outcome.outputs| == |aligned|
      modifies this, cOutputs
      ensures Valid() && old(next) <= next && old(acquired) <= acquired && old(freed) <= freed
      ensures holders == old(holders) + given
      ensures status == Success <==> outcome.Returns?
      ensures status == Success ==> Delivered(old(holders), pairs, outcome.outputs, ts, given, old(next)) && cOutputs[..] == AllSome(ts)
      ensures status == Success ==> OwnBuffers(outcome.outputs, ts, given, old(acquired))
      ensures status == Failure ==> given == map[] && cOutputs[..] == old(cOutputs[..])
    {
      ts, given := [], map[];
      if outcome == UnparseableOptions {
        return Failure, [], map[];
      }
      if outcome == NonEmptyMetadata {
        return Failure, [], map[];
      }
      if outcome == RunFails {
        return Failure, [], map[];
      }
      ts, given := Deliver(outcome.outputs, pairs, aligned, cOutputs);
      status := Success;
    }

    method DeleteInputs(inputs: seq<nat>)
      requires Valid() && Distinct(inputs) && Tensors(inputs) <= holders.Keys
      modifies this
      ensures Valid() && next == old(next) && acquired == old(acquired) && old(freed) <= freed
      ensures holders == old(holders) - Tensors(inputs)
    {
      var i := 0;
      while i < |inputs|
        invariant i <= |inputs|
        invariant Valid() && next == old(next) && acquired == old(acquired) && old(freed) <= freed
        invariant holders == old(holders) - Tensors(inputs[..i])
      {
        OneMoreInput(old(holders), inputs, i, map[], map[]);
        assert holders == (old(holders) - Tensors(inputs[..i])) + map[];
        DeleteTensor(inputs[i]);
        i := i + 1;
      }
      assert inputs[..i] == inputs;
    }

    static method RunSetup(cOutputs: array<Option<nat>>)
      modifies cOutputs
      ensures AllNone(cOutputs[..])
    {
      var i := 0;
      while i < cOutputs.Length
        invariant i <= cOutputs.Length
        invariant AllNone(cOutputs[..i])
      {
        cOutputs[i] := None;
        assert cOutputs[..i + 1] == cOutputs[..i] + [None];
        i := i + 1;
      }
      assert cOutputs[..i] == cOutputs[..];
    }

    /** `TF_SessionRun`, with how the extension of the session's graph and the call of the session end. Whatever
        happens, all inputs are deleted, and nothing of the runtime holds anything that it did not hold before. */
    method SessionRun(extended: bool, inputs: seq<nat>, kinds: seq<Input>, outcome: Outcome, aligned: seq<bool>,
                      cOutputs: array<Option<nat>>)
      returns (status: Status, ghost ts: seq<nat>, ghost given: map<Holder, Memory>)
      requires Valid() && |kinds| == |inputs| && Distinct(inputs) && Tensors(inputs) <= holders.Keys
      requires outcome.Returns? ==> cOutputs.Length == |outcome.outputs| == |aligned|
      requires outcome.Returns? ==> forall o | o in outcome.outputs :: Possible(holders, inputs, kinds, o)
      modifies this, cOutputs
      ensures Valid() && old(acquired) <= acquired && old(freed) <= freed
      ensures holders == (old(holders) - Tensors(inputs)) + given
      ensures status == Success <==> extended && Malformed !in kinds && outcome.Returns?
      ensures status == Success ==> RunDelivered(old(holders), inputs, outcome.outputs, ts, given, old(next)) && cOutputs[..] == AllSome(ts)
      ensures status == Success ==> OwnBuffers(outcome.outputs, ts, given, old(acquired))
      ensures status == Failure ==> given == map[]
      // The header promises nulls on failure: they are there if and only if the extension did not fail, or they were
      // there before.
      ensures status == Failure ==> (AllNone(cOutputs[..]) <==> extended || AllNone(old(cOutputs[..])))
      ensures status == Failure && !extended ==> cOutputs[..] == old(cOutputs[..])
    {
      status, ts, given := Failure, [], map[];
      if !extended {
        DeleteInputs(inputs);
        return;
      }
      RunSetup(cOutputs);
      var ok, pairs;
      ghost var views, middle;
      ok, pairs, views := RunInputs(inputs, kinds);
      middle := next;
      ViewsAreNew(old(holders), old(acquired), inputs, pairs, views, map[], old(next), middle, old(next));
      if ok {
        if outcome.Returns? {
          SourcesReady(old(holders), old(acquired), inputs, kinds, pairs, views, outcome.outputs, old(next), middle);
        }
        status, ts, given := RunHelper(outcome, pairs, aligned, cOutputs);
        if outcome.Returns? {
          DeliveredOverall(old(holders), old(acquired), inputs, kinds, pairs, views, outcome.outputs, ts, given, old(next), middle);
        }
        ViewsAreNew(old(holders), old(acquired), inputs, pairs, views, given, old(next), middle, middle);
      }
      Drop(pairs);
    }
  }

  /** Outputs that were there before a run whose extension fails are still there after it. */
  method OutputsAreLeftAsTheyWere() returns (status: Status, output: Option<nat>)
    ensures status == Failure && output == Some(7)
  {
    var heap := new Heap();
    var outputs := new Option<nat>[1](_ => Some(7));
    ghost var ts, given;
    status, ts, given := heap.SessionRun(false, [], [], RunFails, [], outputs);
    assert outputs[..][0] == Some(7);
    output := outputs[0];
  }
}
