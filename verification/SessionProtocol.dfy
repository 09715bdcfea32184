/** The graph/session protocol of the C API: one graph, any number of sessions and threads.

    Every step is one critical section of the program, or one action it performs with no lock held:
    the graph mutex is only ever held inside a single step, the session mutex across several. Touching
    a graph or a session that has been freed sets `faulted`; nothing here assumes that this cannot
    happen, and `NeverFaults` proves that it does not.

    What a step needs from the client is its `Enabled` guard: a graph is not handed to
    TF_NewSessionWithGraph or grown after TF_DeleteGraph was called on it, TF_DeleteGraph is called once, and
    a session is deleted only when no other call is using it. */
module SessionProtocol {
  import opened Wrappers

  type SessionId = nat
  type ThreadId = nat
  datatype NodeDef = NodeDef(name: string, op: string)

  /** A node as it is sent to a session; its id is kept for the specification. */
  datatype Sent = Sent(id: nat, def: NodeDef)

  /** `frees` counts executions of `delete graph`. A `None` slot is a node that was removed. */
  datatype Graph = Graph(nodes: seq<Option<NodeDef>>, numSessions: int, deleteRequested: bool, frees: nat)

  /** `accepted` is everything that Session::Extend has accepted so far, in order. `closing` is set once
      TF_DeleteSessionWithGraph has given up the session's share of the graph. */
  datatype Session = Session(hasGraph: bool, closing: bool, cursor: nat, accepted: seq<Sent>, lock: Option<ThreadId>)

  datatype Pc =
    | Idle
    | DeletingGraph(del: bool)
    | DeletingSession(sid: SessionId, del: bool)
    | FreeingSession(sid: SessionId)
    | Locked(sid: SessionId)
    | Extending(sid: SessionId, target: nat, batch: seq<Sent>)
    | Extended(sid: SessionId, target: nat)
    | Returned(sid: SessionId, ok: bool, seen: nat)

  datatype State = State(graph: Graph, sessions: map<SessionId, Session>, pcs: map<ThreadId, Pc>, faulted: bool)

  datatype Step =
    | NewSession(sid: SessionId, hasGraph: bool)
    | GrowGraph(slots: seq<Option<NodeDef>>)
    | DeleteGraphLocked(t: ThreadId)
    | DeleteGraphFree(t: ThreadId)
    | DeleteSessionLocked(t: ThreadId, sid: SessionId)
    | DeleteSessionFreeGraph(t: ThreadId)
    | DeleteSessionFree(t: ThreadId)
    | HelperLock(t: ThreadId, sid: SessionId)
    | HelperSnapshot(t: ThreadId)
    | ExtendCall(t: ThreadId, ok: bool)
    | HelperCommit(t: ThreadId)
    | Return(t: ThreadId)

  // ---------- the program ----------

  function At(s: State, t: ThreadId): Pc {
    if t in s.pcs then s.pcs[t] else Idle
  }

  function Goto(s: State, t: ThreadId, pc: Pc): State {
    s.(pcs := s.pcs[t := pc])
  }

  predicate Uses(pc: Pc, sid: SessionId) {
    match pc
    case Idle | DeletingGraph(_) => false
    case DeletingSession(x, _) => x == sid
    case FreeingSession(x) => x == sid
    case Locked(x) => x == sid
    case Extending(x, _, _) => x == sid
    case Extended(x, _) => x == sid
    case Returned(x, _, _) => x == sid
  }

  /** The op nodes with ids in [lo, hi), in id order: ids 0 and 1 are the source and the sink. */
  function Ops(nodes: seq<Option<NodeDef>>, lo: nat, hi: nat): seq<Sent>
    requires hi <= |nodes|
    decreases hi
  {
    if hi <= lo then []
    else Ops(nodes, lo, hi - 1) + if hi - 1 > 1 && nodes[hi - 1].Some? then [Sent(hi - 1, nodes[hi - 1].value)] else []
  }

  /** The graph of TF_NewGraph holds the source and the sink. */
  predicate Initial(s: State) {
    && |s.graph.nodes| == 2 && s.graph.numSessions == 0 && !s.graph.deleteRequested && s.graph.frees == 0
    && s.sessions == map[] && s.pcs == map[] && !s.faulted
  }

  /** When a thread, or the client, can take the step. A mutex that is held blocks. */
  predicate Enabled(s: State, x: Step) {
    match x
    case NewSession(sid, hasGraph) => sid !in s.sessions && (hasGraph ==> !s.graph.deleteRequested)
    case GrowGraph(_) => !s.graph.deleteRequested
    case DeleteGraphLocked(t) => At(s, t).Idle? && !s.graph.deleteRequested
    case DeleteGraphFree(t) => At(s, t).DeletingGraph?
    case DeleteSessionLocked(t, sid) =>
      At(s, t).Idle? && sid in s.sessions && !s.sessions[sid].closing && forall u | u in s.pcs :: !Uses(s.pcs[u], sid)
    case DeleteSessionFreeGraph(t) => At(s, t).DeletingSession?
    case DeleteSessionFree(t) => At(s, t).FreeingSession?
    case HelperLock(t, sid) =>
      && At(s, t).Idle? && sid in s.sessions && !s.sessions[sid].closing
      && (s.sessions[sid].hasGraph ==> s.sessions[sid].lock.None?)
    case HelperSnapshot(t) => At(s, t).Locked?
    case ExtendCall(t, _) => At(s, t).Extending?
    case HelperCommit(t) => At(s, t).Extended?
    case Return(t) => At(s, t).Returned?
  }

  /** Whether the memory the step touches is still there. */
  predicate TouchesOnlyLiveObjects(s: State, x: Step)
    requires Enabled(s, x)
  {
    match x
    case NewSession(_, hasGraph) => hasGraph ==> s.graph.frees == 0
    case GrowGraph(_) => s.graph.frees == 0
    case DeleteGraphLocked(_) => s.graph.frees == 0
    case DeleteGraphFree(t) => At(s, t).del ==> s.graph.frees == 0
    case DeleteSessionLocked(_, sid) => s.sessions[sid].hasGraph ==> s.graph.frees == 0
    case DeleteSessionFreeGraph(t) => At(s, t).del ==> s.graph.frees == 0
    case DeleteSessionFree(t) => At(s, t).sid in s.sessions
    case HelperLock(_, _) => true
    case HelperSnapshot(t) =>
      At(s, t).sid in s.sessions && s.graph.frees == 0 && s.sessions[At(s, t).sid].cursor <= |s.graph.nodes|
    case ExtendCall(t, _) => At(s, t).sid in s.sessions
    case HelperCommit(t) => At(s, t).sid in s.sessions
    case Return(t) => At(s, t).sid in s.sessions
  }

  function Apply(s: State, x: Step): State
    requires Enabled(s, x)
  {
    if TouchesOnlyLiveObjects(s, x) then Effect(s, x) else s.(faulted := true)
  }

  function Effect(s: State, x: Step): State
    requires Enabled(s, x) && TouchesOnlyLiveObjects(s, x)
  {
    match x
    case NewSession(sid, hasGraph) =>
      s.(graph := s.graph.(numSessions := s.graph.numSessions + if hasGraph then 1 else 0),
         sessions := s.sessions[sid := Session(hasGraph, false, 0, [], None)])
    case GrowGraph(slots) =>
      s.(graph := s.graph.(nodes := s.graph.nodes + slots))
    case DeleteGraphLocked(t) =>
      Goto(s.(graph := s.graph.(deleteRequested := true)), t, DeletingGraph(s.graph.numSessions == 0))
    case DeleteGraphFree(t) =>
      Goto(if At(s, t).del then s.(graph := s.graph.(frees := s.graph.frees + 1)) else s, t, Idle)
    case DeleteSessionLocked(t, sid) =>
      var closed := s.(sessions := s.sessions[sid := s.sessions[sid].(closing := true)]);
      if s.sessions[sid].hasGraph then
        var left := s.graph.numSessions - 1;
        Goto(closed.(graph := s.graph.(numSessions := left)), t,
             DeletingSession(sid, s.graph.deleteRequested && left == 0))
      else
        Goto(closed, t, DeletingSession(sid, false))
    case DeleteSessionFreeGraph(t) =>
      Goto(if At(s, t).del then s.(graph := s.graph.(frees := s.graph.frees + 1)) else s,
           t, FreeingSession(At(s, t).sid))
    case DeleteSessionFree(t) =>
      Goto(s.(sessions := s.sessions - {At(s, t).sid}), t, Idle)
    case HelperLock(t, sid) =>
      if s.sessions[sid].hasGraph then
        Goto(s.(sessions := s.sessions[sid := s.sessions[sid].(lock := Some(t))]), t, Locked(sid))
      else
        Goto(s, t, Returned(sid, true, 0))
    case HelperSnapshot(t) =>
      var sid := At(s, t).sid;
      var session := s.sessions[sid];
      var n := |s.graph.nodes|;
      if session.cursor < n then
        Goto(s, t, Extending(sid, n, Ops(s.graph.nodes, session.cursor, n)))
      else
        Goto(s.(sessions := s.sessions[sid := session.(lock := None)]), t, Returned(sid, true, n))
    case ExtendCall(t, ok) =>
      var Extending(sid, target, batch) := At(s, t);
      var session := s.sessions[sid];
      if ok then
        Goto(s.(sessions := s.sessions[sid := session.(accepted := session.accepted + batch)]), t, Extended(sid, target))
      else
        Goto(s.(sessions := s.sessions[sid := session.(lock := None)]), t, Returned(sid, false, target))
    case HelperCommit(t) =>
      var Extended(sid, target) := At(s, t);
      Goto(s.(sessions := s.sessions[sid := s.sessions[sid].(cursor := target, lock := None)]), t, Returned(sid, true, target))
    case Return(t) =>
      Goto(s, t, Idle)
  }

  /** A run: every state follows from the one before it by an enabled step. */
  ghost predicate Run(trace: seq<State>, steps: seq<Step>) {
    && |trace| == |steps| + 1 && Initial(trace[0])
    && forall i :: 0 <= i < |steps| ==> Enabled(trace[i], steps[i]) && trace[i + 1] == Apply(trace[i], steps[i])
  }

  // ---------- the invariant ----------

  /** The sessions that hold a share of the graph. */
  function Holders(s: State): set<SessionId> {
    set sid | sid in s.sessions && IsHolder(s, sid)
  }

  predicate IsHolder(s: State, sid: SessionId) {
    sid in s.sessions && s.sessions[sid].hasGraph && !s.sessions[sid].closing
  }

  /** The threads that have decided to free the graph and have not done so yet. */
  function Freeing(s: State): set<ThreadId> {
    set t | t in s.pcs && IsFreeing(s, t)
  }

  predicate IsFreeing(s: State, t: ThreadId) {
    (At(s, t).DeletingGraph? || At(s, t).DeletingSession?) && At(s, t).del
  }

  ghost predicate LifetimeInv(s: State) {
    && s.graph.numSessions == |Holders(s)|
    && s.graph.frees + |Freeing(s)| == if s.graph.deleteRequested && s.graph.numSessions == 0 then 1 else 0
  }

  ghost predicate ThreadInv(s: State, t: ThreadId)
    requires t in s.pcs
  {
    var pc := s.pcs[t];
    match pc
    case Idle | DeletingGraph(_) => true
    case DeletingSession(sid, _) => OnlyUser(s, t, sid)
    case FreeingSession(sid) => OnlyUser(s, t, sid)
    case Locked(sid) => HoldsLock(s, t, sid) && UpToDate(s.graph, s.sessions[sid])
    case Extending(sid, target, batch) =>
      && HoldsLock(s, t, sid) && UpToDate(s.graph, s.sessions[sid])
      && s.sessions[sid].cursor < target <= |s.graph.nodes|
      && batch == Ops(s.graph.nodes, s.sessions[sid].cursor, target)
    case Extended(sid, target) =>
      && HoldsLock(s, t, sid) && s.sessions[sid].cursor < target <= |s.graph.nodes|
      && s.sessions[sid].accepted == Ops(s.graph.nodes, 0, target)
    case Returned(sid, ok, seen) =>
      && sid in s.sessions && !s.sessions[sid].closing
      && (ok && s.sessions[sid].hasGraph ==> seen <= s.sessions[sid].cursor)
  }

  ghost predicate OnlyUser(s: State, t: ThreadId, sid: SessionId) {
    && sid in s.sessions && s.sessions[sid].closing
    && forall u | u in s.pcs :: Uses(s.pcs[u], sid) ==> u == t
  }

  ghost predicate HoldsLock(s: State, t: ThreadId, sid: SessionId) {
    && sid in s.sessions && s.sessions[sid].hasGraph && !s.sessions[sid].closing && s.sessions[sid].lock == Some(t)
  }

  /** The session has accepted exactly the op nodes below its cursor. */
  ghost predicate UpToDate(g: Graph, session: Session) {
    session.cursor <= |g.nodes| && session.accepted == Ops(g.nodes, 0, session.cursor)
  }

  ghost predicate SessionInv(s: State, sid: SessionId)
    requires sid in s.sessions
  {
    var session := s.sessions[sid];
    match session.lock
    case None => session.hasGraph ==> UpToDate(s.graph, session)
    case Some(t) => t in s.pcs && Uses(s.pcs[t], sid) && (s.pcs[t].Locked? || s.pcs[t].Extending? || s.pcs[t].Extended?)
  }

  ghost predicate Inv(s: State) {
    && !s.faulted && LifetimeInv(s)
    && (forall t | t in s.pcs :: ThreadInv(s, t))
    && (forall sid | sid in s.sessions :: SessionInv(s, sid))
  }

  // ---------- lemmas about Ops ----------

  lemma {:induction false} OpsSplit(nodes: seq<Option<NodeDef>>, lo: nat, mid: nat, hi: nat)
    requires lo <= mid <= hi <= |nodes|
    ensures Ops(nodes, lo, hi) == Ops(nodes, lo, mid) + Ops(nodes, mid, hi)
    decreases hi
  {
    if mid < hi {
      OpsSplit(nodes, lo, mid, hi - 1);
    }
  }

  lemma {:induction false} OpsGrow(nodes: seq<Option<NodeDef>>, slots: seq<Option<NodeDef>>, lo: nat, hi: nat)
    requires hi <= |nodes|
    ensures Ops(nodes + slots, lo, hi) == Ops(nodes, lo, hi)
    decreases hi
  {
    if lo < hi {
      OpsGrow(nodes, slots, lo, hi - 1);
    }
  }

  /** Ops lists exactly the live op nodes of the range, each once, by increasing id. */
  lemma {:induction false} OpsExactlyOnce(nodes: seq<Option<NodeDef>>, hi: nat)
    requires hi <= |nodes|
    ensures forall i, j :: 0 <= i < j < |Ops(nodes, 0, hi)| ==> Ops(nodes, 0, hi)[i].id < Ops(nodes, 0, hi)[j].id
    ensures forall x :: x in Ops(nodes, 0, hi) <==> 1 < x.id < hi && nodes[x.id] == Some(x.def)
    decreases hi
  {
    if 0 < hi {
      OpsExactlyOnce(nodes, hi - 1);
      var before := Ops(nodes, 0, hi - 1);
      forall i | 0 <= i < |before| ensures before[i].id < hi - 1 {
        assert before[i] in before;
      }
    }
  }

  // ---------- the invariant is kept ----------

  lemma OnlyLiveObjects(s: State, x: Step)
    requires Inv(s) && Enabled(s, x)
    ensures TouchesOnlyLiveObjects(s, x)
  {
    match x
    case DeleteGraphFree(t) => FreeingMeansNotFreed(s, t);
    case DeleteSessionFreeGraph(t) => FreeingMeansNotFreed(s, t);
    case DeleteSessionLocked(_, sid) => HolderMeansNotFreed(s, sid);
    case HelperSnapshot(t) => HolderMeansNotFreed(s, At(s, t).sid);
    case _ =>
  }

  lemma FreeingMeansNotFreed(s: State, t: ThreadId)
    requires LifetimeInv(s)
    ensures t in Freeing(s) ==> s.graph.frees == 0
  {
    if t in Freeing(s) {
      assert {t} <= Freeing(s);
      SubsetSize({t}, Freeing(s));
    }
  }

  lemma HolderMeansNotFreed(s: State, sid: SessionId)
    requires LifetimeInv(s)
    ensures sid in Holders(s) ==> s.graph.frees == 0 && s.graph.numSessions > 0
  {
    if sid in Holders(s) {
      SubsetSize({sid}, Holders(s));
    }
  }

  lemma {:induction false} SubsetSize<T>(a: set<T>, b: set<T>)
    requires a <= b
    ensures |a| <= |b|
  {
    if a != {} {
      var e :| e in a;
      SubsetSize(a - {e}, b - {e});
    }
  }

  lemma StepKeepsInv(s: State, x: Step)
    requires Inv(s) && Enabled(s, x)
    ensures Inv(Apply(s, x))
  {
    OnlyLiveObjects(s, x);
    var n := Apply(s, x);
    LifetimeKept(s, x);
    forall t | t in n.pcs ensures ThreadInv(n, t) {
      ThreadKept(s, x, t);
    }
    forall sid | sid in n.sessions ensures SessionInv(n, sid) {
      SessionKept(s, x, sid);
    }
  }

  /** How a step changes who holds the graph. */
  lemma HoldersAfter(s: State, x: Step)
    requires Inv(s) && Enabled(s, x) && TouchesOnlyLiveObjects(s, x)
    ensures Holders(Effect(s, x)) ==
            match x
            case NewSession(sid, hasGraph) => if hasGraph then Holders(s) + {sid} else Holders(s)
            case DeleteSessionLocked(_, sid) => Holders(s) - {sid}
            case _ => Holders(s)
  {
    forall sid: SessionId {
      HolderAfter(s, x, sid);
    }
  }

  lemma HolderAfter(s: State, x: Step, sid: SessionId)
    requires Inv(s) && Enabled(s, x) && TouchesOnlyLiveObjects(s, x)
    ensures IsHolder(Effect(s, x), sid) <==>
            match x
            case NewSession(created, hasGraph) => IsHolder(s, sid) || (hasGraph && sid == created)
            case DeleteSessionLocked(_, deleted) => IsHolder(s, sid) && sid != deleted
            case _ => IsHolder(s, sid)
  {
    if x.DeleteSessionFree? { assert ThreadInv(s, x.t); }
  }

  /** How a step changes who is about to free it. */
  lemma FreeingAfter(s: State, x: Step)
    requires Enabled(s, x) && TouchesOnlyLiveObjects(s, x)
    ensures Freeing(Effect(s, x)) ==
            match x
            case DeleteGraphLocked(t) => if Effect(s, x).pcs[t].del then Freeing(s) + {t} else Freeing(s)
            case DeleteSessionLocked(t, _) => if Effect(s, x).pcs[t].del then Freeing(s) + {t} else Freeing(s)
            case DeleteGraphFree(t) => Freeing(s) - {t}
            case DeleteSessionFreeGraph(t) => Freeing(s) - {t}
            case _ => Freeing(s)
  {
    forall t: ThreadId {
      FreeingThreadAfter(s, x, t);
    }
  }

  lemma FreeingThreadAfter(s: State, x: Step, t: ThreadId)
    requires Enabled(s, x) && TouchesOnlyLiveObjects(s, x)
    ensures IsFreeing(Effect(s, x), t) <==>
            match x
            case DeleteGraphLocked(u) => IsFreeing(s, t) || (t == u && Effect(s, x).pcs[u].del)
            case DeleteSessionLocked(u, _) => IsFreeing(s, t) || (t == u && Effect(s, x).pcs[u].del)
            case DeleteGraphFree(u) => IsFreeing(s, t) && t != u
            case DeleteSessionFreeGraph(u) => IsFreeing(s, t) && t != u
            case _ => IsFreeing(s, t)
  {
  }

  lemma HoldersStayCounted(s: State, x: Step)
    requires Inv(s) && Enabled(s, x) && TouchesOnlyLiveObjects(s, x)
    ensures Effect(s, x).graph.numSessions == |Holders(Effect(s, x))|
    ensures x.DeleteSessionLocked? ==> s.sessions[x.sid].hasGraph ==> s.graph.numSessions > 0
  {
    HoldersAfter(s, x);
    if x.DeleteSessionLocked? { HolderMeansNotFreed(s, x.sid); }
  }

  lemma OneThreadFrees(s: State, x: Step)
    requires LifetimeInv(s) && Enabled(s, x) && TouchesOnlyLiveObjects(s, x)
    requires x.DeleteSessionLocked? ==> s.sessions[x.sid].hasGraph ==> s.graph.numSessions > 0
    ensures var n := Effect(s, x);
            n.graph.frees + |Freeing(n)| == if n.graph.deleteRequested && n.graph.numSessions == 0 then 1 else 0
  {
    FreeingAfter(s, x);
  }

  lemma LifetimeKept(s: State, x: Step)
    requires Inv(s) && Enabled(s, x) && TouchesOnlyLiveObjects(s, x)
    ensures LifetimeInv(Effect(s, x))
  {
    HoldersStayCounted(s, x);
    OneThreadFrees(s, x);
  }

  lemma ThreadKept(s: State, x: Step, t: ThreadId)
    requires Inv(s) && Enabled(s, x) && TouchesOnlyLiveObjects(s, x)
    requires t in Effect(s, x).pcs
    ensures ThreadInv(Effect(s, x), t)
  {
    if x.NewSession? {
      assert ThreadInv(s, t);
    } else if x.GrowGraph? {
      ThreadKeptByGrowth(s, x, t);
    } else if x.t == t {
      ActorKept(s, x);
    } else {
      assert ThreadInv(s, t);
      BystanderKept(s, x, t);
    }
  }

  lemma ThreadKeptByGrowth(s: State, x: Step, t: ThreadId)
    requires Inv(s) && x.GrowGraph? && Enabled(s, x) && TouchesOnlyLiveObjects(s, x)
    requires t in s.pcs
    ensures ThreadInv(Effect(s, x), t)
  {
    assert ThreadInv(s, t);
    var pc := s.pcs[t];
    if pc.Locked? || pc.Extending? || pc.Extended? {
      var cursor := s.sessions[pc.sid].cursor;
      if !pc.Extended? { OpsGrow(s.graph.nodes, x.slots, 0, cursor); }
      if !pc.Locked? {
        OpsGrow(s.graph.nodes, x.slots, cursor, pc.target);
        OpsGrow(s.graph.nodes, x.slots, 0, pc.target);
      }
    }
  }

  lemma ActorKept(s: State, x: Step)
    requires Inv(s) && !x.NewSession? && !x.GrowGraph? && Enabled(s, x) && TouchesOnlyLiveObjects(s, x)
    ensures ThreadInv(Effect(s, x), x.t)
  {
    if x.t in s.pcs { assert ThreadInv(s, x.t); }
    match x
    case HelperLock(_, sid) => assert SessionInv(s, sid);
    case ExtendCall(t, _) => OpsSplit(s.graph.nodes, 0, s.sessions[At(s, t).sid].cursor, At(s, t).target);
    case _ =>
  }

  /** A step by thread u leaves alone what thread t relies on: the session t has locked, or is deleting. */
  lemma OthersSessionUntouched(s: State, x: Step, t: ThreadId)
    requires Inv(s) && !x.NewSession? && !x.GrowGraph? && Enabled(s, x) && TouchesOnlyLiveObjects(s, x)
    requires t in s.pcs && t != x.t
    requires !s.pcs[t].Idle? && !s.pcs[t].DeletingGraph? && !s.pcs[t].Returned?
    ensures s.pcs[t].sid in s.sessions && s.pcs[t].sid in Effect(s, x).sessions
    ensures Effect(s, x).sessions[s.pcs[t].sid] == s.sessions[s.pcs[t].sid]
    ensures x.t in s.pcs ==> !Uses(s.pcs[x.t], s.pcs[t].sid) || s.pcs[x.t].Returned?
  {
    assert ThreadInv(s, t);
    if x.t in s.pcs { assert ThreadInv(s, x.t); }
  }

  lemma BystanderKept(s: State, x: Step, t: ThreadId)
    requires Inv(s) && !x.NewSession? && !x.GrowGraph? && Enabled(s, x) && TouchesOnlyLiveObjects(s, x)
    requires t in s.pcs && t != x.t && ThreadInv(s, t)
    ensures ThreadInv(Effect(s, x), t)
  {
    var n := Effect(s, x);
    assert n.graph.nodes == s.graph.nodes;
    assert n.pcs[t] == s.pcs[t];
    match s.pcs[t]
    case Idle | DeletingGraph(_) =>
    case Returned(_, _, _) => ReturnedKept(s, x, t);
    case DeletingSession(sid, _) => OnlyUserKept(s, x, t, sid);
    case FreeingSession(sid) => OnlyUserKept(s, x, t, sid);
    case _ => OthersSessionUntouched(s, x, t);
  }

  lemma OnlyUserKept(s: State, x: Step, t: ThreadId, sid: SessionId)
    requires Inv(s) && !x.NewSession? && !x.GrowGraph? && Enabled(s, x) && TouchesOnlyLiveObjects(s, x)
    requires t in s.pcs && t != x.t && OnlyUser(s, t, sid)
    requires s.pcs[t] == FreeingSession(sid) || (s.pcs[t].DeletingSession? && s.pcs[t].sid == sid)
    ensures OnlyUser(Effect(s, x), t, sid)
  {
    OthersSessionUntouched(s, x, t);
  }

  lemma ReturnedKept(s: State, x: Step, t: ThreadId)
    requires Inv(s) && !x.NewSession? && !x.GrowGraph? && Enabled(s, x) && TouchesOnlyLiveObjects(s, x)
    requires t in s.pcs && t != x.t && s.pcs[t].Returned?
    ensures ThreadInv(Effect(s, x), t)
  {
    assert ThreadInv(s, t);
    if x.t in s.pcs { assert ThreadInv(s, x.t); }
  }

  lemma SessionKept(s: State, x: Step, sid: SessionId)
    requires Inv(s) && Enabled(s, x) && TouchesOnlyLiveObjects(s, x)
    requires sid in Effect(s, x).sessions
    ensures SessionInv(Effect(s, x), sid)
  {
    if x.NewSession? {
      if x.sid != sid { assert SessionInv(s, sid); }
    } else if x.GrowGraph? {
      assert SessionInv(s, sid);
      if s.sessions[sid].lock.None? && s.sessions[sid].hasGraph {
        OpsGrow(s.graph.nodes, x.slots, 0, s.sessions[sid].cursor);
      }
    } else if sid in s.sessions && s.sessions[sid].lock == Some(x.t) {
      assert SessionInv(s, sid) && ThreadInv(s, x.t);
      LockedSessionKept(s, x, sid);
    } else {
      OtherSessionKept(s, x, sid);
    }
  }

  lemma LockedSessionKept(s: State, x: Step, sid: SessionId)
    requires !x.NewSession? && !x.GrowGraph? && Enabled(s, x) && TouchesOnlyLiveObjects(s, x)
    requires sid in s.sessions && s.sessions[sid].lock == Some(x.t) && SessionInv(s, sid) && ThreadInv(s, x.t)
    requires sid in Effect(s, x).sessions
    ensures SessionInv(Effect(s, x), sid)
  {
  }

  lemma OtherSessionKept(s: State, x: Step, sid: SessionId)
    requires Inv(s) && !x.NewSession? && !x.GrowGraph? && Enabled(s, x) && TouchesOnlyLiveObjects(s, x)
    requires sid in s.sessions && s.sessions[sid].lock != Some(x.t)
    requires sid in Effect(s, x).sessions
    ensures SessionInv(Effect(s, x), sid)
  {
    assert SessionInv(s, sid);
    if x.t in s.pcs { assert ThreadInv(s, x.t); }
  }

  // ---------- what every run keeps ----------

  lemma {:induction false} RunKeepsInv(trace: seq<State>, steps: seq<Step>, i: nat)
    requires Run(trace, steps) && i < |trace|
    ensures Inv(trace[i])
    decreases i
  {
    if i == 0 {
      assert Holders(trace[0]) == {} && Freeing(trace[0]) == {};
    } else {
      RunKeepsInv(trace, steps, i - 1);
      assert Enabled(trace[i - 1], steps[i - 1]);
      StepKeepsInv(trace[i - 1], steps[i - 1]);
    }
  }

  /** A step that touches what has been freed is noticed, and so it stays. */
  lemma FaultsAreNoticed(s: State, x: Step)
    requires Enabled(s, x)
    ensures Apply(s, x).faulted <==> s.faulted || !TouchesOnlyLiveObjects(s, x)
  {
  }

  /** No step of any run touches a graph or a session that has been freed. */
  lemma NeverFaults(trace: seq<State>, steps: seq<Step>, i: nat)
    requires Run(trace, steps) && i < |steps|
    ensures TouchesOnlyLiveObjects(trace[i], steps[i]) && !trace[i + 1].faulted
  {
    RunKeepsInv(trace, steps, i);
    RunKeepsInv(trace, steps, i + 1);
    OnlyLiveObjects(trace[i], steps[i]);
  }

  /** The graph is freed at most once, never while a session holds it; once deletion was requested and the
      last session is gone, it has been freed or exactly one thread is about to free it; and when no call is
      in progress it has been freed exactly in that case. */
  lemma GraphLifetime(trace: seq<State>, steps: seq<Step>, i: nat)
    requires Run(trace, steps) && i < |trace|
    ensures var s := trace[i];
            var unused := s.graph.deleteRequested && Holders(s) == {};
            && s.graph.frees <= 1 && (s.graph.frees == 1 ==> unused)
            && (unused ==> (s.graph.frees == 1 && Freeing(s) == {}) || (s.graph.frees == 0 && exists t :: Freeing(s) == {t}))
            && ((forall t | t in s.pcs :: s.pcs[t].Idle?) ==> (s.graph.frees == 1 <==> unused))
  {
    RunKeepsInv(trace, steps, i);
    var s := trace[i];
    assert |Holders(s)| == 0 <==> Holders(s) == {};
    if |Freeing(s)| == 1 {
      var t :| t in Freeing(s);
      assert |Freeing(s) - {t}| == 0;
      assert Freeing(s) == {t};
    }
  }

  /** How far a session has got: its cursor, except between a successful Extend and the cursor's update. */
  function Boundary(s: State, session: Session): nat {
    match session.lock
    case None => session.cursor
    case Some(t) => if At(s, t).Extended? then At(s, t).target else session.cursor
  }

  /** Over every interleaving, what a session has accepted is the live op nodes below its boundary: by
      increasing id, none missing and none twice. */
  lemma SessionsReceiveEachNodeOnce(trace: seq<State>, steps: seq<Step>, i: nat, sid: SessionId)
    requires Run(trace, steps) && i < |trace|
    requires sid in trace[i].sessions && trace[i].sessions[sid].hasGraph && !trace[i].sessions[sid].closing
    ensures var session := trace[i].sessions[sid];
            var boundary := Boundary(trace[i], session);
            && session.cursor <= boundary <= |trace[i].graph.nodes|
            && (forall j, k :: 0 <= j < k < |session.accepted| ==> session.accepted[j].id < session.accepted[k].id)
            && forall x :: x in session.accepted <==> 1 < x.id < boundary && trace[i].graph.nodes[x.id] == Some(x.def)
  {
    RunKeepsInv(trace, steps, i);
    var s := trace[i];
    assert SessionInv(s, sid);
    if s.sessions[sid].lock.Some? { assert ThreadInv(s, s.sessions[sid].lock.value); }
    OpsExactlyOnce(s.graph.nodes, Boundary(s, s.sessions[sid]));
  }

  /** The graph only grows. */
  lemma {:induction false} NodesOnlyGrow(trace: seq<State>, steps: seq<Step>, i: nat, j: nat)
    requires Run(trace, steps) && i <= j < |trace|
    ensures trace[i].graph.nodes <= trace[j].graph.nodes
    decreases j
  {
    if i < j {
      NodesOnlyGrow(trace, steps, i, j - 1);
      StepOnlyGrows(trace[j - 1], steps[j - 1]);
    }
  }

  lemma StepOnlyGrows(s: State, x: Step)
    requires Enabled(s, x)
    ensures s.graph.nodes <= Apply(s, x).graph.nodes
  {
  }

  /** The thread is past its look at the graph, in a helper call on a session that has one. */
  predicate HasSnapshot(s: State, t: ThreadId) {
    var pc := At(s, t);
    pc.Extending? || pc.Extended? || (pc.Returned? && pc.sid in s.sessions && s.sessions[pc.sid].hasGraph)
  }

  function NodesSeen(s: State, t: ThreadId): nat
    requires HasSnapshot(s, t)
  {
    if At(s, t).Returned? then At(s, t).seen else At(s, t).target
  }

  lemma SnapshotCarriedOver(s: State, x: Step, t: ThreadId)
    requires (t in s.pcs ==> ThreadInv(s, t)) && Enabled(s, x) && TouchesOnlyLiveObjects(s, x)
    requires HasSnapshot(Effect(s, x), t) && x != HelperSnapshot(t)
    ensures HasSnapshot(s, t) && At(s, t).sid == At(Effect(s, x), t).sid && NodesSeen(s, t) == NodesSeen(Effect(s, x), t)
  {
  }

  lemma SnapshotTaken(s: State, t: ThreadId)
    requires Enabled(s, HelperSnapshot(t)) && TouchesOnlyLiveObjects(s, HelperSnapshot(t))
    requires HasSnapshot(Effect(s, HelperSnapshot(t)), t)
    ensures At(s, t) == Locked(At(Effect(s, HelperSnapshot(t)), t).sid)
    ensures NodesSeen(Effect(s, HelperSnapshot(t)), t) == |s.graph.nodes|
  {
  }

  /** A state of a run after the first one is what the step before it has made of a state of the invariant. */
  lemma StepOfRun(trace: seq<State>, steps: seq<Step>, i: nat)
    requires Run(trace, steps) && 0 < i < |trace|
    ensures Inv(trace[i - 1]) && Enabled(trace[i - 1], steps[i - 1]) && TouchesOnlyLiveObjects(trace[i - 1], steps[i - 1])
    ensures trace[i] == Effect(trace[i - 1], steps[i - 1])
  {
    RunKeepsInv(trace, steps, i - 1);
    assert Enabled(trace[i - 1], steps[i - 1]);
    OnlyLiveObjects(trace[i - 1], steps[i - 1]);
  }

  lemma NoSnapshotAtFirst(s: State, t: ThreadId)
    requires Initial(s)
    ensures !HasSnapshot(s, t)
  {
  }

  /** The step at which the helper call that thread t is making, or has just made, read the graph. */
  lemma {:induction false} SnapshotOf(trace: seq<State>, steps: seq<Step>, i: nat, t: ThreadId) returns (j: nat)
    requires Run(trace, steps) && i < |trace| && HasSnapshot(trace[i], t)
    ensures j < i && steps[j] == HelperSnapshot(t) && At(trace[j], t) == Locked(At(trace[i], t).sid)
    ensures |trace[j].graph.nodes| == NodesSeen(trace[i], t)
    decreases i
  {
    NoSnapshotAtFirst(trace[0], t);
    j := i - 1;
    var before, step := trace[j], steps[j];
    StepOfRun(trace, steps, i);
    if step == HelperSnapshot(t) {
      SnapshotTaken(before, t);
    } else {
      if t in before.pcs {
        assert ThreadInv(before, t);
      }
      SnapshotCarriedOver(before, step, t);
      j := SnapshotOf(trace, steps, j, t);
    }
  }

  /** When the helper returns true, the session has accepted every op node that was in the graph when the
      helper looked at it under the lock, whatever other threads did meanwhile. */
  lemma HelperTrueSendsSnapshot(trace: seq<State>, steps: seq<Step>, i: nat, t: ThreadId) returns (j: nat)
    requires Run(trace, steps) && i < |trace|
    requires At(trace[i], t).Returned? && At(trace[i], t).ok
    requires At(trace[i], t).sid in trace[i].sessions && trace[i].sessions[At(trace[i], t).sid].hasGraph
    ensures j < i && steps[j] == HelperSnapshot(t) && At(trace[j], t) == Locked(At(trace[i], t).sid)
    ensures |trace[j].graph.nodes| <= trace[i].sessions[At(trace[i], t).sid].cursor
    ensures forall id | 1 < id < |trace[j].graph.nodes| && trace[j].graph.nodes[id].Some? ::
              Sent(id, trace[j].graph.nodes[id].value) in trace[i].sessions[At(trace[i], t).sid].accepted
  {
    var sid := At(trace[i], t).sid;
    j := SnapshotOf(trace, steps, i, t);
    RunKeepsInv(trace, steps, i);
    assert ThreadInv(trace[i], t);
    SessionsReceiveEachNodeOnce(trace, steps, i, sid);
    NodesOnlyGrow(trace, steps, j, i);
  }

  // ---------- what calls do ----------

  predicate By(x: Step, t: ThreadId) {
    !x.NewSession? && !x.GrowGraph? && x.t == t
  }

  predicate BeginsCall(x: Step) {
    x.HelperLock? || x.DeleteGraphLocked? || x.DeleteSessionLocked?
  }

  /** The steps that a thread's last call has taken so far. */
  function CallSteps(steps: seq<Step>, m: nat, t: ThreadId): seq<Step>
    requires m <= |steps|
  {
    if m == 0 then []
    else if !By(steps[m - 1], t) then CallSteps(steps, m - 1, t)
    else if BeginsCall(steps[m - 1]) then [steps[m - 1]]
    else CallSteps(steps, m - 1, t) + [steps[m - 1]]
  }

  /** The steps by which a call gets to where the thread is. */
  ghost predicate GotThere(pc: Pc, call: seq<Step>, t: ThreadId) {
    match pc
    case Idle => call == [] || call[|call| - 1].Return? || call[|call| - 1].DeleteGraphFree? || call[|call| - 1].DeleteSessionFree?
    case DeletingGraph(_) => call == [DeleteGraphLocked(t)]
    case DeletingSession(sid, _) => call == [DeleteSessionLocked(t, sid)]
    case FreeingSession(sid) => call == [DeleteSessionLocked(t, sid), DeleteSessionFreeGraph(t)]
    case Locked(sid) => call == [HelperLock(t, sid)]
    case Extending(sid, _, _) => call == [HelperLock(t, sid), HelperSnapshot(t)]
    case Extended(sid, _) => call == [HelperLock(t, sid), HelperSnapshot(t), ExtendCall(t, true)]
    case Returned(sid, ok, _) => if ok then HelperSucceeds(call, t, sid) else HelperFails(call, t, sid)
  }

  /** There is no graph, or nothing to send, or what there was to send has been accepted. */
  predicate HelperSucceeds(call: seq<Step>, t: ThreadId, sid: SessionId) {
    || call == [HelperLock(t, sid)]
    || call == [HelperLock(t, sid), HelperSnapshot(t)]
    || call == [HelperLock(t, sid), HelperSnapshot(t), ExtendCall(t, true), HelperCommit(t)]
  }

  predicate HelperFails(call: seq<Step>, t: ThreadId, sid: SessionId) {
    call == [HelperLock(t, sid), HelperSnapshot(t), ExtendCall(t, false)]
  }

  lemma StepGetsThere(s: State, x: Step, call: seq<Step>, t: ThreadId)
    requires Enabled(s, x) && TouchesOnlyLiveObjects(s, x) && GotThere(At(s, t), call, t)
    ensures GotThere(At(Effect(s, x), t), if !By(x, t) then call else if BeginsCall(x) then [x] else call + [x], t)
  {
  }

  lemma {:induction false} CallsGetThere(trace: seq<State>, steps: seq<Step>, m: nat, t: ThreadId)
    requires Run(trace, steps) && m < |trace|
    ensures GotThere(At(trace[m], t), CallSteps(steps, m, t), t)
    decreases m
  {
    if m > 0 {
      CallsGetThere(trace, steps, m - 1, t);
      StepOfRun(trace, steps, m);
      StepGetsThere(trace[m - 1], steps[m - 1], CallSteps(steps, m - 1, t), t);
    }
  }

  /** The helper answers false if and only if the last step of its call was a failed Extend: where Extend has succeeded, or
      was not needed, it answers true. */
  lemma HelperAnswers(trace: seq<State>, steps: seq<Step>, m: nat, t: ThreadId)
    requires Run(trace, steps) && m < |trace|
    ensures var call, pc := CallSteps(steps, m, t), At(trace[m], t);
            && (pc.Returned? && !pc.ok <==> call != [] && call[|call| - 1] == ExtendCall(t, false))
            && (pc.Returned? && pc.ok ==> HelperSucceeds(call, t, pc.sid))
            && (pc.Returned? && !pc.ok ==> HelperFails(call, t, pc.sid))
  {
    CallsGetThere(trace, steps, m, t);
  }

  /** A failed Extend leaves what the session has accepted and its cursor as they were; a successful one adds the batch. */
  lemma ExtendAcceptsAllOrNothing(s: State, t: ThreadId, ok: bool)
    requires Inv(s) && Enabled(s, ExtendCall(t, ok))
    ensures var sid := At(s, t).sid;
            var before, after := s.sessions[sid], Apply(s, ExtendCall(t, ok)).sessions[sid];
            && after.cursor == before.cursor
            && after.accepted == before.accepted + if ok then At(s, t).batch else []
  {
    OnlyLiveObjects(s, ExtendCall(t, ok));
  }

  function AddedBy(x: Step): seq<Option<NodeDef>> {
    if x.GrowGraph? then x.slots else []
  }

  /** All that the first m steps have added to the graph, in order. */
  function Added(steps: seq<Step>, m: nat): seq<Option<NodeDef>>
    requires m <= |steps|
  {
    if m == 0 then [] else Added(steps, m - 1) + AddedBy(steps[m - 1])
  }

  /** The graph holds what was added to it after the source and the sink, and nothing else. */
  lemma {:induction false} GraphHoldsWhatWasAdded(trace: seq<State>, steps: seq<Step>, m: nat)
    requires Run(trace, steps) && m < |trace|
    ensures trace[m].graph.nodes == trace[0].graph.nodes + Added(steps, m) && |trace[m].graph.nodes| == 2 + |Added(steps, m)|
    decreases m
  {
    if m > 0 {
      GraphHoldsWhatWasAdded(trace, steps, m - 1);
      NodesAfterStep(trace, steps, m);
    }
  }

  lemma NodesAfterStep(trace: seq<State>, steps: seq<Step>, m: nat)
    requires Run(trace, steps) && 0 < m < |trace|
    ensures trace[m].graph.nodes == trace[m - 1].graph.nodes + AddedBy(steps[m - 1])
  {
    StepOfRun(trace, steps, m);
    StepAdds(trace[m - 1], steps[m - 1]);
  }

  lemma StepAdds(s: State, x: Step)
    requires Enabled(s, x) && TouchesOnlyLiveObjects(s, x)
    ensures Effect(s, x).graph.nodes == s.graph.nodes + AddedBy(x)
  {
  }

  /** A session is there from its creation until TF_DeleteSessionWithGraph returns, and not when it has. */
  lemma SessionIsDeleted(trace: seq<State>, steps: seq<Step>, m: nat, sid: SessionId)
    requires Run(trace, steps) && 0 < m < |trace|
    ensures steps[m - 1].DeleteSessionFree? ==>
              At(trace[m - 1], steps[m - 1].t).sid in trace[m - 1].sessions
              && trace[m].sessions.Keys == trace[m - 1].sessions.Keys - {At(trace[m - 1], steps[m - 1].t).sid}
    ensures !steps[m - 1].DeleteSessionFree? ==>
              trace[m].sessions.Keys == trace[m - 1].sessions.Keys + if steps[m - 1].NewSession? then {steps[m - 1].sid} else {}
  {
    StepOfRun(trace, steps, m);
    StepKeepsSessions(trace[m - 1], steps[m - 1]);
  }

  lemma StepKeepsSessions(s: State, x: Step)
    requires Inv(s) && Enabled(s, x) && TouchesOnlyLiveObjects(s, x)
    ensures Effect(s, x).sessions.Keys ==
            if x.NewSession? then s.sessions.Keys + {x.sid}
            else if x.DeleteSessionFree? then s.sessions.Keys - {At(s, x.t).sid}
            else s.sessions.Keys
  {
    if !x.NewSession? && !x.GrowGraph? && x.t in s.pcs {
      assert ThreadInv(s, x.t);
    }
  }

  /** A thread inside a call can always take its next step: locks are only waited for at the beginning of one. */
  lemma CallCanProceed(s: State, t: ThreadId)
    requires !At(s, t).Idle?
    ensures match At(s, t)
            case DeletingGraph(_) => Enabled(s, DeleteGraphFree(t))
            case DeletingSession(_, _) => Enabled(s, DeleteSessionFreeGraph(t))
            case FreeingSession(_) => Enabled(s, DeleteSessionFree(t))
            case Locked(_) => Enabled(s, HelperSnapshot(t))
            case Extending(_, _, _) => Enabled(s, ExtendCall(t, true)) && Enabled(s, ExtendCall(t, false))
            case Extended(_, _) => Enabled(s, HelperCommit(t))
            case Returned(_, _, _) => Enabled(s, Return(t))
  {
  }

  /** So a helper call that waits for a session's lock waits for a call that can go on. */
  lemma LockHolderCanProceed(s: State, t: ThreadId, sid: SessionId) returns (u: ThreadId)
    requires Inv(s) && At(s, t).Idle? && sid in s.sessions && !s.sessions[sid].closing
    requires !Enabled(s, HelperLock(t, sid))
    ensures s.sessions[sid].lock == Some(u) && u != t && !At(s, u).Idle? && Uses(At(s, u), sid)
  {
    assert SessionInv(s, sid);
    u := s.sessions[sid].lock.value;
  }
}
