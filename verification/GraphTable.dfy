/** The node table of a TF_Graph and its name index: TF_FinishOperation, TF_GraphImportGraphDef,
    TF_GraphOperationByName and TF_GraphNextOperation, each inside one critical section of the graph's mutex. */
module GraphTable {
  import opened Sequences
  import opened Wrappers

  datatype Status = OK | InvalidArgument

  /** A node id that has been given out: the name of the node, or nothing once the node was removed. */
  type Slot = Option<string>

  // ---------- specification ----------

  /** An operation of this name is in the graph: ids 0 and 1 are the source and the sink. */
  ghost predicate HasOperation(slots: seq<Slot>, name: string) {
    exists id :: 2 <= id < |slots| && slots[id] == Some(name)
  }

  /** The index maps exactly the names of the live operations, each to its node. */
  ghost predicate IndexAgrees(slots: seq<Slot>, index: map<string, nat>) {
    && (forall name | name in index :: 2 <= index[name] < |slots| && slots[index[name]] == Some(name))
    && (forall id | 2 <= id < |slots| && slots[id].Some? :: slots[id].value in index && index[slots[id].value] == id)
  }

  /** The ids of the live nodes from `pos` on, in order. */
  function LiveFrom(slots: seq<Slot>, pos: nat): seq<nat>
    decreases |slots| - pos
  {
    if pos >= |slots| then []
    else (if slots[pos].Some? then [pos] else []) + LiveFrom(slots, pos + 1)
  }

  /** The first live node at or after `pos`. */
  function FirstLive(slots: seq<Slot>, pos: nat): Option<nat>
    decreases |slots| - pos
  {
    if pos >= |slots| then None
    else if slots[pos].Some? then Some(pos)
    else FirstLive(slots, pos + 1)
  }

  function StartOf(pos: nat): nat {
    if pos == 0 then 2 else pos + 1
  }

  predicate Letter(c: char) {
    'a' <= c <= 'z' || 'A' <= c <= 'Z'
  }

  predicate Digit(c: char) {
    '0' <= c <= '9'
  }

  predicate IsValidNodeName(s: string) {
    && |s| > 0 && (Letter(s[0]) || Digit(s[0]) || s[0] == '.')
    && forall i | 1 <= i < |s| :: Letter(s[i]) || Digit(s[i]) || s[i] in "-./_"
  }

  /** The prefix that ImportGraphDef puts before every name. */
  function ImportPrefix(prefix: string): string {
    if prefix == "" || prefix[|prefix| - 1] == '/' then prefix else prefix + "/"
  }

  /** The import may go ahead: no node of the graph is in the way, and the imported names are good. */
  ghost predicate Importable(slots: seq<Slot>, prefix: string, names: seq<string>) {
    && NoCollision(slots, prefix, names)
    && Distinct(names) && forall i | 0 <= i < |names| :: IsValidNodeName(names[i])
  }

  ghost predicate NoCollision(slots: seq<Slot>, prefix: string, names: seq<string>) {
    if prefix == "" then
      forall id, i | 0 <= id < |slots| && 0 <= i < |names| :: slots[id] != Some(names[i])
    else
      && IsValidNodeName(prefix[..|prefix| - 1])
      && forall id | 0 <= id < |slots| && slots[id].Some? :: !(prefix <= slots[id].value)
  }

  function Imported(prefix: string, names: seq<string>, order: seq<nat>): seq<Slot>
    requires forall k | 0 <= k < |order| :: order[k] < |names|
  {
    seq(|order|, k requires 0 <= k < |order| => Some(prefix + names[order[k]]))
  }

  /** No node was added or removed; some ids may have been used up. */
  ghost predicate OnlyHolesAdded(before: seq<Slot>, after: seq<Slot>) {
    before <= after && forall id | |before| <= id < |after| :: after[id].None?
  }

  ghost predicate NamesUnique(slots: seq<Slot>) {
    forall i, j | 2 <= i < j < |slots| && slots[i].Some? :: slots[i] != slots[j]
  }

  lemma ImportedNamesAreNew(slots: seq<Slot>, prefix: string, names: seq<string>, order: seq<nat>)
    requires NamesUnique(slots) && Importable(slots, prefix, names)
    requires Distinct(order) && forall k | 0 <= k < |order| :: order[k] < |names|
    ensures NamesUnique(slots + Imported(prefix, names, order))
  {
    var after := slots + Imported(prefix, names, order);
    forall i, j | 2 <= i < j < |after| && after[i].Some? ensures after[i] != after[j] {
      if |slots| <= j {
        var b := order[j - |slots|];
        assert after[j].value[|prefix|..] == names[b];
        if |slots| <= i {
          assert after[i].value[|prefix|..] == names[order[i - |slots|]];
        } else if prefix == "" {
          assert after[j].value == names[b];
        }
      }
    }
  }

  // ---------- the same in terms of characters ----------

  /** An ASCII letter or digit, by its code. */
  predicate Alphanumeric(c: char) {
    48 <= c as int <= 57 || 65 <= c as int <= 90 || 97 <= c as int <= 122
  }

  lemma NodeNameCharacters(s: string)
    ensures IsValidNodeName(s) <==>
            s != "" && (Alphanumeric(s[0]) || s[0] == '.')
            && forall i | 1 <= i < |s| :: Alphanumeric(s[i]) || s[i] == '-' || s[i] == '.' || s[i] == '/' || s[i] == '_'
  {
  }

  /** Between a prefix and a name there is exactly the slash that the prefix may lack; an empty prefix adds nothing. */
  lemma ImportedName(prefix: string, name: string)
    ensures prefix == "" ==> ImportPrefix(prefix) + name == name
    ensures prefix != "" && prefix[|prefix| - 1] == '/' ==> ImportPrefix(prefix) + name == prefix + name
    ensures prefix != "" && prefix[|prefix| - 1] != '/' ==> ImportPrefix(prefix) + name == prefix + "/" + name
  {
  }

  /** What makes an import possible: without a prefix, that no node has an imported name; with one, that it is a valid name but
      for a slash at its end, and that no node is below it. */
  lemma ImportableIff(slots: seq<Slot>, prefix: string, names: seq<string>)
    ensures prefix == "" ==>
              (Importable(slots, ImportPrefix(prefix), names) <==>
                 && (forall id, i | 0 <= id < |slots| && 0 <= i < |names| :: slots[id] != Some(names[i]))
                 && (forall i, j | 0 <= i < j < |names| :: names[i] != names[j])
                 && forall i | 0 <= i < |names| :: IsValidNodeName(names[i]))
    ensures prefix != "" ==>
              var stem := if prefix[|prefix| - 1] == '/' then prefix[..|prefix| - 1] else prefix;
              (Importable(slots, ImportPrefix(prefix), names) <==>
                 && IsValidNodeName(stem)
                 && (forall id | 0 <= id < |slots| && slots[id].Some? :: !(stem + "/" <= slots[id].value))
                 && (forall i, j | 0 <= i < j < |names| :: names[i] != names[j])
                 && forall i | 0 <= i < |names| :: IsValidNodeName(names[i]))
  {
    if prefix != "" {
      var full := ImportPrefix(prefix);
      assert full == full[..|full| - 1] + "/";
    }
  }

  // ---------- the program ----------

  class Graph {
    var slots: seq<Slot>
    var nameMap: map<string, nat>

    ghost predicate Valid()
      reads this
    {
      && |slots| >= 2 && slots[0] == Some("_SOURCE") && slots[1] == Some("_SINK")
      && IndexAgrees(slots, nameMap)
    }

    constructor ()
      ensures Valid() && |slots| == 2 && nameMap == map[]
    {
      slots := [Some("_SOURCE"), Some("_SINK")];
      nameMap := map[];
    }

    /** `finalizes` is the outcome of NodeBuilder::Finalize, which adds the node last of all that can fail. */
    method FinishOperation(name: string, finalizes: bool) returns (node: Option<nat>, status: Status)
      requires Valid()
      modifies this
      ensures Valid()
      ensures status.OK? <==> finalizes && !HasOperation(old(slots), name)
      ensures status.OK? ==> node == Some(|old(slots)|) && slots == old(slots) + [Some(name)] && nameMap == old(nameMap)[name := |old(slots)|]
      ensures !status.OK? ==> node == None && slots == old(slots) && nameMap == old(nameMap)
    {
      node := None;
      if name in nameMap {
        status := InvalidArgument;
      } else if !finalizes {
        status := InvalidArgument;
      } else {
        status := OK;
        node := Some(|slots|);
        slots := slots + [Some(name)];
        nameMap := nameMap[name := |slots| - 1];
      }
    }

    method OperationByName(name: string) returns (node: Option<nat>)
      requires Valid()
      ensures node.Some? <==> HasOperation(slots, name)
      ensures node.Some? ==> 2 <= node.value < |slots| && slots[node.value] == Some(name)
    {
      node := if name in nameMap then Some(nameMap[name]) else None;
    }

    method NextOperation(pos: nat) returns (node: Option<nat>, next: nat)
      requires Valid()
      ensures node == FirstLive(slots, StartOf(pos))
      ensures node.Some? ==> next == node.value
      ensures node.None? ==> next >= |slots|
    {
      next := if pos == 0 then pos + 2 else pos + 1;
      while next < |slots|
        invariant next >= StartOf(pos)
        invariant FirstLive(slots, next) == FirstLive(slots, StartOf(pos))
      {
        if slots[next].Some? {
          return Some(next), next;
        }
        next := next + 1;
      }
      node := None;
    }

    method EnsureNoNameCollisions(prefix: string, names: seq<string>) returns (ok: bool)
      requires Valid()
      ensures ok <==> NoCollision(slots, prefix, names)
    {
      if prefix == "" {
        var existing: set<string> := {};
        for id := 0 to |slots|
          invariant forall name :: name in existing <==> exists k :: 0 <= k < id && slots[k] == Some(name)
        {
          if slots[id].Some? { existing := existing + {slots[id].value}; }
        }
        for n := 0 to |names|
          invariant forall i | 0 <= i < n :: names[i] !in existing
        {
          if names[n] in existing { return false; }
        }
      } else {
        if !IsValidNodeName(prefix[..|prefix| - 1]) { return false; }
        for id := 0 to |slots|
          invariant forall k | 0 <= k < id && slots[k].Some? :: !(prefix <= slots[k].value)
        {
          if slots[id].Some? && prefix <= slots[id].value { return false; }
        }
      }
      ok := true;
    }

    static method BuildNodeIndex(names: seq<string>) returns (ok: bool)
      ensures ok <==> Distinct(names) && forall i | 0 <= i < |names| :: IsValidNodeName(names[i])
    {
      var index: set<string> := {};
      for n := 0 to |names|
        invariant forall name :: name in index <==> name in names[..n]
        invariant Distinct(names[..n])
        invariant forall i | 0 <= i < n :: IsValidNodeName(names[i])
      {
        if !IsValidNodeName(names[n]) { return false; }
        if names[n] in index {
          var i :| 0 <= i < n && names[i] == names[n];
          return false;
        }
        index := index + {names[n]};
      }
      ok := true;
    }

    /** Convert() makes nodes out of the NodeDefs in `order`, and fails after that unless `completes`. Undo() then
        removes them again, which leaves their ids behind. */
    method ImportGraphDef(prefix: string, names: seq<string>, order: seq<nat>, completes: bool) returns (status: Status)
      requires Valid()
      requires Distinct(order) && forall k | 0 <= k < |order| :: order[k] < |names|
      requires completes ==> |order| == |names|
      modifies this`slots
      ensures status.OK? <==> completes && Importable(old(slots), prefix, names)
      ensures status.OK? ==> slots == old(slots) + Imported(prefix, names, order)
      ensures !status.OK? ==> OnlyHolesAdded(old(slots), slots)
      ensures !status.OK? ==> |slots| == |old(slots)| + if Importable(old(slots), prefix, names) then |order| else 0
    {
      ghost var before := slots;
      var ok := EnsureNoNameCollisions(prefix, names);
      if !ok { return InvalidArgument; }
      ok := BuildNodeIndex(names);
      if !ok { return InvalidArgument; }
      var first := |slots|;
      for k := 0 to |order|
        invariant slots == before + Imported(prefix, names, order[..k])
      {
        slots := slots + [Some(prefix + names[order[k]])];
      }
      assert order[..|order|] == order;
      if completes { return OK; }
      for k := 0 to |order|
        invariant |slots| == first + |order| && slots[..first] == before
        invariant forall i | first <= i < first + k :: slots[i] == None
      {
        slots := slots[first + k := None];
      }
      status := InvalidArgument;
    }

    method TFGraphImportGraphDef(prefix: string, names: seq<string>, order: seq<nat>, completes: bool) returns (status: Status)
      requires Valid()
      requires Distinct(order) && forall k | 0 <= k < |order| :: order[k] < |names|
      requires completes ==> |order| == |names|
      modifies this
      ensures Valid()
      ensures status.OK? <==> completes && Importable(old(slots), ImportPrefix(prefix), names)
      ensures status.OK? ==> slots == old(slots) + Imported(ImportPrefix(prefix), names, order)
      ensures status.OK? ==>
                |slots| == |old(slots)| + |order|
                && forall k | 0 <= k < |order| :: slots[|old(slots)| + k] == Some(ImportPrefix(prefix) + names[order[k]])
      ensures !status.OK? ==> nameMap == old(nameMap) && OnlyHolesAdded(old(slots), slots)
      ensures !status.OK? ==> |slots| == |old(slots)| + if Importable(old(slots), ImportPrefix(prefix), names) then |order| else 0
    {
      var last := |slots|;
      status := ImportGraphDef(ImportPrefix(prefix), names, order, completes);
      if status != OK { return; }
      ImportedNamesAreNew(old(slots), ImportPrefix(prefix), names, order);
      assert slots[..last] == old(slots);
      IndexNodesFrom(last);
    }

    /** The loop that enters the imported nodes into the index. */
    method IndexNodesFrom(last: nat)
      requires 2 <= last <= |slots| && NamesUnique(slots) && IndexAgrees(slots[..last], nameMap)
      modifies this`nameMap
      ensures IndexAgrees(slots, nameMap)
    {
      for i := last to |slots|
        invariant IndexAgrees(slots[..i], nameMap)
      {
        if slots[i].Some? {
          nameMap := nameMap[slots[i].value := i];
        }
      }
      assert slots[..|slots|] == slots;
    }
  }

  // ---------- lemmas ----------

  /** The loop that c_api.h documents: call TF_GraphNextOperation from position 0 until there is no more. */
  function Enumerate(slots: seq<Slot>, pos: nat): seq<nat>
    decreases |slots| - pos
  {
    match FirstLive(slots, StartOf(pos))
    case None => []
    case Some(id) => FirstLiveBounds(slots, StartOf(pos)); [id] + Enumerate(slots, id)
  }

  lemma {:induction false} FirstLiveBounds(slots: seq<Slot>, pos: nat)
    ensures var r := FirstLive(slots, pos); r.Some? ==> pos <= r.value < |slots| && slots[r.value].Some?
    ensures LiveFrom(slots, pos) == match FirstLive(slots, pos) case None => [] case Some(id) => [id] + LiveFrom(slots, id + 1)
    decreases |slots| - pos
  {
    if pos < |slots| && slots[pos].None? { FirstLiveBounds(slots, pos + 1); }
  }

  lemma {:induction false} EnumerateFollowsIds(slots: seq<Slot>, pos: nat)
    ensures Enumerate(slots, pos) == LiveFrom(slots, StartOf(pos))
    decreases |slots| - pos
  {
    FirstLiveBounds(slots, StartOf(pos));
    match FirstLive(slots, StartOf(pos))
    case None =>
    case Some(id) => EnumerateFollowsIds(slots, id);
  }

  lemma {:induction false} LiveFromExactly(slots: seq<Slot>, pos: nat)
    ensures forall i, j | 0 <= i < j < |LiveFrom(slots, pos)| :: LiveFrom(slots, pos)[i] < LiveFrom(slots, pos)[j]
    ensures forall id :: id in LiveFrom(slots, pos) <==> pos <= id < |slots| && slots[id].Some?
    decreases |slots| - pos
  {
    if pos < |slots| {
      LiveFromExactly(slots, pos + 1);
      var rest := LiveFrom(slots, pos + 1);
      forall j | 0 <= j < |rest| ensures pos < rest[j] {
        assert rest[j] in rest;
      }
    }
  }

  /** Enumerating visits each operation of the graph exactly once, by increasing id, and looking up the name of
      each finds it again. */
  lemma EnumerationIsComplete(slots: seq<Slot>, index: map<string, nat>)
    requires IndexAgrees(slots, index)
    ensures var ids := Enumerate(slots, 0);
            && (forall i, j | 0 <= i < j < |ids| :: ids[i] < ids[j])
            && (forall id :: id in ids <==> 2 <= id < |slots| && slots[id].Some?)
            && forall id | id in ids :: slots[id].value in index && index[slots[id].value] == id
  {
    EnumerateFollowsIds(slots, 0);
    LiveFromExactly(slots, 2);
  }

  /** An import of one node that fails after the node was made uses up an id. */
  method FailedImportUsesUpAnId() returns (status: Status, slots: seq<Slot>)
    ensures status == InvalidArgument && slots == [Some("_SOURCE"), Some("_SINK"), None]
  {
    var g := new Graph();
    status := g.TFGraphImportGraphDef("", ["a"], [0], false);
    slots := g.slots;
    assert IsValidNodeName("a");
  }
}
