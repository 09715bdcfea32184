/** The executor cache: executors in buckets by the ordinal of their device, looked up by their full configuration. */
module ExecutorCache {
  import opened Wrappers

  /** An executor is named by its address. */
  type Executor = nat

  datatype PluginConfig = PluginConfig(blas: nat, dnn: nat, fft: nat, rng: nat)

  datatype Config = Config(ordinal: int, plugins: PluginConfig, deviceOptions: nat)

  datatype Entry = Entry(config: Config, executor: Executor)

  datatype Error = AlreadyExists | NotFound

  /** The plain map that the cache stands for. */
  datatype Operation = Insert(config: Config, executor: Executor) | Get(config: Config) | DestroyAll

  ghost function Apply(m: map<Config, Executor>, operations: seq<Operation>): map<Config, Executor> {
    if operations == [] then m
    else
      var before := Apply(m, operations[..|operations| - 1]);
      match operations[|operations| - 1]
      case Insert(config, executor) => if config in before then before else before[config := executor]
      case Get(_) => before
      case DestroyAll => map[]
  }

  /** Is this insertion the first of its configuration since the cache was last cleared, or was empty? */
  ghost predicate FirstSinceClear(operations: seq<Operation>, i: nat, from: nat, config: Config)
    requires i < |operations|
  {
    && from <= i
    && (from > 0 ==> operations[from - 1].DestroyAll?)
    && forall j | from <= j < i :: !(operations[j].Insert? && operations[j].config == config)
  }

  /** What is found is what the first insertion of the configuration since the last clearing has stored. */
  lemma {:induction false} FirstInsertIsFound(operations: seq<Operation>, i: nat, from: nat)
    requires i < |operations| && operations[i].Insert?
    requires FirstSinceClear(operations, i, from, operations[i].config)
    requires forall j | i < j < |operations| :: !operations[j].DestroyAll?
    ensures var m := Apply(map[], operations);
            operations[i].config in m && m[operations[i].config] == operations[i].executor
    decreases |operations|
  {
    var last := |operations| - 1;
    if i == last {
      NotYetInserted(operations[..last], from, operations[i].config);
    } else {
      FirstInsertIsFound(operations[..last], i, from);
    }
  }

  lemma {:induction false} NotYetInserted(operations: seq<Operation>, from: nat, config: Config)
    requires from <= |operations| && (from > 0 ==> operations[from - 1].DestroyAll?)
    requires forall j | from <= j < |operations| :: !(operations[j].Insert? && operations[j].config == config)
    ensures config !in Apply(map[], operations)
    decreases |operations|
  {
    if from < |operations| {
      NotYetInserted(operations[..|operations| - 1], from, config);
    }
  }

  /** Nothing is found that was not inserted since the last clearing. */
  lemma {:induction false} FoundWasInserted(operations: seq<Operation>, config: Config) returns (i: nat, from: nat)
    requires config in Apply(map[], operations)
    ensures i < |operations| && operations[i].Insert? && operations[i].config == config
    ensures FirstSinceClear(operations, i, from, config)
    ensures operations[i].executor == Apply(map[], operations)[config]
    ensures forall j | i < j < |operations| :: !operations[j].DestroyAll?
    decreases |operations|
  {
    var last := |operations| - 1;
    var before := operations[..last];
    if config in Apply(map[], before) {
      i, from := FoundWasInserted(before, config);
    } else {
      i := last;
      from := LastClear(before, config);
    }
  }

  lemma {:induction false} LastClear(operations: seq<Operation>, config: Config) returns (from: nat)
    requires config !in Apply(map[], operations)
    ensures from <= |operations| && (from > 0 ==> operations[from - 1].DestroyAll?)
    ensures forall j | from <= j < |operations| :: !(operations[j].Insert? && operations[j].config == config)
    decreases |operations|
  {
    if operations == [] {
      from := 0;
    } else if operations[|operations| - 1].DestroyAll? {
      from := |operations|;
    } else {
      from := LastClear(operations[..|operations| - 1], config);
    }
  }

  class Cache {
    var buckets: map<int, seq<Entry>>
    /** The map that the buckets represent. */
    ghost var contents: map<Config, Executor>

    ghost predicate Valid()
      reads this
    {
      && (forall o, i | o in buckets && 0 <= i < |buckets[o]| ::
            buckets[o][i].config.ordinal == o && Represented(buckets[o][i], contents))
      && (forall o, i, j | o in buckets && 0 <= i < j < |buckets[o]| :: buckets[o][i].config != buckets[o][j].config)
      && forall c | c in contents :: Cached(buckets, c, contents[c])
    }

    static ghost predicate Represented(entry: Entry, m: map<Config, Executor>) {
      entry.config in m && m[entry.config] == entry.executor
    }

    static ghost predicate Cached(b: map<int, seq<Entry>>, c: Config, executor: Executor) {
      c.ordinal in b && Entry(c, executor) in b[c.ordinal]
    }

    constructor ()
      ensures Valid() && contents == map[]
    {
      buckets, contents := map[], map[];
    }

    /** Compares plugins and device options only: the bucket is that of the ordinal. */
    method Get(config: Config) returns (result: Result<Executor, Error>)
      requires Valid()
      ensures result == if config in contents then Ok(contents[config]) else Err(NotFound)
    {
      if config.ordinal !in buckets {
        return Err(NotFound);
      }
      var entries := buckets[config.ordinal];
      var i := 0;
      while i < |entries|
        invariant 0 <= i <= |entries|
        invariant forall j | 0 <= j < i :: entries[j].config != config
      {
        if entries[i].config.plugins == config.plugins && entries[i].config.deviceOptions == config.deviceOptions {
          assert Represented(buckets[config.ordinal][i], contents);
          return Ok(entries[i].executor);
        }
        i := i + 1;
      }
      result := Err(NotFound);
    }

    /** Does not overwrite. */
    method Insert(config: Config, executor: Executor) returns (result: Result<(), Error>)
      requires Valid()
      modifies this
      ensures Valid()
      ensures contents == if config in old(contents) then old(contents) else old(contents)[config := executor]
      ensures result == if config in old(contents) then Err(AlreadyExists) else Ok(())
    {
      var found := Get(config);
      if found.Ok? {
        return Err(AlreadyExists);
      }
      var bucket := if config.ordinal in buckets then buckets[config.ordinal] else [];
      forall i | 0 <= i < |bucket| ensures bucket[i].config != config {
        assert Represented(buckets[config.ordinal][i], contents);
      }
      buckets := buckets[config.ordinal := bucket + [Entry(config, executor)]];
      contents := contents[config := executor];
      result := Ok(());
    }

    method DestroyAllExecutors()
      modifies this
      ensures Valid() && contents == map[]
    {
      buckets, contents := map[], map[];
    }

    /** Over any sequence of operations the cache is the plain map. */
    method Perform(operations: seq<Operation>)
      requires Valid()
      modifies this
      ensures Valid() && contents == Apply(old(contents), operations)
    {
      var i := 0;
      while i < |operations|
        invariant 0 <= i <= |operations|
        invariant Valid() && contents == Apply(old(contents), operations[..i])
      {
        assert operations[..i + 1][..i] == operations[..i];
        match operations[i] {
          case Insert(config, executor) => var _ := Insert(config, executor);
          case Get(config) => var _ := Get(config);
          case DestroyAll => DestroyAllExecutors();
        }
        i := i + 1;
      }
      assert operations[..i] == operations;
    }
  }
}
