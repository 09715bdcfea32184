/** The plugin registry: factories by platform and generic ones, and each platform's default plugins. */
module PluginRegistry {
  import opened Wrappers

  /** Plugins and platforms are named by addresses, factories too. */
  type PluginId = nat
  type PlatformId = nat
  type Factory = nat

  const NULL_PLUGIN: PluginId := 0
  /** The address of a static of its own. */
  const DEFAULT_PLUGIN: PluginId := 1

  datatype PluginKind = Invalid | Blas | Dnn | Fft | Rng

  datatype Error = AlreadyExists | NotFound | FailedPrecondition

  /** One thing for each kind of plugin. */
  datatype ByKind<T> = ByKind(blas: T, dnn: T, fft: T, rng: T) {
    function At(kind: PluginKind): T
      requires kind != Invalid
    {
      match kind
      case Blas => blas
      case Dnn => dnn
      case Fft => fft
      case Rng => rng
    }

    function With(kind: PluginKind, t: T): (changed: ByKind<T>)
      requires kind != Invalid
      ensures forall k | k != Invalid :: changed.At(k) == if k == kind then t else At(k)
    {
      match kind
      case Blas => this.(blas := t)
      case Dnn => this.(dnn := t)
      case Fft => this.(fft := t)
      case Rng => this.(rng := t)
    }
  }

  type Factories = ByKind<map<PluginId, Factory>>

  const NO_FACTORIES: Factories := ByKind(map[], map[], map[], map[])
  const NO_DEFAULTS: ByKind<PluginId> := ByKind(NULL_PLUGIN, NULL_PLUGIN, NULL_PLUGIN, NULL_PLUGIN)

  class Registry {
    var platformIdByKind: map<nat, PlatformId>
    var factories: map<PlatformId, Factories>
    var genericFactories: Factories
    var defaultFactories: map<PlatformId, ByKind<PluginId>>
    var pluginNames: map<PluginId, string>

    // ---------- what is registered ----------

    function Specific(platform: PlatformId, kind: PluginKind): map<PluginId, Factory>
      requires kind != Invalid
      reads this
    {
      if platform in factories then factories[platform].At(kind) else map[]
    }

    /** The default, null if none was set. */
    function DefaultOf(platform: PlatformId, kind: PluginKind): PluginId
      requires kind != Invalid
      reads this
    {
      if platform in defaultFactories then defaultFactories[platform].At(kind) else NULL_PLUGIN
    }

    /** The factory of a plugin: that of the platform if there is one, else the generic one. */
    ghost function Resolve(platform: PlatformId, kind: PluginKind, id: PluginId): Option<Factory>
      requires kind != Invalid
      reads this
    {
      if id in Specific(platform, kind) then Some(Specific(platform, kind)[id])
      else if id in genericFactories.At(kind) then Some(genericFactories.At(kind)[id])
      else None
    }

    /** Every default is null or registered, for its platform or generically. */
    ghost predicate Valid()
      reads this
    {
      forall platform, kind | kind != Invalid :: DefaultIsRegistered(platform, kind)
    }

    ghost predicate DefaultIsRegistered(platform: PlatformId, kind: PluginKind)
      requires kind != Invalid
      reads this
    {
      DefaultOf(platform, kind) == NULL_PLUGIN || Resolve(platform, kind, DefaultOf(platform, kind)).Some?
    }

    /** What a lookup finds, with the default plugin standing for the platform's. */
    ghost function Found(platform: PlatformId, kind: PluginKind, id: PluginId): Result<Factory, Error>
      requires kind != Invalid
      reads this
    {
      if id == DEFAULT_PLUGIN && DefaultOf(platform, kind) == NULL_PLUGIN then Err(FailedPrecondition)
      else
        var factory := Resolve(platform, kind, if id == DEFAULT_PLUGIN then DefaultOf(platform, kind) else id);
        if factory.Some? then Ok(factory.value) else Err(NotFound)
    }

    constructor ()
      ensures Valid()
      ensures forall platform, kind, id | kind != Invalid :: Resolve(platform, kind, id) == None
      ensures forall platform, kind | kind != Invalid :: DefaultOf(platform, kind) == NULL_PLUGIN
    {
      platformIdByKind, factories, genericFactories, defaultFactories, pluginNames := map[], map[], NO_FACTORIES, map[], map[];
    }

    // ---------- registering ----------

    /** The part that is the same for a platform and for all: a plugin is registered once, its factory never replaced. */
    method RegisterFactoryInternal(id: PluginId, name: string, factory: Factory, into: map<PluginId, Factory>)
      returns (result: Result<(), Error>, registered: map<PluginId, Factory>)
      modifies `pluginNames
      ensures result == if id in into then Err(AlreadyExists) else Ok(())
      ensures registered == if id in into then into else into[id := factory]
      ensures pluginNames == if id in into then old(pluginNames) else old(pluginNames)[id := name]
    {
      if id in into {
        return Err(AlreadyExists), into;
      }
      registered := into[id := factory];
      pluginNames := pluginNames[id := name];
      result := Ok(());
    }

    method RegisterFactory(platform: PlatformId, kind: PluginKind, id: PluginId, name: string, factory: Factory)
      returns (result: Result<(), Error>)
      requires Valid() && kind != Invalid
      modifies `factories, `pluginNames
      ensures Valid()
      ensures result == if id in old(Specific(platform, kind)) then Err(AlreadyExists) else Ok(())
      ensures Specific(platform, kind) ==
              if result.Ok? then old(Specific(platform, kind))[id := factory] else old(Specific(platform, kind))
      ensures forall p, k | k != Invalid && (p != platform || k != kind) :: Specific(p, k) == old(Specific(p, k))
      ensures pluginNames == if result.Ok? then old(pluginNames)[id := name] else old(pluginNames)
    {
      var of := if platform in factories then factories[platform] else NO_FACTORIES;
      var registered;
      result, registered := RegisterFactoryInternal(id, name, factory, of.At(kind));
      factories := factories[platform := of.With(kind, registered)];
      forall p, k | k != Invalid ensures DefaultIsRegistered(p, k) {
        assert old(DefaultIsRegistered(p, k));
      }
    }

    method RegisterFactoryForAllPlatforms(kind: PluginKind, id: PluginId, name: string, factory: Factory)
      returns (result: Result<(), Error>)
      requires Valid() && kind != Invalid
      modifies `genericFactories, `pluginNames
      ensures Valid()
      ensures result == if id in old(genericFactories).At(kind) then Err(AlreadyExists) else Ok(())
      ensures genericFactories == if result.Ok? then old(genericFactories).With(kind, old(genericFactories).At(kind)[id := factory])
                                  else old(genericFactories)
      ensures pluginNames == if result.Ok? then old(pluginNames)[id := name] else old(pluginNames)
      // What a platform finds does not change, unless it found nothing.
      ensures forall p, k, i | k != Invalid && old(Resolve(p, k, i)).Some? :: Resolve(p, k, i) == old(Resolve(p, k, i))
    {
      var registered;
      result, registered := RegisterFactoryInternal(id, name, factory, genericFactories.At(kind));
      if result.Ok? {
        genericFactories := genericFactories.With(kind, registered);
      }
      forall p, k | k != Invalid ensures DefaultIsRegistered(p, k) {
        assert old(DefaultIsRegistered(p, k));
      }
    }

    /** Of an invalid kind there is no factory. */
    method HasFactory(platform: PlatformId, kind: PluginKind, id: PluginId) returns (has: bool)
      ensures has <==> kind != Invalid && Resolve(platform, kind, id).Some?
    {
      if kind == Invalid {
        return false;
      }
      if platform in factories {
        if id in factories[platform].At(kind) {
          return true;
        }
      }
      has := id in genericFactories.At(kind);
    }

    /** The default is set if and only if the plugin is registered; the lookup of the default then finds that plugin's
        factory, unless the plugin is the null one, which counts as no default. */
    method SetDefaultFactory(platform: PlatformId, kind: PluginKind, id: PluginId) returns (set_: bool)
      requires Valid()
      modifies `defaultFactories
      ensures Valid()
      ensures set_ <==> kind != Invalid && Resolve(platform, kind, id).Some?
      ensures set_ ==> DefaultOf(platform, kind) == id
      ensures set_ ==> (Found(platform, kind, DEFAULT_PLUGIN).Ok? <==> id != NULL_PLUGIN)
      ensures set_ && id != NULL_PLUGIN ==> Found(platform, kind, DEFAULT_PLUGIN) == Ok(Resolve(platform, kind, id).value)
      ensures forall p, k | k != Invalid && (!set_ || p != platform || k != kind) :: DefaultOf(p, k) == old(DefaultOf(p, k))
    {
      set_ := HasFactory(platform, kind, id);
      if !set_ {
        return;
      }
      var of := if platform in defaultFactories then defaultFactories[platform] else NO_DEFAULTS;
      defaultFactories := defaultFactories[platform := of.With(kind, id)];
      forall p, k | k != Invalid ensures DefaultIsRegistered(p, k) {
        assert old(DefaultIsRegistered(p, k));
      }
    }

    // ---------- looking up ----------

    method GetFactoryInternal(id: PluginId, specific: map<PluginId, Factory>, generic: map<PluginId, Factory>)
      returns (result: Result<Factory, Error>)
      ensures id in specific ==> result == Ok(specific[id])
      ensures id !in specific && id in generic ==> result == Ok(generic[id])
      ensures id !in specific && id !in generic ==> result == Err(NotFound)
    {
      if id in specific {
        return Ok(specific[id]);
      }
      if id in generic {
        return Ok(generic[id]);
      }
      result := Err(NotFound);
    }

    /** Looking up adds empty entries for the platform to the maps, but nothing to what can be found. */
    method GetFactory(platform: PlatformId, kind: PluginKind, id: PluginId) returns (result: Result<Factory, Error>)
      requires Valid() && kind != Invalid
      modifies `factories, `defaultFactories
      ensures Valid()
      ensures result == old(Found(platform, kind, id))
      ensures id == DEFAULT_PLUGIN && old(DefaultOf(platform, kind)) == NULL_PLUGIN ==> result == Err(FailedPrecondition)
      ensures var plugin := if id == DEFAULT_PLUGIN then old(DefaultOf(platform, kind)) else id;
              var own, generic := old(Specific(platform, kind)), old(genericFactories.At(kind));
              id != DEFAULT_PLUGIN || plugin != NULL_PLUGIN ==>
                && (plugin in own ==> result == Ok(own[plugin]))
                && (plugin !in own && plugin in generic ==> result == Ok(generic[plugin]))
                && (plugin !in own && plugin !in generic ==> result == Err(NotFound))
      ensures result.Ok? || id != DEFAULT_PLUGIN || old(DefaultOf(platform, kind)) == NULL_PLUGIN
      ensures forall p, k | k != Invalid :: Specific(p, k) == old(Specific(p, k)) && DefaultOf(p, k) == old(DefaultOf(p, k))
    {
      var plugin := id;
      assert DefaultIsRegistered(platform, kind);
      if plugin == DEFAULT_PLUGIN {
        if platform !in defaultFactories {
          defaultFactories := defaultFactories[platform := NO_DEFAULTS];
        }
        plugin := defaultFactories[platform].At(kind);
        if plugin == NULL_PLUGIN {
          StillRegistered();
          return Err(FailedPrecondition);
        }
      }
      if platform !in factories {
        factories := factories[platform := NO_FACTORIES];
      }
      result := GetFactoryInternal(plugin, factories[platform].At(kind), genericFactories.At(kind));
      StillRegistered();
    }

    twostate lemma StillRegistered()
      requires old(Valid()) && genericFactories == old(genericFactories)
      requires forall p, k | k != Invalid :: Specific(p, k) == old(Specific(p, k)) && DefaultOf(p, k) == old(DefaultOf(p, k))
      ensures Valid()
    {
      forall p, k | k != Invalid ensures DefaultIsRegistered(p, k) {
        assert old(DefaultIsRegistered(p, k));
      }
    }

    method MapPlatformKindToId(platformKind: nat, platform: PlatformId)
      requires Valid()
      modifies `platformIdByKind
      ensures Valid() && platformIdByKind == old(platformIdByKind)[platformKind := platform]
    {
      platformIdByKind := platformIdByKind[platformKind := platform];
      StillRegistered();
    }

    method GetFactoryOfKind(platformKind: nat, kind: PluginKind, id: PluginId) returns (result: Result<Factory, Error>)
      requires Valid() && kind != Invalid
      modifies `factories, `defaultFactories
      ensures Valid()
      ensures platformKind !in platformIdByKind ==> result == Err(FailedPrecondition)
      ensures platformKind in platformIdByKind ==> result == old(Found(platformIdByKind[platformKind], kind, id))
    {
      if platformKind !in platformIdByKind {
        return Err(FailedPrecondition);
      }
      result := GetFactory(platformIdByKind[platformKind], kind, id);
    }
  }

  /** In any state, looking up the default succeeds if and only if a plugin other than the null one is set as default;
      looking up any other plugin, if and only if there is a factory for it. */
  lemma LookupSucceedsIff(r: Registry, platform: PlatformId, kind: PluginKind, id: PluginId)
    requires r.Valid() && kind != Invalid
    ensures r.Found(platform, kind, DEFAULT_PLUGIN).Ok? <==> r.DefaultOf(platform, kind) != NULL_PLUGIN
    ensures id != DEFAULT_PLUGIN ==> (r.Found(platform, kind, id).Ok? <==> r.Resolve(platform, kind, id).Some?)
    ensures id != DEFAULT_PLUGIN && id in r.Specific(platform, kind) ==> r.Found(platform, kind, id) == Ok(r.Specific(platform, kind)[id])
  {
    assert r.DefaultIsRegistered(platform, kind);
  }

  /** A plugin other than the default one can be looked up if and only if there is said to be a factory for it. */
  method HasAndGet(r: Registry, platform: PlatformId, kind: PluginKind, id: PluginId) returns (has: bool, got: Result<Factory, Error>)
    requires r.Valid() && kind != Invalid
    modifies r
    ensures r.Valid()
    ensures id != DEFAULT_PLUGIN ==> (has <==> got.Ok?)
  {
    has := r.HasFactory(platform, kind, id);
    got := r.GetFactory(platform, kind, id);
  }

  /** Whatever is registered for all platforms, before or after, a platform gets its own factory, the first one that was
      registered for it. */
  method OwnFactoryFirst(r: Registry, platform: PlatformId, kind: PluginKind, id: PluginId, own: Factory, generic: Factory)
    returns (before: Result<Factory, Error>, after: Result<Factory, Error>)
    requires r.Valid() && kind != Invalid && id != DEFAULT_PLUGIN
    modifies r
    ensures r.Valid()
    ensures before == after
    ensures before == Ok(if id in old(r.Specific(platform, kind)) then old(r.Specific(platform, kind))[id] else own)
  {
    var _ := r.RegisterFactory(platform, kind, id, "own", own);
    before := r.GetFactory(platform, kind, id);
    var _ := r.RegisterFactoryForAllPlatforms(kind, id, "generic", generic);
    after := r.GetFactory(platform, kind, id);
  }

  /** The null plugin can be registered and be set as default, but as the default it is not found. */
  method NullDefaultIsNotFound(factory: Factory) returns (registered: bool, set_: bool, found: Result<Factory, Error>, direct: Result<Factory, Error>)
    ensures registered && set_ && found == Err(FailedPrecondition) && direct == Ok(factory)
  {
    var r := new Registry();
    assert r.Resolve(7, Blas, NULL_PLUGIN) == None;
    var result := r.RegisterFactory(7, Blas, NULL_PLUGIN, "null", factory);
    registered := result.Ok?;
    set_ := r.SetDefaultFactory(7, Blas, NULL_PLUGIN);
    found := r.GetFactory(7, Blas, DEFAULT_PLUGIN);
    direct := r.GetFactory(7, Blas, NULL_PLUGIN);
  }
}
