/**
 Client factories share a cache of client states whose key leaves out part of the configuration.
 Clones share the cache; changing the left-out part takes a new, empty cache.
 */
module ClientFactory {
  import opened Options
  import opened Config
  import WeakCache
  import W = WeakCacheRuns

  /** Registries, runtimes and handles are shared objects, told apart by number. */
  type Handle = nat

  datatype Settings = Settings(
    userAgent: string, clientQos: ClientQos, serverQos: ServerQos, serviceError: ServiceError,
    idempotency: Idempotency, strategy: NodeSelectionStrategy, errorParameterFormat: ErrorParameterFormat)

  /** What a service's configuration says; `tuning` stands for its security, proxy, timeout and retry part. */
  datatype ServiceConfig = ServiceConfig(uris: seq<string>, tuning: nat)

  /** The cache's key. */
  datatype CachedConfig = CachedConfig(
    service: string, config: ServiceConfig, settings: Settings, overrideHostIndex: Option<nat>)

  /** The configuration that is not part of the key. */
  datatype UncachedConfig = UncachedConfig(
    metrics: Option<Handle>, hostMetrics: Option<Handle>, blockingHandle: Option<Handle>, conjureRuntime: Handle)

  /** A client state is known by everything it was built from. */
  datatype ClientState = ClientState(cached: CachedConfig, uncached: UncachedConfig)

  datatype Manager = Manager(uncached: UncachedConfig, cache: nat)

  datatype Factory = Factory(settings: Settings, manager: Manager)

  /** What a client keeps of its factory, to build its state now and after every reload. */
  datatype StateBuilder = StateBuilder(service: string, settings: Settings, manager: Manager)

  function StateKey(b: StateBuilder, config: ServiceConfig, overrideHostIndex: Option<nat>): CachedConfig {
    CachedConfig(b.service, config, b.settings, overrideHostIndex)
  }

  /** The builder passes on everything but the handle of blocking clients. */
  function Effective(u: UncachedConfig): UncachedConfig {
    u.(blockingHandle := None)
  }

  /** The state that a client would get without any cache. */
  function Fresh(b: StateBuilder, config: ServiceConfig, overrideHostIndex: Option<nat>): ClientState {
    ClientState(StateKey(b, config, overrideHostIndex), Effective(b.manager.uncached))
  }

  const STATE_CACHE_CAPACITY: nat := 10_000

  type StateCache = W.World<CachedConfig, ClientState>

  function EmptyCache(): StateCache {
    W.Initial(STATE_CACHE_CAPACITY)
  }

  datatype System = System(caches: seq<StateCache>, factories: seq<Factory>, builders: seq<StateBuilder>)

  datatype Event =
    | NewFactory(settings: Settings, runtime: Handle)
    | CloneFactory(f: nat)
    | SetSettings(f: nat, settings: Settings)
    | SetUncached(f: nat, uncached: UncachedConfig)
    | NewClient(f: nat, service: string)
    | Build(b: nat, config: ServiceConfig, overrideHostIndex: Option<nat>, succeeds: bool)
    | StateDies(cache: nat, id: nat)
    | EvictorRuns(cache: nat, id: nat)

  predicate Enabled(s: System, e: Event) {
    match e
    case NewFactory(_, _) => true
    case CloneFactory(f) => f < |s.factories|
    case SetSettings(f, _) => f < |s.factories|
    case SetUncached(f, _) => f < |s.factories|
    case NewClient(f, _) => f < |s.factories|
    case Build(b, _, _, _) => b < |s.builders| && s.builders[b].manager.cache < |s.caches|
    case StateDies(c, id) => c < |s.caches| && W.Enabled(s.caches[c], W.Die(id))
    case EvictorRuns(c, id) => c < |s.caches| && W.Enabled(s.caches[c], W.RunEvictor(id))
  }

  function Lookup(s: System, e: Event): W.Event<CachedConfig, ClientState>
    requires e.Build? && Enabled(s, e)
  {
    var b := s.builders[e.b];
    W.Lookup(StateKey(b, e.config, e.overrideHostIndex),
             if e.succeeds then Some(Fresh(b, e.config, e.overrideHostIndex)) else None)
  }

  function Next(s: System, e: Event): System
    requires Enabled(s, e)
  {
    match e
    case NewFactory(settings, runtime) =>
      var manager := Manager(UncachedConfig(None, None, None, runtime), |s.caches|);
      s.(caches := s.caches + [EmptyCache()], factories := s.factories + [Factory(settings, manager)])
    case CloneFactory(f) => s.(factories := s.factories + [s.factories[f]])
    case SetSettings(f, settings) => s.(factories := s.factories[f := s.factories[f].(settings := settings)])
    case SetUncached(f, uncached) =>
      s.(caches := s.caches + [EmptyCache()],
         factories := s.factories[f := s.factories[f].(manager := Manager(uncached, |s.caches|))])
    case NewClient(f, service) =>
      s.(builders := s.builders + [StateBuilder(service, s.factories[f].settings, s.factories[f].manager)])
    case Build(b, _, _, _) =>
      var c := s.builders[b].manager.cache;
      s.(caches := s.caches[c := W.Next(s.caches[c], Lookup(s, e))])
    case StateDies(c, id) => s.(caches := s.caches[c := W.Next(s.caches[c], W.Die(id))])
    case EvictorRuns(c, id) => s.(caches := s.caches[c := W.Next(s.caches[c], W.RunEvictor(id))])
  }

  /** What a build returns: the state in the cache, or nothing if making one failed. */
  function Returned(s: System, e: Event): Option<ClientState>
    requires e.Build? && Enabled(s, e)
  {
    var c := s.builders[e.b].manager.cache;
    var look := Lookup(s, e);
    var got := W.Answer(s.caches[c], look.key, look.made);
    var values := W.Next(s.caches[c], look).valueOf;
    if got.Failed? || got.id !in values then None else Some(values[got.id])
  }

  ghost predicate Feasible(s: System, run: seq<Event>)
    decreases |run|
  {
    run == [] || (Enabled(s, run[0]) && Feasible(Next(s, run[0]), run[1..]))
  }

  ghost function After(s: System, run: seq<Event>): System
    requires Feasible(s, run)
    decreases |run|
  {
    if run == [] then s else After(Next(s, run[0]), run[1..])
  }

  // ----- the invariant

  function Managers(s: System): seq<Manager> {
    seq(|s.factories|, i requires 0 <= i < |s.factories| => s.factories[i].manager)
    + seq(|s.builders|, i requires 0 <= i < |s.builders| => s.builders[i].manager)
  }

  /** Managers that share a cache agree on everything its key leaves out. */
  ghost predicate SharersAgree(ms: seq<Manager>) {
    forall i, j :: 0 <= i < |ms| && 0 <= j < |ms| && ms[i].cache == ms[j].cache ==> ms[i].uncached == ms[j].uncached
  }

  /** Every state in the cache was built from its own key and from `u`. */
  ghost predicate BuiltFrom(c: StateCache, u: UncachedConfig) {
    forall id :: id in c.valueOf ==> id in c.keyOf && c.valueOf[id] == ClientState(c.keyOf[id], Effective(u))
  }

  ghost predicate ManagersSound(ms: seq<Manager>, caches: seq<StateCache>) {
    && SharersAgree(ms)
    && (forall i :: 0 <= i < |ms| ==> ms[i].cache < |caches| && BuiltFrom(caches[ms[i].cache], ms[i].uncached))
  }

  ghost predicate Inv(s: System) {
    && (forall c :: 0 <= c < |s.caches| ==> W.Inv(s.caches[c]) && s.caches[c].cache.capacity == STATE_CACHE_CAPACITY)
    && ManagersSound(Managers(s), s.caches)
  }

  /** Adding, copying or replacing managers: each new one is an old one, or the only one of a new cache. */
  lemma ManagersChange(ms: seq<Manager>, ms': seq<Manager>, caches: seq<StateCache>, caches': seq<StateCache>, fresh_: Manager)
    requires ManagersSound(ms, caches) && caches' == caches + [EmptyCache()] && fresh_.cache == |caches|
    requires forall m :: m in ms' ==> m in ms || m == fresh_
    ensures ManagersSound(ms', caches')
  {
    forall m | m in ms'
      ensures m.cache < |caches'| && BuiltFrom(caches'[m.cache], m.uncached)
      ensures m != fresh_ ==> m.cache < |caches|
    {
    }
    forall i, j | 0 <= i < |ms'| && 0 <= j < |ms'| && ms'[i].cache == ms'[j].cache
      ensures ms'[i].uncached == ms'[j].uncached
    {
      assert ms'[i] in ms' && ms'[j] in ms';
    }
  }

  lemma ManagersCopied(ms: seq<Manager>, ms': seq<Manager>, caches: seq<StateCache>)
    requires ManagersSound(ms, caches) && forall m :: m in ms' ==> m in ms
    ensures ManagersSound(ms', caches)
  {
    forall i, j | 0 <= i < |ms'| && 0 <= j < |ms'| && ms'[i].cache == ms'[j].cache
      ensures ms'[i].uncached == ms'[j].uncached
    {
      assert ms'[i] in ms && ms'[j] in ms;
    }
    forall i | 0 <= i < |ms'|
      ensures ms'[i].cache < |caches| && BuiltFrom(caches[ms'[i].cache], ms'[i].uncached)
    {
      assert ms'[i] in ms;
    }
  }

  lemma CacheChanges(ms: seq<Manager>, caches: seq<StateCache>, c: nat, w: StateCache)
    requires ManagersSound(ms, caches) && c < |caches|
    requires forall i :: 0 <= i < |ms| && ms[i].cache == c ==> BuiltFrom(w, ms[i].uncached)
    ensures ManagersSound(ms, caches[c := w])
  {
  }

  lemma ManagersOf(s: System)
    ensures forall m :: m in Managers(s) <==>
              (exists i :: 0 <= i < |s.factories| && s.factories[i].manager == m)
              || (exists i :: 0 <= i < |s.builders| && s.builders[i].manager == m)
  {
    var n, ms := |s.factories|, Managers(s);
    assert forall i :: 0 <= i < n ==> ms[i] == s.factories[i].manager;
    assert forall i :: 0 <= i < |s.builders| ==> ms[n + i] == s.builders[i].manager;
    assert forall i :: n <= i < |ms| ==> ms[i] == s.builders[i - n].manager;
  }

  /** A lookup with the sharers' own recipe returns, and leaves in the cache, only states of that recipe. */
  lemma LookupKeepsBuilt(w: StateCache, key: CachedConfig, made: Option<ClientState>, u: UncachedConfig)
    requires W.Inv(w) && BuiltFrom(w, u) && (made.Some? ==> made.value == ClientState(key, Effective(u)))
    ensures BuiltFrom(W.Next(w, W.Lookup(key, made)), u)
    ensures var got := W.Answer(w, key, made);
            var values := W.Next(w, W.Lookup(key, made)).valueOf;
            && (got.Failed? ==> made.None?)
            && (!got.Failed? ==> got.id in values && values[got.id] == ClientState(key, Effective(u)))
  {
    W.LookupReturns(w, key, made);
    assert W.Numbered(w);
  }

  lemma BuildReturnsFresh(s: System, e: Event)
    requires Inv(s) && Enabled(s, e) && e.Build?
    ensures Returned(s, e) == None || Returned(s, e) == Some(Fresh(s.builders[e.b], e.config, e.overrideHostIndex))
    ensures e.succeeds ==> Returned(s, e).Some?
  {
    var m := s.builders[e.b].manager;
    var w, look := s.caches[m.cache], Lookup(s, e);
    assert Managers(s)[|s.factories| + e.b] == m;
    LookupKeepsBuilt(w, look.key, look.made, m.uncached);
  }

  lemma BuildKeepsInv(s: System, e: Event)
    requires Inv(s) && Enabled(s, e) && e.Build?
    ensures Inv(Next(s, e))
  {
    var m, ms := s.builders[e.b].manager, Managers(s);
    var w, look := s.caches[m.cache], Lookup(s, e);
    assert ms[|s.factories| + e.b] == m;
    W.NextKeepsInv(w, look);
    forall i | 0 <= i < |ms| && ms[i].cache == m.cache
      ensures BuiltFrom(W.Next(w, look), ms[i].uncached)
    {
      LookupKeepsBuilt(w, look.key, look.made, ms[i].uncached);
    }
    CacheChanges(ms, s.caches, m.cache, W.Next(w, look));
    assert Managers(Next(s, e)) == ms;
  }

  lemma FreshCacheKeepsInv(s: System, e: Event)
    requires Inv(s) && Enabled(s, e) && (e.NewFactory? || e.SetUncached?)
    ensures Inv(Next(s, e))
  {
    var s' := Next(s, e);
    ManagersOf(s);
    ManagersOf(s');
    var u := if e.NewFactory? then UncachedConfig(None, None, None, e.runtime) else e.uncached;
    ManagersChange(Managers(s), Managers(s'), s.caches, s'.caches, Manager(u, |s.caches|));
  }

  lemma CopyKeepsInv(s: System, e: Event)
    requires Inv(s) && Enabled(s, e) && (e.CloneFactory? || e.SetSettings? || e.NewClient?)
    ensures Inv(Next(s, e))
  {
    ManagersOf(s);
    ManagersOf(Next(s, e));
    ManagersCopied(Managers(s), Managers(Next(s, e)), s.caches);
  }

  /** A death or an eviction changes what is cached and what is alive, not what was built. */
  lemma DeathKeepsCache(w: StateCache, e: W.Event<CachedConfig, ClientState>)
    requires W.Inv(w) && W.Enabled(w, e) && !e.Lookup?
    ensures var w' := W.Next(w, e);
            W.Inv(w') && w'.cache.capacity == w.cache.capacity && w'.valueOf == w.valueOf && w'.keyOf == w.keyOf
  {
    W.NextKeepsInv(w, e);
  }

  lemma ReplacedKeepsInv(s: System, c: nat, w: StateCache)
    requires Inv(s) && c < |s.caches| && W.Inv(w) && w.cache.capacity == STATE_CACHE_CAPACITY
    requires w.valueOf == s.caches[c].valueOf && w.keyOf == s.caches[c].keyOf
    ensures Inv(s.(caches := s.caches[c := w]))
  {
    CacheChanges(Managers(s), s.caches, c, w);
    assert Managers(s.(caches := s.caches[c := w])) == Managers(s);
  }

  lemma DeathKeepsInv(s: System, e: Event)
    requires Inv(s) && Enabled(s, e) && (e.StateDies? || e.EvictorRuns?)
    ensures Inv(Next(s, e))
  {
    var w, we := s.caches[e.cache], if e.StateDies? then W.Die(e.id) else W.RunEvictor(e.id);
    DeathKeepsCache(w, we);
    ReplacedKeepsInv(s, e.cache, W.Next(w, we));
  }

  lemma NextKeepsInv(s: System, e: Event)
    requires Inv(s) && Enabled(s, e)
    ensures Inv(Next(s, e))
  {
    match e
    case NewFactory(_, _) => FreshCacheKeepsInv(s, e);
    case SetUncached(_, _) => FreshCacheKeepsInv(s, e);
    case Build(_, _, _, _) => BuildKeepsInv(s, e);
    case StateDies(_, _) => DeathKeepsInv(s, e);
    case EvictorRuns(_, _) => DeathKeepsInv(s, e);
    case _ => CopyKeepsInv(s, e);
  }

  lemma {:induction false} RunKeepsInv(s: System, run: seq<Event>)
    requires Inv(s) && Feasible(s, run)
    ensures Inv(After(s, run))
    decreases |run|
  {
    if run != [] {
      NextKeepsInv(s, run[0]);
      RunKeepsInv(Next(s, run[0]), run[1..]);
    }
  }

  /**
   The cache is invisible: after any run of clones, setters, client creations, reloads, deaths and
   evictions, what a client builds is what it would have built afresh from its own configuration.
   */
  lemma CacheIsTransparent(run: seq<Event>, e: Event)
    requires Feasible(System([], [], []), run)
    requires e.Build? && Enabled(After(System([], [], []), run), e)
    ensures var s := After(System([], [], []), run);
            && (Returned(s, e).Some? ==> Returned(s, e).value == Fresh(s.builders[e.b], e.config, e.overrideHostIndex))
            && (e.succeeds ==> Returned(s, e).Some?)
  {
    RunKeepsInv(System([], [], []), run);
    BuildReturnsFresh(After(System([], [], []), run), e);
  }

  /** What a build was found under: the number of the state in its cache. */
  function Found(s: System, e: Event): Option<nat>
    requires e.Build? && Enabled(s, e)
  {
    var got := W.Answer(s.caches[s.builders[e.b].manager.cache], Lookup(s, e).key, Lookup(s, e).made);
    if got.Failed? then None else Some(got.id)
  }

  /** Sharing works: clients of one cache that ask for the same state one after the other get the same one, built once. */
  lemma SharersGetTheSame(s: System, e: Event, e': Event)
    requires Inv(s) && Enabled(s, e) && e.Build? && Found(s, e).Some? && Enabled(Next(s, e), e') && e'.Build?
    requires var b, b' := s.builders[e.b], s.builders[e'.b];
             && b'.manager.cache == b.manager.cache && b'.service == b.service && b'.settings == b.settings
             && e'.config == e.config && e'.overrideHostIndex == e.overrideHostIndex
    ensures Found(Next(s, e), e') == Found(s, e)
    ensures Next(Next(s, e), e').caches[s.builders[e.b].manager.cache].valueOf == Next(s, e).caches[s.builders[e.b].manager.cache].valueOf
  {
    var w := s.caches[s.builders[e.b].manager.cache];
    var l, l' := Lookup(s, e), Lookup(Next(s, e), e');
    W.LookupThenHit(w, l.key, l.made, l'.made);
  }

  // ----- the same without any cache

  datatype PlainFactory = PlainFactory(settings: Settings, uncached: UncachedConfig)

  datatype PlainBuilder = PlainBuilder(service: string, settings: Settings, uncached: UncachedConfig)

  /** Factories and clients that own their configuration and share nothing. */
  datatype Plain = Plain(factories: seq<PlainFactory>, builders: seq<PlainBuilder>)

  predicate PlainEnabled(p: Plain, e: Event) {
    match e
    case CloneFactory(f) => f < |p.factories|
    case SetSettings(f, _) => f < |p.factories|
    case SetUncached(f, _) => f < |p.factories|
    case NewClient(f, _) => f < |p.factories|
    case _ => true
  }

  /** A clone starts as its original, a setter changes one factory, a client keeps what its factory had when it was made. */
  function PlainNext(p: Plain, e: Event): Plain
    requires PlainEnabled(p, e)
  {
    match e
    case NewFactory(settings, runtime) =>
      p.(factories := p.factories + [PlainFactory(settings, UncachedConfig(None, None, None, runtime))])
    case CloneFactory(f) => p.(factories := p.factories + [p.factories[f]])
    case SetSettings(f, settings) => p.(factories := p.factories[f := PlainFactory(settings, p.factories[f].uncached)])
    case SetUncached(f, uncached) => p.(factories := p.factories[f := PlainFactory(p.factories[f].settings, uncached)])
    case NewClient(f, service) =>
      p.(builders := p.builders + [PlainBuilder(service, p.factories[f].settings, p.factories[f].uncached)])
    case _ => p
  }

  function PlainOf(s: System): Plain {
    Plain(seq(|s.factories|, i requires 0 <= i < |s.factories| => PlainFactory(s.factories[i].settings, s.factories[i].manager.uncached)),
          seq(|s.builders|, i requires 0 <= i < |s.builders| =>
            PlainBuilder(s.builders[i].service, s.builders[i].settings, s.builders[i].manager.uncached)))
  }

  lemma NextIsPlain(s: System, e: Event)
    requires Enabled(s, e)
    ensures PlainEnabled(PlainOf(s), e) && PlainOf(Next(s, e)) == PlainNext(PlainOf(s), e)
  {
    var p, p' := PlainOf(Next(s, e)), PlainNext(PlainOf(s), e);
    assert p.factories == p'.factories && p.builders == p'.builders;
  }

  ghost predicate PlainFeasible(p: Plain, run: seq<Event>)
    decreases |run|
  {
    run == [] || (PlainEnabled(p, run[0]) && PlainFeasible(PlainNext(p, run[0]), run[1..]))
  }

  ghost function PlainAfter(p: Plain, run: seq<Event>): Plain
    requires PlainFeasible(p, run)
    decreases |run|
  {
    if run == [] then p else PlainAfter(PlainNext(p, run[0]), run[1..])
  }

  lemma {:induction false} RunIsPlain(s: System, run: seq<Event>)
    requires Feasible(s, run)
    ensures PlainFeasible(PlainOf(s), run) && PlainOf(After(s, run)) == PlainAfter(PlainOf(s), run)
    decreases |run|
  {
    if run != [] {
      NextIsPlain(s, run[0]);
      RunIsPlain(Next(s, run[0]), run[1..]);
    }
  }

  /** A state built from this configuration and these handles, and from nothing else. */
  ghost predicate IsBuiltFor(state: ClientState, b: PlainBuilder, config: ServiceConfig, overrideHostIndex: Option<nat>) {
    && state.cached.service == b.service && state.cached.config == config
    && state.cached.settings == b.settings && state.cached.overrideHostIndex == overrideHostIndex
    && state.uncached.metrics == b.uncached.metrics && state.uncached.hostMetrics == b.uncached.hostMetrics
    && state.uncached.conjureRuntime == b.uncached.conjureRuntime
  }

  /**
   Sharing is invisible: run the same clones, setters, client creations and reloads with factories and clients that
   share nothing, and every state a client gets is one built for what that client is configured with there: its
   service, settings, metrics registries and runtime, with the configuration and host index asked for.
   */
  lemma SharingIsInvisible(run: seq<Event>, e: Event)
    requires Feasible(System([], [], []), run)
    requires e.Build? && Enabled(After(System([], [], []), run), e)
    ensures PlainFeasible(Plain([], []), run) && e.b < |PlainAfter(Plain([], []), run).builders|
    ensures var s := After(System([], [], []), run);
            Returned(s, e).Some? ==>
              IsBuiltFor(Returned(s, e).value, PlainAfter(Plain([], []), run).builders[e.b], e.config, e.overrideHostIndex)
    ensures e.succeeds ==> Returned(After(System([], [], []), run), e).Some?
  {
    CacheIsTransparent(run, e);
    assert PlainOf(System([], [], [])) == Plain([], []);
    RunIsPlain(System([], [], []), run);
  }

  /** The cache manager as an object: clones alias the cache, a change of the left-out part replaces it. */
  class CacheManager {
    var uncached: UncachedConfig
    var cache: WeakCache.Store<CachedConfig>

    constructor (uncached: UncachedConfig)
      ensures this.uncached == uncached && fresh(cache)
      ensures cache.View() == EmptyCache().cache
    {
      this.uncached := uncached;
      cache := new WeakCache.Store(STATE_CACHE_CAPACITY);
    }

    method Clone() returns (m: CacheManager)
      ensures fresh(m) && m.uncached == uncached && m.cache == cache
    {
      m := new CacheManager(uncached);
      m.cache := cache;
    }

    method SetUncached(u: UncachedConfig)
      modifies this
      ensures uncached == u && fresh(cache) && cache.View() == EmptyCache().cache
    {
      cache := new WeakCache.Store(STATE_CACHE_CAPACITY);
      uncached := u;
    }
  }
}
