/**
 The search tool's index cache. The index itself is represented by its corpus: the hidden tools it was built from.
 First the cache as one caller sees it, then every interleaving of any number of callers with the registry,
 with each read or write of a shared variable as a step of its own.
 */
module ToolSearch {
  import opened Basics
  import opened Tools

  /** The engine for a corpus; there is none for an empty one. */
  function EngineOf(docs: set<Tool>): Option<set<Tool>> { if docs == {} then None else Some(docs) }

  class BM25SearchTool {
    const registry: ToolRegistry
    const ttl: int
    var cachedEngine: Option<set<Tool>>
    var cacheVersion: nat

    ghost predicate Valid()
      reads this, registry
    {
      && registry.Valid() && cacheVersion <= registry.version
      && cachedEngine == EngineOf(registry.hiddenAt[cacheVersion])
    }

    constructor (registry: ToolRegistry, ttl: int)
      requires registry.Valid()
      ensures Valid() && this.registry == registry && this.ttl == ttl
    {
      this.registry, this.ttl, cachedEngine, cacheVersion := registry, ttl, None, 0;
    }

    /** Whatever the cache holds, the engine is the one that would be built from the tools that are hidden now. */
    method GetOrBuildEngine() returns (engine: Option<set<Tool>>)
      requires Valid()
      modifies this
      ensures Valid() && engine == EngineOf(Hidden(registry.tools))
    {
      if cachedEngine.Some? && cacheVersion == registry.version {
        return cachedEngine;
      }
      var docs, version := registry.SnapshotHiddenTools();
      if cachedEngine.Some? && cacheVersion == version {
        return cachedEngine;
      }
      if docs == {} {
        cachedEngine := None;
        cacheVersion := version;
        return None;
      }
      engine := Some(docs);
      cachedEngine := engine;
      cacheVersion := version;
    }

    /** What a search finds is unlocked, for now, exactly when the configured time is positive. */
    method Unlock(results: seq<Tool>)
      requires Valid()
      modifies registry`tools
      ensures Valid() && registry.tools == Apply(old(registry.tools), Promote(Names(results), ttl))
      ensures forall tool :: tool in results && tool.name in registry.tools ==>
        (Callable(registry.tools, tool.name) <==> registry.tools[tool.name].isCore || ttl > 0)
    {
      var names: seq<string> := [];
      for i := 0 to |results|
        invariant names == Names(results[..i])
      {
        assert results[..i + 1][..i] == results[..i];
        names := names + [results[i].name];
      }
      assert results[..|results|] == results;
      NamesSpec(results);
      registry.PromoteTools(names, ttl);
    }
  }

  function Names(results: seq<Tool>): seq<string> {
    if results == [] then [] else Names(results[..|results| - 1]) + [results[|results| - 1].name]
  }

  lemma {:induction false} NamesSpec(results: seq<Tool>)
    ensures forall tool :: tool in results ==> tool.name in Names(results)
    decreases |results|
  {
    if results == [] {
    } else {
      NamesSpec(results[..|results| - 1]);
    }
  }

  // ----- any number of callers

  /** Where a caller is. `begun` is the registry version when it called. */
  datatype Place =
    | Begun(begun: nat)
    | SawEngine(begun: nat)                                  // the cached engine was not nil
    | SawVersion(begun: nat, cacheVersion: nat)              // and this was the cache's version
    | Hit(begun: nat)                                        // which was the registry's: returns the cached engine next
    | Waiting(begun: nat)                                    // for the cache's lock
    | Locked(begun: nat)
    | Snapped(begun: nat, docs: set<Tool>, version: nat)     // took a snapshot of the registry
    | Stored(begun: nat, docs: set<Tool>, version: nat)      // wrote the engine, not yet its version

  datatype Return = Return(begun: nat, ended: nat, engine: Option<set<Tool>>)

  /** `hiddenAt` and `engineVersion` only record: the hidden tools at each version, and the version of the cached engine. */
  datatype World = World(
    tools: map<string, Entry>,
    hiddenAt: seq<set<Tool>>,
    cachedEngine: Option<set<Tool>>,
    cacheVersion: nat,
    lock: Option<nat>,
    callers: map<nat, Place>,
    engineVersion: nat,
    returned: seq<Return>)

  datatype Action = Change(op: Op) | Begin(caller: nat) | Advance(caller: nat)

  const INITIAL := World(map[], [{}], None, 0, None, map[], 0, [])

  function Version(w: World): nat { if w.hiddenAt == [] then 0 else |w.hiddenAt| - 1 }

  function Changed(w: World, op: Op): World {
    var tools := Apply(w.tools, op);
    w.(tools := tools,
       hiddenAt := if op.Register? || op.RegisterHidden? then w.hiddenAt + [Hidden(tools)] else w.hiddenAt)
  }

  function At(w: World, caller: nat, place: Place): World { w.(callers := w.callers[caller := place]) }

  function Returned(w: World, caller: nat, engine: Option<set<Tool>>): World
    requires caller in w.callers
  {
    w.(callers := w.callers - {caller}, returned := w.returned + [Return(w.callers[caller].begun, Version(w), engine)])
  }

  /** One step of one caller; a caller that waits for a taken lock stays where it is. */
  function Advanced(w: World, caller: nat): World
    requires caller in w.callers
  {
    match w.callers[caller]
    case Begun(begun) => At(w, caller, if w.cachedEngine.Some? then SawEngine(begun) else Waiting(begun))
    case SawEngine(begun) => At(w, caller, SawVersion(begun, w.cacheVersion))
    case SawVersion(begun, seen) => At(w, caller, if seen == Version(w) then Hit(begun) else Waiting(begun))
    case Hit(begun) => Returned(w, caller, w.cachedEngine)
    case Waiting(begun) => if w.lock.Some? then w else At(w, caller, Locked(begun)).(lock := Some(caller))
    case Locked(begun) => At(w, caller, Snapped(begun, Hidden(w.tools), Version(w)))
    case Snapped(begun, docs, version) =>
      if w.cachedEngine.Some? && w.cacheVersion == version then Returned(w, caller, w.cachedEngine).(lock := None)
      else At(w, caller, Stored(begun, docs, version)).(cachedEngine := EngineOf(docs), engineVersion := version)
    case Stored(begun, docs, version) => Returned(w, caller, EngineOf(docs)).(cacheVersion := version, lock := None)
  }

  function Next(w: World, a: Action): World {
    match a
    case Change(op) => Changed(w, op)
    case Begin(caller) => if caller in w.callers then w else At(w, caller, Begun(Version(w)))
    case Advance(caller) => if caller in w.callers then Advanced(w, caller) else w
  }

  function WorldAfter(actions: seq<Action>): World {
    if actions == [] then INITIAL else Next(WorldAfter(actions[..|actions| - 1]), actions[|actions| - 1])
  }

  // ----- what every reachable world satisfies

  predicate HoldsLock(place: Place) { place.Locked? || place.Snapped? || place.Stored? }

  /** What is known of a caller at its place. */
  predicate PlaceOk(w: World, caller: nat, place: Place) {
    && place.begun <= Version(w)
    && (HoldsLock(place) <==> w.lock == Some(caller))
    && match place
       case SawVersion(_, seen) => seen <= w.engineVersion
       case Hit(begun) => begun <= w.engineVersion
       case Snapped(begun, docs, version) =>
         begun <= version < |w.hiddenAt| && docs == w.hiddenAt[version] && w.engineVersion <= version
       case Stored(begun, docs, version) =>
         begun <= version < |w.hiddenAt| && docs == w.hiddenAt[version] && w.engineVersion == version
       case _ => true
  }

  /** The returned engine is the one of some version that was current during the call. */
  ghost predicate Current(hiddenAt: seq<set<Tool>>, r: Return) {
    r.ended < |hiddenAt| && exists v :: r.begun <= v <= r.ended && r.engine == EngineOf(hiddenAt[v])
  }

  ghost predicate CacheOk(w: World) {
    && w.hiddenAt != [] && w.hiddenAt[Version(w)] == Hidden(w.tools)
    && w.cacheVersion <= w.engineVersion <= Version(w)
    && w.cachedEngine == EngineOf(w.hiddenAt[w.engineVersion])
    && (w.lock.Some? ==> w.lock.value in w.callers)
    && ((w.lock.Some? && w.callers[w.lock.value].Stored?) || w.cacheVersion == w.engineVersion)
  }

  ghost predicate Invariant(w: World) {
    && CacheOk(w)
    && (forall caller :: caller in w.callers ==> PlaceOk(w, caller, w.callers[caller]))
    && (forall r :: r in w.returned ==> Current(w.hiddenAt, r))
  }

  lemma CurrentLater(hiddenAt: seq<set<Tool>>, later: seq<set<Tool>>, r: Return)
    requires Current(hiddenAt, r) && hiddenAt <= later
    ensures Current(later, r)
  {
    var v :| r.begun <= v <= r.ended && r.engine == EngineOf(hiddenAt[v]);
    assert later[v] == hiddenAt[v];
  }

  lemma ChangeKeeps(w: World, op: Op)
    requires Invariant(w)
    ensures Invariant(Changed(w, op))
  {
    hide Apply, Current, EngineOf;
    var w' := Changed(w, op);
    if op.Promote? || op.Tick? {
      HiddenChangesWithVersion(w.tools, op);
    }
    forall r | r in w.returned ensures Current(w'.hiddenAt, r) {
      CurrentLater(w.hiddenAt, w'.hiddenAt, r);
    }
  }

  /** No step of a caller disturbs the cache, or what is known of any caller. */
  lemma AdvanceKeeps(w: World, caller: nat)
    requires Invariant(w) && caller in w.callers
    ensures Invariant(Advanced(w, caller))
  {
    hide Current, EngineOf, Hidden, PlaceOk, CacheOk;
    var w' := Advanced(w, caller);
    AdvanceKeepsCache(w, caller);
    forall other | other in w'.callers ensures PlaceOk(w', other, w'.callers[other]) {
      AdvanceKeepsPlace(w, caller, other);
    }
    ReturnIsCurrent(w, caller);
  }

  lemma AdvanceKeepsCache(w: World, caller: nat)
    requires CacheOk(w) && caller in w.callers && PlaceOk(w, caller, w.callers[caller])
    ensures CacheOk(Advanced(w, caller))
  {
    hide EngineOf, Hidden;
  }

  lemma AdvanceKeepsPlace(w: World, caller: nat, other: nat)
    requires CacheOk(w) && caller in w.callers && PlaceOk(w, caller, w.callers[caller])
    requires other in w.callers && PlaceOk(w, other, w.callers[other])
    ensures var w' := Advanced(w, caller); other in w'.callers ==> PlaceOk(w', other, w'.callers[other])
  {
    hide EngineOf, Hidden;
  }

  lemma ReturnIsCurrent(w: World, caller: nat)
    requires Invariant(w) && caller in w.callers
    ensures forall r :: r in Advanced(w, caller).returned && r !in w.returned ==> Current(w.hiddenAt, r)
  {
  }

  lemma {:induction false} RunKeeps(actions: seq<Action>)
    ensures Invariant(WorldAfter(actions))
    decreases |actions|
  {
    hide Invariant;
    if actions == [] {
      StartIsOk();
    } else {
      var w := WorldAfter(actions[..|actions| - 1]);
      RunKeeps(actions[..|actions| - 1]);
      match actions[|actions| - 1]
      case Change(op) => ChangeKeeps(w, op);
      case Begin(caller) => BeginKeeps(w, caller);
      case Advance(caller) =>
        if caller in w.callers {
          AdvanceKeeps(w, caller);
        }
    }
  }

  lemma StartIsOk()
    ensures Invariant(INITIAL)
  {
  }

  lemma BeginKeeps(w: World, caller: nat)
    requires Invariant(w)
    ensures Invariant(Next(w, Begin(caller)))
  {
    hide Current, EngineOf, Hidden;
  }

  /**
   In every interleaving of calls with registrations, promotions and ticks, every engine returned is the one
   that would have been built from the hidden tools at some version between the start and the end of its call.
   */
  lemma EveryReturnIsCurrent(actions: seq<Action>, r: Return)
    requires r in WorldAfter(actions).returned
    ensures r.begun <= r.ended < |WorldAfter(actions).hiddenAt|
    ensures exists v :: r.begun <= v <= r.ended && r.engine == EngineOf(WorldAfter(actions).hiddenAt[v])
  {
    hide WorldAfter;
    RunKeeps(actions);
  }
}
