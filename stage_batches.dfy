// The stage-batch cache system (src/plugins/core/dependencies.ts): when the
// systems of some stages change, their batches are rebuilt from the
// dependency graph and the cache resource is rewritten.

module StageBatches {
  import opened Types
  import opened Util
  import opened Changes
  import opened Intentions
  import opened Dependencies
  import opened Worlds
  import opened Keys

  /** The event announcing that the stage-changes resource was set. */
  function StageChangesEventKey(): string
  {
    ChangeEventName("set", StageChangesKey)
  }

  /** The stages named by the stage-changes resource: none when it is unset. */
  function ChangedStages(w: WorldState): set<string>
  {
    match Field(w.resources, StageChangesKey)
    case NameSet(names) => names
    case _ => {}
  }

  /** The cached batch record; an empty one when the cache is not a record. */
  function CachedBatches(w: WorldState): map<string, Value>
  {
    match Field(w.resources, StageBatchesKey)
    case Record(fields) => fields
    case _ => map[]
  }

  /** The cache with each changed stage's batches rebuilt and every other stage kept. */
  ghost function RefreshedCache(w: WorldState, stages: set<string>, rank: map<string, nat>): (r: map<string, Value>)
    requires forall s :: s in stages ==> StageRanked(w, s, rank)
    ensures r.Keys == CachedBatches(w).Keys + stages
    ensures forall s :: s in stages ==> r[s] == BatchesValue(BatchByDepths(StageDepths(w, s, rank)))
    ensures forall s :: s in CachedBatches(w) && s !in stages ==> r[s] == CachedBatches(w)[s]
  {
    var cache := CachedBatches(w);
    map s | s in cache.Keys + stages ::
      if s in stages then BatchesValue(BatchByDepths(StageDepths(w, s, rank))) else cache[s]
  }

  /** The two changes the system proposes: the new cache, then the stage list dropped. */
  function CacheWrite(batches: Value): IntentionState
  {
    IntentionState([Change(Resource(StageBatchesKey), SetOp(batches), None), Change(Resource(StageChangesKey), DeleteOp, None)], 0)
  }

  /**
   * The reduce over the changed stages: each in turn gets its batches
   * rebuilt on top of the cache. The world is only read.
   */
  method RefreshStages(world: World, stages: set<string>, ghost rank: map<string, nat>) returns (cache: map<string, Value>)
    requires forall s :: s in stages ==> StageRanked(world.State(), s, rank)
    ensures cache == RefreshedCache(world.State(), stages, rank)
  {
    ghost var w := world.State();
    cache := CachedBatches(world.State());
    var todo := stages;
    SameCache(cache, RefreshedCache(w, {}, rank));
    assert stages - todo == {};
    while todo != {}
      invariant todo <= stages
      invariant cache == RefreshedCache(w, stages - todo, rank)
      decreases todo
    {
      var s :| s in todo;
      var b := world.BuildStageBatches(s, rank);
      RefreshOneMore(w, stages - todo, s, rank);
      assert stages - (todo - {s}) == (stages - todo) + {s};
      cache := cache[s := BatchesValue(b)];
      todo := todo - {s};
    }
    assert stages - todo == stages;
  }

  /** Rebuilding one more stage on top of a refreshed cache. */
  lemma RefreshOneMore(w: WorldState, done: set<string>, s: string, rank: map<string, nat>)
    requires forall t :: t in done + {s} ==> StageRanked(w, t, rank)
    ensures RefreshedCache(w, done + {s}, rank) ==
      RefreshedCache(w, done, rank)[s := BatchesValue(BatchByDepths(StageDepths(w, s, rank)))]
  {
    RefreshKeepsOthers(w, done, s, rank);
    OneUpdate(RefreshedCache(w, done + {s}, rank), RefreshedCache(w, done, rank), s,
      BatchesValue(BatchByDepths(StageDepths(w, s, rank))));
  }

  /** Rebuilding one more stage leaves every other entry of the cache as it was. */
  lemma RefreshKeepsOthers(w: WorldState, done: set<string>, s: string, rank: map<string, nat>)
    requires forall t :: t in done + {s} ==> StageRanked(w, t, rank)
    ensures forall k :: k in RefreshedCache(w, done, rank) && k != s ==>
      RefreshedCache(w, done + {s}, rank)[k] == RefreshedCache(w, done, rank)[k]
  {
    var a := RefreshedCache(w, done + {s}, rank);
    var prev := RefreshedCache(w, done, rank);
    forall k | k in prev && k != s
      ensures a[k] == prev[k]
    {
      if k !in done {
        assert k in CachedBatches(w);
      }
    }
  }

  /** A map that differs from `prev` only at `s`, where it holds `v`, is the update of `prev`. */
  lemma OneUpdate(a: map<string, Value>, prev: map<string, Value>, s: string, v: Value)
    requires a.Keys == prev.Keys + {s} && a[s] == v
    requires forall k :: k in prev && k != s ==> a[k] == prev[k]
    ensures a == prev[s := v]
  {
  }

  /** Two caches that agree on every stage are the same cache. */
  lemma SameCache(a: map<string, Value>, b: map<string, Value>)
    requires a.Keys == b.Keys && forall k :: k in a ==> a[k] == b[k]
    ensures a == b
  {
  }

  /**
   * updateStageBatches: nothing without a `set-->stage-changes` event or
   * when no stage changed. With no cache every stage is rebuilt, which also
   * stores the cache in the world; otherwise only the changed stages are
   * rebuilt on top of the cache. Either way the proposal sets the cache and
   * deletes stage-changes. `rank` witnesses that no stage that is rebuilt
   * has a cycle: every stage when there is no cache, otherwise the changed
   * stages.
   */
  method UpdateStageBatches(world: World, ghost rank: map<string, nat>) returns (r: Option<IntentionState>)
    requires world.Valid()
    requires (GetEvents(world.State(), StageChangesEventKey()) != [] && ChangedStages(world.State()) != {} &&
              Field(world.State().resources, StageBatchesKey) == Undefined) ==>
      forall s :: s in Stages(world.State()) ==> StageRanked(world.State(), s, rank)
    requires GetEvents(world.State(), StageChangesEventKey()) != [] && Field(world.State().resources, StageBatchesKey) != Undefined ==>
      forall s :: s in ChangedStages(world.State()) ==> StageRanked(world.State(), s, rank)
    modifies world
    ensures world.Valid()
    ensures r.None? <==> GetEvents(old(world.State()), StageChangesEventKey()) == [] || ChangedStages(old(world.State())) == {}
    ensures r.Some? && Field(old(world.State()).resources, StageBatchesKey) == Undefined ==>
      && r.value == CacheWrite(BatchesRecord(AllStageBatches(old(world.State()), rank)))
      && world.State() == SetResourceSpec(old(world.State()), StageBatchesKey, r.value.changes[0].op.value)
    ensures r.Some? && Field(old(world.State()).resources, StageBatchesKey) != Undefined ==>
      && r.value == CacheWrite(Record(RefreshedCache(old(world.State()), ChangedStages(old(world.State())), rank)))
      && world.State() == old(world.State())
    ensures r.None? ==> world.State() == old(world.State())
  {
    if |GetEvents(world.State(), StageChangesEventKey())| == 0 {
      return None;
    }
    var stages := ChangedStages(world.State());
    if stages == {} {
      return None;
    }
    var batches: Value;
    if Field(world.resources, StageBatchesKey) == Undefined {
      var all := world.BuildAllStageBatches(rank);
      batches := BatchesRecord(all);
    } else {
      var cache := RefreshStages(world, stages, rank);
      batches := Record(cache);
    }
    var p := ProposeCacheWrite(batches);
    return Some(p);
  }

  /** `new Intention().setResource(stage-batches, …).deleteResource(stage-changes)`. */
  method ProposeCacheWrite(batches: Value) returns (p: IntentionState)
    ensures p == CacheWrite(batches)
  {
    var result := new Intention([], 0);
    result.SetResource(StageBatchesKey, batches);
    result.DeleteResource(StageChangesKey);
    p := result.State();
  }

  /**
   * After a refresh every changed stage holds its rebuilt batches, each of
   * which respects the stage's dependencies, and every stage that did not
   * change keeps its cached batches untouched.
   */
  lemma RefreshKeepsUnchangedStages(w: WorldState, stages: set<string>, rank: map<string, nat>, s: string)
    requires forall t :: t in stages ==> StageRanked(w, t, rank)
    ensures s in CachedBatches(w) && s !in stages ==> s in RefreshedCache(w, stages, rank) && RefreshedCache(w, stages, rank)[s] == CachedBatches(w)[s]
    ensures s in stages ==>
      var b := BatchByDepths(StageDepths(w, s, rank));
      && RefreshedCache(w, stages, rank)[s] == BatchesValue(b)
      && (forall i, j, x, y ::
            (0 <= i < |b| && 0 <= j < |b| && x in b[i] && y in b[j] &&
             x in SystemDependencies(w) && y in SystemDependencies(w)[x]) ==> j < i)
  {
    if s in stages {
      StageBatchesOrdered(w, s, rank);
    }
  }
}
