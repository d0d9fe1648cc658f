// The id-recycling systems (src/plugins/core/idRecycling): ids whose `id`
// component is deleted are queued for reuse and their other components are
// deleted a round later; ids created again are taken off the queue; max-id
// follows the largest id created.

module IdRecycling {
  import opened Types
  import opened Util
  import opened Changes
  import opened Intentions
  import opened Store
  import opened Worlds
  import opened Keys
  import opened ChangeEvents

  // ---------------------------------------------------------------------
  // Reading change events (lib.ts)

  /** The value a recorded change carried; undefined for anything else. */
  function EventValue(v: Value): Value
  {
    if v.RawChange? then v.change.op.Payload() else Undefined
  }

  /** The id a recorded change carried, if any. */
  function EventId(v: Value): Option<EntityID>
  {
    if v.RawChange? then v.change.id else None
  }

  /** The values carried by a list of change events, in order. */
  function EventValues(events: seq<Value>): (r: seq<Value>)
    ensures |r| == |events| && forall i :: 0 <= i < |events| ==> r[i] == EventValue(events[i])
  {
    seq(|events|, i requires 0 <= i < |events| => EventValue(events[i]))
  }

  /** The event on which changes of `kind` to the `id` component are announced. */
  function IdEventKey(kind: string): string
  {
    ChangeEventName(kind, IdKey)
  }

  /**
   * getCreatedIds: the values of the `add-->id` events followed by those of
   * the `set-->id` events.
   */
  function CreatedIds(w: WorldState): (r: seq<Value>)
    ensures var adds := GetEvents(w, IdEventKey("add")); var sets := GetEvents(w, IdEventKey("set"));
      && |r| == |adds| + |sets|
      && (forall i :: 0 <= i < |adds| ==> r[i] == EventValue(adds[i]))
      && (forall i :: 0 <= i < |sets| ==> r[|adds| + i] == EventValue(sets[i]))
  {
    var adds := EventValues(GetEvents(w, IdEventKey("add")));
    var sets := EventValues(GetEvents(w, IdEventKey("set")));
    assert forall i :: 0 <= i < |sets| ==> (adds + sets)[|adds| + i] == sets[i];
    adds + sets
  }

  /**
   * The `id` event that addChangeEvents derives from a change creating an
   * entity carries that entity's id as its value, so getCreatedIds reads
   * back exactly the id.
   */
  lemma IdEventCarriesId(c: Change<EntityID>)
    requires IndirectlyCreatesID(c)
    ensures var e := CreateChangeEvent(CreateIDChangeEvent(c));
      && e.target == Event(IdEventKey(MethodName(c.op.Method())))
      && EventValue(e.op.value) == Num(c.id.value)
  {
    IdChangeEventName(c);
  }

  /** The ids that are present, in order. */
  function Present(s: seq<Option<EntityID>>): (r: seq<EntityID>)
    ensures |r| <= |s|
    ensures forall x :: x in r <==> Some(x) in s
    decreases |s|
  {
    if s == [] then []
    else
      var init := s[..|s| - 1];
      var last := s[|s| - 1];
      assert s == init + [last];
      if last.Some? then Present(init) + [last.value] else Present(init)
  }

  /** Nothing is dropped exactly when every id is present. */
  lemma {:induction false} PresentKeepsAll(s: seq<Option<EntityID>>)
    ensures |Present(s)| == |s| <==> forall i :: 0 <= i < |s| ==> s[i].Some?
    decreases |s|
  {
    if s != [] {
      var init := s[..|s| - 1];
      PresentKeepsAll(init);
      if forall i :: 0 <= i < |s| ==> s[i].Some? {
        assert forall i :: 0 <= i < |init| ==> init[i].Some? by {
          forall i | 0 <= i < |init| ensures init[i].Some? {
            assert init[i] == s[i];
          }
        }
      } else {
        var i :| 0 <= i < |s| && s[i].None?;
        if i < |s| - 1 {
          assert init[i] == s[i];
        }
      }
    }
  }

  /** The ids a list of change events carried, one entry per event. */
  function EventIds(events: seq<Value>): (r: seq<Option<EntityID>>)
    ensures |r| == |events| && forall i :: 0 <= i < |events| ==> r[i] == EventId(events[i])
  {
    seq(|events|, i requires 0 <= i < |events| => EventId(events[i]))
  }

  /** The `delete-->id` events. */
  function IdDeletions(w: WorldState): seq<Value>
  {
    GetEvents(w, IdEventKey("delete"))
  }

  /** Some `delete-->id` event carries no id: the ids were deleted all at once. */
  predicate DeletedAll(w: WorldState)
  {
    |Present(EventIds(IdDeletions(w)))| != |IdDeletions(w)|
  }

  /** The live ids of the named stores, store by store in the order given. */
  function LiveIdsOf(comps: map<string, StoreState>, names: seq<string>): seq<EntityID>
    requires ValidStores(comps) && forall k :: k in names ==> k in comps
    decreases |names|
  {
    if names == [] then []
    else
      var init := names[..|names| - 1];
      var last := names[|names| - 1];
      LiveIdsOf(comps, init) + LiveIds(comps[last])
  }

  /** An id is among them exactly when it is a live id of one of the stores. */
  lemma {:induction false} LiveIdsOfContents(comps: map<string, StoreState>, names: seq<string>, id: EntityID)
    requires ValidStores(comps) && forall k :: k in names ==> k in comps
    ensures id in LiveIdsOf(comps, names) <==> exists k :: k in names && id in LiveIds(comps[k])
    decreases |names|
  {
    if names != [] {
      var init := names[..|names| - 1];
      var last := names[|names| - 1];
      assert names == init + [last];
      LiveIdsOfContents(comps, init, id);
      if id in LiveIds(comps[last]) {
        assert last in names;
      }
      if exists k :: k in names && id in LiveIds(comps[k]) {
        var k :| k in names && id in LiveIds(comps[k]);
        if k != last {
          assert k in init;
        }
      }
    }
  }

  /**
   * getDeletedIDs: nothing without `delete-->id` events; every live id of
   * every store, in key order, when one of them carries no id; otherwise
   * the ids they carry, in order.
   */
  function DeletedIds(w: WorldState): (r: seq<EntityID>)
    requires ValidWorld(w) && (DeletedAll(w) ==> NoLostStores(w))
    ensures IdDeletions(w) == [] ==> r == []
    ensures IdDeletions(w) != [] && !DeletedAll(w) ==>
      |r| == |IdDeletions(w)| && forall i :: 0 <= i < |r| ==> Some(r[i]) == EventId(IdDeletions(w)[i])
    ensures IdDeletions(w) != [] && DeletedAll(w) ==> r == LiveIdsOf(w.components, w.componentOrder)
  {
    var events := IdDeletions(w);
    if |events| == 0 then []
    else
      var dead := Present(EventIds(events));
      if |dead| != |events| then LiveIdsOf(w.components, w.componentOrder)
      else
        PresentKeepsAll(EventIds(events));
        PresentInOrder(EventIds(events));
        dead
  }

  /** When every id is present, they come out one for one. */
  lemma {:induction false} PresentInOrder(s: seq<Option<EntityID>>)
    requires forall i :: 0 <= i < |s| ==> s[i].Some?
    ensures |Present(s)| == |s| && forall i :: 0 <= i < |s| ==> Some(Present(s)[i]) == s[i]
    decreases |s|
  {
    if s != [] {
      var init := s[..|s| - 1];
      assert forall i :: 0 <= i < |init| ==> init[i] == s[i];
      PresentInOrder(init);
      assert Present(s) == Present(init) + [s[|s| - 1].value];
    }
  }

  // ---------------------------------------------------------------------
  // recycling.ts

  /** The id set after `set.add` of each id in turn. */
  function AddAll(s: seq<EntityID>, ids: seq<EntityID>): (r: seq<EntityID>)
    decreases |ids|
  {
    if ids == [] then s else SetAdd(AddAll(s, ids[..|ids| - 1]), ids[|ids| - 1])
  }

  /** Adding ids to a set: it holds exactly the old members and the ids, each once. */
  lemma {:induction false} AddAllContents(s: seq<EntityID>, ids: seq<EntityID>)
    ensures forall x :: x in AddAll(s, ids) <==> x in s || x in ids
    ensures NoDups(s) ==> NoDups(AddAll(s, ids))
    decreases |ids|
  {
    if ids != [] {
      var init := ids[..|ids| - 1];
      var last := ids[|ids| - 1];
      assert ids == init + [last];
      AddAllContents(s, init);
      var prev := AddAll(s, init);
      assert forall x :: x in SetAdd(prev, last) <==> x in (set y | y in prev) + {last};
    }
  }

  /** The loop of updateEntityRevivalQueue: `set.add` of each id in turn. */
  method AddEach(start: seq<EntityID>, ids: seq<EntityID>) returns (stack: seq<EntityID>)
    ensures stack == AddAll(start, ids)
  {
    stack := start;
    var i := 0;
    while i < |ids|
      invariant 0 <= i <= |ids|
      invariant stack == AddAll(start, ids[..i])
    {
      assert ids[..i + 1] == ids[..i] + [ids[i]];
      stack := SetAdd(stack, ids[i]);
      i := i + 1;
    }
    assert ids[..i] == ids;
  }

  /** The `set` of the revival stack resource. */
  function SetRevivalStack(s: seq<EntityID>): IntentionState
  {
    IntentionState([Change(Resource(RevivalStackKey), SetOp(IdSet(s)), None)], 0)
  }

  /**
   * updateEntityRevivalQueue: nothing when no id was deleted; otherwise
   * the revival stack with every deleted id added, set as the resource.
   */
  method UpdateEntityRevivalQueue(w: WorldState) returns (r: Option<IntentionState>)
    requires ValidWorld(w) && (DeletedAll(w) ==> NoLostStores(w))
    ensures r.None? <==> DeletedIds(w) == []
    ensures r.Some? ==> r.value == SetRevivalStack(AddAll(RevivalStack(w), DeletedIds(w)))
  {
    var deleted := DeletedIds(w);
    if |deleted| == 0 {
      return None;
    }
    var stack := AddEach(RevivalStack(w), deleted);
    var result := new Intention([], 0);
    result.SetResource(RevivalStackKey, IdSet(stack));
    return Some(result.State());
  }

  /**
   * Once applied, the proposed revival stack holds exactly the old stack
   * and the deleted ids, none twice when the old stack held none twice.
   */
  lemma RevivalQueueHoldsDeleted(w: WorldState, user: UserFns)
    requires ValidWorld(w) && (DeletedAll(w) ==> NoLostStores(w)) && DeletedIds(w) != []
    ensures var c := SetRevivalStack(AddAll(RevivalStack(w), DeletedIds(w))).changes[0];
      var w' := ApplyResourceChangeSpec(w, ExtractChangeEntityId(c), user);
      && (forall x :: x in RevivalStack(w') <==> x in RevivalStack(w) || x in DeletedIds(w))
      && (NoDups(RevivalStack(w)) ==> NoDups(RevivalStack(w')))
  {
    AddAllContents(RevivalStack(w), DeletedIds(w));
  }

  /**
   * reviveEntities: nothing when no id was created or there is no revival
   * stack; otherwise an update of the stack that deletes every created id.
   */
  function ReviveEntities(w: WorldState): (r: Option<IntentionState>)
    ensures r.None? <==> CreatedIds(w) == [] || Field(w.resources, RevivalStackKey) == Undefined
    ensures r.Some? ==>
      && r.value.generatedIds == 0 && |r.value.changes| == 1
      && r.value.changes[0].target == Resource(RevivalStackKey)
      && r.value.changes[0].op == UpdateOp(ForgetIds(CreatedIds(w)))
  {
    var ids := CreatedIds(w);
    if |ids| == 0 then None
    else if Field(w.resources, RevivalStackKey) == Undefined then None
    else Some(AddChangeSpec(IntentionState([], 0), Change(Resource(RevivalStackKey), UpdateOp(ForgetIds(ids)), None)))
  }

  /**
   * Once applied, the revival stack keeps exactly the ids that were not
   * created again; nothing else is touched.
   */
  lemma ReviveForgetsCreated(w: WorldState, user: UserFns)
    requires ReviveEntities(w).Some? && Field(w.resources, RevivalStackKey).IdSet?
    ensures var c := ExtractChangeEntityId(ReviveEntities(w).value.changes[0]);
      var w' := ApplyResourceChangeSpec(w, c, user);
      && (forall x :: x in RevivalStack(w') <==> x in RevivalStack(w) && Num(x) !in CreatedIds(w))
      && (forall k :: k != RevivalStackKey ==> Field(w'.resources, k) == Field(w.resources, k))
  {
  }

  /** The deleted ids as event values. */
  function NumIds(ids: seq<EntityID>): (r: seq<Value>)
    ensures |r| == |ids| && forall i :: 0 <= i < |ids| ==> r[i] == Num(ids[i])
  {
    seq(|ids|, i requires 0 <= i < |ids| => Num(ids[i]))
  }

  /**
   * entityDeletionCleanup: nothing when no id was deleted; otherwise each
   * deleted id, in order, added to the death's-door events.
   */
  function EntityDeletionCleanup(w: WorldState): (r: Option<IntentionState>)
    requires ValidWorld(w) && (DeletedAll(w) ==> NoLostStores(w))
    ensures r.None? <==> DeletedIds(w) == []
    ensures r.Some? ==> r.value.generatedIds == 0 && r.value.changes == EventChanges(DeathsDoorKey, NumIds(DeletedIds(w)))
  {
    var deleted := DeletedIds(w);
    if |deleted| == 0 then None
    else
      var cs := EventChanges(DeathsDoorKey, NumIds(deleted));
      EventChangesUseNoOffsets(cs);
      Some(AddChangesSpec(IntentionState([], 0), cs))
  }

  /** A death's-door entry names an entity when it is a non-negative number. */
  function DeathRowId(v: Value): Option<EntityID>
  {
    if v.Num? && v.n >= 0 then Some(v.n) else None
  }

  /**
   * Every id entityDeletionCleanup queues is read back by executeEntities
   * as that id, in the same order.
   */
  lemma CleanupQueuesDeletedIds(ids: seq<EntityID>)
    ensures var cs := EventChanges(DeathsDoorKey, NumIds(ids));
      |cs| == |ids| && forall i :: 0 <= i < |cs| ==>
        cs[i].target == Event(DeathsDoorKey) && cs[i].op.AddOp? && DeathRowId(cs[i].op.value) == Some(ids[i])
  {
  }

  /** The deletes of one entity's components, `id` excluded, in the order given. */
  function KillChanges(names: seq<string>, e: Entity): seq<Change<Entity>>
    decreases |names|
  {
    if names == [] then []
    else
      var init := KillChanges(names[..|names| - 1], e);
      var name := names[|names| - 1];
      if name != IdKey then init + [Change(Component(name), DeleteOp, Some(e))] else init
  }

  /**
   * The components of a death's-door entry. A store reports an undefined
   * id as present (`undefined > maxID` is false and `dense[sparse[undefined]]`
   * is undefined too), so an undefined entry is in every store; any other
   * entry that is not a non-negative number is in none.
   */
  function ComponentsOfEntry(w: WorldState, v: Value): seq<string>
    requires ValidWorld(w) && NoLostStores(w)
  {
    match DeathRowId(v)
    case Some(id) => ComponentsForEntity(w, id)
    case None => if v.Undefined? then w.componentOrder else []
  }

  /**
   * `ID.real(entry)`: the entity for a number entry, and a real reference
   * without an id otherwise (only an undefined entry has components).
   */
  function EntryRef(v: Value): Entity
  {
    match DeathRowId(v)
    case Some(id) => Real(id)
    case None => RealWithoutId
  }

  /** The component deletes for every entry on death's door, entry by entry. */
  function ExecutionChanges(w: WorldState, toDie: seq<Value>): seq<Change<Entity>>
    requires ValidWorld(w) && (toDie != [] ==> NoLostStores(w))
    decreases |toDie|
  {
    if toDie == [] then []
    else
      var last := toDie[|toDie| - 1];
      ExecutionChanges(w, toDie[..|toDie| - 1]) + KillChanges(ComponentsOfEntry(w, last), EntryRef(last))
  }

  /** The change that clears death's door. */
  function ClearDeathsDoor(): Change<Entity>
  {
    Change(Event(DeathsDoorKey), DeleteOp, None)
  }

  /**
   * executeEntities: nothing when death's door is empty; otherwise, for
   * each entry in turn, a delete of each component the entity has other
   * than `id`, and then death's door cleared. Looking a non-empty death's
   * door up in a lost store throws, hence the requirement.
   */
  method ExecuteEntities(w: WorldState) returns (r: Option<IntentionState>)
    requires ValidWorld(w) && (GetEvents(w, DeathsDoorKey) != [] ==> NoLostStores(w))
    ensures r.None? <==> GetEvents(w, DeathsDoorKey) == []
    ensures r.Some? ==> r.value == IntentionState(ExecutionChanges(w, GetEvents(w, DeathsDoorKey)) + [ClearDeathsDoor()], 0)
  {
    var toDie := GetEvents(w, DeathsDoorKey);
    if |toDie| == 0 {
      return None;
    }
    var results := new Intention([], 0);
    KillEach(results, w, toDie);
    results.ResetEvents(DeathsDoorKey);
    return Some(results.State());
  }

  /** The outer loop of executeEntities: the component deletes of each entry in turn. */
  method KillEach(results: Intention, w: WorldState, toDie: seq<Value>)
    requires ValidWorld(w) && NoLostStores(w)
    requires results.State() == IntentionState([], 0)
    modifies results
    ensures results.State() == IntentionState(ExecutionChanges(w, toDie), 0)
  {
    var i := 0;
    while i < |toDie|
      invariant 0 <= i <= |toDie|
      invariant results.State() == IntentionState(ExecutionChanges(w, toDie[..i]), 0)
    {
      ExecutionChangesStep(w, toDie, i);
      KillComponents(results, ComponentsOfEntry(w, toDie[i]), EntryRef(toDie[i]));
      i := i + 1;
    }
    assert toDie[..i] == toDie;
  }

  /** One more entry adds its own deletes after those of the entries before it. */
  lemma ExecutionChangesStep(w: WorldState, toDie: seq<Value>, i: nat)
    requires ValidWorld(w) && NoLostStores(w) && i < |toDie|
    ensures ExecutionChanges(w, toDie[..i + 1]) == ExecutionChanges(w, toDie[..i]) +
      KillChanges(ComponentsOfEntry(w, toDie[i]), EntryRef(toDie[i]))
  {
    assert toDie[..i + 1][..i] == toDie[..i];
  }

  /** The inner loop of executeEntities: deletes each listed component but `id`. */
  method KillComponents(results: Intention, components: seq<string>, e: Entity)
    requires results.generatedIds == 0 && !e.Unborn?
    modifies results
    ensures results.State() == IntentionState(old(results.changes) + KillChanges(components, e), 0)
  {
    var j := 0;
    while j < |components|
      invariant 0 <= j <= |components|
      invariant results.State() == IntentionState(old(results.changes) + KillChanges(components[..j], e), 0)
    {
      assert components[..j + 1][..j] == components[..j];
      if components[j] != IdKey {
        results.DeleteComponent(components[j], e);
      }
      j := j + 1;
    }
    assert components[..j] == components;
  }

  /** The deletes of one entity: one per listed name other than `id`. */
  lemma {:induction false} KillChangesContents(names: seq<string>, e: Entity, c: Change<Entity>)
    ensures c in KillChanges(names, e) <==>
      c.target.Component? && c.target.name in names && c.target.name != IdKey && c.op == DeleteOp && c.id == Some(e)
    decreases |names|
  {
    if names != [] {
      var init := names[..|names| - 1];
      var name := names[|names| - 1];
      assert names == init + [name];
      KillChangesContents(init, e, c);
    }
  }

  /**
   * executeEntities deletes component `name` of entity `id` exactly when
   * `id` is on death's door, `name` is not `id`, and that store reports
   * the entity.
   */
  lemma {:induction false} ExecutionDeletes(w: WorldState, toDie: seq<Value>, name: string, id: EntityID)
    requires ValidWorld(w) && NoLostStores(w)
    ensures Change(Component(name), DeleteOp, Some(Real(id))) in ExecutionChanges(w, toDie) <==>
      Num(id) in toDie && name != IdKey && name in w.components && HasEntityIn(w.components[name], id)
    decreases |toDie|
  {
    var c: Change<Entity> := Change(Component(name), DeleteOp, Some(Real(id)));
    if toDie != [] {
      var init := toDie[..|toDie| - 1];
      var last := toDie[|toDie| - 1];
      assert toDie == init + [last];
      ExecutionDeletes(w, init, name, id);
      KillChangesContents(ComponentsOfEntry(w, last), EntryRef(last), c);
      assert Num(id) in toDie <==> Num(id) in init || last == Num(id);
    }
  }

  /**
   * An undefined entry on death's door deletes every component but `id`,
   * each with a real reference that carries no id, which extraction turns
   * into a delete without an id; nothing else produces such a delete.
   */
  lemma {:induction false} ExecutionDeletesUndefined(w: WorldState, toDie: seq<Value>, name: string)
    requires ValidWorld(w) && NoLostStores(w)
    ensures Change(Component(name), DeleteOp, Some(RealWithoutId)) in ExecutionChanges(w, toDie) <==>
      Undefined in toDie && name != IdKey && name in w.componentOrder
    ensures ExtractChangeEntityId(Change(Component(name), DeleteOp, Some(RealWithoutId))).id.None?
    decreases |toDie|
  {
    var c: Change<Entity> := Change(Component(name), DeleteOp, Some(RealWithoutId));
    if toDie != [] {
      var init := toDie[..|toDie| - 1];
      var last := toDie[|toDie| - 1];
      assert toDie == init + [last];
      ExecutionDeletesUndefined(w, init, name);
      KillChangesContents(ComponentsOfEntry(w, last), EntryRef(last), c);
      assert Undefined in toDie <==> Undefined in init || last == Undefined;
    }
  }

  // ---------------------------------------------------------------------
  // maxID.ts

  /**
   * `Math.max(...vs)`: the largest number; no number (NaN) when some value
   * is not a number.
   */
  function MaxOf(vs: seq<Value>): (r: Option<int>)
    requires vs != []
    ensures r.Some? <==> forall i :: 0 <= i < |vs| ==> vs[i].Num?
    ensures r.Some? ==> Num(r.value) in vs && forall i :: 0 <= i < |vs| ==> vs[i].n <= r.value
    decreases |vs|
  {
    var last := vs[|vs| - 1];
    if |vs| == 1 then (if last.Num? then Some(last.n) else None)
    else
      var init := vs[..|vs| - 1];
      assert vs == init + [last];
      var m := MaxOf(init);
      if m.None? || !last.Num? then None
      else if last.n > m.value then Some(last.n) else Some(m.value)
  }

  /**
   * The current max-id as read with a default of -1; a value of another
   * kind compares false, so it reads as no bound.
   */
  function CurrentMax(w: WorldState): Option<int>
  {
    match Field(w.resources, MaxIdKey)
    case Undefined => Some(-1)
    case Num(c) => Some(c)
    case _ => None
  }

  /** The `set` of the max-id resource. */
  function SetMaxId(n: int): Change<Entity>
  {
    Change(Resource(MaxIdKey), SetOp(Num(n)), None)
  }

  /**
   * updateMaxID: nothing when no id was created; otherwise an intention
   * that sets max-id to the largest created id when that exceeds the
   * current one, and an empty intention when it does not.
   */
  function UpdateMaxID(w: WorldState): (r: Option<IntentionState>)
    ensures r.None? <==> CreatedIds(w) == []
    ensures r.Some? ==> r.value.generatedIds == 0
    ensures r.Some? && r.value.changes != [] ==>
      exists m :: r.value.changes == [SetMaxId(m)] && Num(m) in CreatedIds(w)
        && (forall v :: v in CreatedIds(w) ==> v.Num? && v.n <= m)
        && CurrentMax(w).Some? && m > CurrentMax(w).value
    ensures r.Some? && r.value.changes == [] ==>
      || (exists v :: v in CreatedIds(w) && !v.Num?)
      || CurrentMax(w).None?
      || (forall v :: v in CreatedIds(w) ==> v.Num? && v.n <= CurrentMax(w).value)
  {
    var ids := CreatedIds(w);
    if |ids| == 0 then None
    else
      var max := MaxOf(ids);
      var current := CurrentMax(w);
      if max.Some? && current.Some? && max.value > current.value then
        Some(AddChangeSpec(IntentionState([], 0), SetMaxId(max.value)))
      else
        Some(IntentionState([], 0))
  }

  /**
   * Once applied, max-id is never lowered, and it is at least every id
   * created when they are all numbers and max-id was a number or unset.
   */
  lemma UpdateMaxIdNeverLowers(w: WorldState, user: UserFns)
    requires UpdateMaxID(w).Some? && CurrentMax(w).Some?
    ensures var p := UpdateMaxID(w).value;
      var w' := if p.changes == [] then w else ApplyResourceChangeSpec(w, ExtractChangeEntityId(p.changes[0]), user);
      && CurrentMax(w').Some? && CurrentMax(w').value >= CurrentMax(w).value
      && ((forall v :: v in CreatedIds(w) ==> v.Num?) ==>
            forall v :: v in CreatedIds(w) ==> v.n <= CurrentMax(w').value)
  {
    var p := UpdateMaxID(w).value;
    if p.changes == [] {
      MaxIdKept(w);
    } else {
      MaxIdRaised(w, user);
    }
  }

  /** When updateMaxID proposes nothing, max-id already bounds every created number. */
  lemma MaxIdKept(w: WorldState)
    requires UpdateMaxID(w).Some? && CurrentMax(w).Some? && UpdateMaxID(w).value.changes == []
    ensures (forall v :: v in CreatedIds(w) ==> v.Num?) ==>
      forall v :: v in CreatedIds(w) ==> v.n <= CurrentMax(w).value
  {
  }

  /** When updateMaxID proposes a `set`, max-id rises to a bound on every created id. */
  lemma MaxIdRaised(w: WorldState, user: UserFns)
    requires UpdateMaxID(w).Some? && CurrentMax(w).Some? && UpdateMaxID(w).value.changes != []
    ensures var w' := ApplyResourceChangeSpec(w, ExtractChangeEntityId(UpdateMaxID(w).value.changes[0]), user);
      && CurrentMax(w').Some? && CurrentMax(w').value > CurrentMax(w).value
      && forall v :: v in CreatedIds(w) ==> v.Num? && v.n <= CurrentMax(w').value
  {
    var p := UpdateMaxID(w).value;
    var m :| p.changes == [SetMaxId(m)] && Num(m) in CreatedIds(w)
      && (forall v :: v in CreatedIds(w) ==> v.Num? && v.n <= m)
      && CurrentMax(w).Some? && m > CurrentMax(w).value;
    SetMaxIdReads(w, m, user);
  }

  /** Applying the `set` of max-id makes it read back as that number. */
  lemma SetMaxIdReads(w: WorldState, m: int, user: UserFns)
    ensures CurrentMax(ApplyResourceChangeSpec(w, ExtractChangeEntityId(SetMaxId(m)), user)) == Some(m)
  {
    var c := ExtractChangeEntityId(SetMaxId(m));
    assert c.target == Resource(MaxIdKey) && c.op == SetOp(Num(m));
  }

  /**
   * The documented behaviour: a first entity created makes max-id 0; a
   * second, 1; creating 1 again leaves it at 1.
   */
  lemma UpdateMaxIdExamples(w0: WorldState, w1: WorldState, w2: WorldState)
    requires Field(w0.resources, MaxIdKey) == Undefined && CreatedIds(w0) == [Num(0)]
    requires Field(w1.resources, MaxIdKey) == Num(0) && CreatedIds(w1) == [Num(1)]
    requires Field(w2.resources, MaxIdKey) == Num(1) && CreatedIds(w2) == [Num(1)]
    ensures UpdateMaxID(w0) == Some(IntentionState([SetMaxId(0)], 0))
    ensures UpdateMaxID(w1) == Some(IntentionState([SetMaxId(1)], 0))
    ensures UpdateMaxID(w2) == Some(IntentionState([], 0))
  {
  }
}
