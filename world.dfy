// The world (src/lib/world.ts): component stores by name, event lists and
// resources, with entity allocation, queries, the application of changes
// and proposals, and the batching of each stage's systems.
//
// The world keeps each component store as a value (`StoreState`) rather
// than a shared object: every store operation the world performs is the
// store's own operation on that value.

module Worlds {
  import opened Types
  import opened Util
  import opened Entities
  import opened Changes
  import opened Store
  import opened Intentions
  import opened Dependencies
  import opened Keys

  /**
   * The world's three records. `componentOrder` lists every key the
   * components record has ever held, in insertion order; a key whose store
   * a change without a method replaced by `undefined` stays listed but has
   * no store in `components`.
   */
  datatype WorldState = WorldState(
    components: map<string, StoreState>,
    componentOrder: seq<string>,
    events: map<string, seq<Value>>,
    resources: map<string, Value>)

  ghost predicate ValidWorld(w: WorldState)
  {
    && NoDups(w.componentOrder)
    && (forall k :: k in w.components ==> k in w.componentOrder)
    && (forall k :: k in w.components ==> ValidState(w.components[k]))
  }

  /** Every listed key still holds a store. */
  predicate NoLostStores(w: WorldState)
  {
    forall k :: k in w.componentOrder ==> k in w.components
  }

  /** A world with nothing in it. */
  function EmptyWorld(): (w: WorldState)
    ensures ValidWorld(w) && NoLostStores(w)
  {
    WorldState(map[], [], map[], map[])
  }

  // ---------------------------------------------------------------------
  // Component stores

  /** getComponentStore: the named store, or a new one with the default bound. */
  function GetComponentStore(w: WorldState, name: string): (s: StoreState)
    requires ValidWorld(w)
    ensures ValidState(s)
    ensures name !in w.components ==> s == Empty(DefaultMaxID)
  {
    if name in w.components then w.components[name] else Empty(DefaultMaxID)
  }

  /** A record's key list after writing `name`: a new key goes last. */
  function ListName(order: seq<string>, name: string): (r: seq<string>)
    ensures NoDups(order) ==> NoDups(r)
    ensures forall k :: k in r <==> k in order || k == name
    ensures name in order ==> r == order
  {
    if name in order then order else order + [name]
  }

  /** setComponentStore. */
  function SetComponentStore(w: WorldState, name: string, s: StoreState): (r: WorldState)
    requires ValidWorld(w) && ValidState(s)
    ensures ValidWorld(r)
    ensures r.components == w.components[name := s]
    ensures r.events == w.events && r.resources == w.resources
    ensures NoLostStores(w) ==> NoLostStores(r)
  {
    w.(components := w.components[name := s], componentOrder := ListName(w.componentOrder, name))
  }

  /** Writing `undefined` as the named store: the key stays, the store is gone. */
  function LoseComponentStore(w: WorldState, name: string): (r: WorldState)
    requires ValidWorld(w)
    ensures ValidWorld(r)
    ensures r.components == w.components - {name} && name in r.componentOrder
    ensures r.events == w.events && r.resources == w.resources
  {
    w.(components := w.components - {name}, componentOrder := ListName(w.componentOrder, name))
  }

  // ---------------------------------------------------------------------
  // Events

  /** getEvents: the named list, empty when there is none. */
  function GetEvents(w: WorldState, name: string): seq<Value>
  {
    if name in w.events then w.events[name] else []
  }

  /** addEvent: appends `v` to the named list. */
  function AddEventSpec(w: WorldState, name: string, v: Value): (r: WorldState)
    ensures GetEvents(r, name) == GetEvents(w, name) + [v]
    ensures forall k :: k != name ==> GetEvents(r, k) == GetEvents(w, k)
    ensures r.components == w.components && r.componentOrder == w.componentOrder && r.resources == w.resources
  {
    w.(events := w.events[name := GetEvents(w, name) + [v]])
  }

  /** resetEvents: empties the named list. */
  function ResetEventsSpec(w: WorldState, name: string): (r: WorldState)
    ensures GetEvents(r, name) == []
    ensures forall k :: k != name ==> GetEvents(r, k) == GetEvents(w, k)
    ensures r.components == w.components && r.componentOrder == w.componentOrder && r.resources == w.resources
  {
    w.(events := w.events[name := []])
  }

  // ---------------------------------------------------------------------
  // Resources

  /**
   * applyResourceChange: `add` leaves a key that holds a defined value
   * alone, `set` overwrites, `update` applies the function to the current
   * value (undefined when missing), `delete` removes the key, and a change
   * without a method matches no case. No other key and nothing but the
   * resources change.
   */
  function ApplyResourceChangeSpec(w: WorldState, c: Change<EntityID>, user: UserFns): (r: WorldState)
    requires c.target.Resource?
    ensures r.components == w.components && r.componentOrder == w.componentOrder && r.events == w.events
    ensures forall k :: k != c.target.name ==> Field(r.resources, k) == Field(w.resources, k)
  {
    var key := c.target.name;
    match c.op
    case AddOp(v) =>
      if Field(w.resources, key) != Undefined then w else w.(resources := w.resources[key := v])
    case SetOp(v) => w.(resources := w.resources[key := v])
    case UpdateOp(f) => w.(resources := w.resources[key := ApplyFn(f, Field(w.resources, key), user)])
    case DeleteOp => w.(resources := w.resources - {key})
    case NoMethodOp(_) => w
  }

  /** The world object as the nested-record editor sees it. */
  function WorldObject(resources: map<string, Value>): Value
  {
    Record(map["resources" := Record(resources)])
  }

  /**
   * Each resource change is the nested-record edit the source performs on
   * the path `resources/<key>` of the world object: objAssoc for add and
   * set, objUpdate for update, objDelete without keys for delete.
   */
  lemma ResourceChangeIsObjectEdit(w: WorldState, c: Change<EntityID>, user: UserFns)
    requires c.target.Resource?
    ensures var path := ["resources", c.target.name];
      var after := Some(WorldObject(ApplyResourceChangeSpec(w, c, user).resources));
      && (c.op.SetOp? ==> ObjAssoc(path, c.op.value, WorldObject(w.resources)) == after)
      && (c.op.AddOp? && Field(w.resources, c.target.name) == Undefined ==>
            ObjAssoc(path, c.op.value, WorldObject(w.resources)) == after)
      && (c.op.AddOp? && Field(w.resources, c.target.name) != Undefined ==> after == Some(WorldObject(w.resources)))
      && (c.op.UpdateOp? ==> ObjUpdate(path, v => ApplyFn(c.op.fn, v, user), WorldObject(w.resources)) == after)
      && (c.op.DeleteOp? ==> ObjDelete(path, [], WorldObject(w.resources)) == after)
  {
    ObjModifyResources(w.resources, c.target.name);
  }

  /** Editing `resources/<key>` of the world object edits that key of the resources. */
  lemma ObjModifyResources(resources: map<string, Value>, key: string)
    ensures forall edit: LeafEdit :: (ObjModify(["resources", key], edit, WorldObject(resources)) ==
      Some(WorldObject(match edit
        case Replace(f) => resources[key := f(Field(resources, key))]
        case Remove => resources - {key})))
  {
    forall edit: LeafEdit
      ensures ObjModify(["resources", key], edit, WorldObject(resources)) ==
        Some(WorldObject(match edit
          case Replace(f) => resources[key := f(Field(resources, key))]
          case Remove => resources - {key}))
    {
      var path := ["resources", key];
      var obj := WorldObject(resources);
      assert path[1..] == [key];
      assert Descend(obj.fields, "resources") == Record(resources);
      var inner := ObjModify([key], edit, Record(resources));
      assert inner.Some?;
      assert ObjModify(path, edit, obj) == Some(Record(obj.fields["resources" := inner.value]));
      assert obj.fields["resources" := inner.value] == map["resources" := inner.value];
    }
  }

  // ---------------------------------------------------------------------
  // Forwarding component changes

  /**
   * forwardToComponents: the named store (a new one if missing) handles
   * the change and is written back; a change without a method makes the
   * store's handler return nothing, which is written back as `undefined`.
   * Unless the change is to `id` itself, the `id` store is written back
   * too, holding the change's id mapped to itself after an add or set that
   * carries one.
   */
  function ForwardToComponentsSpec(w: WorldState, c: Change<EntityID>, user: UserFns): (r: WorldState)
    requires ValidWorld(w) && c.target.Component?
    ensures ValidWorld(r)
    ensures r.events == w.events && r.resources == w.resources
  {
    var name := c.target.name;
    var w1 :=
      if c.op.NoMethodOp? then LoseComponentStore(w, name)
      else SetComponentStore(w, name, HandleChangeSpec(GetComponentStore(w, name), c, user));
    if name == IdKey then w1
    else
      var ids := GetComponentStore(w1, IdKey);
      var ids' := if (c.op.AddOp? || c.op.SetOp?) && c.id.Some? then InsertSpec(ids, c.id.value, Num(c.id.value)) else ids;
      SetComponentStore(w1, IdKey, ids')
  }

  /**
   * After a component change the named store is the one that handled the
   * change; an add or set carrying an id on another component leaves that
   * id in the `id` store mapped to itself, and any other change to another
   * component leaves the `id` store's contents as they were.
   */
  lemma ForwardToComponentsEffect(w: WorldState, c: Change<EntityID>, user: UserFns)
    requires ValidWorld(w) && c.target.Component? && !c.op.NoMethodOp?
    ensures var r := ForwardToComponentsSpec(w, c, user); var name := c.target.name;
      && (name != IdKey ==> r.components[name] == HandleChangeSpec(GetComponentStore(w, name), c, user))
      && (name == IdKey ==> r.components == w.components[IdKey := HandleChangeSpec(GetComponentStore(w, IdKey), c, user)])
      && (name != IdKey && (c.op.AddOp? || c.op.SetOp?) && c.id.Some? ==>
            ComponentOf(r.components[IdKey], c.id.value) == Num(c.id.value)
            && (c.id.value <= DefaultMaxID && IdKey !in w.components ==> HasEntityIn(r.components[IdKey], c.id.value)))
      && (name != IdKey && !(c.op.AddOp? || c.op.SetOp?) ==> r.components[IdKey] == GetComponentStore(w, IdKey))
  {
  }

  /** A component change touches only its own store and the `id` store. */
  lemma ForwardKeepsOtherStore(w: WorldState, c: Change<EntityID>, user: UserFns, k: string)
    requires ValidWorld(w) && c.target.Component?
    requires k in w.components && k != c.target.name && k != IdKey
    ensures var r := ForwardToComponentsSpec(w, c, user);
      k in r.components && r.components[k] == w.components[k]
  {
    var name := c.target.name;
    var w1 :=
      if c.op.NoMethodOp? then LoseComponentStore(w, name)
      else SetComponentStore(w, name, HandleChangeSpec(GetComponentStore(w, name), c, user));
    assert k in w1.components && w1.components[k] == w.components[k];
    var r := ForwardToComponentsSpec(w, c, user);
    if name != IdKey {
      assert r.components == w1.components[IdKey := r.components[IdKey]];
    }
  }

  /**
   * A change without a method wipes its component's store: afterwards the
   * world reads a new, empty store under that name.
   */
  lemma ForwardWithoutMethodLosesStore(w: WorldState, c: Change<EntityID>, user: UserFns)
    requires ValidWorld(w) && c.target.Component? && c.op.NoMethodOp? && c.target.name != IdKey
    ensures var r := ForwardToComponentsSpec(w, c, user);
      && c.target.name !in r.components
      && GetComponentStore(r, c.target.name) == Empty(DefaultMaxID)
      && c.target.name in r.componentOrder
      && !NoLostStores(r)
  {
  }

  // ---------------------------------------------------------------------
  // Applying one change

  /**
   * applyChange: records the change on the raw log, then forwards it to the
   * components, applies it to the resources, or (for an event) empties the
   * list on delete and appends the change's value otherwise.
   */
  function ApplyChangeSpec(w: WorldState, c: Change<EntityID>, user: UserFns): (r: WorldState)
    requires ValidWorld(w)
    ensures ValidWorld(r)
  {
    var w1 := AddEventSpec(w, RawChangesKey, RawChange(c));
    match c.target
    case Component(_) => ForwardToComponentsSpec(w1, c, user)
    case Resource(_) => ApplyResourceChangeSpec(w1, c, user)
    case Event(name) =>
      if c.op.DeleteOp? then ResetEventsSpec(w1, name) else AddEventSpec(w1, name, c.op.Payload())
  }

  /**
   * Every change lands on the raw log; an event change lands on its own
   * list; and only a component change touches the stores, only a resource
   * change the resources.
   */
  lemma ApplyChangeRecords(w: WorldState, c: Change<EntityID>, user: UserFns)
    requires ValidWorld(w)
    ensures var r := ApplyChangeSpec(w, c, user);
      && (!(c.target.Event? && c.target.name == RawChangesKey) ==>
            GetEvents(r, RawChangesKey) == GetEvents(w, RawChangesKey) + [RawChange(c)])
      && (c.target.Event? && c.target.name != RawChangesKey ==>
            GetEvents(r, c.target.name) == if c.op.DeleteOp? then [] else GetEvents(w, c.target.name) + [c.op.Payload()])
      && (!c.target.Component? ==> r.components == w.components && r.componentOrder == w.componentOrder)
      && (!c.target.Resource? ==> r.resources == w.resources)
  {
  }

  /** The changes applied one after another, in order. */
  function ApplyChangesSpec(w: WorldState, cs: seq<Change<EntityID>>, user: UserFns): (r: WorldState)
    requires ValidWorld(w)
    ensures ValidWorld(r)
    decreases |cs|
  {
    if cs == [] then w
    else ApplyChangeSpec(ApplyChangesSpec(w, cs[..|cs| - 1], user), cs[|cs| - 1], user)
  }

  /** setResource: a `set` change of the named resource. */
  function SetResourceSpec(w: WorldState, key: string, v: Value): (r: WorldState)
    requires ValidWorld(w)
    ensures ValidWorld(r)
    ensures r.resources == w.resources[key := v]
    ensures GetEvents(r, RawChangesKey) == GetEvents(w, RawChangesKey) + [RawChange(Change(Resource(key), SetOp(v), None))]
    ensures r.components == w.components && r.componentOrder == w.componentOrder
  {
    ApplyChangeSpec(w, Change(Resource(key), SetOp(v), None), (t, x) => x)
  }

  // ---------------------------------------------------------------------
  // Entity ids

  /** The revival stack resource, empty when it is not a set. */
  function RevivalStack(w: WorldState): seq<EntityID>
  {
    if RevivalStackKey in w.resources && w.resources[RevivalStackKey].IdSet? then w.resources[RevivalStackKey].ids else []
  }

  /** The max-id resource, -1 when it is not a number. */
  function MaxId(w: WorldState): int
  {
    if MaxIdKey in w.resources && w.resources[MaxIdKey].Num? then w.resources[MaxIdKey].n else -1
  }

  /**
   * createEntities: `n` ids, taken first from the revival stack in its
   * order and then counted on from max-id. The world is not changed.
   */
  function CreateEntities(w: WorldState, n: nat): (r: seq<EntityID>)
    requires MaxId(w) >= -1
    ensures |r| == n
    ensures forall i :: 0 <= i < n && i < |RevivalStack(w)| ==> r[i] == RevivalStack(w)[i]
    ensures forall i :: |RevivalStack(w)| <= i < n ==> r[i] == MaxId(w) + 1 + (i - |RevivalStack(w)|)
  {
    var stack := RevivalStack(w);
    var toRevive := if n <= |stack| then stack[..n] else stack;
    var toCreate := seq(n - |toRevive|, i requires 0 <= i => (MaxId(w) + 1 + i) as nat);
    toRevive + toCreate
  }

  /**
   * The ids handed out are distinct when the revival stack holds only ids
   * already counted: a revived id is at most max-id, a new one above it.
   */
  lemma CreateEntitiesDistinct(w: WorldState, n: nat)
    requires MaxId(w) >= -1
    requires NoDups(RevivalStack(w)) && forall x :: x in RevivalStack(w) ==> x <= MaxId(w)
    ensures NoDups(CreateEntities(w, n))
    ensures forall i :: |RevivalStack(w)| <= i < n ==> CreateEntities(w, n)[i] > MaxId(w)
  {
    var r := CreateEntities(w, n);
    var stack := RevivalStack(w);
    forall i, j | 0 <= i < j < n ensures r[i] != r[j] {
      if j < |stack| {
      } else if i < |stack| {
        assert stack[i] in stack;
      }
    }
  }

  /** The two allocations the kernel's documentation gives as examples. */
  lemma CreateEntitiesExamples(w: WorldState, v: WorldState)
    requires RevivalStack(w) == [] && MaxId(w) == -1
    requires RevivalStack(v) == [10] && MaxId(v) == 1
    ensures CreateEntities(w, 5) == [0, 1, 2, 3, 4]
    ensures CreateEntities(v, 2) == [10, 2]
  {
  }

  // ---------------------------------------------------------------------
  // Queries

  /** All the named stores exist. */
  predicate AllPresent(w: WorldState, names: seq<string>)
  {
    forall j :: 0 <= j < |names| ==> names[j] in w.components
  }

  function StoresOf(w: WorldState, names: seq<string>): (r: seq<StoreState>)
    requires AllPresent(w, names)
    ensures |r| == |names| && forall j :: 0 <= j < |names| ==> r[j] == w.components[names[j]]
  {
    seq(|names|, j requires 0 <= j < |names| => w.components[names[j]])
  }

  /** The position of the first store of least length: the head after a stable sort by length. */
  function Smallest(stores: seq<StoreState>): (k: nat)
    requires |stores| > 0
    ensures k < |stores|
    ensures forall j :: 0 <= j < |stores| ==> stores[k].n <= stores[j].n
    ensures forall j :: 0 <= j < k ==> stores[k].n < stores[j].n
    decreases |stores|
  {
    if |stores| == 1 then 0
    else
      var k := Smallest(stores[..|stores| - 1]);
      if stores[|stores| - 1].n < stores[k].n then |stores| - 1 else k
  }

  /** The ids of `ids` that satisfy `keep`, in order. */
  function FilterIds(ids: seq<EntityID>, keep: EntityID -> bool): (r: seq<EntityID>)
    ensures forall x :: x in r <==> x in ids && keep(x)
    decreases |ids|
  {
    if ids == [] then []
    else
      var rest := FilterIds(ids[..|ids| - 1], keep);
      var x := ids[|ids| - 1];
      assert ids == ids[..|ids| - 1] + [x];
      if keep(x) then rest + [x] else rest
  }

  /**
   * Filtering a concatenation filters each part, and one id is kept or
   * dropped on its own: the filter keeps the input's order and multiplicity.
   */
  lemma {:induction false} FilterIdsConcat(a: seq<EntityID>, b: seq<EntityID>, keep: EntityID -> bool)
    ensures FilterIds(a + b, keep) == FilterIds(a, keep) + FilterIds(b, keep)
    ensures forall x :: FilterIds([x], keep) == if keep(x) then [x] else []
    decreases |b|
  {
    if b == [] {
      assert a + b == a;
    } else {
      var init := b[..|b| - 1];
      var last := b[|b| - 1];
      var tail := if keep(last) then [last] else [];
      assert (a + b)[..|a + b| - 1] == a + init;
      assert (a + b)[|a + b| - 1] == last;
      assert FilterIds(a + b, keep) == FilterIds(a + init, keep) + tail;
      assert FilterIds(b, keep) == FilterIds(init, keep) + tail;
      FilterIdsConcat(a, init, keep);
      ConcatAssoc(FilterIds(a, keep), FilterIds(init, keep), tail);
    }
    forall x ensures FilterIds([x], keep) == if keep(x) then [x] else [] {
      assert [x][..0] == [];
    }
  }

  /**
   * The ids a query returns: the live ids of the smallest store that every
   * other store reports as a member.
   */
  function QueryIds(w: WorldState, names: seq<string>): (r: seq<EntityID>)
    requires ValidWorld(w) && names != [] && AllPresent(w, names)
    ensures var stores := StoresOf(w, names); var k := Smallest(stores);
      forall id :: id in r <==>
        id in LiveIds(stores[k]) && forall j :: 0 <= j < |stores| && j != k ==> HasEntityIn(stores[j], id)
  {
    var stores := StoresOf(w, names);
    var k := Smallest(stores);
    FilterIds(LiveIds(stores[k]), (id: EntityID) => forall j :: 0 <= j < |stores| && j != k ==> HasEntityIn(stores[j], id))
  }

  /**
   * query: nothing for no names or a missing store; otherwise one tuple
   * per shared id, holding that id's component from each named store in
   * the order of the names.
   */
  function Query(w: WorldState, names: seq<string>): (r: seq<seq<Value>>)
    requires ValidWorld(w)
    ensures names == [] || !AllPresent(w, names) ==> r == []
    ensures names != [] && AllPresent(w, names) ==>
      |r| == |QueryIds(w, names)| &&
      forall i, j :: 0 <= i < |r| && 0 <= j < |names| ==>
        |r[i]| == |names| && r[i][j] == ComponentOf(w.components[names[j]], QueryIds(w, names)[i])
  {
    if names == [] || !AllPresent(w, names) then []
    else
      var ids := QueryIds(w, names);
      seq(|ids|, i requires 0 <= i < |ids| =>
        seq(|names|, j requires 0 <= j < |names| => ComponentOf(w.components[names[j]], ids[i])))
  }

  /** A store whose membership test never reports a slot beyond the live prefix. */
  ghost predicate Tidy(s: StoreState)
  {
    forall id :: HasEntityIn(s, id) ==> IsLive(s, id)
  }

  /**
   * With stores whose membership is exact and whose live ids are all within
   * their bound, a query returns exactly the ids live in every named store.
   */
  lemma QueryIsIntersection(w: WorldState, names: seq<string>, id: EntityID)
    requires ValidWorld(w) && names != [] && AllPresent(w, names)
    requires forall j :: 0 <= j < |names| ==> Tidy(w.components[names[j]])
    requires forall j :: 0 <= j < |names| ==> id in LiveIds(w.components[names[j]]) ==> id <= w.components[names[j]].maxID
    ensures id in QueryIds(w, names) <==> forall j :: 0 <= j < |names| ==> IsLive(w.components[names[j]], id)
  {
    var stores := StoresOf(w, names);
    var k := Smallest(stores);
    if id in LiveIds(stores[k]) {
      IsLiveIffListed(stores[k], id);
    }
    if IsLive(stores[k], id) {
      IsLiveIffListed(stores[k], id);
    }
  }

  /** getComponentsForEntity: the names of the stores that report the id, in key order. */
  function ComponentsForEntity(w: WorldState, id: EntityID): (r: seq<string>)
    requires ValidWorld(w) && NoLostStores(w)
    ensures forall name :: name in r <==> name in w.components && HasEntityIn(w.components[name], id)
    ensures NoDups(r)
  {
    FilterNames(w.componentOrder, name => name in w.components && HasEntityIn(w.components[name], id))
  }

  // ---------------------------------------------------------------------
  // Deleting entities

  /** The ids removed from one store, one after another. */
  function RemoveAll(s: StoreState, ids: seq<EntityID>): (r: StoreState)
    requires ValidState(s)
    ensures ValidState(r) && r.maxID == s.maxID
    decreases |ids|
  {
    if ids == [] then s else RemoveSpec(RemoveAll(s, ids[..|ids| - 1]), ids[|ids| - 1])
  }

  /** All stores valid. */
  ghost predicate ValidStores(comps: map<string, StoreState>)
  {
    forall k :: k in comps ==> ValidState(comps[k])
  }

  /** The stores of `names`, visited in turn, each with the ids removed. */
  function RemoveFromStores(comps: map<string, StoreState>, names: seq<string>, ids: seq<EntityID>): (r: map<string, StoreState>)
    requires ValidStores(comps)
    ensures r.Keys == comps.Keys && ValidStores(r)
    decreases |names|
  {
    if names == [] then comps
    else
      var prev := RemoveFromStores(comps, names[..|names| - 1], ids);
      var name := names[|names| - 1];
      if name in prev then prev[name := RemoveAll(prev[name], ids)] else prev
  }

  /** Visiting each name once removes the ids from exactly the named stores. */
  lemma {:induction false} RemoveFromStoresAt(comps: map<string, StoreState>, names: seq<string>, ids: seq<EntityID>, k: string)
    requires ValidStores(comps) && NoDups(names) && k in comps
    ensures RemoveFromStores(comps, names, ids)[k] == if k in names then RemoveAll(comps[k], ids) else comps[k]
    decreases |names|
  {
    if names != [] {
      var init := names[..|names| - 1];
      var last := names[|names| - 1];
      assert NoDups(init);
      RemoveFromStoresAt(comps, init, ids, k);
      assert k in names <==> k in init || k == last;
      assert last !in init;
    }
  }

  /** deleteEntities: for each store, each id removed in turn. */
  function DeleteEntitiesSpec(w: WorldState, ids: seq<EntityID>): (r: WorldState)
    requires ValidWorld(w)
    ensures ValidWorld(r) && r.components.Keys == w.components.Keys
    ensures r.componentOrder == w.componentOrder && r.events == w.events && r.resources == w.resources
  {
    w.(components := map k | k in w.components :: RemoveAll(w.components[k], ids))
  }

  /** deleteEntity: the id removed from every store. */
  function DeleteEntitySpec(w: WorldState, id: EntityID): (r: WorldState)
    requires ValidWorld(w)
    ensures ValidWorld(r) && r.components.Keys == w.components.Keys
    ensures r.componentOrder == w.componentOrder && r.events == w.events && r.resources == w.resources
  {
    w.(components := map k | k in w.components :: RemoveSpec(w.components[k], id))
  }

  /** Deleting one entity is deleting the list holding it. */
  lemma DeleteEntityIsDeleteEntities(w: WorldState, id: EntityID)
    requires ValidWorld(w)
    ensures DeleteEntitySpec(w, id) == DeleteEntitiesSpec(w, [id])
  {
    var a := DeleteEntitySpec(w, id).components;
    var b := DeleteEntitiesSpec(w, [id]).components;
    forall k | k in a ensures a[k] == b[k] {
      RemoveOne(w.components[k], id);
    }
    SameStores(a, b);
  }

  lemma RemoveOne(s: StoreState, id: EntityID)
    requires ValidState(s)
    ensures RemoveAll(s, [id]) == RemoveSpec(s, id)
  {
    assert [id][..0] == [];
  }

  /** One more name visited. */
  lemma RemoveFromStoresStep(comps: map<string, StoreState>, names: seq<string>, ids: seq<EntityID>, i: nat)
    requires ValidStores(comps) && i < |names| && names[i] in comps
    ensures var p := RemoveFromStores(comps, names[..i], ids);
      RemoveFromStores(comps, names[..i + 1], ids) == p[names[i] := RemoveAll(p[names[i]], ids)]
  {
    var prefix := names[..i + 1];
    assert prefix[..|prefix| - 1] == names[..i];
    assert prefix[|prefix| - 1] == names[i];
  }

  lemma SameStores(a: map<string, StoreState>, b: map<string, StoreState>)
    requires a.Keys == b.Keys && forall k :: k in a ==> a[k] == b[k]
    ensures a == b
  {
  }

  /** The loop over the world's keys, finished, is deleteEntities. */
  lemma RemoveFromAllStores(w: WorldState, ids: seq<EntityID>)
    requires ValidWorld(w) && NoLostStores(w)
    ensures w.(components := RemoveFromStores(w.components, w.componentOrder, ids)) == DeleteEntitiesSpec(w, ids)
  {
    var r := RemoveFromStores(w.components, w.componentOrder, ids);
    var d := DeleteEntitiesSpec(w, ids).components;
    forall k | k in w.components ensures r[k] == d[k] {
      RemoveFromStoresAt(w.components, w.componentOrder, ids, k);
    }
    SameStores(r, d);
  }

  /**
   * In every store the id was live in, it no longer is, and every other
   * live id keeps its component; a store that did not report the id is
   * unchanged.
   */
  lemma DeleteEntityEffect(w: WorldState, id: EntityID)
    requires ValidWorld(w)
    ensures var r := DeleteEntitySpec(w, id);
      forall k :: k in w.components ==>
        && (IsLive(w.components[k], id) ==> !IsLive(r.components[k], id))
        && (IsLive(w.components[k], id) ==> forall x :: x != id && IsLive(w.components[k], x) ==>
              IsLive(r.components[k], x) && ComponentOf(r.components[k], x) == ComponentOf(w.components[k], x))
        && (!HasEntityIn(w.components[k], id) ==> r.components[k] == w.components[k])
  {
    forall k | k in w.components && IsLive(w.components[k], id) {
      RemoveLive(w.components[k], id);
    }
  }

  /** deleteEntity applied for each id in turn. */
  function DeleteEach(w: WorldState, ids: seq<EntityID>): (r: WorldState)
    requires ValidWorld(w)
    ensures ValidWorld(r) && r.components.Keys == w.components.Keys
    ensures r.componentOrder == w.componentOrder && r.events == w.events && r.resources == w.resources
    decreases |ids|
  {
    if ids == [] then w else DeleteEntitySpec(DeleteEach(w, ids[..|ids| - 1]), ids[|ids| - 1])
  }

  lemma {:induction false} DeleteEachAt(w: WorldState, ids: seq<EntityID>, k: string)
    requires ValidWorld(w) && k in w.components
    ensures DeleteEach(w, ids).components[k] == RemoveAll(w.components[k], ids)
    decreases |ids|
  {
    if ids != [] {
      DeleteEachAt(w, ids[..|ids| - 1], k);
    }
  }

  /**
   * Looping over the stores and then the ids, as deleteEntities does, is
   * the same as deleting the ids one entity at a time.
   */
  lemma DeleteEntitiesIsDeleteEach(w: WorldState, ids: seq<EntityID>)
    requires ValidWorld(w)
    ensures DeleteEntitiesSpec(w, ids) == DeleteEach(w, ids)
  {
    var a := DeleteEntitiesSpec(w, ids);
    var b := DeleteEach(w, ids);
    forall k | k in w.components ensures a.components[k] == b.components[k] {
      DeleteEachAt(w, ids, k);
    }
    SameStores(a.components, b.components);
  }

  // ---------------------------------------------------------------------
  // Resolving a proposal's reserved entities

  function OffsetsIn(os: seq<nat>): set<nat>
  {
    set o | o in os
  }

  /** The i-th offset of `os` replaced by the i-th id, in turn. */
  function ResolveOffsets(cs: seq<Change<Entity>>, os: seq<nat>, ids: seq<EntityID>): (r: seq<Change<Entity>>)
    requires |os| == |ids|
    ensures |r| == |cs|
    ensures UsedOffsetSet(r) == UsedOffsetSet(cs) - OffsetsIn(os)
    decreases |os|
  {
    if os == [] then cs
    else
      var k := |os| - 1;
      var prev := ResolveOffsets(cs, os[..k], ids[..k]);
      ReplaceAllOffsets(prev, os[k], ids[k]);
      assert OffsetsIn(os) == OffsetsIn(os[..k]) + {os[k]} by {
        assert os == os[..k] + [os[k]];
      }
      ReplaceAll(prev, os[k], ids[k])
  }

  /**
   * Each change that used the i-th offset now holds the i-th id, and every
   * other change is as it was.
   */
  lemma {:induction false} ResolveOffsetsAssigns(cs: seq<Change<Entity>>, os: seq<nat>, ids: seq<EntityID>)
    requires |os| == |ids| && NoDups(os)
    ensures var r := ResolveOffsets(cs, os, ids);
      && (forall j, i :: 0 <= j < |cs| && 0 <= i < |os| && cs[j].target.Component? && cs[j].id == Some(Unborn(os[i])) ==>
            r[j] == cs[j].(id := Some(Real(ids[i]))))
      && (forall j :: 0 <= j < |cs| && !(UnbornComponent(cs[j]) && cs[j].id.value.offset in os) ==> r[j] == cs[j])
    decreases |os|
  {
    if os != [] {
      var k := |os| - 1;
      var os' := os[..k];
      assert NoDups(os');
      ResolveOffsetsAssigns(cs, os', ids[..k]);
      var prev := ResolveOffsets(cs, os', ids[..k]);
      var r := ResolveOffsets(cs, os, ids);
      forall j, i | 0 <= j < |cs| && 0 <= i < |os| && cs[j].target.Component? && cs[j].id == Some(Unborn(os[i]))
        ensures r[j] == cs[j].(id := Some(Real(ids[i])))
      {
        if i < k {
          assert os'[i] == os[i];
        } else {
          assert os[k] !in os';
        }
      }
      forall j | 0 <= j < |cs| && !(UnbornComponent(cs[j]) && cs[j].id.value.offset in os)
        ensures r[j] == cs[j]
      {
        if UnbornComponent(cs[j]) {
          assert cs[j].id.value.offset !in os';
        }
      }
    }
  }

  /**
   * The proposal's changes once fixIntentionIds has run against `w`: its
   * used offsets, in order of first use, replaced by as many new ids.
   */
  function ResolvedChanges(w: WorldState, cs: seq<Change<Entity>>): (r: seq<Change<Entity>>)
    requires MaxId(w) >= -1
    ensures |r| == |cs| && UsedOffsetSet(r) == {}
  {
    var os := UsedOffsets(cs);
    ResolveOffsets(cs, os, CreateEntities(w, |os|))
  }

  /** Every change of a resolved proposal is real, so extraction keeps all of them. */
  lemma ResolvedChangesAreReal(w: WorldState, cs: seq<Change<Entity>>)
    requires MaxId(w) >= -1
    ensures RealChanges(ResolvedChanges(w, cs)) == ResolvedChanges(w, cs)
  {
  }

  /**
   * applyIntention's renaming: the change that used the i-th used offset
   * gets the i-th id createEntities hands out; nothing else changes.
   */
  lemma ResolvedChangesAssign(w: WorldState, cs: seq<Change<Entity>>)
    requires MaxId(w) >= -1
    ensures var os := UsedOffsets(cs); var ids := CreateEntities(w, |os|); var r := ResolvedChanges(w, cs);
      && (forall j, i :: 0 <= j < |cs| && 0 <= i < |os| && cs[j].target.Component? && cs[j].id == Some(Unborn(os[i])) ==>
            r[j] == cs[j].(id := Some(Real(ids[i]))))
      && (forall j :: 0 <= j < |cs| && !UnbornComponent(cs[j]) ==> r[j] == cs[j])
  {
    var os := UsedOffsets(cs);
    ResolveOffsetsAssigns(cs, os, CreateEntities(w, |os|));
  }

  /** The changes with their entity references read as numbers. */
  function ExtractIds(cs: seq<Change<Entity>>): (r: seq<Change<EntityID>>)
    ensures |r| == |cs| && forall i :: 0 <= i < |cs| ==> r[i] == ExtractChangeEntityId(cs[i])
  {
    seq(|cs|, i requires 0 <= i < |cs| => ExtractChangeEntityId(cs[i]))
  }

  // ---------------------------------------------------------------------
  // Stage batches

  /** The names among a list of systems (each system is known by its name). */
  function Names(items: seq<Value>): (r: seq<string>)
    ensures forall x :: x in r <==> Str(x) in items
    decreases |items|
  {
    if items == [] then []
    else
      var rest := Names(items[..|items| - 1]);
      var v := items[|items| - 1];
      assert items == items[..|items| - 1] + [v];
      if v.Str? then rest + [v.s] else rest
  }

  /** The systems resource as a record, empty when it is not one. */
  function SystemsRecord(w: WorldState): map<string, Value>
  {
    if SystemsKey in w.resources && w.resources[SystemsKey].Record? then w.resources[SystemsKey].fields else map[]
  }

  /** The stages that have systems. */
  function Stages(w: WorldState): set<string>
  {
    SystemsRecord(w).Keys
  }

  /** The distinct names of the stage's systems, in registration order. */
  function StageSystems(w: WorldState, stage: string): (r: seq<string>)
    ensures NoDups(r)
  {
    var systems := SystemsRecord(w);
    if stage in systems && systems[stage].Arr? then Dedup(Names(systems[stage].items)) else []
  }

  /** The system-dependencies resource: for each system, the systems it runs after. */
  function SystemDependencies(w: WorldState): map<string, set<string>>
  {
    if SystemDependenciesKey in w.resources && w.resources[SystemDependenciesKey].Record? then
      var fields := w.resources[SystemDependenciesKey].fields;
      map k | k in fields && fields[k].NameSet? :: fields[k].names
    else map[]
  }

  /** The stage's graph is free of cycles, as witnessed by `rank`. */
  ghost predicate StageRanked(w: WorldState, stage: string, rank: map<string, nat>)
  {
    Ranked(GraphOf(StageSystems(w, stage), SystemDependencies(w)), rank)
  }

  /** Each of the stage's systems at the length of its longest dependency chain. */
  ghost function StageDepths(w: WorldState, stage: string, rank: map<string, nat>): (d: map<string, nat>)
    requires StageRanked(w, stage, rank)
    ensures d.Keys == Members(StageSystems(w, stage))
  {
    var g := GraphOf(StageSystems(w, stage), SystemDependencies(w));
    map x | x in Members(StageSystems(w, stage)) :: Height(g, rank, x)
  }

  /** The batches of every stage. */
  ghost function AllStageBatches(w: WorldState, rank: map<string, nat>): map<string, seq<set<string>>>
    requires forall s :: s in Stages(w) ==> StageRanked(w, s, rank)
  {
    map s | s in Stages(w) :: BatchByDepths(StageDepths(w, s, rank))
  }

  /** Two depth maps that agree on every key are the same map. */
  lemma SameDepths(a: map<string, nat>, b: map<string, nat>)
    requires a.Keys == b.Keys && forall k :: k in a ==> a[k] == b[k]
    ensures a == b
  {
  }

  /** Two batch tables that agree on every stage are the same table. */
  lemma SameBatches(a: map<string, seq<set<string>>>, b: map<string, seq<set<string>>>)
    requires a.Keys == b.Keys && forall k :: k in a ==> a[k] == b[k]
    ensures a == b
  {
  }

  /**
   * A stage's batches hold exactly its systems, and each dependency a
   * system has within the stage sits in an earlier batch than the system,
   * so the systems of one batch never depend on one another.
   */
  lemma StageBatchesOrdered(w: WorldState, stage: string, rank: map<string, nat>)
    requires StageRanked(w, stage, rank)
    ensures var b := BatchByDepths(StageDepths(w, stage, rank));
      && (forall x :: x in StageSystems(w, stage) ==> exists i :: 0 <= i < |b| && x in b[i])
      && (forall i, x :: 0 <= i < |b| && x in b[i] ==> x in StageSystems(w, stage))
      && (forall i, j, x, y ::
            (0 <= i < |b| && 0 <= j < |b| && x in b[i] && y in b[j] &&
             x in SystemDependencies(w) && y in SystemDependencies(w)[x]) ==> j < i)
  {
    var sys := StageSystems(w, stage);
    var d := StageDepths(w, stage, rank);
    var deps := SystemDependencies(w);
    DependenciesBelow(w, stage, rank);
    BatchesRespectDependencies(d, deps);
    var b := BatchByDepths(d);
    forall x | x in sys
      ensures exists i :: 0 <= i < |b| && x in b[i]
    {
      assert x in Members(sys);
    }
    forall i, x | 0 <= i < |b| && x in b[i]
      ensures x in sys
    {
      assert x in Members(sys);
    }
  }

  /** Within a ranked stage, a dependency's depth is below its dependant's. */
  lemma DependenciesBelow(w: WorldState, stage: string, rank: map<string, nat>)
    requires StageRanked(w, stage, rank)
    ensures var d := StageDepths(w, stage, rank); var deps := SystemDependencies(w);
      forall x, y :: x in d && x in deps && y in deps[x] && y in d ==> d[y] < d[x]
  {
    var d := StageDepths(w, stage, rank);
    var deps := SystemDependencies(w);
    var g := GraphOf(StageSystems(w, stage), deps);
    forall x, y | x in d && x in deps && y in deps[x] && y in d
      ensures d[y] < d[x]
    {
      assert y in g.outgoing[x];
      HeightStep(g, rank, x);
    }
  }

  /** A stage's batches as the resource stores them. */
  function BatchesValue(batches: seq<set<string>>): (v: Value)
    ensures v.Arr? && |v.items| == |batches|
  {
    Arr(seq(|batches|, i requires 0 <= i < |batches| => NameSet(batches[i])))
  }

  /** The stage-batches resource for a record of stages. */
  function BatchesRecord(all: map<string, seq<set<string>>>): (v: Value)
    ensures v.Record? && v.fields.Keys == all.Keys
  {
    Record(map s | s in all :: BatchesValue(all[s]))
  }

  // ---------------------------------------------------------------------
  // The world as an object

  /**
   * The loop shared by deleteEntity and deleteEntities: each listed store,
   * in order, loses the ids one after another.
   */
  method RemoveFromEachStore(comps: map<string, StoreState>, order: seq<string>, ids: seq<EntityID>)
    returns (stores: map<string, StoreState>)
    requires ValidStores(comps)
    requires forall k :: k in order ==> k in comps
    ensures stores == RemoveFromStores(comps, order, ids)
  {
    stores := comps;
    for i := 0 to |order|
      invariant stores == RemoveFromStores(comps, order[..i], ids)
    {
      var name := order[i];
      RemoveFromStoresStep(comps, order, ids, i);
      var store := RemoveEach(stores[name], ids);
      stores := stores[name := store];
    }
    assert order[..|order|] == order;
  }

  /** One store losing the ids one after another. */
  method RemoveEach(start: StoreState, ids: seq<EntityID>) returns (store: StoreState)
    requires ValidState(start)
    ensures store == RemoveAll(start, ids)
  {
    store := start;
    for j := 0 to |ids|
      invariant ValidState(store) && store == RemoveAll(start, ids[..j])
    {
      assert ids[..j + 1][..j] == ids[..j];
      store := RemoveSpec(store, ids[j]);
    }
    assert ids[..|ids|] == ids;
  }

  /** The loop of fixIntentionIds: each reserved offset replaced by its new id in turn. */
  method ResolveEach(intention: Intention, offsets: seq<nat>, newIds: seq<EntityID>)
    requires |offsets| == |newIds|
    modifies intention
    ensures intention.changes == ResolveOffsets(old(intention.changes), offsets, newIds)
    ensures intention.generatedIds == old(intention.generatedIds)
  {
    ghost var cs := intention.changes;
    for i := 0 to |offsets|
      invariant intention.changes == ResolveOffsets(cs, offsets[..i], newIds[..i])
      invariant intention.generatedIds == old(intention.generatedIds)
    {
      ResolveOffsetsStep(cs, offsets, newIds, i);
      intention.ReplaceAllUnborn(offsets[i], newIds[i]);
    }
    assert offsets[..|offsets|] == offsets;
    assert newIds[..|newIds|] == newIds;
  }

  /** Resolving one more offset replaces it in the changes resolved so far. */
  lemma ResolveOffsetsStep(cs: seq<Change<Entity>>, os: seq<nat>, ids: seq<EntityID>, i: nat)
    requires |os| == |ids| && i < |os|
    ensures ResolveOffsets(cs, os[..i + 1], ids[..i + 1]) == ReplaceAll(ResolveOffsets(cs, os[..i], ids[..i]), os[i], ids[i])
  {
    assert os[..i + 1][..i] == os[..i];
    assert ids[..i + 1][..i] == ids[..i];
  }

  class World {
    var components: map<string, StoreState>
    var componentOrder: seq<string>
    var events: map<string, seq<Value>>
    var resources: map<string, Value>

    function State(): WorldState
      reads this
    {
      WorldState(components, componentOrder, events, resources)
    }

    ghost predicate Valid()
      reads this
    {
      ValidWorld(State())
    }

    /** A world holding the given records; `new World()` passes empty ones. */
    constructor (state: WorldState)
      requires ValidWorld(state)
      ensures Valid() && State() == state
    {
      components := state.components;
      componentOrder := state.componentOrder;
      events := state.events;
      resources := state.resources;
    }

    method AddEvent(name: string, v: Value)
      modifies this
      ensures State() == AddEventSpec(old(State()), name, v)
    {
      events := events[name := GetEvents(State(), name) + [v]];
    }

    method ResetEvents(name: string)
      modifies this
      ensures State() == ResetEventsSpec(old(State()), name)
    {
      events := events[name := []];
    }

    method ApplyResourceChange(c: Change<EntityID>, user: UserFns)
      requires c.target.Resource?
      modifies this
      ensures State() == ApplyResourceChangeSpec(old(State()), c, user)
    {
      var key := c.target.name;
      match c.op {
        case AddOp(v) =>
          if Field(resources, key) == Undefined {
            resources := resources[key := v];
          }
        case SetOp(v) =>
          resources := resources[key := v];
        case UpdateOp(f) =>
          resources := resources[key := ApplyFn(f, Field(resources, key), user)];
        case DeleteOp =>
          resources := resources - {key};
        case NoMethodOp(_) =>
      }
    }

    method ForwardToComponents(c: Change<EntityID>, user: UserFns)
      requires Valid() && c.target.Component?
      modifies this
      ensures Valid()
      ensures State() == ForwardToComponentsSpec(old(State()), c, user)
    {
      ghost var w := State();
      var name := c.target.name;
      var store := GetComponentStore(State(), name);
      if c.op.NoMethodOp? {
        components := components - {name};
      } else {
        components := components[name := HandleChangeSpec(store, c, user)];
      }
      componentOrder := ListName(componentOrder, name);
      if name != IdKey {
        var ids := GetComponentStore(State(), IdKey);
        if (c.op.AddOp? || c.op.SetOp?) && c.id.Some? {
          ids := InsertSpec(ids, c.id.value, Num(c.id.value));
        }
        components := components[IdKey := ids];
        componentOrder := ListName(componentOrder, IdKey);
      }
      assert State() == ForwardToComponentsSpec(w, c, user);
    }

    method ApplyChange(c: Change<EntityID>, user: UserFns)
      requires Valid()
      modifies this
      ensures Valid()
      ensures State() == ApplyChangeSpec(old(State()), c, user)
    {
      AddEvent(RawChangesKey, RawChange(c));
      match c.target {
        case Component(_) =>
          ForwardToComponents(c, user);
        case Resource(_) =>
          ApplyResourceChange(c, user);
        case Event(name) =>
          if c.op.DeleteOp? {
            ResetEvents(name);
          } else {
            AddEvent(name, c.op.Payload());
          }
      }
    }

    method SetResource(key: string, v: Value)
      requires Valid()
      modifies this
      ensures Valid()
      ensures State() == SetResourceSpec(old(State()), key, v)
    {
      ApplyChange(Change(Resource(key), SetOp(v), None), (t, x) => x);
    }

    method DeleteEntity(id: EntityID)
      requires Valid() && NoLostStores(State())
      modifies this
      ensures Valid()
      ensures State() == DeleteEntitySpec(old(State()), id)
    {
      ghost var w := State();
      components := RemoveFromEachStore(components, componentOrder, [id]);
      RemoveFromAllStores(w, [id]);
      DeleteEntityIsDeleteEntities(w, id);
      assert State() == DeleteEntitySpec(w, id);
    }

    method DeleteEntities(ids: seq<EntityID>)
      requires Valid() && NoLostStores(State())
      modifies this
      ensures Valid()
      ensures State() == DeleteEntitiesSpec(old(State()), ids)
    {
      ghost var w := State();
      components := RemoveFromEachStore(components, componentOrder, ids);
      RemoveFromAllStores(w, ids);
      assert State() == DeleteEntitiesSpec(w, ids);
    }

    /**
     * fixIntentionIds: the proposal's used offsets are replaced, in order of
     * first use, by the ids the world would create next. The world itself is
     * not changed, and afterwards no change uses an offset.
     */
    method FixIntentionIds(intention: Intention)
      requires MaxId(State()) >= -1
      modifies intention
      ensures intention.State() == old(intention.State()).(changes := ResolvedChanges(State(), old(intention.changes)))
      ensures UsedOffsetSet(intention.changes) == {}
    {
      var offsets := intention.GetUsedOffsets();
      var newIds := CreateEntities(State(), |offsets|);
      ResolveEach(intention, offsets, newIds);
    }

    /**
     * applyIntention: resolves the proposal's reserved entities, then applies
     * its real changes one by one, in order; every change is real by then.
     */
    method ApplyIntention(intention: Intention, user: UserFns)
      requires Valid() && MaxId(State()) >= -1
      modifies this, intention
      ensures Valid()
      ensures intention.changes == ResolvedChanges(old(State()), old(intention.changes))
      ensures intention.generatedIds == old(intention.generatedIds)
      ensures State() == ApplyChangesSpec(old(State()), ExtractIds(intention.changes), user)
    {
      FixIntentionIds(intention);
      ghost var resolved := intention.changes;
      var realChanges := intention.ExtractRealChanges();
      ResolvedChangesAreReal(State(), old(intention.changes));
      ApplyEach(realChanges, user);
    }

    /** The loop of applyIntention: applyChange of each change, in order. */
    method ApplyEach(changes: seq<Change<Entity>>, user: UserFns)
      requires Valid()
      modifies this
      ensures Valid()
      ensures State() == ApplyChangesSpec(old(State()), ExtractIds(changes), user)
    {
      ghost var w := State();
      for i := 0 to |changes|
        invariant Valid()
        invariant State() == ApplyChangesSpec(w, ExtractIds(changes[..i]), user)
      {
        assert ExtractIds(changes[..i + 1])[..i] == ExtractIds(changes[..i]);
        ApplyChange(ExtractChangeEntityId(changes[i]), user);
      }
      assert changes[..|changes|] == changes;
    }

    /**
     * buildStageBatches: the stage's systems grouped by the length of their
     * longest dependency chain within the stage (StageBatchesOrdered states
     * what the grouping guarantees). `rank` witnesses that the stage has no
     * cycle.
     */
    method BuildStageBatches(stage: string, ghost rank: map<string, nat>) returns (batches: seq<set<string>>)
      requires StageRanked(State(), stage, rank)
      ensures batches == BatchByDepths(StageDepths(State(), stage, rank))
    {
      var names := StageSystems(State(), stage);
      var deps := SystemDependencies(State());
      var depths := FindDepths(names, deps, rank);
      SameDepths(depths, StageDepths(State(), stage, rank));
      batches := BatchByDepths(depths);
    }

    /**
     * buildAllStageBatches: the batches of every stage, which it also stores
     * as the stage-batches resource.
     */
    method BuildAllStageBatches(ghost rank: map<string, nat>) returns (all: map<string, seq<set<string>>>)
      requires Valid()
      requires forall s :: s in Stages(State()) ==> StageRanked(State(), s, rank)
      modifies this
      ensures Valid()
      ensures all == AllStageBatches(old(State()), rank)
      ensures State() == SetResourceSpec(old(State()), StageBatchesKey, BatchesRecord(all))
    {
      all := CollectStageBatches(rank);
      SetResource(StageBatchesKey, BatchesRecord(all));
    }

    /** The loop of buildAllStageBatches: buildStageBatches for each stage. */
    method CollectStageBatches(ghost rank: map<string, nat>) returns (all: map<string, seq<set<string>>>)
      requires forall s :: s in Stages(State()) ==> StageRanked(State(), s, rank)
      ensures all == AllStageBatches(State(), rank)
    {
      var todo := Stages(State());
      all := map[];
      while todo != {}
        invariant todo <= Stages(State())
        invariant forall s :: s in all <==> s in Stages(State()) && s !in todo
        invariant forall s :: s in all ==> all[s] == BatchByDepths(StageDepths(State(), s, rank))
        decreases todo
      {
        var s :| s in todo;
        var b := BuildStageBatches(s, rank);
        all := all[s := b];
        todo := todo - {s};
      }
      SameBatches(all, AllStageBatches(State(), rank));
    }
  }
}
