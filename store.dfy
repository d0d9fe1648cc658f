// The sparse-set component store (src/lib/store.ts): one component per
// entity, kept densely in the first `n` slots of `dense`/`components`, with
// `sparse` mapping an id to its slot.

module Store {
  import opened Types
  import opened Changes
  import opened Util

  /** The default largest id a store answers membership for (2 ** 16). */
  const DefaultMaxID: nat := 65536

  /**
   * The fields of a store. The source's arrays grow on writes past their
   * end, so they are sequences; `sparse` has holes, so it is a map.
   */
  datatype StoreState = StoreState(
    maxID: nat,
    n: nat,
    sparse: map<EntityID, nat>,
    dense: seq<EntityID>,
    components: seq<Value>)

  /**
   * The invariant every operation keeps: the live prefix fits in the
   * arrays, every sparse entry points into them, an empty store has empty
   * arrays, and every live id up to maxID is mirrored by sparse.
   */
  ghost predicate ValidState(s: StoreState)
  {
    && s.n <= |s.dense| == |s.components|
    && (s.n == 0 ==> s.dense == [])
    && (forall id :: id in s.sparse ==> s.sparse[id] < |s.dense|)
    && (forall j :: 0 <= j < s.n && s.dense[j] <= s.maxID ==>
          s.dense[j] in s.sparse && s.sparse[s.dense[j]] == j)
  }

  /** A new store. */
  function Empty(maxID: nat): (s: StoreState)
    ensures ValidState(s) && Items(s) == []
  {
    StoreState(maxID, 0, map[], [], [])
  }

  /** The live entries as (id, component) pairs, slot by slot. */
  function Items(s: StoreState): (r: seq<(EntityID, Value)>)
    requires ValidState(s)
    ensures |r| == s.n
    ensures forall i :: 0 <= i < s.n ==> r[i] == (s.dense[i], s.components[i])
  {
    Zip(s.dense[..s.n], s.components[..s.n])
  }

  /** The ids of the live entries. */
  function LiveIds(s: StoreState): seq<EntityID>
    requires ValidState(s)
  {
    s.dense[..s.n]
  }

  /**
   * hasEntity as written: beyond maxID nothing is a member; otherwise the
   * slot sparse points to must hold the id. It does not check that the
   * slot is live.
   */
  function HasEntityIn(s: StoreState, id: EntityID): bool
  {
    id <= s.maxID && id in s.sparse && s.sparse[id] < |s.dense| && s.dense[s.sparse[id]] == id
  }

  /** The evidently intended membership: the slot must also be live. */
  function IsLive(s: StoreState, id: EntityID): (r: bool)
    ensures r ==> HasEntityIn(s, id)
  {
    HasEntityIn(s, id) && s.sparse[id] < s.n
  }

  /**
   * The corrected membership is exactly "listed among the live ids", for
   * every id the store answers for.
   */
  lemma IsLiveIffListed(s: StoreState, id: EntityID)
    requires ValidState(s) && id <= s.maxID
    ensures IsLive(s, id) <==> id in LiveIds(s)
  {
    if id in LiveIds(s) {
      var j :| 0 <= j < s.n && s.dense[j] == id;
    }
  }

  /** An id up to maxID sits in at most one live slot. */
  lemma LiveSlotUnique(s: StoreState, i: nat, j: nat)
    requires ValidState(s) && i < s.n && j < s.n && s.dense[i] == s.dense[j] && s.dense[i] <= s.maxID
    ensures i == j
  {
  }

  /** The component stored for `id`: the slot sparse points to, live or not. */
  function ComponentOf(s: StoreState, id: EntityID): Value
  {
    if id in s.sparse && s.sparse[id] < |s.components| then s.components[s.sparse[id]] else Undefined
  }

  /** A JavaScript array write `a[i] = x` at an index at most the length. */
  function Put<T>(a: seq<T>, i: nat, x: T): (r: seq<T>)
    requires i <= |a|
    ensures |r| == if i < |a| then |a| else |a| + 1
    ensures r[i] == x && forall k :: 0 <= k < |a| && k != i ==> r[k] == a[k]
  {
    if i < |a| then a[i := x] else a + [x]
  }

  /**
   * insert: overwrites the slot of an id that hasEntity reports, otherwise
   * appends the id and its component at slot n. Afterwards the id reads
   * back the component, and is a member exactly when it is at most maxID.
   */
  function InsertSpec(s: StoreState, id: EntityID, v: Value): (r: StoreState)
    requires ValidState(s)
    ensures ValidState(r) && r.maxID == s.maxID
    ensures ComponentOf(r, id) == v
    ensures HasEntityIn(r, id) <==> id <= s.maxID
  {
    if HasEntityIn(s, id) then s.(components := s.components[s.sparse[id] := v])
    else
      var r := StoreState(s.maxID, s.n + 1, s.sparse[id := s.n], Put(s.dense, s.n, id), Put(s.components, s.n, v));
      assert forall j :: 0 <= j < s.n && s.dense[j] <= s.maxID ==> s.dense[j] != id;
      r
  }

  /**
   * What insert does to the live entries: a new id is appended; a live id
   * has its entry replaced in place; a stale id (one hasEntity still
   * reports after its removal) has its component written to a dead slot,
   * so the live entries do not change at all.
   */
  lemma InsertItems(s: StoreState, id: EntityID, v: Value)
    requires ValidState(s)
    ensures !HasEntityIn(s, id) ==> Items(InsertSpec(s, id, v)) == Items(s) + [(id, v)]
    ensures IsLive(s, id) ==> Items(InsertSpec(s, id, v)) == Items(s)[s.sparse[id] := (id, v)]
    ensures HasEntityIn(s, id) && !IsLive(s, id) ==> Items(InsertSpec(s, id, v)) == Items(s)
  {
    var r := InsertSpec(s, id, v);
    if !HasEntityIn(s, id) {
      assert Items(r) == Items(s) + [(id, v)];
    } else if IsLive(s, id) {
      assert Items(r) == Items(s)[s.sparse[id] := (id, v)];
    } else {
      assert Items(r) == Items(s);
    }
  }

  /**
   * remove: an id hasEntity does not report is ignored; when one entry is
   * live the store is emptied; otherwise the last live entry is moved into
   * the removed id's slot and the live prefix shrinks by one.
   */
  function RemoveSpec(s: StoreState, id: EntityID): (r: StoreState)
    requires ValidState(s)
    ensures ValidState(r) && r.maxID == s.maxID
    ensures !HasEntityIn(s, id) ==> r == s
    ensures HasEntityIn(s, id) ==> r.n == s.n - 1
  {
    if !HasEntityIn(s, id) then s
    else if s.n == 1 then Empty(s.maxID)
    else
      var last := s.n - 1;
      var slot := s.sparse[id];
      var replacementID := s.dense[last];
      var replacement := s.components[last];
      var r := StoreState(s.maxID, s.n - 1, s.sparse[replacementID := slot],
                          s.dense[slot := replacementID], s.components[slot := replacement]);
      assert forall j :: 0 <= j < last && j != slot && s.dense[j] <= s.maxID ==> s.dense[j] != replacementID by {
        forall j | 0 <= j < last && j != slot && s.dense[j] <= s.maxID
          ensures s.dense[j] != replacementID
        {
          if s.dense[j] == replacementID { LiveSlotUnique(s, j, last); }
        }
      }
      r
  }

  /**
   * Removing a live id takes exactly its entry out of the live entries,
   * leaves it no longer live, and keeps every other live id with its
   * component.
   */
  lemma RemoveLive(s: StoreState, id: EntityID)
    requires ValidState(s) && IsLive(s, id)
    ensures multiset(Items(RemoveSpec(s, id))) + multiset{(id, ComponentOf(s, id))} == multiset(Items(s))
    ensures !IsLive(RemoveSpec(s, id), id)
    ensures forall x :: x != id && IsLive(s, x) ==>
      IsLive(RemoveSpec(s, id), x) && ComponentOf(RemoveSpec(s, id), x) == ComponentOf(s, x)
  {
    RemoveLiveEntries(s, id);
    forall x | x != id && IsLive(s, x)
      ensures IsLive(RemoveSpec(s, id), x) && ComponentOf(RemoveSpec(s, id), x) == ComponentOf(s, x)
    {
      RemoveLiveKeepsOther(s, id, x);
    }
  }

  lemma RemoveLiveEntries(s: StoreState, id: EntityID)
    requires ValidState(s) && IsLive(s, id)
    ensures multiset(Items(RemoveSpec(s, id))) + multiset{(id, ComponentOf(s, id))} == multiset(Items(s))
    ensures !IsLive(RemoveSpec(s, id), id)
  {
    var r := RemoveSpec(s, id);
    var k := s.sparse[id];
    var a := Items(s);
    assert a[k] == (id, ComponentOf(s, id));
    if s.n == 1 {
      assert a == [a[k]];
    } else {
      var last := s.n - 1;
      assert r.n == last && r.dense == s.dense[k := s.dense[last]] && r.components == s.components[k := s.components[last]];
      SwapRemoveItems(s, r, k);
      MultisetSwapRemove(a, k);
      assert Items(r) == if k == |a| - 1 then a[..|a| - 1] else a[..|a| - 1][k := a[|a| - 1]];
    }
    RemovedNotLive(s, id);
  }

  lemma RemovedNotLive(s: StoreState, id: EntityID)
    requires ValidState(s) && IsLive(s, id)
    ensures !IsLive(RemoveSpec(s, id), id)
  {
  }

  lemma MultisetSwapRemove<T>(a: seq<T>, k: nat)
    requires k < |a|
    ensures multiset(if k == |a| - 1 then a[..|a| - 1] else a[..|a| - 1][k := a[|a| - 1]]) + multiset{a[k]} == multiset(a)
  {
    var p := a[..|a| - 1];
    assert a == p + [a[|a| - 1]];
    if k < |a| - 1 {
      assert p == p[..k] + [a[k]] + p[k + 1..];
      assert p[k := a[|a| - 1]] == p[..k] + [a[|a| - 1]] + p[k + 1..];
    }
  }

  /** The live entries after moving the last live entry into slot `k`. */
  lemma SwapRemoveItems(s: StoreState, t: StoreState, k: nat)
    requires ValidState(s) && ValidState(t) && s.n > 1 && k < s.n
    requires t.n == s.n - 1 && t.dense == s.dense[k := s.dense[s.n - 1]]
    requires t.components == s.components[k := s.components[s.n - 1]]
    ensures Items(t) == if k == s.n - 1 then Items(s)[..s.n - 1] else Items(s)[..s.n - 1][k := Items(s)[s.n - 1]]
  {
  }

  lemma RemoveLiveKeepsOther(s: StoreState, id: EntityID, x: EntityID)
    requires ValidState(s) && IsLive(s, id) && IsLive(s, x) && x != id
    ensures IsLive(RemoveSpec(s, id), x) && ComponentOf(RemoveSpec(s, id), x) == ComponentOf(s, x)
  {
    if s.n == 1 {
      LiveSlotUnique(s, s.sparse[x], s.sparse[id]);
    }
  }

  /**
   * Removing a stale id (reported by hasEntity but not live) does not undo
   * anything of that id: it drops the last live entry instead, or empties
   * the store when only one entry is live.
   */
  lemma RemoveStale(s: StoreState, id: EntityID)
    requires ValidState(s) && HasEntityIn(s, id) && !IsLive(s, id)
    ensures s.n > 1 ==> Items(RemoveSpec(s, id)) == Items(s)[..s.n - 1]
    ensures s.n == 1 ==> Items(RemoveSpec(s, id)) == []
  {
    var r := RemoveSpec(s, id);
    if s.n > 1 {
      assert Items(r) == Items(s)[..s.n - 1];
    }
  }

  /** The evidently intended removal: only a live id is removed. */
  function RemoveIntended(s: StoreState, id: EntityID): (r: StoreState)
    requires ValidState(s)
    ensures ValidState(r)
    ensures !IsLive(r, id)
    ensures IsLive(s, id) ==> multiset(Items(r)) + multiset{(id, ComponentOf(s, id))} == multiset(Items(s))
    ensures !IsLive(s, id) ==> r == s
    ensures forall x :: x != id && IsLive(s, x) ==> IsLive(r, x) && ComponentOf(r, x) == ComponentOf(s, x)
  {
    if IsLive(s, id) then RemoveLive(s, id); RemoveSpec(s, id) else s
  }

  /** Applies an update function to every element. */
  function MapValues(xs: seq<Value>, f: Fn, user: UserFns): (r: seq<Value>)
    ensures |r| == |xs| && forall i :: 0 <= i < |xs| ==> r[i] == ApplyFn(f, xs[i], user)
  {
    seq(|xs|, i requires 0 <= i < |xs| => ApplyFn(f, xs[i], user))
  }

  /**
   * handleChange: `add` inserts only an id hasEntity does not report; `set`
   * always inserts; `update` applies the function to every element of the
   * components array, or to the slot sparse points to for the id; `delete`
   * removes the id. An add, set or delete without an id is logged and
   * ignored. An update of an id sparse has never held writes a property
   * named "undefined" of the array in the source, invisible to every read
   * modelled here, so it leaves the state as it is. A record without a
   * method matches no case and leaves the store as it is.
   */
  function HandleChangeSpec(s: StoreState, c: Change<EntityID>, user: UserFns): (r: StoreState)
    requires ValidState(s)
    ensures ValidState(r) && r.maxID == s.maxID
  {
    match c.op
    case AddOp(v) =>
      if c.id.None? then s
      else if !HasEntityIn(s, c.id.value) then InsertSpec(s, c.id.value, v)
      else s
    case SetOp(v) =>
      if c.id.None? then s else InsertSpec(s, c.id.value, v)
    case UpdateOp(f) =>
      if c.id.None? then s.(components := MapValues(s.components, f, user))
      else if c.id.value in s.sparse then
        var k := s.sparse[c.id.value];
        s.(components := s.components[k := ApplyFn(f, s.components[k], user)])
      else s
    case DeleteOp =>
      if c.id.None? then s else RemoveSpec(s, c.id.value)
    case NoMethodOp(_) => s
  }

  /**
   * What each kind of change does to a live id's component: add keeps the
   * old one, set replaces it, update applies the function to it, delete
   * takes the entry away; every other live id keeps its component.
   */
  lemma HandleChangeOnLive(s: StoreState, c: Change<EntityID>, user: UserFns)
    requires ValidState(s) && c.id.Some? && IsLive(s, c.id.value)
    ensures var r := HandleChangeSpec(s, c, user); var id := c.id.value;
      && (c.op.AddOp? ==> r == s)
      && (c.op.SetOp? ==> IsLive(r, id) && ComponentOf(r, id) == c.op.value && Items(r) == Items(s)[s.sparse[id] := (id, c.op.value)])
      && (c.op.UpdateOp? ==> IsLive(r, id) && ComponentOf(r, id) == ApplyFn(c.op.fn, ComponentOf(s, id), user))
      && (c.op.DeleteOp? ==> !IsLive(r, id))
      && (forall x :: x != id && IsLive(s, x) ==> IsLive(r, x) && ComponentOf(r, x) == ComponentOf(s, x))
  {
    var id := c.id.value;
    match c.op {
      case AddOp(_) =>
      case SetOp(v) =>
        InsertItems(s, id, v);
      case UpdateOp(_) =>
      case DeleteOp =>
        RemoveLive(s, id);
      case NoMethodOp(_) =>
    }
  }

  /** Adding an id that is new appends it; adding it again keeps the first component. */
  lemma AddDoesNotOverwrite(s: StoreState, id: EntityID, v: Value, w: Value, user: UserFns)
    requires ValidState(s) && !HasEntityIn(s, id) && id <= s.maxID
    ensures var s1 := HandleChangeSpec(s, Change(Component("c"), AddOp(v), Some(id)), user);
      && Items(s1) == Items(s) + [(id, v)]
      && HandleChangeSpec(s1, Change(Component("c"), AddOp(w), Some(id)), user) == s1
      && ComponentOf(s1, id) == v
  {
    InsertItems(s, id, v);
  }

  /**
   * The evidently intended update: only a live id's component changes;
   * updating an id that is not live does nothing.
   */
  function UpdateIntended(s: StoreState, id: EntityID, f: Fn, user: UserFns): (r: StoreState)
    requires ValidState(s)
    ensures ValidState(r)
    ensures forall x :: x != id && IsLive(s, x) ==> IsLive(r, x) && ComponentOf(r, x) == ComponentOf(s, x)
    ensures IsLive(s, id) ==> IsLive(r, id) && ComponentOf(r, id) == ApplyFn(f, ComponentOf(s, id), user)
    ensures !IsLive(s, id) ==> r == s
  {
    if IsLive(s, id) then
      HandleChangeOnLive(s, Change(Component(""), UpdateOp(f), Some(id)), user);
      HandleChangeSpec(s, Change(Component(""), UpdateOp(f), Some(id)), user)
    else s
  }

  // ---------------------------------------------------------------------
  // Counterexamples for the stale-pointer defects.

  /** Stores entities 1 and 2, then removes 2, which sat in the last slot. */
  function AfterRemovingLast(): StoreState
  {
    RemoveSpec(InsertSpec(InsertSpec(Empty(DefaultMaxID), 1, Str("a")), 2, Str("b")), 2)
  }

  /**
   * After removing the entity in the last slot, hasEntity still reports it,
   * a later insert of it is lost, and removing it again drops entity 1.
   */
  lemma StaleMembershipExample()
    ensures var s := AfterRemovingLast();
      && ValidState(s) && LiveIds(s) == [1]
      && HasEntityIn(s, 2) && !IsLive(s, 2)
      && Items(InsertSpec(s, 2, Str("c"))) == [(1, Str("a"))]
      && Items(RemoveSpec(s, 2)) == []
  {
    var s := AfterRemovingLast();
    assert Items(s) == [(1, Str("a"))];
  }

  /**
   * Updating entity 1 after it was removed rewrites entity 2's component,
   * because sparse still points 1 at the slot 2 was moved into.
   */
  lemma UpdateRemovedIdExample(user: UserFns)
    ensures var s := RemoveSpec(InsertSpec(InsertSpec(Empty(DefaultMaxID), 1, Str("a")), 2, Str("b")), 1);
      var r := HandleChangeSpec(s, Change(Component("c"), UpdateOp(UserFn(0)), Some(1)), user);
      && !HasEntityIn(s, 1) && IsLive(s, 2) && ComponentOf(s, 2) == Str("b")
      && ComponentOf(r, 2) == user(0, Str("b"))
  {
  }

  // ---------------------------------------------------------------------
  // The store object.

  class SparseComponentStore {
    var maxID: nat
    var n: nat
    var sparse: map<EntityID, nat>
    var dense: seq<EntityID>
    var components: seq<Value>

    function State(): StoreState
      reads this
    {
      StoreState(maxID, n, sparse, dense, components)
    }

    ghost predicate Valid()
      reads this
    {
      ValidState(State())
    }

    /** A new, empty store answering membership up to `maxID`. */
    constructor (maxID: nat)
      ensures State() == Empty(maxID) && Valid()
    {
      this.maxID := maxID;
      n := 0;
      sparse := map[];
      dense := [];
      components := [];
    }

    /** The number of live entries. */
    function Length(): (r: nat)
      requires Valid()
      reads this
      ensures r == |Items(State())|
    {
      n
    }

    function HasEntity(id: EntityID): (r: bool)
      reads this
      ensures r == HasEntityIn(State(), id)
    {
      id <= maxID && id in sparse && sparse[id] < |dense| && dense[sparse[id]] == id
    }

    function GetComponent(id: EntityID): (r: Value)
      reads this
      ensures r == ComponentOf(State(), id)
    {
      if id in sparse && sparse[id] < |components| then components[sparse[id]] else Undefined
    }

    /** The live components, slot by slot. */
    function GetComponents(): (r: seq<Value>)
      requires Valid()
      reads this
      ensures |r| == |Items(State())| && forall i :: 0 <= i < |r| ==> r[i] == Items(State())[i].1
    {
      components[..n]
    }

    /** The live (id, component) pairs. */
    function GetItems(): (r: seq<(EntityID, Value)>)
      requires Valid()
      reads this
      ensures r == Items(State())
    {
      Zip(dense[..n], components[..n])
    }

    method Insert(id: EntityID, v: Value)
      requires Valid()
      modifies this
      ensures Valid()
      ensures State() == InsertSpec(old(State()), id, v)
    {
      if HasEntity(id) {
        components := components[sparse[id] := v];
        return;
      }
      sparse := sparse[id := n];
      dense := Put(dense, n, id);
      components := Put(components, n, v);
      n := n + 1;
    }

    method Remove(id: EntityID)
      requires Valid()
      modifies this
      ensures Valid()
      ensures State() == RemoveSpec(old(State()), id)
    {
      if !HasEntity(id) {
        return;
      }
      if n == 1 {
        dense := [];
        sparse := map[];
        components := [];
        n := 0;
        return;
      }
      var lastIndex := n - 1;
      var oldID := sparse[id];
      var replacementID := dense[lastIndex];
      var replacement := components[lastIndex];
      dense := dense[oldID := replacementID];
      sparse := sparse[replacementID := oldID];
      components := components[oldID := replacement];
      n := n - 1;
    }

    /**
     * Dispatches a change on its method. `handled` is false exactly when no
     * case matches, where the source returns undefined instead of the store.
     */
    method HandleChange(c: Change<EntityID>, user: UserFns) returns (handled: bool)
      requires Valid()
      modifies this
      ensures Valid()
      ensures State() == HandleChangeSpec(old(State()), c, user)
      ensures handled <==> !c.op.NoMethodOp?
    {
      handled := true;
      match c.op {
        case AddOp(v) =>
          if c.id.Some? && !HasEntity(c.id.value) {
            Insert(c.id.value, v);
          }
        case SetOp(v) =>
          if c.id.Some? {
            Insert(c.id.value, v);
          }
        case UpdateOp(f) =>
          if c.id.None? {
            components := MapValues(components, f, user);
          } else if c.id.value in sparse {
            var index := sparse[c.id.value];
            components := components[index := ApplyFn(f, components[index], user)];
          }
        case DeleteOp =>
          if c.id.Some? {
            Remove(c.id.value);
          }
        case NoMethodOp(_) =>
          handled := false;
      }
    }
  }
}
