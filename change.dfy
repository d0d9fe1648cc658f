// Classification and rewriting of single changes (src/lib/systems/change.ts),
// and the interpretation of update functions.

module Changes {
  import opened Types
  import opened Util
  import opened Entities

  const ChangeEventDivider: string := "-->"

  /** JavaScript `s.includes(sub)`. */
  function Includes(s: string, sub: string): bool
    decreases |s|
  {
    if |s| < |sub| then false
    else s[..|sub|] == sub || Includes(s[1..], sub)
  }

  lemma {:induction false} IncludesAt(s: string, sub: string, i: nat)
    requires i + |sub| <= |s| && s[i..i + |sub|] == sub
    ensures Includes(s, sub)
    decreases i
  {
    if i > 0 {
      assert s[1..][i - 1..i - 1 + |sub|] == s[i..i + |sub|];
      IncludesAt(s[1..], sub, i - 1);
    }
  }

  /** A name without `>` never contains the divider. */
  lemma {:induction false} NoDividerNoChangeEvent(s: string)
    requires '>' !in s
    ensures !Includes(s, ChangeEventDivider)
    decreases |s|
  {
    if |s| >= |ChangeEventDivider| {
      assert s[..3][2] == s[2];
      assert s[..3] != ChangeEventDivider;
      NoDividerNoChangeEvent(s[1..]);
    }
  }

  /** The name of the event that records changes of kind `kind` to `key`. */
  function ChangeEventName(kind: string, key: string): (r: string)
    ensures Includes(r, ChangeEventDivider)
    ensures |r| == |kind| + 3 + |key| && r[..|kind|] == kind && r[|kind| + 3..] == key
  {
    var r := kind + ChangeEventDivider + key;
    IncludesAt(r, ChangeEventDivider, |kind|);
    r
  }

  /** A change to a key whose name contains the divider, i.e. a change event. */
  predicate IsChangeEvent<I>(c: Change<I>)
  {
    Includes(c.target.name, ChangeEventDivider)
  }

  /** A change's path starts with `components`. */
  predicate IsComponentChange<I>(c: Change<I>)
  {
    c.target.Component?
  }

  /** A change's path starts with `resources`. */
  predicate IsResourceChange<I>(c: Change<I>)
  {
    c.target.Resource?
  }

  /**
   * isEventChange as written: it tests for the `components` section, the
   * test of isComponentChange, so it holds of no event change at all.
   */
  function IsEventChange<I>(c: Change<I>): (r: bool)
    ensures r <==> IsComponentChange(c)
  {
    c.target.Component?
  }

  /** The evidently intended test: the path starts with `events`. */
  function IsEventChangeIntended<I>(c: Change<I>): (r: bool)
    ensures r <==> !IsComponentChange(c) && !IsResourceChange(c)
  {
    c.target.Event?
  }

  /** An event change and a component change that isEventChange misclassifies. */
  lemma EventChangeMisclassified()
    ensures var e: Change<Entity> := Change(Event("tick"), AddOp(Num(1)), None);
      !IsEventChange(e) && IsEventChangeIntended(e)
    ensures var c: Change<Entity> := Change(Component("pos"), AddOp(Num(1)), None);
      IsEventChange(c) && !IsEventChangeIntended(c)
  {
  }

  /** A component change that carries an entity reference. */
  function ChangeHasID<I>(c: Change<I>): (r: bool)
    ensures r ==> IsComponentChange(c)
    ensures r <==> c.target.Component? && c.id != None
  {
    c.target.Component? && c.id.Some?
  }

  /** The change's entity, when it is an unborn component reference. */
  predicate UnbornComponent(c: Change<Entity>)
  {
    c.target.Component? && c.id.Some? && c.id.value.Unborn?
  }

  /**
   * Shifts an unborn reference of a component change by `amount`; every
   * other change is returned unchanged.
   */
  function IncrementChangeOffset(c: Change<Entity>, amount: nat): (r: Change<Entity>)
    ensures r.target == c.target && r.op == c.op
    ensures UnbornComponent(r) <==> UnbornComponent(c)
    ensures UnbornComponent(c) ==> r.id.value.offset == c.id.value.offset + amount
    ensures !UnbornComponent(c) ==> r == c
  {
    if !IsComponentChange(c) then c
    else if c.id.None? || IsFixed(c.id.value) then c
    else c.(id := Some(RelativeID(c.id.value.offset + amount)))
  }

  /** Shifting twice is shifting by the sum. */
  lemma IncrementChangeOffsetAdds(c: Change<Entity>, a: nat, b: nat)
    ensures IncrementChangeOffset(IncrementChangeOffset(c, a), b) == IncrementChangeOffset(c, a + b)
    ensures IncrementChangeOffset(c, 0) == c
  {
  }

  /** A change whose entity reference, if any, is real and carries an id. */
  predicate HasOnlyRealIds(c: Change<Entity>)
  {
    c.id.Some? ==> c.id.value.Real?
  }

  /**
   * Replaces the entity reference by its number. Only component changes
   * keep an id; every other change drops it. The source is typed for real
   * references; an unborn one has no `id` field and a real one made from
   * an undefined id carries none, so both read as undefined.
   */
  function ExtractChangeEntityId(c: Change<Entity>): (r: Change<EntityID>)
    ensures r.target == c.target && r.op == c.op
    ensures r.id.Some? <==> c.target.Component? && c.id.Some? && c.id.value.Real?
    ensures r.id.Some? ==> c.id == Some(Real(r.id.value))
  {
    if !IsComponentChange(c) || c.id.None? then Change(c.target, c.op, None)
    else if !c.id.value.Real? then Change(c.target, c.op, None)
    else Change(c.target, c.op, Some(c.id.value.id))
  }

  /** The change with its numeric id read back as a real entity. */
  function WithRealEntity(c: Change<EntityID>): (r: Change<Entity>)
    ensures HasOnlyRealIds(r)
  {
    Change(c.target, c.op, if c.id.Some? then Some(FixedID(c.id.value)) else None)
  }

  /**
   * ExtractChangeEntityId loses nothing on component changes, and on a
   * numeric component change it is undone by reading the id back.
   */
  lemma {:induction false} ExtractChangeEntityIdRoundTrip(c: Change<Entity>, d: Change<EntityID>)
    requires HasOnlyRealIds(c)
    ensures c.target.Component? ==> WithRealEntity(ExtractChangeEntityId(c)) == c
    ensures d.target.Component? ==> ExtractChangeEntityId(WithRealEntity(d)) == d
  {
  }

  /**
   * Replaces the unborn reference at `offset` of a component change by the
   * real entity `id`; every other change is returned unchanged.
   */
  function ReplaceUnborn(c: Change<Entity>, offset: nat, id: EntityID): (r: Change<Entity>)
    ensures r.target == c.target && r.op == c.op
    ensures c.target.Component? && c.id == Some(Unborn(offset)) ==> r.id == Some(Real(id))
    ensures !(c.target.Component? && c.id == Some(Unborn(offset))) ==> r == c
  {
    if !IsComponentChange(c) || c.id.None? || IsFixed(c.id.value) then c
    else if !HasOffset(c.id.value, offset) then c
    else c.(id := Some(FixedID(id)))
  }

  /** Resolving an offset a second time changes nothing more. */
  lemma ReplaceUnbornIdempotent(c: Change<Entity>, offset: nat, id: EntityID)
    ensures ReplaceUnborn(ReplaceUnborn(c, offset, id), offset, id) == ReplaceUnborn(c, offset, id)
  {
  }

  /** Resolving then shifting is shifting then resolving the shifted offset. */
  lemma ReplaceUnbornCommutesWithShift(c: Change<Entity>, offset: nat, id: EntityID, amount: nat)
    ensures IncrementChangeOffset(ReplaceUnborn(c, offset, id), amount)
         == ReplaceUnborn(IncrementChangeOffset(c, amount), offset + amount, id)
  {
  }

  // ---------------------------------------------------------------------
  // Update functions

  /**
   * The value an update function makes of `v`. A user callback is looked up
   * in `user`; ForgetIds deletes each of its number ids from an id set.
   */
  function ApplyFn(f: Fn, v: Value, user: UserFns): Value
  {
    match f
    case UserFn(tag) => user(tag, v)
    case ForgetIds(ids) =>
      if v.IdSet? then IdSet(ForgetAll(v.ids, ids)) else v
  }

  /** Deletes from the id set every id that `ids` holds as a number. */
  function ForgetAll(s: seq<EntityID>, ids: seq<Value>): (r: seq<EntityID>)
    ensures forall x :: x in r <==> x in s && Num(x) !in ids
    ensures NoDups(s) ==> NoDups(r)
    decreases |ids|
  {
    if ids == [] then s
    else
      var rest := ForgetAll(s, ids[1..]);
      if ids[0].Num? && ids[0].n >= 0 then SetDelete(rest, ids[0].n) else rest
  }
}
