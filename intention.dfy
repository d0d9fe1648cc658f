// The list of pending changes a system returns (src/lib/systems/intention.ts):
// changes in the order they were proposed, and a counter of the unborn
// entities the proposal has reserved.

module Intentions {
  import opened Types
  import opened Util
  import opened Entities
  import opened Changes

  /** The fields of an Intention. */
  datatype IntentionState = IntentionState(changes: seq<Change<Entity>>, generatedIds: nat)

  // ---------------------------------------------------------------------
  // Unborn offsets in use

  /** The offsets of the unborn references that component changes carry. */
  function UsedOffsetSet(cs: seq<Change<Entity>>): set<nat>
  {
    set c | c in cs && UnbornComponent(c) :: c.id.value.offset
  }

  lemma UsedOffsetSetConcat(a: seq<Change<Entity>>, b: seq<Change<Entity>>)
    ensures UsedOffsetSet(a + b) == UsedOffsetSet(a) + UsedOffsetSet(b)
  {
    assert forall c :: c in a + b <==> c in a || c in b;
  }

  /** The offsets of one change: its unborn component reference, if any. */
  function OffsetOf(c: Change<Entity>): set<nat>
  {
    if UnbornComponent(c) then {c.id.value.offset} else {}
  }

  lemma UsedOffsetSetSnoc(cs: seq<Change<Entity>>, c: Change<Entity>)
    ensures UsedOffsetSet(cs + [c]) == UsedOffsetSet(cs) + OffsetOf(c)
  {
    UsedOffsetSetConcat(cs, [c]);
  }

  /**
   * The offsets in use, in order of first use: what getUsedOffsets collects
   * into a JavaScript Set. Each offset appears once.
   */
  function UsedOffsets(cs: seq<Change<Entity>>): (r: seq<nat>)
    ensures NoDups(r)
    ensures forall o :: o in r <==> o in UsedOffsetSet(cs)
    decreases |cs|
  {
    if cs == [] then []
    else
      var init := cs[..|cs| - 1];
      var c := cs[|cs| - 1];
      var r := UsedOffsets(init);
      assert cs == init + [c];
      UsedOffsetSetSnoc(init, c);
      if UnbornComponent(c) then SetAdd(r, c.id.value.offset) else r
  }

  /** Every offset in use was reserved: none exceeds the counter. */
  ghost predicate OffsetsWithin(p: IntentionState)
  {
    forall o :: o in UsedOffsetSet(p.changes) ==> o <= p.generatedIds
  }

  // ---------------------------------------------------------------------
  // Adding changes

  /**
   * The counter after adding `c`: raised to the offset of an unborn
   * component reference above it, otherwise kept.
   */
  function Raise(g: nat, c: Change<Entity>): (r: nat)
    ensures r >= g && forall o :: o in OffsetOf(c) ==> o <= r
    ensures r == g || r in OffsetOf(c)
  {
    if IsComponentChange(c) && c.id.Some? && IsUnborn(c.id.value) && c.id.value.offset > g then c.id.value.offset
    else g
  }

  /**
   * The counter after adding `cs` one by one: the largest of `g` and the
   * offsets `cs` uses.
   */
  function RaiseAll(g: nat, cs: seq<Change<Entity>>): (r: nat)
    ensures r >= g && forall o :: o in UsedOffsetSet(cs) ==> o <= r
    ensures r == g || r in UsedOffsetSet(cs)
    decreases |cs|
  {
    if cs == [] then g
    else
      var init := cs[..|cs| - 1];
      var c := cs[|cs| - 1];
      assert cs == init + [c];
      UsedOffsetSetSnoc(init, c);
      Raise(RaiseAll(g, init), c)
  }

  /** addChange: appends the change and raises the counter past its offset. */
  function AddChangeSpec(p: IntentionState, c: Change<Entity>): (r: IntentionState)
    ensures r.changes == p.changes + [c]
    ensures OffsetsWithin(p) ==> OffsetsWithin(r)
    ensures UsedOffsetSet(r.changes) == UsedOffsetSet(p.changes) + OffsetOf(c)
  {
    UsedOffsetSetSnoc(p.changes, c);
    IntentionState(p.changes + [c], Raise(p.generatedIds, c))
  }

  /** addChanges: appends the changes in order, raising the counter past each. */
  function AddChangesSpec(p: IntentionState, cs: seq<Change<Entity>>): (r: IntentionState)
    ensures r.changes == p.changes + cs
    ensures OffsetsWithin(p) ==> OffsetsWithin(r)
    ensures UsedOffsetSet(r.changes) == UsedOffsetSet(p.changes) + UsedOffsetSet(cs)
  {
    UsedOffsetSetConcat(p.changes, cs);
    IntentionState(p.changes + cs, RaiseAll(p.generatedIds, cs))
  }

  /** Adding a list and then one more change is adding the longer list. */
  lemma AddChangesSnoc(p: IntentionState, cs: seq<Change<Entity>>, c: Change<Entity>)
    ensures AddChangesSpec(p, cs + [c]) == AddChangeSpec(AddChangesSpec(p, cs), c)
  {
    assert (cs + [c])[..|cs|] == cs;
  }

  /** The loop step of addChanges: one more change of the list is added. */
  lemma AddChangesStep(p: IntentionState, cs: seq<Change<Entity>>, i: nat)
    requires i < |cs|
    ensures AddChangesSpec(p, cs[..i + 1]) == AddChangeSpec(AddChangesSpec(p, cs[..i]), cs[i])
  {
    assert cs[..i + 1] == cs[..i] + [cs[i]];
    AddChangesSnoc(p, cs[..i], cs[i]);
  }

  // ---------------------------------------------------------------------
  // Reserving ids

  /** createID: the counter goes up by one and names the new reservation. */
  function CreateIDSpec(p: IntentionState): (r: (IntentionState, Entity))
    ensures r.0 == p.(generatedIds := p.generatedIds + 1)
    ensures r.1 == Unborn(r.0.generatedIds)
    ensures OffsetsWithin(p) ==> OffsetsWithin(r.0) && r.1.offset !in UsedOffsetSet(p.changes)
  {
    var g := p.generatedIds + 1;
    (p.(generatedIds := g), RelativeID(g))
  }

  /** The reference to use: the given one, or a new reservation. */
  function IdOrNew(p: IntentionState, id: Option<Entity>): (r: (IntentionState, Entity))
    ensures id.Some? ==> r == (p, id.value)
    ensures id.None? ==> r == CreateIDSpec(p)
  {
    if id.None? then CreateIDSpec(p) else (p, id.value)
  }

  // ---------------------------------------------------------------------
  // Resolving unborn references

  /** Replaces the unborn reference at `offset` in every change. */
  function ReplaceAll(cs: seq<Change<Entity>>, offset: nat, id: EntityID): (r: seq<Change<Entity>>)
    ensures |r| == |cs|
    ensures forall i :: 0 <= i < |cs| ==> r[i] == ReplaceUnborn(cs[i], offset, id)
  {
    seq(|cs|, i requires 0 <= i < |cs| => ReplaceUnborn(cs[i], offset, id))
  }

  /**
   * After replaceAllUnborn, `offset` is no longer in use and every other
   * offset still is; the changes that did not use it are untouched.
   */
  lemma ReplaceAllOffsets(cs: seq<Change<Entity>>, offset: nat, id: EntityID)
    ensures UsedOffsetSet(ReplaceAll(cs, offset, id)) == UsedOffsetSet(cs) - {offset}
    ensures forall i :: 0 <= i < |cs| && cs[i].id != Some(Unborn(offset)) ==> ReplaceAll(cs, offset, id)[i] == cs[i]
  {
    var r := ReplaceAll(cs, offset, id);
    forall o | o in UsedOffsetSet(r)
      ensures o in UsedOffsetSet(cs) - {offset}
    {
      var c :| c in r && UnbornComponent(c) && c.id.value.offset == o;
      var i :| 0 <= i < |r| && r[i] == c;
      assert cs[i] in cs;
    }
    forall o | o in UsedOffsetSet(cs) - {offset}
      ensures o in UsedOffsetSet(r)
    {
      var c :| c in cs && UnbornComponent(c) && c.id.value.offset == o;
      var i :| 0 <= i < |cs| && cs[i] == c;
      assert r[i] in r;
    }
  }

  /** replaceAllUnborn keeps the counter and can only shrink the offsets in use. */
  function ReplaceAllSpec(p: IntentionState, offset: nat, id: EntityID): (r: IntentionState)
    ensures r.generatedIds == p.generatedIds && |r.changes| == |p.changes|
    ensures UsedOffsetSet(r.changes) == UsedOffsetSet(p.changes) - {offset}
    ensures OffsetsWithin(p) ==> OffsetsWithin(r)
  {
    ReplaceAllOffsets(p.changes, offset, id);
    p.(changes := ReplaceAll(p.changes, offset, id))
  }

  // ---------------------------------------------------------------------
  // Merging

  /** Shifts every unborn component reference by `amount`. */
  function ShiftAll(cs: seq<Change<Entity>>, amount: nat): (r: seq<Change<Entity>>)
    ensures |r| == |cs|
    ensures forall i :: 0 <= i < |cs| ==> r[i] == IncrementChangeOffset(cs[i], amount)
  {
    seq(|cs|, i requires 0 <= i < |cs| => IncrementChangeOffset(cs[i], amount))
  }

  /** The offsets in use after a shift are the old ones moved up by `amount`. */
  lemma ShiftAllOffsets(cs: seq<Change<Entity>>, amount: nat)
    ensures forall o :: o in UsedOffsetSet(ShiftAll(cs, amount)) <==> o >= amount && o - amount in UsedOffsetSet(cs)
  {
    var r := ShiftAll(cs, amount);
    forall o | o in UsedOffsetSet(r)
      ensures o >= amount && o - amount in UsedOffsetSet(cs)
    {
      var c :| c in r && UnbornComponent(c) && c.id.value.offset == o;
      var i :| 0 <= i < |r| && r[i] == c;
      assert cs[i] in cs;
    }
    forall o | o >= amount && o - amount in UsedOffsetSet(cs)
      ensures o in UsedOffsetSet(r)
    {
      var c :| c in cs && UnbornComponent(c) && c.id.value.offset == o - amount;
      var i :| 0 <= i < |cs| && cs[i] == c;
      assert r[i] in r;
    }
  }

  /**
   * merge: appends the other proposal's changes with their unborn offsets
   * shifted past this proposal's counter. The counter is only raised past
   * the shifted offsets; the other proposal's own counter is not added.
   */
  function MergeSpec(p: IntentionState, q: IntentionState): (r: IntentionState)
    ensures r.changes == p.changes + ShiftAll(q.changes, p.generatedIds)
    ensures OffsetsWithin(p) ==> OffsetsWithin(r)
  {
    AddChangesSpec(p, ShiftAll(q.changes, p.generatedIds))
  }

  /**
   * Merging keeps the two proposals' reservations apart: when this one's
   * offsets are within its counter and the other's are at least 1 (as
   * createID makes them), no shifted offset collides with one of ours,
   * and the counter never exceeds the sum of the two counters.
   */
  lemma MergeSeparatesOffsets(p: IntentionState, q: IntentionState)
    requires OffsetsWithin(p) && OffsetsWithin(q)
    requires forall o :: o in UsedOffsetSet(q.changes) ==> o >= 1
    ensures UsedOffsetSet(p.changes) !! UsedOffsetSet(ShiftAll(q.changes, p.generatedIds))
    ensures UsedOffsetSet(MergeSpec(p, q).changes)
         == UsedOffsetSet(p.changes) + UsedOffsetSet(ShiftAll(q.changes, p.generatedIds))
    ensures p.generatedIds <= MergeSpec(p, q).generatedIds <= p.generatedIds + q.generatedIds
  {
    var s := ShiftAll(q.changes, p.generatedIds);
    ShiftAllOffsets(q.changes, p.generatedIds);
    UsedOffsetSetConcat(p.changes, s);
    var g := MergeSpec(p, q).generatedIds;
    if g != p.generatedIds {
      assert g in UsedOffsetSet(s);
    }
  }

  /**
   * Two proposals that each reserved one id and used it on a component
   * merge into one holding offsets 1 and 2 with a counter of 2.
   */
  lemma MergeExample(name: string, v: Value)
    ensures var a := IntentionState([Change(Component(name), AddOp(v), Some(Unborn(1)))], 1);
      var m := MergeSpec(a, a);
      && m.generatedIds == 2
      && m.changes == [Change(Component(name), AddOp(v), Some(Unborn(1))), Change(Component(name), AddOp(v), Some(Unborn(2)))]
  {
    var a := IntentionState([Change(Component(name), AddOp(v), Some(Unborn(1)))], 1);
    var s := ShiftAll(a.changes, 1);
    assert s == [Change(Component(name), AddOp(v), Some(Unborn(2)))];
    assert RaiseAll(1, s) == Raise(RaiseAll(1, []), s[0]);
  }

  // ---------------------------------------------------------------------
  // Keeping the real changes

  /**
   * extractRealChanges: every change except component changes with an
   * unborn reference, in order.
   */
  function RealChanges(cs: seq<Change<Entity>>): (r: seq<Change<Entity>>)
    ensures |r| <= |cs|
    ensures forall c :: c in r <==> c in cs && !UnbornComponent(c)
    ensures UsedOffsetSet(cs) == {} ==> r == cs
    decreases |cs|
  {
    if cs == [] then []
    else
      var init := cs[..|cs| - 1];
      var c := cs[|cs| - 1];
      assert cs == init + [c];
      UsedOffsetSetSnoc(init, c);
      RealChanges(init) + (if UnbornComponent(c) then [] else [c])
  }

  /**
   * Extraction of a concatenation extracts each part, and one change is
   * kept or dropped on its own: the real changes keep their order and
   * multiplicity.
   */
  lemma {:induction false} RealChangesConcat(a: seq<Change<Entity>>, b: seq<Change<Entity>>)
    ensures RealChanges(a + b) == RealChanges(a) + RealChanges(b)
    ensures forall c :: RealChanges([c]) == if UnbornComponent(c) then [] else [c]
    decreases |b|
  {
    if b == [] {
      assert a + b == a;
      assert RealChanges(b) == [];
    } else {
      var init := b[..|b| - 1];
      var last := b[|b| - 1];
      var tail := if UnbornComponent(last) then [] else [last];
      assert (a + b)[..|a + b| - 1] == a + init;
      assert (a + b)[|a + b| - 1] == last;
      assert RealChanges(a + b) == RealChanges(a + init) + tail;
      assert RealChanges(b) == RealChanges(init) + tail;
      RealChangesConcat(a, init);
      ConcatAssoc(RealChanges(a), RealChanges(init), tail);
    }
    forall c ensures RealChanges([c]) == if UnbornComponent(c) then [] else [c] {
      assert [c][..0] == [];
    }
  }

  // ---------------------------------------------------------------------
  // Builders

  /**
   * addComponent: an `add` of `value` for `id`, or, without an id, for a
   * new reservation at an offset no earlier change uses, which becomes the
   * counter. A given unborn reference raises the counter to its offset.
   */
  function AddComponentSpec(p: IntentionState, name: string, value: Value, id: Option<Entity>): (r: IntentionState)
    ensures r.changes == p.changes + [Change(Component(name), AddOp(value), Some(if id.Some? then id.value else Unborn(p.generatedIds + 1)))]
    ensures id.None? ==> r.generatedIds == p.generatedIds + 1
    ensures id.Some? ==>
      r.generatedIds == if id.value.Unborn? && id.value.offset > p.generatedIds then id.value.offset else p.generatedIds
    ensures OffsetsWithin(p) ==> OffsetsWithin(r)
    ensures OffsetsWithin(p) && id.None? ==> p.generatedIds + 1 !in UsedOffsetSet(p.changes)
  {
    var e := IdOrNew(p, id);
    AddChangeSpec(e.0, Change(Component(name), AddOp(value), Some(e.1)))
  }

  /** `ids?.[i]`: the i-th reference, undefined when absent. */
  function IdAt(ids: Option<seq<Entity>>, i: nat): (r: Option<Entity>)
    ensures r.Some? <==> ids.Some? && i < |ids.value|
    ensures r.Some? ==> r.value == ids.value[i]
  {
    if ids.Some? && i < |ids.value| then Some(ids.value[i]) else None
  }

  /** addComponents: addComponent for each value with the id at its position. */
  function AddComponentsSpec(p: IntentionState, name: string, values: seq<Value>, ids: Option<seq<Entity>>): IntentionState
    decreases |values|
  {
    if values == [] then p
    else
      var k := |values| - 1;
      AddComponentSpec(AddComponentsSpec(p, name, values[..k], ids), name, values[k], IdAt(ids, k))
  }

  /**
   * addComponents appends one change per value after the existing ones,
   * and keeps every offset within the counter.
   */
  lemma {:induction false} AddComponentsAppends(p: IntentionState, name: string, values: seq<Value>, ids: Option<seq<Entity>>)
    ensures var r := AddComponentsSpec(p, name, values, ids);
      && |r.changes| == |p.changes| + |values| && r.changes[..|p.changes|] == p.changes
      && (OffsetsWithin(p) ==> OffsetsWithin(r))
    decreases |values|
  {
    if values != [] {
      AddComponentsAppends(p, name, values[..|values| - 1], ids);
    }
  }

  /**
   * The change addComponents appends for the i-th value is an `add` of it
   * to the component, carrying the i-th id when there is one.
   */
  lemma {:induction false} AddComponentsEntries(p: IntentionState, name: string, values: seq<Value>, ids: Option<seq<Entity>>, i: nat)
    requires i < |values|
    ensures var r := AddComponentsSpec(p, name, values, ids);
      && |p.changes| + i < |r.changes|
      && r.changes[|p.changes| + i].target == Component(name)
      && r.changes[|p.changes| + i].op == AddOp(values[i])
      && (IdAt(ids, i).Some? ==> r.changes[|p.changes| + i].id == IdAt(ids, i))
    decreases |values|
  {
    var k := |values| - 1;
    var q := AddComponentsSpec(p, name, values[..k], ids);
    AddComponentsAppends(p, name, values[..k], ids);
    var r := AddComponentsSpec(p, name, values, ids);
    var c := AddComponentsLast(p, name, values, ids);
    assert r.changes == q.changes + [c];
    if i < k {
      AddComponentsEntries(p, name, values[..k], ids, i);
      assert values[..k][i] == values[i];
      assert r.changes[|p.changes| + i] == q.changes[|p.changes| + i];
      assert q.changes[|p.changes| + i].op == AddOp(values[i]);
    } else {
      assert i == k;
      assert r.changes[|p.changes| + i] == c;
      assert c.op == AddOp(values[i]);
    }
  }

  /** The change addComponents appends for the last value. */
  lemma AddComponentsLast(p: IntentionState, name: string, values: seq<Value>, ids: Option<seq<Entity>>)
    returns (c: Change<Entity>)
    requires values != []
    ensures var k := |values| - 1;
      && AddComponentsSpec(p, name, values, ids).changes == AddComponentsSpec(p, name, values[..k], ids).changes + [c]
      && c.target == Component(name) && c.op == AddOp(values[k])
      && (IdAt(ids, k).Some? ==> c.id == IdAt(ids, k))
  {
    var k := |values| - 1;
    var q := AddComponentsSpec(p, name, values[..k], ids);
    var e := IdOrNew(q, IdAt(ids, k));
    c := Change(Component(name), AddOp(values[k]), Some(e.1));
  }

  /** The changes of a bundle: one per entry, all for the same entity. */
  function BundleChanges(bundle: seq<(string, Value)>, id: Entity): (r: seq<Change<Entity>>)
    ensures |r| == |bundle|
    ensures forall i :: 0 <= i < |bundle| ==> r[i] == Change(Component(bundle[i].0), AddOp(bundle[i].1), Some(id))
  {
    seq(|bundle|, i requires 0 <= i < |bundle| => Change(Component(bundle[i].0), AddOp(bundle[i].1), Some(id)))
  }

  /**
   * addBundle: one `add` per entry, all carrying the given reference, or
   * one new reservation shared by every entry.
   */
  function AddBundleSpec(p: IntentionState, bundle: seq<(string, Value)>, id: Option<Entity>): (r: IntentionState)
    ensures var e := IdOrNew(p, id); r == AddChangesSpec(e.0, BundleChanges(bundle, e.1))
    ensures OffsetsWithin(p) ==> OffsetsWithin(r)
  {
    var e := IdOrNew(p, id);
    AddChangesSpec(e.0, BundleChanges(bundle, e.1))
  }

  /**
   * A bundle without an id reserves exactly one offset, fresh for the
   * proposal, and every entry carries it.
   */
  lemma AddBundleSharesOneOffset(p: IntentionState, bundle: seq<(string, Value)>)
    requires OffsetsWithin(p)
    ensures var r := AddBundleSpec(p, bundle, None); var o := p.generatedIds + 1;
      && r.generatedIds == o
      && o !in UsedOffsetSet(p.changes)
      && |r.changes| == |p.changes| + |bundle|
      && forall i :: |p.changes| <= i < |r.changes| ==> r.changes[i].id == Some(Unborn(o))
  {
  }

  /**
   * The records addBundle builds as written: a component path, a value and
   * the reference, but no `method`.
   */
  function BundleRecordsAsWritten(bundle: seq<(string, Value)>, id: Entity): (r: seq<Change<Entity>>)
    ensures |r| == |bundle|
    ensures forall i :: 0 <= i < |bundle| ==>
      r[i] == Change(Component(bundle[i].0), NoMethodOp(bundle[i].1), Some(id)) && r[i].op.Method() == Missing
  {
    seq(|bundle|, i requires 0 <= i < |bundle| => Change(Component(bundle[i].0), NoMethodOp(bundle[i].1), Some(id)))
  }

  /** setComponents: the id at each position, undefined past the end of `ids`. */
  function SetChanges(name: string, values: seq<Value>, ids: seq<Entity>): (r: seq<Change<Entity>>)
    ensures |r| == |values|
    ensures forall i :: 0 <= i < |values| ==> r[i] == Change(Component(name), SetOp(values[i]), IdAt(Some(ids), i))
  {
    seq(|values|, i requires 0 <= i < |values| => Change(Component(name), SetOp(values[i]), IdAt(Some(ids), i)))
  }

  /** deleteComponents: one `delete` per id. */
  function DeleteChanges(name: string, ids: seq<Entity>): (r: seq<Change<Entity>>)
    ensures |r| == |ids|
    ensures forall i :: 0 <= i < |ids| ==> r[i] == Change(Component(name), DeleteOp, Some(ids[i]))
  {
    seq(|ids|, i requires 0 <= i < |ids| => Change(Component(name), DeleteOp, Some(ids[i])))
  }

  /** updateComponents with ids: one `update` per id. */
  function UpdateChanges(name: string, f: Fn, ids: seq<Entity>): (r: seq<Change<Entity>>)
    ensures |r| == |ids|
    ensures forall i :: 0 <= i < |ids| ==> r[i] == Change(Component(name), UpdateOp(f), Some(ids[i]))
  {
    seq(|ids|, i requires 0 <= i < |ids| => Change(Component(name), UpdateOp(f), Some(ids[i])))
  }

  /** addEvents: one `add` to the event per value. */
  function EventChanges(name: string, values: seq<Value>): (r: seq<Change<Entity>>)
    ensures |r| == |values|
    ensures forall i :: 0 <= i < |values| ==> r[i] == Change(Event(name), AddOp(values[i]), None)
  {
    seq(|values|, i requires 0 <= i < |values| => Change(Event(name), AddOp(values[i]), None))
  }

  // The loop steps of the builders: one more element gives one more change.

  lemma SetChangesStep(name: string, values: seq<Value>, ids: seq<Entity>, i: nat)
    requires i < |values|
    ensures SetChanges(name, values[..i + 1], ids)
         == SetChanges(name, values[..i], ids) + [Change(Component(name), SetOp(values[i]), IdAt(Some(ids), i))]
  {
  }

  lemma DeleteChangesStep(name: string, ids: seq<Entity>, i: nat)
    requires i < |ids|
    ensures DeleteChanges(name, ids[..i + 1]) == DeleteChanges(name, ids[..i]) + [Change(Component(name), DeleteOp, Some(ids[i]))]
  {
  }

  lemma UpdateChangesStep(name: string, f: Fn, ids: seq<Entity>, i: nat)
    requires i < |ids|
    ensures UpdateChanges(name, f, ids[..i + 1])
         == UpdateChanges(name, f, ids[..i]) + [Change(Component(name), UpdateOp(f), Some(ids[i]))]
  {
  }

  lemma EventChangesStep(name: string, values: seq<Value>, i: nat)
    requires i < |values|
    ensures EventChanges(name, values[..i + 1]) == EventChanges(name, values[..i]) + [Change(Event(name), AddOp(values[i]), None)]
  {
  }

  lemma AddComponentsStep(p: IntentionState, name: string, values: seq<Value>, ids: Option<seq<Entity>>, i: nat)
    requires i < |values|
    ensures AddComponentsSpec(p, name, values[..i + 1], ids)
         == AddComponentSpec(AddComponentsSpec(p, name, values[..i], ids), name, values[i], IdAt(ids, i))
  {
    assert values[..i + 1][..i] == values[..i];
  }

  /** Changes that reserve nothing leave the counter alone. */
  lemma NoOffsetsKeepCounter(p: IntentionState, cs: seq<Change<Entity>>)
    requires UsedOffsetSet(cs) == {}
    ensures AddChangesSpec(p, cs).generatedIds == p.generatedIds
    ensures UsedOffsetSet(AddChangesSpec(p, cs).changes) == UsedOffsetSet(p.changes)
  {
  }

  // ---------------------------------------------------------------------
  // The Intention object

  class Intention {
    var changes: seq<Change<Entity>>
    var generatedIds: nat

    function State(): IntentionState
      reads this
    {
      IntentionState(changes, generatedIds)
    }

    /** A proposal with the given changes and counter; `new Intention()` passes none and 0. */
    constructor (changes: seq<Change<Entity>>, generatedIds: nat)
      ensures State() == IntentionState(changes, generatedIds)
    {
      this.changes := changes;
      this.generatedIds := generatedIds;
    }

    method CreateID() returns (e: Entity)
      modifies this
      ensures (State(), e) == CreateIDSpec(old(State()))
    {
      generatedIds := generatedIds + 1;
      e := Unborn(generatedIds);
    }

    /** createIDs: `amount` new reservations, numbered on from the counter. */
    method CreateIDs(amount: int) returns (ids: seq<Entity>)
      modifies this
      ensures |ids| == if amount < 0 then 0 else amount
      ensures forall i :: 0 <= i < |ids| ==> ids[i] == Unborn(old(generatedIds) + i + 1)
      ensures State() == old(State()).(generatedIds := old(generatedIds) + |ids|)
      ensures old(OffsetsWithin(State())) ==> OffsetsWithin(State())
      ensures forall i :: 0 <= i < |ids| ==> (old(OffsetsWithin(State())) ==> ids[i].offset !in UsedOffsetSet(changes))
    {
      ids := [];
      while |ids| < amount
        invariant |ids| <= if amount < 0 then 0 else amount
        invariant forall i :: 0 <= i < |ids| ==> ids[i] == Unborn(old(generatedIds) + i + 1)
        invariant State() == old(State()).(generatedIds := old(generatedIds) + |ids|)
        decreases amount - |ids|
      {
        var e := CreateID();
        ids := ids + [e];
      }
    }

    /** getUsedOffsets: the offsets in use, in order of first use. */
    method GetUsedOffsets() returns (r: seq<nat>)
      ensures r == UsedOffsets(changes)
    {
      r := [];
      for i := 0 to |changes|
        invariant r == UsedOffsets(changes[..i])
      {
        var c := changes[i];
        assert changes[..i + 1][..i] == changes[..i];
        if IsComponentChange(c) && c.id.Some? && IsUnborn(c.id.value) {
          r := SetAdd(r, c.id.value.offset);
        }
      }
      assert changes[..|changes|] == changes;
    }

    method ReplaceAllUnborn(offset: nat, fixedId: EntityID)
      modifies this
      ensures State() == ReplaceAllSpec(old(State()), offset, fixedId)
    {
      changes := ReplaceAll(changes, offset, fixedId);
    }

    method AddChange(c: Change<Entity>)
      modifies this
      ensures State() == AddChangeSpec(old(State()), c)
    {
      if IsComponentChange(c) && c.id.Some? && IsUnborn(c.id.value) && c.id.value.offset > generatedIds {
        generatedIds := c.id.value.offset;
      }
      changes := changes + [c];
    }

    method AddChanges(cs: seq<Change<Entity>>)
      modifies this
      ensures State() == AddChangesSpec(old(State()), cs)
    {
      for i := 0 to |cs|
        invariant State() == AddChangesSpec(old(State()), cs[..i])
      {
        AddChangesStep(old(State()), cs, i);
        AddChange(cs[i]);
      }
      assert cs[..|cs|] == cs;
    }

    /** merge: the other proposal's changes, shifted past this counter, are appended. */
    method Merge(other: Intention)
      modifies this
      ensures State() == MergeSpec(old(State()), old(other.State()))
    {
      var shifted := ShiftAll(other.changes, generatedIds);
      AddChanges(shifted);
    }

    function ExtractRealChanges(): (r: seq<Change<Entity>>)
      reads this
      ensures r == RealChanges(changes)
    {
      RealChanges(changes)
    }

    /** addBundle as written: its records carry no method. */
    method AddBundleAsWritten(bundle: seq<(string, Value)>, id: Option<Entity>)
      modifies this
      ensures var e := IdOrNew(old(State()), id);
        State() == AddChangesSpec(e.0, BundleRecordsAsWritten(bundle, e.1))
    {
      var e: Entity;
      if id.None? {
        e := CreateID();
      } else {
        e := id.value;
      }
      AddChanges(BundleRecordsAsWritten(bundle, e));
    }

    /** addBundle as evidently intended: one `add` per entry. */
    method AddBundle(bundle: seq<(string, Value)>, id: Option<Entity>)
      modifies this
      ensures State() == AddBundleSpec(old(State()), bundle, id)
    {
      var e: Entity;
      if id.None? {
        e := CreateID();
      } else {
        e := id.value;
      }
      AddChanges(BundleChanges(bundle, e));
    }

    method AddComponent(name: string, value: Value, id: Option<Entity>)
      modifies this
      ensures State() == AddComponentSpec(old(State()), name, value, id)
    {
      var e: Entity;
      if id.None? {
        e := CreateID();
      } else {
        e := id.value;
      }
      AddChange(Change(Component(name), AddOp(value), Some(e)));
    }

    method AddComponents(name: string, values: seq<Value>, ids: Option<seq<Entity>>)
      modifies this
      ensures State() == AddComponentsSpec(old(State()), name, values, ids)
    {
      for i := 0 to |values|
        invariant State() == AddComponentsSpec(old(State()), name, values[..i], ids)
      {
        AddComponentsStep(old(State()), name, values, ids, i);
        AddComponent(name, values[i], IdAt(ids, i));
      }
      assert values[..|values|] == values;
    }

    method SetComponent(name: string, value: Value, id: Entity)
      modifies this
      ensures State() == AddChangeSpec(old(State()), Change(Component(name), SetOp(value), Some(id)))
    {
      AddChange(Change(Component(name), SetOp(value), Some(id)));
    }

    /** setComponents: a `set` per value; past the end of `ids` the id is undefined. */
    method SetComponents(name: string, values: seq<Value>, ids: seq<Entity>)
      modifies this
      ensures State() == AddChangesSpec(old(State()), SetChanges(name, values, ids))
    {
      for i := 0 to |values|
        invariant State() == AddChangesSpec(old(State()), SetChanges(name, values[..i], ids))
      {
        var c := Change(Component(name), SetOp(values[i]), IdAt(Some(ids), i));
        SetChangesStep(name, values, ids, i);
        AddChangesSnoc(old(State()), SetChanges(name, values[..i], ids), c);
        AddChange(c);
      }
      assert values[..|values|] == values;
    }

    method DeleteComponent(name: string, id: Entity)
      modifies this
      ensures State() == AddChangeSpec(old(State()), Change(Component(name), DeleteOp, Some(id)))
    {
      AddChange(Change(Component(name), DeleteOp, Some(id)));
    }

    method DeleteComponents(name: string, ids: seq<Entity>)
      modifies this
      ensures State() == AddChangesSpec(old(State()), DeleteChanges(name, ids))
    {
      for i := 0 to |ids|
        invariant State() == AddChangesSpec(old(State()), DeleteChanges(name, ids[..i]))
      {
        var c := Change(Component(name), DeleteOp, Some(ids[i]));
        DeleteChangesStep(name, ids, i);
        AddChangesSnoc(old(State()), DeleteChanges(name, ids[..i]), c);
        AddChange(c);
      }
      assert ids[..|ids|] == ids;
    }

    /** deleteAllComponentsOfName: a `delete` without an id. */
    method DeleteAllComponentsOfName(name: string)
      modifies this
      ensures State() == AddChangeSpec(old(State()), Change(Component(name), DeleteOp, None))
    {
      AddChange(Change(Component(name), DeleteOp, None));
    }

    method UpdateComponent(name: string, f: Fn, id: Entity)
      modifies this
      ensures State() == AddChangeSpec(old(State()), Change(Component(name), UpdateOp(f), Some(id)))
    {
      AddChange(Change(Component(name), UpdateOp(f), Some(id)));
    }

    /** updateComponents: one `update` per id, or a single one without an id. */
    method UpdateComponents(name: string, f: Fn, ids: Option<seq<Entity>>)
      modifies this
      ensures ids.None? ==> State() == AddChangeSpec(old(State()), Change(Component(name), UpdateOp(f), None))
      ensures ids.Some? ==> State() == AddChangesSpec(old(State()), UpdateChanges(name, f, ids.value))
    {
      if ids.None? {
        AddChange(Change(Component(name), UpdateOp(f), None));
        return;
      }
      var xs := ids.value;
      for i := 0 to |xs|
        invariant State() == AddChangesSpec(old(State()), UpdateChanges(name, f, xs[..i]))
      {
        var c := Change(Component(name), UpdateOp(f), Some(xs[i]));
        UpdateChangesStep(name, f, xs, i);
        AddChangesSnoc(old(State()), UpdateChanges(name, f, xs[..i]), c);
        AddChange(c);
      }
      assert xs[..|xs|] == xs;
    }

    method AddResource(name: string, value: Value)
      modifies this
      ensures State() == AddChangeSpec(old(State()), Change(Resource(name), AddOp(value), None))
    {
      AddChange(Change(Resource(name), AddOp(value), None));
    }

    method SetResource(name: string, value: Value)
      modifies this
      ensures State() == AddChangeSpec(old(State()), Change(Resource(name), SetOp(value), None))
    {
      AddChange(Change(Resource(name), SetOp(value), None));
    }

    method DeleteResource(name: string)
      modifies this
      ensures State() == AddChangeSpec(old(State()), Change(Resource(name), DeleteOp, None))
    {
      AddChange(Change(Resource(name), DeleteOp, None));
    }

    method UpdateResource(name: string, f: Fn)
      modifies this
      ensures State() == AddChangeSpec(old(State()), Change(Resource(name), UpdateOp(f), None))
    {
      AddChange(Change(Resource(name), UpdateOp(f), None));
    }

    method AddEvent(name: string, value: Value)
      modifies this
      ensures State() == AddChangeSpec(old(State()), Change(Event(name), AddOp(value), None))
    {
      AddChange(Change(Event(name), AddOp(value), None));
    }

    method AddEvents(name: string, values: seq<Value>)
      modifies this
      ensures State() == AddChangesSpec(old(State()), EventChanges(name, values))
    {
      for i := 0 to |values|
        invariant State() == AddChangesSpec(old(State()), EventChanges(name, values[..i]))
      {
        var c := Change(Event(name), AddOp(values[i]), None);
        EventChangesStep(name, values, i);
        AddChangesSnoc(old(State()), EventChanges(name, values[..i]), c);
        AddChange(c);
      }
      assert values[..|values|] == values;
    }

    /** resetEvents (and its alias deleteEvents): a `delete` of the event list. */
    method ResetEvents(name: string)
      modifies this
      ensures State() == AddChangeSpec(old(State()), Change(Event(name), DeleteOp, None))
    {
      AddChange(Change(Event(name), DeleteOp, None));
    }
  }
}
