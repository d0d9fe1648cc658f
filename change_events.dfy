// The change-event systems (src/plugins/core/changeEvents): the raw log of
// recorded changes is split into one event per changed key, with an extra
// `id` event for every change that implicitly creates an entity, and a
// catch-all `modified` event per change.

module ChangeEvents {
  import opened Types
  import opened Util
  import opened Changes
  import opened Intentions
  import opened Worlds
  import opened Keys

  // ---------------------------------------------------------------------
  // Building change events

  /**
   * createChangeEvent: an `add` to the event named after the change's
   * method and key, carrying the raw change itself. The name contains the
   * divider, so the event is itself a change event, and the key can be
   * read back from it.
   */
  function CreateChangeEvent(raw: Change<EntityID>): (r: Change<Entity>)
    ensures r.target.Event? && IsChangeEvent(r)
    ensures r.op == AddOp(RawChange(raw)) && r.id.None?
    ensures var kind := MethodName(raw.op.Method());
      |r.target.name| == |kind| + 3 + |raw.target.name| && r.target.name[..|kind|] == kind
      && r.target.name[|kind| + 3..] == raw.target.name
  {
    Change(Event(ChangeEventName(MethodName(raw.op.Method()), raw.target.name)), AddOp(RawChange(raw)), None)
  }

  /**
   * The raw changes that implicitly create an entity: component changes
   * to a component other than `id` whose method is neither update nor
   * delete and that carry an id. A change without a method passes this
   * test too.
   */
  predicate IndirectlyCreatesID(c: Change<EntityID>)
  {
    c.target.Component? && c.target.name != IdKey && !c.op.UpdateOp? && !c.op.DeleteOp? && c.id.Some?
  }

  /**
   * createIDChangeEvent: the change restated on the `id` component, with
   * the same method and the change's id as both value and id.
   */
  function CreateIDChangeEvent(c: Change<EntityID>): (r: Change<EntityID>)
    requires IndirectlyCreatesID(c)
    ensures r.target == Component(IdKey) && r.id == c.id
    ensures r.op.Method() == c.op.Method() && r.op.Payload() == Num(c.id.value)
  {
    var v := Num(c.id.value);
    var op := match c.op
      case AddOp(_) => AddOp(v)
      case SetOp(_) => SetOp(v)
      case _ => NoMethodOp(v);
    Change(Component(IdKey), op, c.id)
  }

  /** The id event of a change is the `<method>-->id` event. */
  lemma IdChangeEventName(c: Change<EntityID>)
    requires IndirectlyCreatesID(c)
    ensures CreateChangeEvent(CreateIDChangeEvent(c)).target == Event(MethodName(c.op.Method()) + "-->" + IdKey)
  {
  }

  // ---------------------------------------------------------------------
  // The raw log

  /** Every entry of the raw log is a change the world recorded. */
  predicate RecordedLog(log: seq<Value>)
  {
    forall i :: 0 <= i < |log| ==> log[i].RawChange?
  }

  /** The changes on the raw log, in the order they were applied. */
  function RawLog(w: WorldState): (r: seq<Change<EntityID>>)
    requires RecordedLog(GetEvents(w, RawChangesKey))
    ensures |r| == |GetEvents(w, RawChangesKey)|
    ensures forall i :: 0 <= i < |r| ==> GetEvents(w, RawChangesKey)[i] == RawChange(r[i])
  {
    var log := GetEvents(w, RawChangesKey);
    seq(|log|, i requires 0 <= i < |log| => log[i].change)
  }

  /** The raw-changes-index resource; 0 when it is not a number. */
  function RawChangesIndex(w: WorldState): int
  {
    match Field(w.resources, RawChangesIndexKey)
    case Num(n) => n
    case _ => 0
  }

  /** JavaScript `s.slice(start)`: a negative start counts back from the end. */
  function SliceFrom<T>(s: seq<T>, start: int): (r: seq<T>)
    ensures 0 <= start <= |s| ==> r == s[start..]
    ensures start > |s| ==> r == []
    ensures start < 0 ==> r == s[if |s| + start < 0 then 0 else |s| + start..]
  {
    if start < 0 then s[if |s| + start < 0 then 0 else |s| + start..]
    else if start <= |s| then s[start..]
    else []
  }

  /** The raw changes not yet split into events: the log from the index on. */
  function Pending(w: WorldState): seq<Change<EntityID>>
    requires RecordedLog(GetEvents(w, RawChangesKey))
  {
    SliceFrom(RawLog(w), RawChangesIndex(w))
  }

  /** `cs.filter(p)`: the changes satisfying `p`, in order. */
  function Keep(cs: seq<Change<EntityID>>, p: Change<EntityID> -> bool): (r: seq<Change<EntityID>>)
    ensures forall c: Change<EntityID> :: c in r <==> c in cs && p(c)
    ensures |r| <= |cs|
    decreases |cs|
  {
    if cs == [] then []
    else
      var init := cs[..|cs| - 1];
      var c := cs[|cs| - 1];
      assert cs == init + [c];
      if p(c) then Keep(init, p) + [c] else Keep(init, p)
  }

  /** Filtering a concatenation filters each part. */
  lemma {:induction false} KeepConcat(a: seq<Change<EntityID>>, b: seq<Change<EntityID>>, p: Change<EntityID> -> bool)
    ensures Keep(a + b, p) == Keep(a, p) + Keep(b, p)
    decreases |b|
  {
    if b == [] {
      assert a + b == a;
    } else {
      var init := b[..|b| - 1];
      assert (a + b)[..|a + b| - 1] == a + init;
      assert (a + b)[|a + b| - 1] == b[|b| - 1];
      KeepConcat(a, init, p);
    }
  }

  /** The raw changes that are not themselves change events. */
  function NonChangeEvents(cs: seq<Change<EntityID>>): (r: seq<Change<EntityID>>)
    ensures forall c: Change<EntityID> :: c in r <==> c in cs && !IsChangeEvent(c)
  {
    Keep(cs, c => !IsChangeEvent(c))
  }

  /** One change event per raw change, in order. */
  function ChangeEventsFor(cs: seq<Change<EntityID>>): (r: seq<Change<Entity>>)
    ensures |r| == |cs| && forall i :: 0 <= i < |cs| ==> r[i] == CreateChangeEvent(cs[i])
  {
    seq(|cs|, i requires 0 <= i < |cs| => CreateChangeEvent(cs[i]))
  }

  /** Nothing is left after dropping the change events exactly when all were change events. */
  lemma NonChangeEventsEmpty(cs: seq<Change<EntityID>>)
    ensures NonChangeEvents(cs) == [] <==> forall c: Change<EntityID> :: c in cs ==> IsChangeEvent(c)
  {
    var r := NonChangeEvents(cs);
    if r != [] {
      assert r[0] in r;
    }
  }

  /** Every change of the list has its event among the events. */
  lemma ChangeEventsForCovers(cs: seq<Change<EntityID>>, c: Change<EntityID>)
    requires c in cs
    ensures CreateChangeEvent(c) in ChangeEventsFor(cs)
  {
    var i :| 0 <= i < |cs| && cs[i] == c;
    assert ChangeEventsFor(cs)[i] == CreateChangeEvent(c);
  }

  /** Every event of the list is the event of one change of the list, which it carries. */
  lemma ChangeEventsForSound(cs: seq<Change<EntityID>>, e: Change<Entity>)
    requires e in ChangeEventsFor(cs)
    ensures e.op.AddOp? && e.op.value.RawChange?
    ensures e == CreateChangeEvent(e.op.value.change) && e.op.value.change in cs
  {
    var i :| 0 <= i < |cs| && ChangeEventsFor(cs)[i] == e;
    assert e == CreateChangeEvent(cs[i]);
  }

  /** The raw changes that create an entity, restated on the `id` component. */
  function IdChanges(cs: seq<Change<EntityID>>): (r: seq<Change<EntityID>>)
    ensures var creators := Keep(cs, IndirectlyCreatesID);
      |r| == |creators| && forall i :: 0 <= i < |r| ==> r[i] == CreateIDChangeEvent(creators[i])
  {
    var creators := Keep(cs, IndirectlyCreatesID);
    seq(|creators|, i requires 0 <= i < |creators| => CreateIDChangeEvent(creators[i]))
  }

  /** Event changes reserve no unborn entity. */
  lemma EventChangesUseNoOffsets(cs: seq<Change<Entity>>)
    requires forall i :: 0 <= i < |cs| ==> cs[i].target.Event?
    ensures UsedOffsetSet(cs) == {}
  {
  }

  // ---------------------------------------------------------------------
  // rawChangeEvents.ts

  /** The change that sets the raw-changes-index resource. */
  function SetIndex(n: int): Change<Entity>
  {
    Change(Resource(RawChangesIndexKey), SetOp(Num(n)), None)
  }

  /**
   * addChangeEvents: the `id` events of the pending changes that create an
   * entity, then one event per pending change that is not itself a change
   * event, then the index moved to the end of the log. The proposal
   * reserves nothing.
   */
  function AddChangeEvents(w: WorldState): (r: IntentionState)
    requires RecordedLog(GetEvents(w, RawChangesKey))
    ensures r.generatedIds == 0
    ensures r.changes == ChangeEventsFor(IdChanges(NonChangeEvents(Pending(w)))) + ChangeEventsFor(NonChangeEvents(Pending(w)))
      + [SetIndex(|GetEvents(w, RawChangesKey)|)]
  {
    var plain := NonChangeEvents(Pending(w));
    ProposeEvents(ChangeEventsFor(IdChanges(plain)), ChangeEventsFor(plain), |GetEvents(w, RawChangesKey)|)
  }

  /**
   * A fresh intention given two lists of events and then the index: the
   * events reserve no entity, so the counter stays at zero.
   */
  function ProposeEvents(first: seq<Change<Entity>>, second: seq<Change<Entity>>, index: int): (r: IntentionState)
    requires forall i :: 0 <= i < |first| ==> first[i].target.Event?
    requires forall i :: 0 <= i < |second| ==> second[i].target.Event?
    ensures r == IntentionState(first + second + [SetIndex(index)], 0)
  {
    EventChangesUseNoOffsets(first);
    EventChangesUseNoOffsets(second);
    var p := AddChangesSpec(AddChangesSpec(IntentionState([], 0), first), second);
    AddChangeSpec(p, SetIndex(index))
  }

  /**
   * Every event addChangeEvents proposes is a change event, so the raw
   * changes recording them produce no further events in the next round.
   */
  lemma AddChangeEventsNoEcho(w: WorldState)
    requires RecordedLog(GetEvents(w, RawChangesKey))
    ensures var r := AddChangeEvents(w).changes;
      forall i :: 0 <= i < |r| - 1 ==> r[i].target.Event? && IsChangeEvent(r[i])
  {
    var r := AddChangeEvents(w).changes;
    var plain := NonChangeEvents(Pending(w));
    var ids := ChangeEventsFor(IdChanges(plain));
    forall i | 0 <= i < |r| - 1
      ensures r[i].target.Event? && IsChangeEvent(r[i])
    {
      if i < |ids| {
        assert r[i] in ids;
      } else {
        assert r[i] == ChangeEventsFor(plain)[i - |ids|];
      }
    }
  }

  /**
   * Each pending raw change that is not a change event gets exactly its
   * own event, in log order, carrying it; one that is a change event gets
   * none.
   */
  lemma AddChangeEventsPerKey(w: WorldState)
    requires RecordedLog(GetEvents(w, RawChangesKey))
    ensures var plain := NonChangeEvents(Pending(w));
      var r := AddChangeEvents(w).changes;
      var k := |IdChanges(plain)|;
      && |r| == k + |plain| + 1
      && r[k..k + |plain|] == ChangeEventsFor(plain)
      && (forall c: Change<EntityID> :: c in Pending(w) && !IsChangeEvent(c) ==> CreateChangeEvent(c) in r[k..k + |plain|])
      && (forall e :: e in r[k..k + |plain|] ==>
            e.op.AddOp? && e.op.value.RawChange? && e == CreateChangeEvent(e.op.value.change)
            && e.op.value.change in Pending(w) && !IsChangeEvent(e.op.value.change))
  {
    var plain := NonChangeEvents(Pending(w));
    var r := AddChangeEvents(w).changes;
    var k := |IdChanges(plain)|;
    var ids := ChangeEventsFor(IdChanges(plain));
    assert r == ids + ChangeEventsFor(plain) + [SetIndex(|GetEvents(w, RawChangesKey)|)];
    assert r[k..k + |plain|] == ChangeEventsFor(plain);
    forall c: Change<EntityID> | c in Pending(w) && !IsChangeEvent(c)
      ensures CreateChangeEvent(c) in ChangeEventsFor(plain)
    {
      ChangeEventsForCovers(plain, c);
    }
    forall e | e in ChangeEventsFor(plain)
      ensures e.op.AddOp? && e.op.value.RawChange? && e == CreateChangeEvent(e.op.value.change)
        && e.op.value.change in Pending(w) && !IsChangeEvent(e.op.value.change)
    {
      ChangeEventsForSound(plain, e);
    }
  }

  /**
   * The extra `id` events come first: one per pending component add or
   * set (or change without a method) that carries an id on a component
   * other than `id` and is not a change event, in log order, each the
   * event of that change restated on `id`.
   */
  lemma AddChangeEventsIdEcho(w: WorldState)
    requires RecordedLog(GetEvents(w, RawChangesKey))
    ensures var creators := Keep(NonChangeEvents(Pending(w)), IndirectlyCreatesID);
      var r := AddChangeEvents(w).changes;
      && |creators| < |r|
      && (forall i :: 0 <= i < |creators| ==> r[i] == CreateChangeEvent(CreateIDChangeEvent(creators[i])))
      && (forall c: Change<EntityID> :: c in creators <==> c in Pending(w) && !IsChangeEvent(c) && IndirectlyCreatesID(c))
  {
    var plain := NonChangeEvents(Pending(w));
    var index := [SetIndex(|GetEvents(w, RawChangesKey)|)];
    ConcatAssoc(ChangeEventsFor(IdChanges(plain)), ChangeEventsFor(plain), index);
    EchoesLead(plain, ChangeEventsFor(plain) + index);
  }

  /** The `id` echoes come first, one per creating change, in order. */
  lemma EchoesLead(plain: seq<Change<EntityID>>, rest: seq<Change<Entity>>)
    ensures var creators := Keep(plain, IndirectlyCreatesID);
      var r := ChangeEventsFor(IdChanges(plain)) + rest;
      && |creators| + |rest| == |r|
      && forall i :: 0 <= i < |creators| ==> r[i] == CreateChangeEvent(CreateIDChangeEvent(creators[i]))
  {
    var creators := Keep(plain, IndirectlyCreatesID);
    var echoes := ChangeEventsFor(IdChanges(plain));
    var r := echoes + rest;
    forall i | 0 <= i < |creators|
      ensures r[i] == CreateChangeEvent(CreateIDChangeEvent(creators[i]))
    {
      assert r[i] == echoes[i];
    }
  }

  /**
   * Nothing but the index is proposed exactly when every pending raw
   * change is itself a change event.
   */
  lemma AddChangeEventsOnlyIndex(w: WorldState)
    requires RecordedLog(GetEvents(w, RawChangesKey))
    ensures |AddChangeEvents(w).changes| == 1 <==> forall c: Change<EntityID> :: c in Pending(w) ==> IsChangeEvent(c)
  {
    NonChangeEventsEmpty(Pending(w));
  }

  /**
   * Once the proposal's index change is applied, and nothing else, the
   * index points past the old log and only that recorded change is
   * pending.
   */
  lemma AddChangeEventsAdvancesIndex(w: WorldState, user: UserFns)
    requires ValidWorld(w) && RecordedLog(GetEvents(w, RawChangesKey))
    ensures var c := ExtractChangeEntityId(SetIndex(|GetEvents(w, RawChangesKey)|));
      var w' := ApplyChangeSpec(w, c, user);
      && RecordedLog(GetEvents(w', RawChangesKey))
      && RawChangesIndex(w') == |GetEvents(w, RawChangesKey)|
      && Pending(w') == [c]
  {
    var c := ExtractChangeEntityId(SetIndex(|GetEvents(w, RawChangesKey)|));
    var w' := ApplyChangeSpec(w, c, user);
    ApplyChangeRecords(w, c, user);
    var n := |GetEvents(w, RawChangesKey)|;
    assert GetEvents(w', RawChangesKey) == GetEvents(w, RawChangesKey) + [RawChange(c)];
    assert RawLog(w')[n..] == [c];
  }

  /** resetRawChangesIndex: sets the index back to 0. */
  function ResetRawChangesIndex(): (r: IntentionState)
    ensures r.changes == [SetIndex(0)] && r.generatedIds == 0
  {
    AddChangeSpec(IntentionState([], 0), SetIndex(0))
  }

  /** After the reset is applied, the whole raw log is pending again. */
  lemma ResetMakesWholeLogPending(w: WorldState, user: UserFns)
    requires ValidWorld(w) && RecordedLog(GetEvents(w, RawChangesKey))
    ensures var w' := ApplyChangeSpec(w, ExtractChangeEntityId(ResetRawChangesIndex().changes[0]), user);
      RecordedLog(GetEvents(w', RawChangesKey)) && RawChangesIndex(w') == 0 && Pending(w') == RawLog(w')
  {
    var c := ExtractChangeEntityId(ResetRawChangesIndex().changes[0]);
    ApplyChangeRecords(w, c, user);
  }

  // ---------------------------------------------------------------------
  // modifiedEvents.ts

  /** The `modified-->key` event carrying the raw change. */
  function ModifiedEvent(c: Change<EntityID>): (r: Change<Entity>)
    ensures r.target.Event? && IsChangeEvent(r) && r.op == AddOp(RawChange(c)) && r.id.None?
  {
    Change(Event(ChangeEventName("modified", c.target.name)), AddOp(RawChange(c)), None)
  }

  /**
   * addModifiedEvents: nothing when no raw change is anything but a change
   * event; otherwise one `modified` event per such raw change, deletes
   * included, in log order. It reads the whole log and ignores the index.
   */
  function AddModifiedEvents(w: WorldState): (r: Option<IntentionState>)
    requires RecordedLog(GetEvents(w, RawChangesKey))
    ensures r.None? <==> forall c: Change<EntityID> :: c in RawLog(w) ==> IsChangeEvent(c)
    ensures r.Some? ==> var plain := NonChangeEvents(RawLog(w));
      && r.value.generatedIds == 0 && |r.value.changes| == |plain|
      && forall i :: 0 <= i < |plain| ==> r.value.changes[i] == ModifiedEvent(plain[i])
  {
    var log := RawLog(w);
    NonChangeEventsEmpty(log);
    if |log| == 0 then None
    else
      var plain := NonChangeEvents(log);
      if |plain| == 0 then None
      else Some(IntentionState(seq(|plain|, i requires 0 <= i < |plain| => ModifiedEvent(plain[i])), 0))
  }

  /** A recorded delete that is not a change event gets a `modified` event. */
  lemma ModifiedIncludesDeletes(w: WorldState, c: Change<EntityID>)
    requires RecordedLog(GetEvents(w, RawChangesKey))
    requires c in RawLog(w) && c.op.DeleteOp? && !IsChangeEvent(c)
    ensures AddModifiedEvents(w).Some? && ModifiedEvent(c) in AddModifiedEvents(w).value.changes
  {
    var plain := NonChangeEvents(RawLog(w));
    var i :| 0 <= i < |plain| && plain[i] == c;
    assert AddModifiedEvents(w).value.changes[i] == ModifiedEvent(c);
  }

  /** Moving the index does not change what addModifiedEvents proposes. */
  lemma ModifiedIgnoresIndex(w: WorldState, v: Value)
    requires RecordedLog(GetEvents(w, RawChangesKey))
    ensures var w' := w.(resources := w.resources[RawChangesIndexKey := v]);
      RecordedLog(GetEvents(w', RawChangesKey)) && AddModifiedEvents(w') == AddModifiedEvents(w)
  {
    var w' := w.(resources := w.resources[RawChangesIndexKey := v]);
    assert RawLog(w') == RawLog(w);
  }
}
