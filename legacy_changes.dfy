// The older copy of the change-event systems (src/plugins/core/changes.ts).
// Its addChangeEvents, executeEntities and resetRawChangesIndex are the
// same code as the current ones and share their definitions; this module
// holds the two systems that behave differently.

module LegacyChanges {
  import opened Types
  import opened Util
  import opened Changes
  import opened Intentions
  import opened Worlds
  import opened Keys
  import opened ChangeEvents
  import opened IdRecycling

  /** The id of each `delete-->id` event as a value: undefined when it has none. */
  function DeletionIdValues(events: seq<Value>): (r: seq<Value>)
    ensures |r| == |events|
    ensures forall i :: 0 <= i < |events| ==> r[i] == match EventId(events[i]) case Some(id) => Num(id) case None => Undefined
  {
    seq(|events|, i requires 0 <= i < |events| => match EventId(events[i]) case Some(id) => Num(id) case None => Undefined)
  }

  /**
   * entityDeletionCleanup, older version: the id of every `delete-->id`
   * event, undefined included, added to death's door; nothing when there
   * are no such events. It has no delete-all fallback.
   */
  function LegacyEntityDeletionCleanup(w: WorldState): (r: Option<IntentionState>)
    ensures r.None? <==> IdDeletions(w) == []
    ensures r.Some? ==> r.value.generatedIds == 0 && r.value.changes == EventChanges(DeathsDoorKey, DeletionIdValues(IdDeletions(w)))
  {
    var ids := DeletionIdValues(IdDeletions(w));
    if |ids| == 0 then None
    else
      var cs := EventChanges(DeathsDoorKey, ids);
      EventChangesUseNoOffsets(cs);
      Some(AddChangesSpec(IntentionState([], 0), cs))
  }

  /** When every deletion names its id, both versions queue the same entries. */
  lemma LegacyCleanupAgreesWhenNamed(w: WorldState)
    requires ValidWorld(w) && !DeletedAll(w)
    ensures LegacyEntityDeletionCleanup(w) == EntityDeletionCleanup(w)
  {
    var events := IdDeletions(w);
    if events != [] {
      var ids := DeletedIds(w);
      assert DeletionIdValues(events) == NumIds(ids) by {
        forall i | 0 <= i < |events|
          ensures DeletionIdValues(events)[i] == NumIds(ids)[i]
        {
          assert Some(ids[i]) == EventId(events[i]);
        }
      }
    }
  }

  /**
   * A delete-all (an event with no id) puts `undefined` on death's door in
   * the older version, where the current one queues every live id instead.
   */
  lemma LegacyCleanupQueuesUndefined(w: WorldState, i: nat)
    requires i < |IdDeletions(w)| && EventId(IdDeletions(w)[i]).None?
    ensures LegacyEntityDeletionCleanup(w).Some?
    ensures LegacyEntityDeletionCleanup(w).value.changes[i] == Change(Event(DeathsDoorKey), AddOp(Undefined), None)
    ensures DeletedAll(w)
  {
    var events := IdDeletions(w);
    PresentKeepsAll(EventIds(events));
    assert EventIds(events)[i].None?;
  }

  /** A change the older modified-events system keeps: not a delete and not a change event. */
  predicate WouldModify(c: Change<EntityID>)
  {
    !c.op.DeleteOp? && !IsChangeEvent(c)
  }

  /**
   * addModifiedEvents, older version: like the current one, but delete
   * changes get no `modified` event either.
   */
  function LegacyAddModifiedEvents(w: WorldState): (r: Option<IntentionState>)
    requires RecordedLog(GetEvents(w, RawChangesKey))
    ensures r.None? <==> forall c: Change<EntityID> :: c in RawLog(w) ==> !WouldModify(c)
    ensures r.Some? ==> var kept := Keep(RawLog(w), WouldModify);
      && r.value.generatedIds == 0 && |r.value.changes| == |kept|
      && forall i :: 0 <= i < |kept| ==> r.value.changes[i] == ModifiedEvent(kept[i])
  {
    var log := RawLog(w);
    var kept := Keep(log, WouldModify);
    if |log| == 0 then None
    else if |kept| == 0 then
      assert forall c: Change<EntityID> :: c in log ==> !WouldModify(c);
      None
    else
      assert kept[0] in log;
      Some(IntentionState(seq(|kept|, i requires 0 <= i < |kept| => ModifiedEvent(kept[i])), 0))
  }

  /**
   * The older version emits a `modified` event for a recorded change
   * exactly when it is neither a delete nor a change event.
   */
  lemma LegacyModifiedExactly(w: WorldState, c: Change<EntityID>)
    requires RecordedLog(GetEvents(w, RawChangesKey)) && c in RawLog(w)
    ensures (LegacyAddModifiedEvents(w).Some? && ModifiedEvent(c) in LegacyAddModifiedEvents(w).value.changes) <==> WouldModify(c)
  {
    var kept := Keep(RawLog(w), WouldModify);
    if WouldModify(c) {
      var i :| 0 <= i < |kept| && kept[i] == c;
      assert LegacyAddModifiedEvents(w).value.changes[i] == ModifiedEvent(c);
    }
  }

  /**
   * A world whose only recorded change is a component delete: the current
   * version announces it as modified, the older one proposes nothing.
   */
  lemma DeleteOnlyLogDiffers(w: WorldState, name: string, id: EntityID)
    requires GetEvents(w, RawChangesKey) == [RawChange(Change(Component(name), DeleteOp, Some(id)))]
    requires '>' !in name
    ensures AddModifiedEvents(w).Some? && LegacyAddModifiedEvents(w).None?
  {
    var c: Change<EntityID> := Change(Component(name), DeleteOp, Some(id));
    assert RawLog(w) == [c];
    NoDividerNoChangeEvent(name);
    ModifiedIncludesDeletes(w, c);
  }
}
