// Constructors and tests for entity references (src/lib/entity.ts).

module Entities {
  import opened Types

  /** A reference to the existing entity `id`. */
  function FixedID(id: EntityID): (e: Entity)
    ensures IsFixed(e) && HasID(e, id)
    ensures forall v :: HasID(e, v) <==> v == id
  {
    Real(id)
  }

  /** A reference to the proposal's `offset`-th reserved entity. */
  function RelativeID(offset: nat): (e: Entity)
    ensures IsUnborn(e) && HasOffset(e, offset)
    ensures forall o :: HasOffset(e, o) <==> o == offset
  {
    Unborn(offset)
  }

  /** A reference marked as existing, whether or not it carries an id. */
  predicate IsFixed(e: Entity)
  {
    !e.Unborn?
  }

  /** Every reference is exactly one of fixed and unborn. */
  function IsUnborn(e: Entity): (r: bool)
    ensures r <==> !IsFixed(e)
  {
    e.Unborn?
  }

  /** True exactly for the fixed reference to `v`. */
  function HasID(e: Entity, v: EntityID): (r: bool)
    ensures r <==> e == Real(v)
  {
    e.Real? && e.id == v
  }

  /** True exactly for the unborn reference at `offset`. */
  function HasOffset(e: Entity, offset: nat): (r: bool)
    ensures r <==> e == Unborn(offset)
  {
    e.Unborn? && e.offset == offset
  }
}
