// Shared data model of the entity-component-system kernel: entities, the
// changes that systems propose, and the dynamic values the world stores.
// Values and changes are declared together because a recorded change is
// itself an event value.

module Types {

  datatype Option<T> = None | Some(value: T)

  /** An entity's numeric identifier. */
  type EntityID = nat

  /**
   * An entity reference: `Real` names an entity that exists, `Unborn`
   * names one that a proposal has reserved but the world has not created,
   * by its offset among the proposal's reservations. `RealWithoutId` is a
   * reference marked as existing whose id is undefined, which is what
   * `ID.real` makes of an undefined id.
   */
  datatype Entity = Real(id: EntityID) | RealWithoutId | Unborn(offset: nat)

  /**
   * The four kinds of change, and `Missing` for a change record built
   * without a `method` field.
   */
  datatype ChangeType = Add | Set | Update | Delete | Missing

  /** The path of a change: the section it touches and the key within it. */
  datatype Target = Component(name: string) | Resource(name: string) | Event(name: string)

  /**
   * An update function carried by an `update` change. User callbacks are
   * opaque here and are identified by a tag; `ForgetIds` is the closure the
   * entity-revival system builds, which deletes some ids from a set.
   */
  datatype Fn = UserFn(tag: nat) | ForgetIds(ids: seq<Value>)

  /**
   * What a change does at its target, with the payload each kind carries.
   * `NoMethodOp` is a record with a value but no `method` field, which the
   * change handlers' switches do not match.
   */
  datatype Op = AddOp(value: Value) | SetOp(value: Value) | UpdateOp(fn: Fn) | DeleteOp | NoMethodOp(value: Value)
  {
    function Method(): ChangeType
    {
      match this
      case AddOp(_) => Add
      case SetOp(_) => Set
      case UpdateOp(_) => Update
      case DeleteOp => Delete
      case NoMethodOp(_) => Missing
    }

    /** The `value` field of the change; `update` and `delete` have none. */
    function Payload(): Value
    {
      match this
      case AddOp(v) => v
      case SetOp(v) => v
      case UpdateOp(_) => Undefined
      case DeleteOp => Undefined
      case NoMethodOp(v) => v
    }
  }

  /**
   * A proposed change. `I` is the type of entity reference: `Entity` while
   * the change sits in a proposal, `EntityID` once the world applies it.
   */
  datatype Change<I> = Change(target: Target, op: Op, id: Option<I>)

  /**
   * The dynamic values stored as components, resources and events.
   * `IdSet` is a JavaScript `Set` of numbers in insertion order (no
   * duplicates); `NameSet` a `Set` of strings whose order is never observed;
   * `RawChange` a change the world recorded on the `raw-changes` event.
   */
  datatype Value =
    | Undefined
    | Bool(b: bool)
    | Num(n: int)
    | Str(s: string)
    | Arr(items: seq<Value>)
    | Record(fields: map<string, Value>)
    | IdSet(ids: seq<EntityID>)
    | NameSet(names: set<string>)
    | RawChange(change: Change<EntityID>)

  /** The interpretation of user callbacks, which the model cannot see. */
  type UserFns = (nat, Value) -> Value

  function MethodName(m: ChangeType): string
  {
    match m
    case Add => "add"
    case Set => "set"
    case Update => "update"
    case Delete => "delete"
    case Missing => "undefined"
  }
}
