// The older, immutable list of changes a system returns (src/lib/system.ts):
// every builder returns a new list with one more change and leaves the
// receiver as it was.

module SystemResultsModel {
  import opened Types
  import opened Changes

  /** The value a change carries: data, an update function, or nothing. */
  datatype Payload = Given(v: Value) | UpdateWith(f: Fn) | NoPayload

  /** The ids a change names: none, one number, or a list of numbers. */
  datatype Ids = NoIds | OneId(id: int) | ManyIds(ids: seq<int>)

  /** A change record: method, path, value and ids. */
  datatype SystemChange = SystemChange(kind: ChangeType, path: seq<string>, value: Payload, ids: Ids)

  /** The first path segment of each section. */
  const ComponentsSection: string := "components"
  const ResourcesSection: string := "resources"
  const EventsSection: string := "events"

  /** createSystemChange: the four parts packed unchanged. */
  function CreateSystemChange(kind: ChangeType, path: seq<string>, value: Payload, ids: Ids): (r: SystemChange)
    ensures r.kind == kind && r.path == path && r.value == value && r.ids == ids
  {
    SystemChange(kind, path, value, ids)
  }

  /** The older event name: method and key joined by `--`. */
  function LegacyChangeEventName(kind: string, key: string): (r: string)
    ensures |r| == |kind| + 2 + |key| && r[..|kind|] == kind && r[|kind| + 2..] == key
    ensures r[|kind|..|kind| + 2] == "--"
  {
    kind + "--" + key
  }

  /**
   * The older names are not change events for the current kernel: when
   * neither part contains `>`, the name never contains `-->`.
   */
  lemma LegacyNameIsNotChangeEvent(kind: string, key: string)
    requires '>' !in kind && '>' !in key
    ensures !Includes(LegacyChangeEventName(kind, key), ChangeEventDivider)
  {
    var r := LegacyChangeEventName(kind, key);
    assert forall i :: 0 <= i < |r| ==> r[i] != '>' by {
      forall i | 0 <= i < |r| ensures r[i] != '>' {
        if i < |kind| {
          assert r[i] == kind[i];
        } else if i >= |kind| + 2 {
          assert r[i] == key[i - |kind| - 2];
        } else {
          assert r[|kind|..|kind| + 2][i - |kind|] == r[i];
        }
      }
    }
    NoDividerNoChangeEvent(r);
  }

  /** The same kind of change under both names: `add--hp` against `add-->hp`. */
  lemma LegacyAndCurrentNamesDiffer()
    ensures LegacyChangeEventName("add", "hp") != ChangeEventName("add", "hp")
  {
    assert LegacyChangeEventName("add", "hp")[3..5] == "--";
    assert ChangeEventName("add", "hp")[3..6] == "-->";
  }

  /** `after` is `before` with exactly `c` appended. */
  predicate AppendsOne(before: SystemResults, after: SystemResults, c: SystemChange)
  {
    && |after.changes| == |before.changes| + 1
    && after.changes[..|before.changes|] == before.changes
    && after.changes[|before.changes|] == c
  }

  /** The change list a system returns. */
  datatype SystemResults = SystemResults(changes: seq<SystemChange>)
  {
    /** addChange: a new list with the change appended. */
    function AddChange(c: SystemChange): (r: SystemResults)
      ensures |r.changes| == |changes| + 1 && r.changes[..|changes|] == changes && r.changes[|changes|] == c
    {
      SystemResults(changes + [c])
    }

    /** merge: this list's changes followed by the other's. */
    function Merge(other: SystemResults): (r: SystemResults)
      ensures |r.changes| == |changes| + |other.changes|
      ensures r.changes[..|changes|] == changes && r.changes[|changes|..] == other.changes
    {
      SystemResults(changes + other.changes)
    }

    /** addChanges: merge with a list holding the given changes. */
    function AddChanges(cs: seq<SystemChange>): (r: SystemResults)
      ensures |r.changes| == |changes| + |cs| && r.changes[..|changes|] == changes && r.changes[|changes|..] == cs
    {
      Merge(SystemResults(cs))
    }

    /** The four generic builders: one change of the given method at the path. */
    function AddAt(path: seq<string>, values: Value, ids: Ids): (r: SystemResults)
      ensures AppendsOne(this, r, SystemChange(ChangeType.Add, path, Given(values), ids))
    {
      AddChange(CreateSystemChange(ChangeType.Add, path, Given(values), ids))
    }

    function SetAt(path: seq<string>, values: Value, ids: Ids): (r: SystemResults)
      ensures AppendsOne(this, r, SystemChange(ChangeType.Set, path, Given(values), ids))
    {
      AddChange(CreateSystemChange(ChangeType.Set, path, Given(values), ids))
    }

    function UpdateAt(path: seq<string>, f: Fn, ids: Ids): (r: SystemResults)
      ensures AppendsOne(this, r, SystemChange(ChangeType.Update, path, UpdateWith(f), ids))
    {
      AddChange(CreateSystemChange(ChangeType.Update, path, UpdateWith(f), ids))
    }

    function DeleteAt(path: seq<string>, values: Payload, ids: Ids): (r: SystemResults)
      ensures AppendsOne(this, r, SystemChange(ChangeType.Delete, path, values, ids))
    {
      AddChange(CreateSystemChange(ChangeType.Delete, path, values, ids))
    }

    /**
     * addBundle: one `add` per entry, under `components/<name>`, in entry
     * order, all naming the same ids.
     */
    function AddBundle(bundle: seq<(string, Value)>, id: Ids): (r: SystemResults)
      ensures |r.changes| == |changes| + |bundle| && r.changes[..|changes|] == changes
      ensures forall i :: 0 <= i < |bundle| ==>
        r.changes[|changes| + i] == SystemChange(ChangeType.Add, [ComponentsSection, bundle[i].0], Given(bundle[i].1), id)
    {
      AddChanges(seq(|bundle|, i requires 0 <= i < |bundle| => CreateSystemChange(ChangeType.Add, [ComponentsSection, bundle[i].0], Given(bundle[i].1), id)))
    }

    /** The section builders: the generic builder at `<section>/<name>`. */
    function AddComponents(name: string, values: Value, ids: Ids): (r: SystemResults)
      ensures AppendsOne(this, r, SystemChange(ChangeType.Add, [ComponentsSection, name], Given(values), ids))
    {
      AddAt([ComponentsSection, name], values, ids)
    }

    function SetComponents(name: string, values: Value, ids: Ids): (r: SystemResults)
      ensures AppendsOne(this, r, SystemChange(ChangeType.Set, [ComponentsSection, name], Given(values), ids))
    {
      SetAt([ComponentsSection, name], values, ids)
    }

    function DeleteComponents(name: string, values: Payload, ids: Ids): (r: SystemResults)
      ensures AppendsOne(this, r, SystemChange(ChangeType.Delete, [ComponentsSection, name], values, ids))
    {
      DeleteAt([ComponentsSection, name], values, ids)
    }

    function UpdateComponents(name: string, f: Fn, ids: Ids): (r: SystemResults)
      ensures AppendsOne(this, r, SystemChange(ChangeType.Update, [ComponentsSection, name], UpdateWith(f), ids))
    {
      UpdateAt([ComponentsSection, name], f, ids)
    }

    function AddResource(name: string, value: Value, ids: Ids): (r: SystemResults)
      ensures AppendsOne(this, r, SystemChange(ChangeType.Add, [ResourcesSection, name], Given(value), ids))
    {
      AddAt([ResourcesSection, name], value, ids)
    }

    function SetResource(name: string, values: Value, ids: Ids): (r: SystemResults)
      ensures AppendsOne(this, r, SystemChange(ChangeType.Set, [ResourcesSection, name], Given(values), ids))
    {
      SetAt([ResourcesSection, name], values, ids)
    }

    function DeleteResource(name: string, values: Payload, ids: Ids): (r: SystemResults)
      ensures AppendsOne(this, r, SystemChange(ChangeType.Delete, [ResourcesSection, name], values, ids))
    {
      DeleteAt([ResourcesSection, name], values, ids)
    }

    function UpdateResource(name: string, f: Fn, ids: Ids): (r: SystemResults)
      ensures AppendsOne(this, r, SystemChange(ChangeType.Update, [ResourcesSection, name], UpdateWith(f), ids))
    {
      UpdateAt([ResourcesSection, name], f, ids)
    }

    function AddEvents(name: string, values: Value, ids: Ids): (r: SystemResults)
      ensures AppendsOne(this, r, SystemChange(ChangeType.Add, [EventsSection, name], Given(values), ids))
    {
      AddAt([EventsSection, name], values, ids)
    }

    function SetEvents(name: string, values: Value, ids: Ids): (r: SystemResults)
      ensures AppendsOne(this, r, SystemChange(ChangeType.Set, [EventsSection, name], Given(values), ids))
    {
      SetAt([EventsSection, name], values, ids)
    }

    function DeleteEvents(name: string, values: Payload, ids: Ids): (r: SystemResults)
      ensures AppendsOne(this, r, SystemChange(ChangeType.Delete, [EventsSection, name], values, ids))
    {
      DeleteAt([EventsSection, name], values, ids)
    }

    function UpdateEvents(name: string, f: Fn, ids: Ids): (r: SystemResults)
      ensures AppendsOne(this, r, SystemChange(ChangeType.Update, [EventsSection, name], UpdateWith(f), ids))
    {
      UpdateAt([EventsSection, name], f, ids)
    }
  }

  /** A new list holds no changes. */
  function NewSystemResults(): (r: SystemResults)
    ensures |r.changes| == 0
  {
    SystemResults([])
  }

  /** Merging is associative, and the empty list is its unit on both sides. */
  lemma MergeIsMonoid(a: SystemResults, b: SystemResults, c: SystemResults)
    ensures a.Merge(b).Merge(c) == a.Merge(b.Merge(c))
    ensures NewSystemResults().Merge(a) == a && a.Merge(NewSystemResults()) == a
  {
    assert (a.changes + b.changes) + c.changes == a.changes + (b.changes + c.changes);
    assert [] + a.changes == a.changes && a.changes + [] == a.changes;
  }

  /**
   * Building is persistent: a builder applied to a list leaves that list
   * as it was, and the list built from it starts with the old changes.
   */
  lemma BuildersArePersistent(r: SystemResults, path: seq<string>, v: Value, w: Value, ids: Ids)
    ensures var one := NewSystemResults().AddAt(path, v, ids);
      var two := one.AddAt(path, w, ids);
      && |one.changes| == 1 && |two.changes| == 2 && two.changes[..1] == one.changes
    ensures |r.AddAt(path, v, ids).changes| == |r.changes| + 1 && r.AddAt(path, v, ids).changes[..|r.changes|] == r.changes
  {
  }

  /** The documented bundle: two components for entity 1 give two adds, both naming 1. */
  lemma BundleExample()
    ensures var r := NewSystemResults().AddBundle([("hp", Num(10)), ("armor", Str("heavy"))], OneId(1));
      && |r.changes| == 2
      && (forall i :: 0 <= i < 2 ==> r.changes[i].ids == OneId(1) && r.changes[i].kind == ChangeType.Add)
      && r.changes[0].path == [ComponentsSection, "hp"] && r.changes[1].path == [ComponentsSection, "armor"]
  {
  }

  /** Every change a bundle adds is an `add` of a component named in the bundle, naming the given ids. */
  lemma BundleAddsComponents(r: SystemResults, bundle: seq<(string, Value)>, id: Ids, c: SystemChange)
    requires c in r.AddBundle(bundle, id).changes && c !in r.changes
    ensures c.kind == ChangeType.Add && c.ids == id && |c.path| == 2 && c.path[0] == ComponentsSection
    ensures exists i :: 0 <= i < |bundle| && c.path[1] == bundle[i].0 && c.value == Given(bundle[i].1)
  {
    var all := r.AddBundle(bundle, id).changes;
    var k :| 0 <= k < |all| && all[k] == c;
    var i := k - |r.changes|;
    assert c == SystemChange(ChangeType.Add, [ComponentsSection, bundle[i].0], Given(bundle[i].1), id);
  }
}
