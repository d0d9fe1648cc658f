// Generic helpers of the kernel (src/lib/util.ts) and the behaviour of the
// JavaScript `Set` of ids the kernel keeps as resources.

module Util {
  import opened Types

  // ---------------------------------------------------------------------
  // groupBy

  /** The elements of `xs` whose key is `k`, in their original order. */
  function KeyFilter<T, K(==)>(key: T -> K, xs: seq<T>, k: K): (r: seq<T>)
    ensures |r| <= |xs|
    ensures forall x :: x in r ==> x in xs && key(x) == k
  {
    if xs == [] then []
    else KeyFilter(key, xs[..|xs| - 1], k) + (if key(xs[|xs| - 1]) == k then [xs[|xs| - 1]] else [])
  }

  /**
   * Groups `xs` by `key`, appending each element to its group from the
   * left, as a reduce that associates the grown group under its key.
   */
  function GroupBy<T, K(==)>(key: T -> K, xs: seq<T>): map<K, seq<T>>
  {
    if xs == [] then map[]
    else
      var acc := GroupBy(key, xs[..|xs| - 1]);
      var x := xs[|xs| - 1];
      acc[key(x) := (if key(x) in acc then acc[key(x)] else []) + [x]]
  }

  /** Concatenation regrouped. */
  lemma ConcatAssoc<T>(x: seq<T>, y: seq<T>, z: seq<T>)
    ensures x + y + z == x + (y + z)
  {
  }

  /**
   * groupBy has one group per key that occurs, and each group holds exactly
   * the elements with that key, in list order.
   */
  lemma {:induction false} GroupByIsPartition<T, K>(key: T -> K, xs: seq<T>)
    ensures forall k :: k in GroupBy(key, xs) <==> exists x :: x in xs && key(x) == k
    ensures forall k :: k in GroupBy(key, xs) ==> GroupBy(key, xs)[k] == KeyFilter(key, xs, k)
    ensures forall k :: k in GroupBy(key, xs) ==> GroupBy(key, xs)[k] != []
  {
    if xs != [] {
      var init := xs[..|xs| - 1];
      var x := xs[|xs| - 1];
      GroupByIsPartition(key, init);
      assert xs == init + [x];
      forall k
        ensures k in GroupBy(key, xs) <==> exists y :: y in xs && key(y) == k
      {
        if k in GroupBy(key, xs) && k != key(x) {
          assert k in GroupBy(key, init);
          var y :| y in init && key(y) == k;
          assert y in xs;
        }
        if k == key(x) {
          assert x in xs;
        }
      }
      forall k | k in GroupBy(key, xs) && k != key(x)
        ensures GroupBy(key, xs)[k] == KeyFilter(key, xs, k)
      {
      }
      if key(x) !in GroupBy(key, init) && KeyFilter(key, init, key(x)) != [] {
        assert KeyFilter(key, init, key(x))[0] in KeyFilter(key, init, key(x));
        assert false;
      }
    }
  }

  /** Ramda's `zip`: pairs elements position by position, up to the shorter list. */
  function Zip<A, B>(a: seq<A>, b: seq<B>): (r: seq<(A, B)>)
    ensures |r| == if |a| < |b| then |a| else |b|
    ensures forall i :: 0 <= i < |r| ==> r[i] == (a[i], b[i])
  {
    if a == [] || b == [] then [] else [(a[0], b[0])] + Zip(a[1..], b[1..])
  }

  // ---------------------------------------------------------------------
  // wrap

  /** JavaScript falsiness of a value. */
  predicate Falsy(x: Value)
  {
    x == Undefined || x == Bool(false) || x == Num(0) || x == Str("")
  }

  /**
   * Normalises an optional value or array to an array: a falsy value gives
   * none, an array is returned as it is, anything else becomes a singleton.
   */
  function Wrap(x: Value): (r: seq<Value>)
    ensures Falsy(x) ==> r == []
    ensures x.Arr? ==> r == x.items
    ensures !Falsy(x) && !x.Arr? ==> |r| == 1 && r[0] == x
  {
    if Falsy(x) then []
    else if x.Arr? then x.items
    else [x]
  }

  // ---------------------------------------------------------------------
  // Nested-record editing (objModify and its three uses)

  /** What objModify does to the key at the end of the path. */
  datatype LeafEdit = Replace(f: Value -> Value) | Remove

  /** A field of a record, `Undefined` when it is missing. */
  function Field(fields: map<string, Value>, key: string): Value
  {
    if key in fields then fields[key] else Undefined
  }

  /** The value at `path` inside `v`, as a chain of property reads. */
  function GetIn(path: seq<string>, v: Value): Value
  {
    if path == [] then v
    else if v.Record? then GetIn(path[1..], Field(v.fields, path[0]))
    else Undefined
  }

  /**
   * The record that objModify descends into below `fields[key]`: the field
   * itself, or a fresh empty record when the field is undefined.
   */
  function Descend(fields: map<string, Value>, key: string): Value
  {
    if Field(fields, key) == Undefined then Record(map[]) else fields[key]
  }

  /**
   * Walks `path` inside `obj`, creating empty records for missing
   * intermediate keys, and edits the last key of the enclosing record.
   * Writing a property of something that is not a record throws a
   * `TypeError` in the source's strict-mode modules, given here as `None`.
   */
  function ObjModify(path: seq<string>, edit: LeafEdit, obj: Value): Option<Value>
    decreases |path|
  {
    if path == [] then Some(obj)
    else if !obj.Record? then None
    else if |path| == 1 then
      match edit
      case Replace(f) => Some(Record(obj.fields[path[0] := f(Field(obj.fields, path[0]))]))
      case Remove => Some(Record(obj.fields - {path[0]}))
    else
      match ObjModify(path[1..], edit, Descend(obj.fields, path[0]))
      case None => None
      case Some(child) => Some(Record(obj.fields[path[0] := child]))
  }

  /** Replaces the value at `path` with `f` of it. */
  function ObjUpdate(path: seq<string>, f: Value -> Value, obj: Value): Option<Value>
  {
    ObjModify(path, Replace(f), obj)
  }

  /** Sets the value at `path`. */
  function ObjAssoc(path: seq<string>, value: Value, obj: Value): Option<Value>
  {
    ObjUpdate(path, _ => value, obj)
  }

  /** The record `v` without the fields named in `keys` (Ramda's `omit`). */
  function Omit(keys: seq<string>, v: Value): Value
  {
    if v.Record? then Record(map k | k in v.fields && k !in keys :: v.fields[k])
    else Record(map[])
  }

  /**
   * With keys, removes those keys from the record at `path`; without, deletes
   * the key at the end of `path` from its enclosing record.
   */
  function ObjDelete(path: seq<string>, keys: seq<string>, obj: Value): Option<Value>
  {
    if |keys| > 0 then ObjUpdate(path, v => Omit(keys, v), obj)
    else ObjModify(path, Remove, obj)
  }

  /**
   * The walk succeeds exactly when every record it writes into is a record:
   * the root, and each intermediate value that is already defined.
   */
  predicate Walkable(path: seq<string>, obj: Value)
    decreases |path|
  {
    path == [] || (obj.Record? && (|path| == 1 || Walkable(path[1..], Descend(obj.fields, path[0]))))
  }

  /** Two paths that part ways at some position. */
  predicate Diverge(p: seq<string>, q: seq<string>)
    decreases |p|
  {
    |p| > 0 && |q| > 0 && (p[0] != q[0] || Diverge(p[1..], q[1..]))
  }

  /**
   * objModify fails exactly when the walk meets a value that is not a
   * record; when it succeeds, the edited key holds the edited value and
   * every path that parts from `path` reads as before.
   */
  lemma {:induction false} ObjModifyEffect(path: seq<string>, edit: LeafEdit, obj: Value)
    ensures ObjModify(path, edit, obj).Some? <==> Walkable(path, obj)
    ensures ObjModify(path, edit, obj).Some? && path != [] ==>
      GetIn(path, ObjModify(path, edit, obj).value) ==
        (match edit
         case Replace(f) => f(GetIn(path, obj))
         case Remove => Undefined)
    ensures forall q :: ObjModify(path, edit, obj).Some? && Diverge(path, q) ==>
      GetIn(q, ObjModify(path, edit, obj).value) == GetIn(q, obj)
    ensures path == [] ==> ObjModify(path, edit, obj) == Some(obj)
    decreases |path|
  {
    if path != [] && obj.Record? && |path| > 1 {
      var child := Descend(obj.fields, path[0]);
      ObjModifyEffect(path[1..], edit, child);
      assert GetIn(path[1..], child) == GetIn(path[1..], Field(obj.fields, path[0])) by {
        if Field(obj.fields, path[0]) == Undefined {
          EmptyRecordReadsUndefined(path[1..]);
          UndefinedReadsUndefined(path[1..]);
        }
      }
      var r := ObjModify(path, edit, obj);
      if r.Some? {
        forall q | Diverge(path, q)
          ensures GetIn(q, r.value) == GetIn(q, obj)
        {
          if q[0] == path[0] {
            assert Diverge(path[1..], q[1..]);
            if Field(obj.fields, path[0]) == Undefined {
              EmptyRecordReadsUndefined(q[1..]);
              UndefinedReadsUndefined(q[1..]);
            }
          }
        }
      }
    }
  }

  lemma {:induction false} EmptyRecordReadsUndefined(q: seq<string>)
    ensures q != [] ==> GetIn(q, Record(map[])) == Undefined
  {
    if q != [] {
      UndefinedReadsUndefined(q[1..]);
    }
  }

  lemma {:induction false} UndefinedReadsUndefined(q: seq<string>)
    ensures GetIn(q, Undefined) == Undefined
  {
  }

  /** objAssoc with an empty path leaves the object as it is. */
  lemma ObjAssocEmptyPath(value: Value, obj: Value)
    ensures ObjAssoc([], value, obj) == Some(obj)
  {
  }

  /** objAssoc on a walkable path stores the value there and nothing else changes. */
  lemma ObjAssocStores(path: seq<string>, value: Value, obj: Value)
    requires path != [] && Walkable(path, obj)
    ensures ObjAssoc(path, value, obj).Some?
    ensures GetIn(path, ObjAssoc(path, value, obj).value) == value
    ensures forall q :: Diverge(path, q) ==> GetIn(q, ObjAssoc(path, value, obj).value) == GetIn(q, obj)
  {
    ObjModifyEffect(path, Replace(_ => value), obj);
  }

  /** objDelete without keys leaves the path undefined; with keys, each key under it. */
  lemma ObjDeleteClears(path: seq<string>, keys: seq<string>, obj: Value)
    requires path != [] && Walkable(path, obj)
    ensures ObjDelete(path, keys, obj).Some?
    ensures keys == [] ==> GetIn(path, ObjDelete(path, keys, obj).value) == Undefined
    ensures forall k :: k in keys ==> GetIn(path + [k], ObjDelete(path, keys, obj).value) == Undefined
  {
    if |keys| > 0 {
      var f := v => Omit(keys, v);
      ObjModifyEffect(path, Replace(f), obj);
      var r := ObjDelete(path, keys, obj).value;
      forall k | k in keys
        ensures GetIn(path + [k], r) == Undefined
      {
        GetInAppend(path, k, r);
      }
    } else {
      ObjModifyEffect(path, Remove, obj);
    }
  }

  lemma {:induction false} GetInAppend(path: seq<string>, k: string, v: Value)
    ensures GetIn(path + [k], v) == GetIn([k], GetIn(path, v))
    decreases |path|
  {
    if path != [] {
      assert (path + [k])[1..] == path[1..] + [k];
      if v.Record? {
        GetInAppend(path[1..], k, Field(v.fields, path[0]));
      } else {
        UndefinedReadsUndefined([k]);
      }
    }
  }

  // ---------------------------------------------------------------------
  // A JavaScript Set of numbers, in insertion order.

  /** `set.add(x)`: appends `x` unless it is already present. */
  function SetAdd(s: seq<EntityID>, x: EntityID): (r: seq<EntityID>)
    ensures (set y | y in r) == (set y | y in s) + {x}
    ensures NoDups(s) ==> NoDups(r)
    ensures x in s ==> r == s
  {
    if x in s then s else s + [x]
  }

  /** `set.delete(x)`: removes `x`, keeping the order of the rest. */
  function SetDelete(s: seq<EntityID>, x: EntityID): (r: seq<EntityID>)
    ensures forall y :: y in r <==> y in s && y != x
    ensures |r| <= |s|
    ensures NoDups(s) ==> NoDups(r)
  {
    if s == [] then []
    else
      var rest := SetDelete(s[1..], x);
      assert NoDups(s) ==> NoDups(s[1..]) && s[0] !in s[1..] by {
        if NoDups(s) {
          forall i, j | 0 <= i < j < |s[1..]| ensures s[1..][i] != s[1..][j] {
            assert s[1..][i] == s[i + 1] && s[1..][j] == s[j + 1];
          }
          forall i | 0 <= i < |s[1..]| ensures s[1..][i] != s[0] {
            assert s[1..][i] == s[i + 1];
          }
        }
      }
      (if s[0] == x then [] else [s[0]]) + rest
  }

  predicate NoDups<T(==)>(s: seq<T>)
  {
    forall i, j :: 0 <= i < j < |s| ==> s[i] != s[j]
  }
}
