// Dependency graphs of systems and their batching by depth
// (src/lib/dependencies.ts). The graph library's node table and edge
// lists are modelled by `DepGraph`.

module Dependencies {
  import opened Util

  // ---------------------------------------------------------------------
  // Sets and sequences of names

  function Members(s: seq<string>): set<string>
  {
    set x | x in s
  }

  /** The distinct elements of `s`, in order of first occurrence. */
  function Dedup(s: seq<string>): (r: seq<string>)
    ensures forall x :: x in r <==> x in s
    ensures NoDups(r)
  {
    if s == [] then []
    else
      var p := Dedup(s[..|s| - 1]);
      var x := s[|s| - 1];
      assert s == s[..|s| - 1] + [x];
      if x in p then p else p + [x]
  }

  /** Dedup of one more element: it is appended exactly when it is new. */
  lemma DedupSnoc(s: seq<string>, x: string)
    ensures Dedup(s + [x]) == if x in s then Dedup(s) else Dedup(s) + [x]
  {
    assert (s + [x])[..|s + [x]| - 1] == s;
  }

  /** The elements of `s` that satisfy `keep`, in order. */
  function FilterNames(s: seq<string>, keep: string -> bool): (r: seq<string>)
    ensures forall x :: x in r <==> x in s && keep(x)
    ensures NoDups(s) ==> NoDups(r)
  {
    if s == [] then []
    else
      var rest := FilterNames(s[1..], keep);
      assert NoDups(s) ==> NoDups(s[1..]) && s[0] !in s[1..] by {
        if NoDups(s) {
          forall i, j | 0 <= i < j < |s[1..]| ensures s[1..][i] != s[1..][j] {
            assert s[1..][i] == s[i + 1] && s[1..][j] == s[j + 1];
          }
          forall i | 0 <= i < |s[1..]| ensures s[1..][i] != s[0] {
            assert s[1..][i] == s[i + 1];
          }
        }
      }
      if keep(s[0]) then [s[0]] + rest else rest
  }

  /**
   * Filtering a concatenation filters each part, and one element is kept
   * or dropped on its own: the filter keeps the input's order and
   * multiplicity.
   */
  lemma {:induction false} FilterNamesConcat(a: seq<string>, b: seq<string>, keep: string -> bool)
    ensures FilterNames(a + b, keep) == FilterNames(a, keep) + FilterNames(b, keep)
    ensures forall x :: FilterNames([x], keep) == if keep(x) then [x] else []
    decreases |a|
  {
    if a == [] {
      assert a + b == b;
    } else {
      var head := if keep(a[0]) then [a[0]] else [];
      assert (a + b)[0] == a[0];
      assert (a + b)[1..] == a[1..] + b;
      assert FilterNames(a + b, keep) == head + FilterNames(a[1..] + b, keep);
      assert FilterNames(a, keep) == head + FilterNames(a[1..], keep);
      FilterNamesConcat(a[1..], b, keep);
      ConcatAssoc(head, FilterNames(a[1..], keep), FilterNames(b, keep));
    }
    forall x ensures FilterNames([x], keep) == if keep(x) then [x] else [] {
      assert [x][1..] == [];
    }
  }

  // ---------------------------------------------------------------------
  // filterDependencies

  /**
   * Restricts a dependency record to `subset`: only nodes of the subset
   * keep an entry, and each entry keeps only dependencies in the subset.
   */
  function FilterDependencies(subset: seq<string>, deps: map<string, set<string>>): (r: map<string, set<string>>)
    ensures r.Keys == deps.Keys * Members(subset)
    ensures forall x :: x in r ==> r[x] == deps[x] * Members(subset)
  {
    map x | x in deps && x in subset :: deps[x] * Members(subset)
  }

  // ---------------------------------------------------------------------
  // The graph

  /**
   * A dependency graph: its nodes in insertion order, and for each node
   * the set of nodes it depends on (its outgoing edges).
   */
  datatype DepGraph = DepGraph(nodes: seq<string>, outgoing: map<string, set<string>>)

  /** The shape the graph library maintains. */
  ghost predicate WellFormed(g: DepGraph)
  {
    && NoDups(g.nodes)
    && (forall x :: x in g.nodes <==> x in g.outgoing)
    && (forall x :: x in g.outgoing ==> g.outgoing[x] <= g.outgoing.Keys)
  }

  function EmptyGraph(): (g: DepGraph)
    ensures WellFormed(g)
  {
    DepGraph([], map[])
  }

  /** `addNode`: a node already present is left as it is. */
  function AddNode(g: DepGraph, node: string): (r: DepGraph)
    ensures WellFormed(g) ==> WellFormed(r)
    ensures r.outgoing.Keys == g.outgoing.Keys + {node}
    ensures forall x :: x in g.outgoing ==> r.outgoing[x] == g.outgoing[x]
    ensures node !in g.outgoing ==> r.outgoing[node] == {}
  {
    if node in g.outgoing then g
    else DepGraph(g.nodes + [node], g.outgoing[node := {}])
  }

  /** `addDependency`: both ends must already be nodes (the library throws otherwise). */
  function AddDependency(g: DepGraph, from: string, to: string): (r: DepGraph)
    requires from in g.outgoing && to in g.outgoing
    ensures WellFormed(g) ==> WellFormed(r)
    ensures r.nodes == g.nodes && r.outgoing.Keys == g.outgoing.Keys
    ensures r.outgoing[from] == g.outgoing[from] + {to}
    ensures forall x :: x in g.outgoing && x != from ==> r.outgoing[x] == g.outgoing[x]
  {
    g.(outgoing := g.outgoing[from := g.outgoing[from] + {to}])
  }

  /**
   * The graph of `nodes` with the dependencies among them: each node once,
   * in first-occurrence order, depending on exactly its listed
   * dependencies that are themselves among `nodes`.
   */
  function GraphOf(nodes: seq<string>, deps: map<string, set<string>>): (g: DepGraph)
    ensures WellFormed(g)
  {
    DepGraph(Dedup(nodes), map x | x in nodes :: if x in deps then deps[x] * Members(nodes) else {})
  }

  /**
   * buildDependencyGraph: adds every node, then every filtered dependency,
   * which yields the graph of the nodes restricted to their own
   * dependencies.
   */
  method BuildDependencyGraph(nodes: seq<string>, deps: map<string, set<string>>) returns (g: DepGraph)
    ensures g == GraphOf(nodes, deps)
  {
    var filtered := FilterDependencies(nodes, deps);
    g := AddNodes(nodes);
    g := AddFiltered(g, filtered);
    GraphOfPointwise(nodes, deps, g);
  }

  /** The second `forEach`: each node's filtered dependencies become its edges. */
  method AddFiltered(g0: DepGraph, filtered: map<string, set<string>>) returns (g: DepGraph)
    requires forall x :: x in filtered ==> x in g0.outgoing && filtered[x] <= g0.outgoing.Keys
    requires forall x :: x in g0.outgoing ==> g0.outgoing[x] == {}
    ensures g.nodes == g0.nodes && g.outgoing.Keys == g0.outgoing.Keys
    ensures forall x :: x in g.outgoing ==> g.outgoing[x] == if x in filtered then filtered[x] else {}
  {
    g := g0;
    var pending := filtered.Keys;
    while pending != {}
      invariant pending <= filtered.Keys
      invariant g.nodes == g0.nodes && g.outgoing.Keys == g0.outgoing.Keys
      invariant forall x :: x in g.outgoing ==>
        g.outgoing[x] == if x in filtered && x !in pending then filtered[x] else {}
      decreases pending
    {
      var node :| node in pending;
      g := AddDependencies(g, node, filtered[node]);
      pending := pending - {node};
    }
  }

  /** A graph with the right nodes and edges per node is `GraphOf`. */
  lemma GraphOfPointwise(nodes: seq<string>, deps: map<string, set<string>>, g: DepGraph)
    requires g.nodes == Dedup(nodes)
    requires forall x :: x in g.outgoing <==> x in nodes
    requires forall x :: x in g.outgoing ==>
      g.outgoing[x] == if x in deps then deps[x] * Members(nodes) else {}
    ensures g == GraphOf(nodes, deps)
  {
    var want := GraphOf(nodes, deps);
    assert g.outgoing == want.outgoing;
  }

  /** The loop step of the first `forEach`: one more node is seen. */
  lemma DedupStep(nodes: seq<string>, i: nat)
    requires i < |nodes|
    ensures Dedup(nodes[..i + 1]) == if nodes[i] in nodes[..i] then Dedup(nodes[..i]) else Dedup(nodes[..i]) + [nodes[i]]
    ensures forall x :: x in nodes[..i + 1] <==> x in nodes[..i] || x == nodes[i]
  {
    assert nodes[..i + 1] == nodes[..i] + [nodes[i]];
    DedupSnoc(nodes[..i], nodes[i]);
  }

  /** Adds each of `nodes` in turn to an empty graph (the first `forEach`). */
  method AddNodes(nodes: seq<string>) returns (g: DepGraph)
    ensures g.nodes == Dedup(nodes)
    ensures forall x :: x in g.outgoing <==> x in nodes
    ensures forall x :: x in g.outgoing ==> g.outgoing[x] == {}
  {
    g := EmptyGraph();
    var i := 0;
    while i < |nodes|
      invariant 0 <= i <= |nodes|
      invariant g.nodes == Dedup(nodes[..i])
      invariant forall x :: x in g.outgoing <==> x in nodes[..i]
      invariant forall x :: x in g.outgoing ==> g.outgoing[x] == {}
    {
      DedupStep(nodes, i);
      g := AddNode(g, nodes[i]);
      i := i + 1;
    }
    assert nodes[..i] == nodes;
  }

  /** Adds an edge from `node` to each of `targets` (the inner `forEach`). */
  method AddDependencies(g0: DepGraph, node: string, targets: set<string>) returns (g: DepGraph)
    requires node in g0.outgoing && targets <= g0.outgoing.Keys
    ensures g.nodes == g0.nodes && g.outgoing.Keys == g0.outgoing.Keys
    ensures g.outgoing[node] == g0.outgoing[node] + targets
    ensures forall x :: x in g.outgoing && x != node ==> g.outgoing[x] == g0.outgoing[x]
  {
    g := g0;
    var todo := targets;
    while todo != {}
      invariant todo <= targets
      invariant g.nodes == g0.nodes && g.outgoing.Keys == g0.outgoing.Keys
      invariant g.outgoing[node] == g0.outgoing[node] + (targets - todo)
      invariant forall x :: x in g.outgoing && x != node ==> g.outgoing[x] == g0.outgoing[x]
      decreases todo
    {
      var d :| d in todo;
      g := AddDependency(g, node, d);
      todo := todo - {d};
    }
  }

  /** `size()`: the number of distinct nodes. */
  function Size(g: DepGraph): nat
  {
    |g.nodes|
  }

  // ---------------------------------------------------------------------
  // Acyclicity and height

  /**
   * `rank` numbers the nodes so that every dependency has a smaller
   * number: a witness that the graph has no cycle.
   */
  ghost predicate Ranked(g: DepGraph, rank: map<string, nat>)
  {
    && WellFormed(g)
    && (forall x :: x in g.outgoing ==> x in rank)
    && (forall x, y :: x in g.outgoing && y in g.outgoing[x] ==> rank[y] < rank[x])
  }

  /** The length of the longest chain of dependencies below `x`. */
  ghost function Height(g: DepGraph, rank: map<string, nat>, x: string): nat
    requires Ranked(g, rank) && x in g.outgoing
    decreases rank[x], 1, 0
  {
    if g.outgoing[x] == {} then 0 else 1 + MaxHeight(g, rank, g.outgoing[x], rank[x])
  }

  ghost function MaxHeight(g: DepGraph, rank: map<string, nat>, ys: set<string>, bound: nat): nat
    requires Ranked(g, rank)
    requires forall y :: y in ys ==> y in g.outgoing && rank[y] < bound
    decreases bound, 0, |ys|
  {
    if ys == {} then 0
    else
      var y :| y in ys;
      var h := Height(g, rank, y);
      var m := MaxHeight(g, rank, ys - {y}, bound);
      if h < m then m else h
  }

  lemma {:induction false} MaxHeightIsMax(g: DepGraph, rank: map<string, nat>, ys: set<string>, bound: nat)
    requires Ranked(g, rank)
    requires forall y :: y in ys ==> y in g.outgoing && rank[y] < bound
    ensures forall y :: y in ys ==> Height(g, rank, y) <= MaxHeight(g, rank, ys, bound)
    ensures ys != {} ==> exists y :: y in ys && Height(g, rank, y) == MaxHeight(g, rank, ys, bound)
    decreases |ys|
  {
    if ys != {} {
      var y :| y in ys && MaxHeight(g, rank, ys, bound) ==
        (var h := Height(g, rank, y); var m := MaxHeight(g, rank, ys - {y}, bound); if h < m then m else h);
      MaxHeightIsMax(g, rank, ys - {y}, bound);
    }
  }

  /**
   * Height is characterised by its dependencies: at least one more than
   * each of them, exactly one more than some of them, and zero exactly for
   * a node without dependencies.
   */
  lemma HeightStep(g: DepGraph, rank: map<string, nat>, x: string)
    requires Ranked(g, rank) && x in g.outgoing
    ensures forall y :: y in g.outgoing[x] ==> Height(g, rank, y) < Height(g, rank, x)
    ensures g.outgoing[x] != {} ==> exists y :: y in g.outgoing[x] && Height(g, rank, y) + 1 == Height(g, rank, x)
    ensures Height(g, rank, x) == 0 <==> g.outgoing[x] == {}
  {
    if g.outgoing[x] != {} {
      MaxHeightIsMax(g, rank, g.outgoing[x], rank[x]);
    }
  }

  /** An upper bound on the heights of the nodes in `s`. */
  ghost function HeightCeiling(g: DepGraph, rank: map<string, nat>, s: set<string>): (b: nat)
    requires Ranked(g, rank) && s <= g.outgoing.Keys
    ensures forall x :: x in s ==> Height(g, rank, x) <= b
    decreases |s|
  {
    if s == {} then 0
    else
      var x :| x in s;
      var b := HeightCeiling(g, rank, s - {x});
      if b < Height(g, rank, x) then Height(g, rank, x) else b
  }

  // ---------------------------------------------------------------------
  // Transitive dependants (the graph library's `dependantsOf`)

  /** The nodes that directly depend on some node of `s`. */
  function DirectDependants(g: DepGraph, s: set<string>): (r: set<string>)
    ensures r <= g.outgoing.Keys
    ensures forall y :: y in r <==> y in g.outgoing && g.outgoing[y] * s != {}
  {
    set y | y in g.outgoing && g.outgoing[y] * s != {}
  }

  lemma ShrinkingRest(all: set<string>, small: set<string>, large: set<string>)
    requires small < large <= all
    ensures |all - large| < |all - small|
  {
    assert !(large <= small);
    var x :| x in large && x !in small;
    assert x in large - small;
    assert all - small == (all - large) + (large - small);
    assert (all - large) * (large - small) == {};
  }

  /** The least set containing `acc` and closed under direct dependants. */
  function Closure(g: DepGraph, acc: set<string>): (r: set<string>)
    requires acc <= g.outgoing.Keys
    ensures acc <= r <= g.outgoing.Keys
    ensures DirectDependants(g, r) <= r
    decreases |g.outgoing.Keys - acc|
  {
    var next := acc + DirectDependants(g, acc);
    if next == acc then acc
    else
      ShrinkingRest(g.outgoing.Keys, acc, next);
      Closure(g, next)
  }

  /** Every node that depends on `x` directly or through other nodes. */
  function TransDependants(g: DepGraph, x: string): set<string>
  {
    Closure(g, DirectDependants(g, {x})) - {x}
  }

  /**
   * dependantsOf: the transitive dependants of `x` in node order (the
   * library lists them in depth-first order; their order does not matter
   * to findDepths).
   */
  function DependantsOf(g: DepGraph, x: string): (r: seq<string>)
    requires WellFormed(g)
    ensures NoDups(r)
    ensures forall y :: y in r <==> y in TransDependants(g, x)
  {
    var t := TransDependants(g, x);
    FilterNames(g.nodes, y => y in t)
  }

  lemma DirectDependantsAbove(g: DepGraph, rank: map<string, nat>, acc: set<string>, h: nat)
    requires Ranked(g, rank) && acc <= g.outgoing.Keys
    requires forall z :: z in acc ==> Height(g, rank, z) > h
    ensures forall y :: y in DirectDependants(g, acc) ==> Height(g, rank, y) > h
  {
    forall y | y in DirectDependants(g, acc)
      ensures Height(g, rank, y) > h
    {
      var z :| z in g.outgoing[y] * acc;
      HeightStep(g, rank, y);
    }
  }

  lemma {:induction false} ClosureAbove(g: DepGraph, rank: map<string, nat>, acc: set<string>, h: nat)
    requires Ranked(g, rank) && acc <= g.outgoing.Keys
    requires forall z :: z in acc ==> Height(g, rank, z) > h
    ensures forall y :: y in Closure(g, acc) ==> Height(g, rank, y) > h
    decreases |g.outgoing.Keys - acc|
  {
    var next := acc + DirectDependants(g, acc);
    if next != acc {
      DirectDependantsAbove(g, rank, acc, h);
      ShrinkingRest(g.outgoing.Keys, acc, next);
      ClosureAbove(g, rank, next, h);
    }
  }

  /** A node that depends on `x` is among the transitive dependants of `x`. */
  lemma DependerIsDependant(g: DepGraph, rank: map<string, nat>, x: string, y: string)
    requires Ranked(g, rank) && y in g.outgoing && x in g.outgoing[y]
    ensures y in TransDependants(g, x)
  {
    assert x in g.outgoing[y] * {x};
    assert y in DirectDependants(g, {x});
    assert y != x;
  }

  /**
   * Every transitive dependant of `x` is higher than `x`, and every node
   * with `x` among its dependencies is a transitive dependant of `x`.
   */
  lemma TransDependantsHigher(g: DepGraph, rank: map<string, nat>, x: string)
    requires Ranked(g, rank) && x in g.outgoing
    ensures forall y :: y in TransDependants(g, x) ==> y in g.outgoing && Height(g, rank, x) < Height(g, rank, y)
    ensures forall y :: y in g.outgoing && x in g.outgoing[y] ==> y in TransDependants(g, x)
  {
    var d := DirectDependants(g, {x});
    forall z | z in d ensures Height(g, rank, z) > Height(g, rank, x) {
      HeightStep(g, rank, z);
    }
    ClosureAbove(g, rank, d, Height(g, rank, x));
    forall y | y in g.outgoing && x in g.outgoing[y] ensures y in TransDependants(g, x) {
      DependerIsDependant(g, rank, x, y);
    }
  }

  // ---------------------------------------------------------------------
  // findDepths

  /** `Math.max(currentDepth + 1, depths[node] ?? 0)` */
  function CalculateDepth(depth: nat, depths: map<string, nat>, node: string): (r: nat)
    ensures r > depth && (node in depths ==> r >= depths[node])
    ensures r == depth + 1 || (node in depths && r == depths[node])
  {
    var known := if node in depths then depths[node] else 0;
    if depth + 1 < known then known else depth + 1
  }

  /** The number of queued pairs carrying depth `d`. */
  function CountAt(q: seq<(string, nat)>, d: nat): nat
  {
    if q == [] then 0 else (if q[0].1 == d then 1 else 0) + CountAt(q[1..], d)
  }

  lemma {:induction false} CountAtAppend(a: seq<(string, nat)>, b: seq<(string, nat)>, d: nat)
    ensures CountAt(a + b, d) == CountAt(a, d) + CountAt(b, d)
  {
    if a == [] {
      assert a + b == b;
    } else {
      assert (a + b)[0] == a[0];
      assert (a + b)[1..] == a[1..] + b;
      CountAtAppend(a[1..], b, d);
    }
  }

  lemma {:induction false} CountAtNone(q: seq<(string, nat)>, d: nat)
    requires forall i :: 0 <= i < |q| ==> q[i].1 != d
    ensures CountAt(q, d) == 0
  {
    if q != [] {
      CountAtNone(q[1..], d);
    }
  }

  /** The depth at the head of the queue, or one past `bound` once it is empty. */
  function HeadDepth(q: seq<(string, nat)>, bound: nat): nat
  {
    if q == [] then bound + 1 else q[0].1
  }

  /**
   * One step of the queue: the head is taken off and pairs one level deeper
   * are appended, so the head depth never falls, and when it stays the same
   * fewer pairs carry it.
   */
  lemma QueueStep(q: seq<(string, nat)>, next: seq<(string, nat)>, bound: nat)
    requires q != [] && q[0].1 <= bound
    requires forall i, j :: 0 <= i <= j < |q| ==> q[i].1 <= q[j].1
    requires forall i :: 0 <= i < |next| ==> next[i].1 == q[0].1 + 1
    ensures HeadDepth(q[1..] + next, bound) >= q[0].1
    ensures HeadDepth(q[1..] + next, bound) == q[0].1 ==>
      CountAt(q[1..] + next, q[0].1) < CountAt(q, q[0].1)
  {
    var rest := q[1..] + next;
    if rest != [] && rest[0].1 == q[0].1 {
      CountAtAppend(q[1..], next, q[0].1);
      CountAtNone(next, q[0].1);
    }
  }

  /**
   * Once the queue is exhausted, every node has been seen at its height:
   * leaves were seen at 0, and a node was reached from a highest
   * dependency one level below it.
   */
  lemma {:induction false} AllHeightsSeen(g: DepGraph, rank: map<string, nat>, seen: set<(string, nat)>, x: string)
    requires Ranked(g, rank) && x in g.outgoing
    requires forall p, y :: p in seen && y in TransDependants(g, p.0) ==> (y, p.1 + 1) in seen
    requires forall z :: z in g.outgoing && g.outgoing[z] == {} ==> (z, 0) in seen
    ensures (x, Height(g, rank, x)) in seen
    decreases rank[x]
  {
    HeightStep(g, rank, x);
    if g.outgoing[x] == {} {
      assert (x, 0) in seen;
    } else {
      var y :| y in g.outgoing[x] && Height(g, rank, y) + 1 == Height(g, rank, x);
      AllHeightsSeen(g, rank, seen, y);
      SeenFromDependency(g, rank, seen, x, y, Height(g, rank, y));
    }
  }

  /** A node is seen one level deeper than a seen dependency of it. */
  lemma SeenFromDependency(g: DepGraph, rank: map<string, nat>, seen: set<(string, nat)>, x: string, y: string, h: nat)
    requires Ranked(g, rank) && x in g.outgoing && y in g.outgoing[x]
    requires forall p, z :: p in seen && z in TransDependants(g, p.0) ==> (z, p.1 + 1) in seen
    requires (y, h) in seen
    ensures (x, h + 1) in seen
  {
    DependerIsDependant(g, rank, y, x);
    var p := (y, h);
    assert x in TransDependants(g, p.0);
  }

  // The queue invariant of findDepths, in parts. `seen` holds every pair
  // taken off the queue so far.

  /** Every queued pair names a node and a depth no greater than its height. */
  ghost predicate QueueSound(g: DepGraph, rank: map<string, nat>, q: seq<(string, nat)>)
    requires Ranked(g, rank)
  {
    forall i :: 0 <= i < |q| ==> q[i].0 in g.outgoing && q[i].1 <= Height(g, rank, q[i].0)
  }

  /** The queue is ordered by depth and spans at most two adjacent depths. */
  ghost predicate QueueLevels(q: seq<(string, nat)>)
  {
    && (forall i, j :: 0 <= i <= j < |q| ==> q[i].1 <= q[j].1)
    && (q != [] ==> q[|q| - 1].1 <= q[0].1 + 1)
  }

  ghost predicate SeenSound(g: DepGraph, rank: map<string, nat>, seen: set<(string, nat)>)
    requires Ranked(g, rank)
  {
    forall p :: p in seen ==> p.0 in g.outgoing && p.1 <= Height(g, rank, p.0)
  }

  /** `depths` holds, for each node taken off the queue, the largest depth it was taken at. */
  ghost predicate DepthsOfSeen(depths: map<string, nat>, seen: set<(string, nat)>)
  {
    && (forall p :: p in seen ==> p.0 in depths && p.1 <= depths[p.0])
    && (forall x :: x in depths ==> (x, depths[x]) in seen)
  }

  /** Nothing was taken off the queue deeper than its current head. */
  ghost predicate SeenUpToHead(q: seq<(string, nat)>, seen: set<(string, nat)>)
  {
    q != [] ==> forall p :: p in seen ==> p.1 <= q[0].1
  }

  /** Every transitive dependant of a dequeued node is dequeued or queued one level deeper. */
  ghost predicate DependantsFollow(g: DepGraph, seen: set<(string, nat)>, q: seq<(string, nat)>)
  {
    forall p, y :: p in seen && y in TransDependants(g, p.0) ==> (y, p.1 + 1) in seen || (y, p.1 + 1) in q
  }

  /** Every leaf is dequeued or queued at depth 0. */
  ghost predicate LeavesCovered(g: DepGraph, seen: set<(string, nat)>, q: seq<(string, nat)>)
  {
    forall z :: z in g.outgoing && g.outgoing[z] == {} ==> (z, 0) in seen || (z, 0) in q
  }

  /** The pairs appended for the dependants of the head at `depth`. */
  function NextNodes(neighbours: seq<string>, depth: nat, depths: map<string, nat>): (r: seq<(string, nat)>)
    ensures |r| == |neighbours|
    ensures forall i :: 0 <= i < |r| ==> r[i] == (neighbours[i], CalculateDepth(depth, depths, neighbours[i]))
  {
    seq(|neighbours|, i requires 0 <= i < |neighbours| => (neighbours[i], CalculateDepth(depth, depths, neighbours[i])))
  }

  /**
   * While the queue is processed level by level, calculateDepth always
   * yields one level deeper: every neighbour is queued at `depth + 1`.
   */
  lemma NextNodesOneDeeper(neighbours: seq<string>, depth: nat, depths: map<string, nat>, seen: set<(string, nat)>)
    requires DepthsOfSeen(depths, seen)
    requires forall p :: p in seen ==> p.1 <= depth
    ensures forall i :: 0 <= i < |neighbours| ==>
      NextNodes(neighbours, depth, depths)[i].0 in neighbours && NextNodes(neighbours, depth, depths)[i].1 == depth + 1
    ensures forall y :: y in neighbours ==> (y, depth + 1) in NextNodes(neighbours, depth, depths)
  {
    var next := NextNodes(neighbours, depth, depths);
    forall i | 0 <= i < |neighbours| ensures next[i] == (neighbours[i], depth + 1) {
      var y := neighbours[i];
      if y in depths {
        assert (y, depths[y]) in seen;
      }
    }
    forall y | y in neighbours ensures (y, depth + 1) in next {
      var i :| 0 <= i < |neighbours| && neighbours[i] == y;
      assert next[i] == (y, depth + 1);
    }
  }

  lemma StepQueueSound(g: DepGraph, rank: map<string, nat>, q: seq<(string, nat)>, next: seq<(string, nat)>)
    requires Ranked(g, rank) && q != [] && QueueSound(g, rank, q)
    requires forall i :: 0 <= i < |next| ==> next[i].1 == q[0].1 + 1
    requires forall i :: 0 <= i < |next| ==> next[i].0 in TransDependants(g, q[0].0)
    ensures QueueSound(g, rank, q[1..] + next)
  {
    var r := q[1..] + next;
    TransDependantsHigher(g, rank, q[0].0);
    forall i | 0 <= i < |r| ensures r[i].0 in g.outgoing && r[i].1 <= Height(g, rank, r[i].0) {
      if i < |q| - 1 {
        assert r[i] == q[i + 1];
      } else {
        assert r[i] == next[i - (|q| - 1)];
      }
    }
  }

  lemma StepQueueLevels(q: seq<(string, nat)>, next: seq<(string, nat)>)
    requires q != [] && QueueLevels(q)
    requires forall i :: 0 <= i < |next| ==> next[i].1 == q[0].1 + 1
    ensures QueueLevels(q[1..] + next)
  {
    var r := q[1..] + next;
    forall i, j | 0 <= i <= j < |r| ensures r[i].1 <= r[j].1 {
      if j < |q| - 1 {
        assert r[i] == q[i + 1] && r[j] == q[j + 1];
      } else if i < |q| - 1 {
        assert r[i] == q[i + 1] && r[j] == next[j - (|q| - 1)];
        assert q[i + 1].1 <= q[|q| - 1].1;
      } else {
        assert r[i] == next[i - (|q| - 1)] && r[j] == next[j - (|q| - 1)];
      }
    }
    if r != [] {
      if |q| > 1 {
        assert r[0] == q[1];
        assert q[0].1 <= q[1].1;
      } else {
        assert r[0] == next[0];
      }
    }
  }

  lemma StepSeen(g: DepGraph, rank: map<string, nat>, q: seq<(string, nat)>, next: seq<(string, nat)>,
                 depths: map<string, nat>, seen: set<(string, nat)>)
    requires Ranked(g, rank) && q != []
    requires QueueSound(g, rank, q) && QueueLevels(q)
    requires SeenSound(g, rank, seen) && DepthsOfSeen(depths, seen) && SeenUpToHead(q, seen)
    requires forall i :: 0 <= i < |next| ==> next[i].1 == q[0].1 + 1
    ensures SeenSound(g, rank, seen + {q[0]})
    ensures DepthsOfSeen(depths[q[0].0 := q[0].1], seen + {q[0]})
    ensures SeenUpToHead(q[1..] + next, seen + {q[0]})
  {
    var r := q[1..] + next;
    if r != [] {
      if |q| > 1 {
        assert r[0] == q[1];
        assert q[0].1 <= q[1].1;
      } else {
        assert r[0] == next[0];
      }
    }
  }

  lemma StepFollow(g: DepGraph, q: seq<(string, nat)>, next: seq<(string, nat)>, seen: set<(string, nat)>)
    requires q != []
    requires DependantsFollow(g, seen, q) && LeavesCovered(g, seen, q)
    requires forall y :: y in TransDependants(g, q[0].0) ==> (y, q[0].1 + 1) in next
    ensures DependantsFollow(g, seen + {q[0]}, q[1..] + next)
    ensures LeavesCovered(g, seen + {q[0]}, q[1..] + next)
  {
    var r := q[1..] + next;
    forall p | p in q ensures p == q[0] || p in r {
      var i :| 0 <= i < |q| && q[i] == p;
      if i > 0 {
        assert r[i - 1] == p;
      }
    }
    forall p | p in next ensures p in r {
      var i :| 0 <= i < |next| && next[i] == p;
      assert r[|q| - 1 + i] == p;
    }
  }

  /** The whole invariant of the findDepths queue loop. */
  ghost predicate QueueInvariant(g: DepGraph, rank: map<string, nat>, q: seq<(string, nat)>,
                                 depths: map<string, nat>, seen: set<(string, nat)>)
    requires Ranked(g, rank)
  {
    && QueueSound(g, rank, q) && QueueLevels(q)
    && SeenSound(g, rank, seen) && DepthsOfSeen(depths, seen) && SeenUpToHead(q, seen)
    && DependantsFollow(g, seen, q) && LeavesCovered(g, seen, q)
  }

  /** The initial queue: each leaf at depth 0. */
  function LeafQueue(leafs: seq<string>): (q: seq<(string, nat)>)
    ensures |q| == |leafs|
    ensures forall i :: 0 <= i < |q| ==> q[i] == (leafs[i], 0)
  {
    seq(|leafs|, i requires 0 <= i < |leafs| => (leafs[i], 0))
  }

  /** The queue starts with every leaf at depth 0 and nothing dequeued. */
  lemma QueueInvariantInit(g: DepGraph, rank: map<string, nat>, leafs: seq<string>)
    requires Ranked(g, rank)
    requires forall z :: z in leafs <==> z in g.outgoing && g.outgoing[z] == {}
    ensures QueueInvariant(g, rank, LeafQueue(leafs), map[], {})
  {
    var q := LeafQueue(leafs);
    forall i | 0 <= i < |q| ensures q[i].0 in g.outgoing && q[i].1 <= Height(g, rank, q[i].0) {
      assert leafs[i] in leafs;
    }
    forall z | z in g.outgoing && g.outgoing[z] == {} ensures (z, 0) in q {
      var i :| 0 <= i < |leafs| && leafs[i] == z;
      assert q[i] == (z, 0);
    }
  }

  /**
   * One iteration of the findDepths loop keeps the invariant, and either
   * raises the depth at the head of the queue or leaves fewer pairs at
   * that depth.
   */
  lemma QueueInvariantStep(g: DepGraph, rank: map<string, nat>, q: seq<(string, nat)>,
                           depths: map<string, nat>, seen: set<(string, nat)>, bound: nat)
    requires Ranked(g, rank) && QueueInvariant(g, rank, q, depths, seen) && q != []
    requires forall x :: x in g.outgoing ==> Height(g, rank, x) <= bound
    ensures var next := NextNodes(DependantsOf(g, q[0].0), q[0].1, depths);
      && QueueInvariant(g, rank, q[1..] + next, depths[q[0].0 := q[0].1], seen + {q[0]})
      && q[0].1 <= HeadDepth(q[1..] + next, bound) <= bound + 1
      && (HeadDepth(q[1..] + next, bound) == q[0].1 ==> CountAt(q[1..] + next, q[0].1) < CountAt(q, q[0].1))
  {
    var neighbours := DependantsOf(g, q[0].0);
    var next := NextNodes(neighbours, q[0].1, depths);
    NextNodesOneDeeper(neighbours, q[0].1, depths, seen);
    StepQueueSound(g, rank, q, next);
    StepQueueLevels(q, next);
    StepSeen(g, rank, q, next, depths, seen);
    StepFollow(g, q, next, seen);
    QueueStep(q, next, bound);
    var r := q[1..] + next;
    if r != [] {
      assert r[0].1 <= Height(g, rank, r[0].0);
    }
  }

  /**
   * findDepths: breadth-first from the leaves, re-queueing every transitive
   * dependant one level deeper; the last depth written for a node is its
   * height, so every node lies strictly deeper than each of its
   * dependencies and the leaves are exactly the nodes at depth 0. Nodes
   * outside `nodes` are ignored. `rank` is a witness that the
   * dependencies among `nodes` have no cycle (the graph library throws on
   * one).
   */
  method FindDepths(nodes: seq<string>, deps: map<string, set<string>>, ghost rank: map<string, nat>)
    returns (depths: map<string, nat>)
    requires Ranked(GraphOf(nodes, deps), rank)
    ensures depths.Keys == Members(nodes)
    ensures forall x :: x in depths ==> depths[x] == Height(GraphOf(nodes, deps), rank, x)
    ensures forall x, y :: x in depths && x in deps && y in deps[x] && y in depths ==> depths[y] < depths[x]
    ensures forall x :: x in depths ==> (depths[x] == 0 <==> x !in deps || deps[x] * Members(nodes) == {})
  {
    var g := BuildDependencyGraph(nodes, deps);
    var leafs := FilterNames(nodes, x => x in g.outgoing && g.outgoing[x] == {});
    var q := LeafQueue(leafs);
    depths := map[];
    ghost var seen: set<(string, nat)> := {};
    ghost var bound := HeightCeiling(g, rank, g.outgoing.Keys);
    QueueInvariantInit(g, rank, leafs);
    while q != []
      invariant QueueInvariant(g, rank, q, depths, seen)
      decreases bound + 1 - HeadDepth(q, bound), CountAt(q, HeadDepth(q, bound))
    {
      var node := q[0].0;
      var depth := q[0].1;
      var neighbours := DependantsOf(g, node);
      var nextNodes := NextNodes(neighbours, depth, depths);
      QueueInvariantStep(g, rank, q, depths, seen, bound);
      seen := seen + {q[0]};
      q := q[1..] + nextNodes;
      depths := depths[node := depth];
    }
    FindDepthsResult(nodes, deps, rank, g, depths, seen);
  }

  /** What the exhausted queue leaves behind: each node at its height. */
  lemma FindDepthsResult(nodes: seq<string>, deps: map<string, set<string>>, rank: map<string, nat>,
                         g: DepGraph, depths: map<string, nat>, seen: set<(string, nat)>)
    requires g == GraphOf(nodes, deps) && Ranked(g, rank)
    requires SeenSound(g, rank, seen) && DepthsOfSeen(depths, seen)
    requires DependantsFollow(g, seen, []) && LeavesCovered(g, seen, [])
    ensures depths.Keys == Members(nodes)
    ensures forall x :: x in depths ==> depths[x] == Height(g, rank, x)
    ensures forall x, y :: x in depths && x in deps && y in deps[x] && y in depths ==> depths[y] < depths[x]
    ensures forall x :: x in depths ==> (depths[x] == 0 <==> x !in deps || deps[x] * Members(nodes) == {})
  {
    forall x | x in g.outgoing ensures x in depths && depths[x] == Height(g, rank, x) {
      AllHeightsSeen(g, rank, seen, x);
    }
    forall x | x in depths ensures x in g.outgoing && depths[x] == Height(g, rank, x) {
      assert (x, depths[x]) in seen;
    }
    forall x, y | x in depths && x in deps && y in deps[x] && y in depths ensures depths[y] < depths[x] {
      HeightStep(g, rank, x);
    }
    forall x | x in depths ensures depths[x] == 0 <==> x !in deps || deps[x] * Members(nodes) == {} {
      HeightStep(g, rank, x);
    }
  }

  // ---------------------------------------------------------------------
  // batchByDepths

  /** The smallest of a nonempty set of depths. */
  function MinDepth(levels: set<nat>): (m: nat)
    requires levels != {}
    ensures m in levels && forall d :: d in levels ==> m <= d
  {
    var w := SomeMin(levels);
    var m :| m in levels && forall d :: d in levels ==> m <= d;
    m
  }

  /** A least element, picked by recursion over the set. */
  ghost function SomeMin(levels: set<nat>): (m: nat)
    requires levels != {}
    ensures m in levels && forall d :: d in levels ==> m <= d
    decreases |levels|
  {
    var x :| x in levels;
    var rest := levels - {x};
    assert forall d :: d in levels ==> d == x || d in rest;
    if rest == {} then x
    else
      var m := SomeMin(rest);
      if x < m then x else m
  }

  /** The distinct depths in ascending order. */
  function Levels(levels: set<nat>): (ls: seq<nat>)
    ensures forall d :: d in ls <==> d in levels
    ensures forall i, j :: 0 <= i < j < |ls| ==> ls[i] < ls[j]
    decreases |levels|
  {
    if levels == {} then []
    else
      var d := MinDepth(levels);
      var rest := Levels(levels - {d});
      assert forall j :: 0 <= j < |rest| ==> d < rest[j] by {
        forall j | 0 <= j < |rest| ensures d < rest[j] {
          assert rest[j] in levels - {d};
        }
      }
      [d] + rest
  }

  /** The nodes at depth `d`. */
  function AtDepth(depths: map<string, nat>, d: nat): (r: set<string>)
    ensures forall x :: x in r <==> x in depths && depths[x] == d
  {
    set x | x in depths && depths[x] == d
  }

  /** One batch per level of `ls`. */
  function BatchesAt(depths: map<string, nat>, ls: seq<nat>): (r: seq<set<string>>)
    ensures |r| == |ls| && forall i :: 0 <= i < |ls| ==> r[i] == AtDepth(depths, ls[i])
  {
    seq(|ls|, i requires 0 <= i < |ls| => AtDepth(depths, ls[i]))
  }

  lemma BatchesAtLevels(depths: map<string, nat>, ls: seq<nat>)
    requires forall d :: d in ls <==> d in depths.Values
    requires forall i, j :: 0 <= i < j < |ls| ==> ls[i] < ls[j]
    ensures var r := BatchesAt(depths, ls);
      && (forall i :: 0 <= i < |r| ==> r[i] != {})
      && (forall x :: x in depths ==> exists i :: 0 <= i < |r| && x in r[i])
      && (forall i, j, a, b :: 0 <= i < |r| && 0 <= j < |r| && a in r[i] && b in r[j] ==>
            (i < j <==> depths[a] < depths[b]))
  {
    var r := BatchesAt(depths, ls);
    forall i | 0 <= i < |r| ensures r[i] != {} {
      assert ls[i] in depths.Values;
      var x :| x in depths && depths[x] == ls[i];
      assert x in r[i];
    }
    forall x | x in depths ensures exists i :: 0 <= i < |r| && x in r[i] {
      assert depths[x] in depths.Values;
      var i :| 0 <= i < |ls| && ls[i] == depths[x];
      assert x in r[i];
    }
    forall i, j, a, b | 0 <= i < |r| && 0 <= j < |r| && a in r[i] && b in r[j]
      ensures i < j <==> depths[a] < depths[b]
    {
      if j < i {
        assert ls[j] < ls[i];
      }
    }
  }

  /**
   * batchByDepths: groups the nodes by depth, in ascending depth order.
   * No batch is empty, every node is in exactly one batch, and a node sits
   * in an earlier batch than another exactly when it is shallower.
   */
  function BatchByDepths(depths: map<string, nat>): (r: seq<set<string>>)
    ensures forall i :: 0 <= i < |r| ==> r[i] != {}
    ensures forall i, x :: 0 <= i < |r| && x in r[i] ==> x in depths
    ensures forall x :: x in depths ==> exists i :: 0 <= i < |r| && x in r[i]
    ensures forall i, j, a, b :: 0 <= i < |r| && 0 <= j < |r| && a in r[i] && b in r[j] ==>
      (i < j <==> depths[a] < depths[b])
  {
    var ls := Levels(depths.Values);
    BatchesAtLevels(depths, ls);
    BatchesAt(depths, ls)
  }

  /**
   * Batching depths that put every dependency below its dependant runs
   * every dependency in an earlier batch, so the nodes of one batch never
   * depend on one another.
   */
  lemma BatchesRespectDependencies(depths: map<string, nat>, deps: map<string, set<string>>)
    requires forall x, y :: x in depths && x in deps && y in deps[x] && y in depths ==> depths[y] < depths[x]
    ensures var r := BatchByDepths(depths);
      forall i, j, x, y :: 0 <= i < |r| && 0 <= j < |r| && x in r[i] && y in r[j] && x in deps && y in deps[x] ==> j < i
  {
  }

  // ---------------------------------------------------------------------
  // The depths of a small example graph

  /** d depends on b and c, b and c on a, and e on c. */
  function ExampleDeps(a: string, b: string, c: string, d: string, e: string): map<string, set<string>>
  {
    map[b := {a}, c := {a}, d := {b, c}, e := {c}]
  }

  function ExampleRank(a: string, b: string, c: string, d: string, e: string): map<string, nat>
  {
    map[a := 0, b := 1, c := 1, d := 2, e := 2]
  }

  lemma ExampleGraphFull(a: string, b: string, c: string, d: string, e: string)
    requires |{a, b, c, d, e}| == 5
    ensures var g := GraphOf([a, b, c, d, e], ExampleDeps(a, b, c, d, e));
      && g.outgoing.Keys == {a, b, c, d, e}
      && g.outgoing[a] == {} && g.outgoing[b] == {a} && g.outgoing[c] == {a}
      && g.outgoing[d] == {b, c} && g.outgoing[e] == {c}
  {
    Distinct5(a, b, c, d, e);
    assert Members([a, b, c, d, e]) == {a, b, c, d, e};
  }

  lemma ExampleGraphPart(a: string, b: string, c: string, d: string, e: string)
    requires |{a, b, c, d, e}| == 5
    ensures var g := GraphOf([a, b, d, e], ExampleDeps(a, b, c, d, e));
      && g.outgoing.Keys == {a, b, d, e}
      && g.outgoing[a] == {} && g.outgoing[b] == {a} && g.outgoing[d] == {b} && g.outgoing[e] == {}
  {
    Distinct5(a, b, c, d, e);
    assert Members([a, b, d, e]) == {a, b, d, e};
  }

  lemma ExampleRankedFull(a: string, b: string, c: string, d: string, e: string)
    requires |{a, b, c, d, e}| == 5
    ensures Ranked(GraphOf([a, b, c, d, e], ExampleDeps(a, b, c, d, e)), ExampleRank(a, b, c, d, e))
  {
    Distinct5(a, b, c, d, e);
    ExampleGraphFull(a, b, c, d, e);
  }

  lemma ExampleRankedPart(a: string, b: string, c: string, d: string, e: string)
    requires |{a, b, c, d, e}| == 5
    ensures Ranked(GraphOf([a, b, d, e], ExampleDeps(a, b, c, d, e)), ExampleRank(a, b, c, d, e))
  {
    Distinct5(a, b, c, d, e);
    ExampleGraphPart(a, b, c, d, e);
  }

  /** Over all five nodes the depths are a 0, b 1, c 1, d 2 and e 2. */
  lemma ExampleHeightsFull(a: string, b: string, c: string, d: string, e: string)
    requires |{a, b, c, d, e}| == 5
    ensures var g := GraphOf([a, b, c, d, e], ExampleDeps(a, b, c, d, e));
      var rank := ExampleRank(a, b, c, d, e);
      && Ranked(g, rank)
      && Height(g, rank, a) == 0 && Height(g, rank, b) == 1 && Height(g, rank, c) == 1
      && Height(g, rank, d) == 2 && Height(g, rank, e) == 2
  {
    Distinct5(a, b, c, d, e);
    ExampleGraphFull(a, b, c, d, e);
    ExampleRankedFull(a, b, c, d, e);
    var rank := ExampleRank(a, b, c, d, e);
    var g := GraphOf([a, b, c, d, e], ExampleDeps(a, b, c, d, e));
    HeightStep(g, rank, a);
    HeightOne(g, rank, b, a);
    HeightOne(g, rank, c, a);
    HeightTwo(g, rank, d, b, c);
    HeightOne(g, rank, e, c);
  }

  /** A node with a single dependency is one above it. */
  lemma HeightOne(g: DepGraph, rank: map<string, nat>, x: string, y: string)
    requires Ranked(g, rank) && x in g.outgoing && g.outgoing[x] == {y}
    ensures y in g.outgoing && Height(g, rank, x) == Height(g, rank, y) + 1
  {
    HeightStep(g, rank, x);
  }

  /** A node with two dependencies of equal height is one above them. */
  lemma HeightTwo(g: DepGraph, rank: map<string, nat>, x: string, y: string, z: string)
    requires Ranked(g, rank) && x in g.outgoing && g.outgoing[x] == {y, z}
    requires y in g.outgoing && z in g.outgoing && Height(g, rank, y) == Height(g, rank, z)
    ensures Height(g, rank, x) == Height(g, rank, y) + 1
  {
    HeightStep(g, rank, x);
  }

  /**
   * Restricted to a, b, d and e, the edges to c disappear: e becomes a
   * leaf at depth 0 while d stays at depth 2.
   */
  lemma ExampleHeightsPart(a: string, b: string, c: string, d: string, e: string)
    requires |{a, b, c, d, e}| == 5
    ensures var g := GraphOf([a, b, d, e], ExampleDeps(a, b, c, d, e));
      var rank := ExampleRank(a, b, c, d, e);
      && Ranked(g, rank)
      && Height(g, rank, a) == 0 && Height(g, rank, b) == 1
      && Height(g, rank, d) == 2 && Height(g, rank, e) == 0
  {
    Distinct5(a, b, c, d, e);
    ExampleGraphPart(a, b, c, d, e);
    ExampleRankedPart(a, b, c, d, e);
    var rank := ExampleRank(a, b, c, d, e);
    var g := GraphOf([a, b, d, e], ExampleDeps(a, b, c, d, e));
    HeightStep(g, rank, a);
    HeightStep(g, rank, b);
    HeightStep(g, rank, d);
    HeightStep(g, rank, e);
  }

  lemma Distinct5(a: string, b: string, c: string, d: string, e: string)
    requires |{a, b, c, d, e}| == 5
    ensures a != b && a != c && a != d && a != e && b != c && b != d && b != e && c != d && c != e && d != e
  {
    RepeatShrinks(a, b, c, d, e);
  }

  /** Five names with a repetition make a set of at most four. */
  lemma RepeatShrinks(a: string, b: string, c: string, d: string, e: string)
    ensures (a == b || a == c || a == d || a == e || b == c || b == d || b == e || c == d || c == e || d == e)
            ==> |{a, b, c, d, e}| <= 4
  {
    var s := {a, b, c, d, e};
    if a == b || a == c || a == d || a == e {
      assert s == {b, c, d, e};
      Card4(b, c, d, e);
    } else if b == c || b == d || b == e {
      assert s == {a, c, d, e};
      Card4(a, c, d, e);
    } else if c == d || c == e {
      assert s == {a, b, d, e};
      Card4(a, b, d, e);
    } else if d == e {
      assert s == {a, b, c, e};
      Card4(a, b, c, e);
    }
  }

  lemma Card4(w: string, x: string, y: string, z: string)
    ensures |{w, x, y, z}| <= 4
  {
  }


  // ---------------------------------------------------------------------
  // hashDependencies / areDependenciesChanged

  /**
   * `a.localeCompare(b) < 0`, read as the lexicographic order on
   * characters: a proper prefix comes first.
   */
  predicate StrBefore(a: string, b: string)
    decreases |a|
  {
    if a == [] then b != []
    else b != [] && (a[0] < b[0] || (a[0] == b[0] && StrBefore(a[1..], b[1..])))
  }

  lemma {:induction false} StrBeforeIrreflexive(a: string)
    ensures !StrBefore(a, a)
    decreases |a|
  {
    if a != [] {
      StrBeforeIrreflexive(a[1..]);
    }
  }

  lemma {:induction false} StrBeforeTransitive(a: string, b: string, c: string)
    requires StrBefore(a, b) && StrBefore(b, c)
    ensures StrBefore(a, c)
    decreases |a|
  {
    if a != [] && a[0] == b[0] && b[0] == c[0] {
      StrBeforeTransitive(a[1..], b[1..], c[1..]);
    }
  }

  lemma {:induction false} StrBeforeTotal(a: string, b: string)
    ensures a == b || StrBefore(a, b) || StrBefore(b, a)
    decreases |a|
  {
    if a != [] && b != [] && a[0] == b[0] {
      StrBeforeTotal(a[1..], b[1..]);
      if a[1..] == b[1..] {
        assert a == [a[0]] + a[1..] && b == [b[0]] + b[1..];
      }
    }
  }

  lemma StrBeforeAsymmetric(a: string, b: string)
    ensures !(StrBefore(a, b) && StrBefore(b, a))
  {
    if StrBefore(a, b) && StrBefore(b, a) {
      StrBeforeTransitive(a, b, a);
      StrBeforeIrreflexive(a);
    }
  }

  /** Each name strictly before the next: sorted, and no name twice. */
  predicate StrictlySorted(s: seq<string>)
  {
    forall i, j :: 0 <= i < j < |s| ==> StrBefore(s[i], s[j])
  }

  /** Inserts `x` into a sorted list at its place, unless it is already there. */
  function InsertName(x: string, s: seq<string>): (r: seq<string>)
    requires StrictlySorted(s)
    ensures StrictlySorted(r)
    ensures forall y :: y in r <==> y == x || y in s
    decreases |s|
  {
    if s == [] then [x]
    else if x == s[0] then s
    else
      StrBeforeTotal(x, s[0]);
      if StrBefore(x, s[0]) then
        assert StrictlySorted([x] + s) by {
          forall j | 0 < j < |[x] + s| ensures StrBefore(([x] + s)[0], ([x] + s)[j]) {
            if j > 1 {
              StrBeforeTransitive(x, s[0], s[j - 1]);
            }
          }
        }
        [x] + s
      else
        var rest := InsertName(x, s[1..]);
        assert StrictlySorted([s[0]] + rest) by {
          forall j | 0 < j < |[s[0]] + rest| ensures StrBefore(s[0], ([s[0]] + rest)[j]) {
            var y := rest[j - 1];
            assert y in rest;
            if y != x {
              assert y in s[1..];
              var k :| 0 <= k < |s[1..]| && s[1..][k] == y;
              assert s[k + 1] == y;
            }
          }
        }
        [s[0]] + rest
  }

  /**
   * `Array.from(set).sort((a, b) => a.localeCompare(b))`: the set's names,
   * sorted.
   */
  function SortNames(s: seq<string>): (r: seq<string>)
    ensures StrictlySorted(r)
    ensures forall x :: x in r <==> x in s
    decreases |s|
  {
    if s == [] then [] else InsertName(s[|s| - 1], SortNames(s[..|s| - 1]))
  }

  /** The first name of a sorted list comes before every other name in it. */
  lemma FirstIsLeast(a: seq<string>, x: string)
    requires StrictlySorted(a) && x in a
    ensures x == a[0] || StrBefore(a[0], x)
  {
    var i :| 0 <= i < |a| && a[i] == x;
  }

  lemma HeadIsMember(s: seq<string>)
    ensures s == [] || s[0] in s
  {
  }

  /** Two sorted lists of the same names are the same list. */
  lemma {:induction false} SortedUnique(a: seq<string>, b: seq<string>)
    requires StrictlySorted(a) && StrictlySorted(b)
    requires forall x :: x in a <==> x in b
    ensures a == b
    decreases |a|
  {
    if a == [] {
      HeadIsMember(b);
    } else {
      assert a[0] in b && b[0] in a;
      FirstIsLeast(a, b[0]);
      FirstIsLeast(b, a[0]);
      StrBeforeAsymmetric(a[0], b[0]);
      assert a[0] == b[0];
      forall x ensures x in a[1..] <==> x in b[1..] {
        if x in a[1..] {
          var i :| 0 <= i < |a[1..]| && a[1..][i] == x;
          assert StrBefore(a[0], a[i + 1]);
          StrBeforeIrreflexive(x);
          assert x in b && x != b[0];
          var j :| 0 <= j < |b| && b[j] == x;
          assert b[1..][j - 1] == x;
        }
        if x in b[1..] {
          var j :| 0 <= j < |b[1..]| && b[1..][j] == x;
          assert StrBefore(b[0], b[j + 1]);
          StrBeforeIrreflexive(x);
          assert x in a && x != a[0];
          var i :| 0 <= i < |a| && a[i] == x;
          assert a[1..][i - 1] == x;
        }
      }
      SortedUnique(a[1..], b[1..]);
      assert a == [a[0]] + a[1..] && b == [b[0]] + b[1..];
    }
  }

  /**
   * What is hashed: the node list as given and, for each node, its
   * dependency set as a sorted list.
   */
  datatype DependencyKey = DependencyKey(nodes: seq<string>, dependencies: map<string, seq<string>>)

  /** Each dependency set, given in its iteration order, as a sorted list. */
  function DependencyLists(deps: map<string, seq<string>>): (r: map<string, seq<string>>)
    ensures r.Keys == deps.Keys
    ensures forall n :: n in r ==> StrictlySorted(r[n]) && forall x :: x in r[n] <==> x in deps[n]
  {
    map n | n in deps :: SortNames(deps[n])
  }

  /** hashDependencies, with the string hash of the stringified key left as a parameter. */
  function HashDependencies(nodes: seq<string>, deps: map<string, seq<string>>, hash: DependencyKey -> int): int
  {
    hash(DependencyKey(nodes, DependencyLists(deps)))
  }

  function AreDependenciesChanged(nodes: seq<string>, deps: map<string, seq<string>>, h: int,
                                  hash: DependencyKey -> int): bool
  {
    h != HashDependencies(nodes, deps, hash)
  }

  /** Two dependency records name the same nodes, each with the same set of dependencies. */
  ghost predicate SameSets(deps: map<string, seq<string>>, deps': map<string, seq<string>>)
  {
    && deps.Keys == deps'.Keys
    && forall n, x :: n in deps && n in deps' ==> (x in deps[n] <==> x in deps'[n])
  }

  /**
   * The hashed key depends on each dependency set and not on its order:
   * two records give the same key exactly when they hold the same sets.
   * So reordering a set never reports a change.
   */
  lemma HashIgnoresSetOrder(nodes: seq<string>, deps: map<string, seq<string>>, deps': map<string, seq<string>>,
                            hash: DependencyKey -> int)
    ensures DependencyLists(deps) == DependencyLists(deps') <==> SameSets(deps, deps')
    ensures SameSets(deps, deps') ==> !AreDependenciesChanged(nodes, deps', HashDependencies(nodes, deps, hash), hash)
  {
    var a, b := DependencyLists(deps), DependencyLists(deps');
    if SameSets(deps, deps') {
      forall n | n in a ensures a[n] == b[n] {
        SortedUnique(a[n], b[n]);
      }
    }
    if a == b {
      forall n, x | n in deps && n in deps' ensures x in deps[n] <==> x in deps'[n] {
        assert x in a[n] <==> x in b[n];
      }
    }
  }

  /** The test's two records, with `d`'s set in either order, hash alike. */
  lemma HashExample(hash: DependencyKey -> int)
    ensures var deps := map["b" := ["a", "b"], "d" := ["b", "c"]];
      var deps' := map["b" := ["a", "b"], "d" := ["c", "b"]];
      HashDependencies(["a", "b", "c", "d"], deps, hash) == HashDependencies(["a", "b", "c", "d"], deps', hash)
  {
    var deps := map["b" := ["a", "b"], "d" := ["b", "c"]];
    var deps' := map["b" := ["a", "b"], "d" := ["c", "b"]];
    HashIgnoresSetOrder(["a", "b", "c", "d"], deps, deps', hash);
  }
}
