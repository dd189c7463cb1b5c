// Enumeration of the elementary cycles of a graph given as parent -> children.
module FindCycles {
  import opened Sequences
  import opened DependencyGraph
  import opened Rotation

  type Graph<!T(==)> = map<T, seq<T>>

  function EdgesOf<T(==)>(g: Graph<T>): Edges<T> {
    set p, c | p in g && c in g[p] :: (p, c)
  }

  function Nodes<T(==)>(g: Graph<T>): set<T> {
    g.Keys + set p, c | p in g && c in g[p] :: c
  }

  /** The nodes of c are distinct, each has an edge to the next and the last one to the first. */
  ghost predicate ElementaryCycle<T>(edges: Edges<T>, c: seq<T>) {
    IsPath(edges, c) && Distinct(c) && (Last(c), c[0]) in edges
  }

  ghost predicate SimplePath<T>(edges: Edges<T>, start: T, p: seq<T>) {
    IsPath(edges, p) && Distinct(p) && p[0] == start
  }

  /** c has been yielded, up to rotation. */
  ghost predicate Found<T>(cycles: seq<seq<T>>, c: seq<T>) {
    exists k :: 0 <= k < |cycles| && IsRotation(cycles[k], c)
  }

  /** Every cycle closed by an edge from the last node of q back into q has been yielded. */
  ghost predicate Handled<T>(edges: Edges<T>, cycles: seq<seq<T>>, q: seq<T>)
    requires q != []
  {
    forall i :: 0 <= i < |q| && (Last(q), q[i]) in edges ==> Found(cycles, q[i..])
  }

  /** The search tree below some path on the stack contains q. */
  ghost predicate Covered<T>(paths: seq<seq<T>>, q: seq<T>) {
    exists k :: 0 <= k < |paths| && paths[k] <= q
  }

  /** Every elementary cycle that can be reached from s has been yielded. */
  ghost predicate Explored<T(!new)>(edges: Edges<T>, cycles: seq<seq<T>>, s: T) {
    forall c :: ElementaryCycle(edges, c) && Reaches(edges, s, c[0]) ==> Found(cycles, c)
  }

  // ----- every reachable cycle is closed by some simple path

  /** From a start that can reach a cycle there is a simple path that meets the cycle in its last node only. */
  lemma {:induction false} FirstContact<T(!new)>(edges: Edges<T>, r: seq<T>, c: seq<T>) returns (q: seq<T>)
    requires IsPath(edges, r) && Last(r) in c
    ensures SimplePath(edges, r[0], q) && Last(q) in c
    ensures forall i :: 0 <= i < |q| - 1 ==> q[i] !in c
    decreases |r|
  {
    if i :| 0 <= i < |r| - 1 && r[i] in c {
      Subpath(edges, r, 0, i + 1);
      q := FirstContact(edges, r[0..i + 1], c);
    } else if i, j :| 0 <= i < j < |r| && r[i] == r[j] {
      Subpath(edges, r, 0, i + 1);
      Subpath(edges, r, j, |r|);
      JoinPaths(edges, r[0..i + 1], r[j..|r|]);
      q := FirstContact(edges, r[0..i + 1] + r[j..|r|][1..], c);
    } else {
      q := r;
    }
  }

  /** A cycle read from any of its nodes is a cycle. */
  lemma RotateCycle<T>(edges: Edges<T>, c: seq<T>, k: nat)
    requires ElementaryCycle(edges, c) && k < |c|
    ensures ElementaryCycle(edges, c[k..] + c[..k])
    ensures IsRotation(c, c[k..] + c[..k])
  {
    var d := c[k..] + c[..k];
    assert RotatedBy(c, d, k);
    forall i | 0 <= i < |d| - 1 ensures Step(edges, d, i) {
      if k + i != |c| - 1 {
        assert Step(edges, c, if k + i < |c| then k + i else k + i - |c|);
      }
    }
    if k > 0 {
      assert Step(edges, c, k - 1);
    }
  }

  /** A simple path up to a cycle, and once around it. */
  lemma AroundCycle<T>(edges: Edges<T>, s: T, q: seq<T>, d: seq<T>)
    requires SimplePath(edges, s, q) && ElementaryCycle(edges, d) && Last(q) == d[0]
    requires forall i :: 0 <= i < |q| - 1 ==> q[i] !in d
    ensures SimplePath(edges, s, q + d[1..]) && (q + d[1..])[|q| - 1..] == d && Last(q + d[1..]) == Last(d)
  {
    JoinPaths(edges, q, d);
    forall x | x in d[1..] ensures x !in q {
      var k :| 0 <= k < |d| - 1 && d[1..][k] == x;
      assert x == d[k + 1] && x in d;
      assert x != d[0];
    }
    DistinctConcat(q, d[1..]);
  }

  lemma SearchFindsCycle<T(!new)>(edges: Edges<T>, cycles: seq<seq<T>>, s: T, c: seq<T>)
    requires ElementaryCycle(edges, c) && Reaches(edges, s, c[0])
    requires forall q :: SimplePath(edges, s, q) ==> Handled(edges, cycles, q)
    ensures Found(cycles, c)
  {
    var r, n: nat :| Leads(edges, r, s, c[0], n);
    var q := FirstContact(edges, r, c);
    var k :| 0 <= k < |c| && c[k] == Last(q);
    RotateCycle(edges, c, k);
    var d := c[k..] + c[..k];
    AroundCycle(edges, s, q, d);
    FoundRotated(edges, cycles, c, d, q + d[1..], |q| - 1);
  }

  lemma FoundRotated<T>(edges: Edges<T>, cycles: seq<seq<T>>, c: seq<T>, d: seq<T>, full: seq<T>, i: nat)
    requires i < |full| && Handled(edges, cycles, full) && full[i..] == d && ElementaryCycle(edges, d) && IsRotation(c, d)
    ensures Found(cycles, c)
  {
    assert full[i] == d[0] && Last(full) == Last(d);
    assert Found(cycles, full[i..]);
    var m :| 0 <= m < |cycles| && IsRotation(cycles[m], d);
    RotationSymmetric(c, d);
    RotationTransitive(cycles[m], d, c);
  }

  // ----- the size of the search still ahead

  /** How many paths the search below path will pop, path included. */
  ghost function SearchSize<T>(g: Graph<T>, path: seq<T>): nat
    decreases Nodes(g) - Elements(path), 1, 0
  {
    if path != [] && Last(path) in g then 1 + ChildrenSize(g, path, g[Last(path)]) else 1
  }

  ghost function ChildrenSize<T>(g: Graph<T>, path: seq<T>, children: seq<T>): nat
    requires path != [] && Last(path) in g
    requires forall c :: c in children ==> c in g[Last(path)]
    decreases Nodes(g) - Elements(path), 0, |children|
  {
    if children == [] then 0
    else
      assert children[0] in g[Last(path)];
      assert Elements(path + [children[0]]) == Elements(path) + {children[0]};
      (if children[0] in path then 0 else SearchSize(g, path + [children[0]])) + ChildrenSize(g, path, children[1..])
  }

  ghost function StackSize<T>(g: Graph<T>, paths: seq<seq<T>>): nat
  {
    if paths == [] then 0 else StackSize(g, paths[..|paths| - 1]) + SearchSize(g, Last(paths))
  }

  lemma PushSize<T>(g: Graph<T>, paths: seq<seq<T>>, p: seq<T>)
    ensures StackSize(g, paths + [p]) == StackSize(g, paths) + SearchSize(g, p)
  {
    assert (paths + [p])[..|paths|] == paths;
  }

  // ----- what is yielded

  ghost predicate Yields<T>(edges: Edges<T>, cycles: seq<seq<T>>) {
    && (forall k :: 0 <= k < |cycles| ==> ElementaryCycle(edges, cycles[k]))
    && forall j, k :: 0 <= j < k < |cycles| ==> !IsRotation(cycles[j], cycles[k])
  }

  lemma FoundMonotone<T>(cycles: seq<seq<T>>, more: seq<seq<T>>, c: seq<T>)
    requires cycles <= more && Found(cycles, c)
    ensures Found(more, c)
  {
    var k :| 0 <= k < |cycles| && IsRotation(cycles[k], c);
    assert more[k] == cycles[k];
  }

  /** Closing an edge from the end of a simple path back to its i-th node makes a cycle. */
  lemma ClosedTail<T>(edges: Edges<T>, path: seq<T>, i: nat)
    requires IsPath(edges, path) && Distinct(path) && i < |path| && (Last(path), path[i]) in edges
    ensures ElementaryCycle(edges, path[i..])
  {
    Subpath(edges, path, i, |path|);
    assert path[i..|path|] == path[i..];
  }

  /** Yields cycle unless a rotation of it has been yielded before. */
  method Yield<T(==)>(cycles0: seq<seq<T>>, cycle: seq<T>, ghost edges: Edges<T>) returns (cycles: seq<seq<T>>)
    requires Yields(edges, cycles0) && ElementaryCycle(edges, cycle)
    ensures Yields(edges, cycles) && Found(cycles, cycle)
    ensures cycles0 <= cycles
  {
    for k := 0 to |cycles0|
      invariant forall j :: 0 <= j < k ==> !IsRotation(cycles0[j], cycle)
    {
      var isDup := IsRotated(cycles0[k], cycle);
      if isDup {
        return cycles0;
      }
    }
    cycles := cycles0 + [cycle];
    RotationReflexive(cycle);
    assert IsRotation(cycles[|cycles0|], cycle);
  }

  method IndexOf<T(==)>(s: seq<T>, x: T) returns (i: nat)
    requires x in s
    ensures i < |s| && s[i] == x && x !in s[..i]
  {
    i := 0;
    while s[i] != x
      invariant i < |s| && x !in s[..i]
      decreases |s| - i
    {
      i := i + 1;
    }
  }

  /** The inner loop: path has been popped; its children close cycles or are pushed. */
  method Expand<T(==, !new)>(g: Graph<T>, path: seq<T>, paths0: seq<seq<T>>, cycles0: seq<seq<T>>, visited0: set<T>, ghost start: T)
    returns (paths: seq<seq<T>>, cycles: seq<seq<T>>, visited: set<T>)
    requires SimplePath(EdgesOf(g), start, path) && Last(path) in g
    requires forall p :: p in paths0 ==> SimplePath(EdgesOf(g), start, p)
    requires Yields(EdgesOf(g), cycles0)
    ensures forall p :: p in paths ==> SimplePath(EdgesOf(g), start, p)
    ensures Yields(EdgesOf(g), cycles) && cycles0 <= cycles
    ensures paths0 <= paths
    ensures Handled(EdgesOf(g), cycles, path)
    ensures forall c :: c in g[Last(path)] && c !in path ==> path + [c] in paths
    ensures StackSize(g, paths) < StackSize(g, paths0 + [path])
    ensures visited0 <= visited && forall v :: v in visited ==> v in visited0 || Reaches(EdgesOf(g), start, v)
  {
    ghost var edges := EdgesOf(g);
    var children := g[Last(path)];
    paths, cycles, visited := paths0, cycles0, visited0;
    for j := 0 to |children|
      invariant forall p :: p in paths ==> SimplePath(edges, start, p)
      invariant Yields(edges, cycles) && cycles0 <= cycles && paths0 <= paths
      invariant forall c :: c in children[..j] && c !in path ==> path + [c] in paths
      invariant forall i :: 0 <= i < |path| && path[i] in children[..j] ==> Found(cycles, path[i..])
      invariant StackSize(g, paths) + ChildrenSize(g, path, children[j..]) == StackSize(g, paths0) + ChildrenSize(g, path, children)
      invariant visited0 <= visited && forall v :: v in visited ==> v in visited0 || Reaches(edges, start, v)
    {
      var child := children[j];
      ghost var before := cycles;
      assert children[..j + 1] == children[..j] + [child];
      assert children[j..][1..] == children[j + 1..];
      if child in path {
        var index := IndexOf(path, child);
        ClosedTail(edges, path, index);
        cycles := Yield(cycles, path[index..], edges);
        forall i | 0 <= i < |path| && path[i] in children[..j + 1] ensures Found(cycles, path[i..]) {
          if path[i] in children[..j] {
            FoundMonotone(before, cycles, path[i..]);
          }
        }
      } else {
        ExtendPath(edges, path, child);
        DistinctConcat(path, [child]);
        PushSize(g, paths, path + [child]);
        assert Leads(edges, path + [child], start, child, |path|);
        paths := paths + [path + [child]];
        visited := visited + {child};
      }
    }
    PushSize(g, paths0, path);
    assert children[..|children|] == children;
  }

  // ----- the two outer loops

  /** The stack covers whatever simple paths from start have not been handled. */
  ghost predicate Complete<T(!new)>(edges: Edges<T>, start: T, paths: seq<seq<T>>, cycles: seq<seq<T>>) {
    forall q :: SimplePath(edges, start, q) ==> Handled(edges, cycles, q) || Covered(paths, q)
  }

  /** Popping path keeps the stack complete if path is handled and all its simple extensions are pushed. */
  lemma PopComplete<T(!new)>(edges: Edges<T>, start: T, stack: seq<seq<T>>, path: seq<T>, cycles0: seq<seq<T>>,
                             paths: seq<seq<T>>, cycles: seq<seq<T>>)
    requires Complete(edges, start, stack + [path], cycles0)
    requires SimplePath(edges, start, path)
    requires stack <= paths && cycles0 <= cycles
    requires Handled(edges, cycles, path)
    requires forall c :: (Last(path), c) in edges && c !in path ==> path + [c] in paths
    ensures Complete(edges, start, paths, cycles)
  {
    forall q | SimplePath(edges, start, q) ensures Handled(edges, cycles, q) || Covered(paths, q) {
      if Handled(edges, cycles0, q) {
        forall i | 0 <= i < |q| && (Last(q), q[i]) in edges ensures Found(cycles, q[i..]) {
          FoundMonotone(cycles0, cycles, q[i..]);
        }
      } else {
        var k :| 0 <= k < |stack + [path]| && (stack + [path])[k] <= q;
        if k < |stack| {
          assert paths[k] <= q;
        } else if |path| < |q| {
          var c := q[|path|];
          assert Step(edges, q, |path| - 1);
          var m :| 0 <= m < |paths| && paths[m] == path + [c];
          assert paths[m] <= q;
        } else {
          assert q == path;
        }
      }
    }
  }

  /** All cycles that can be reached from start are yielded; visited grows by nodes that can be reached from start. */
  method SearchFrom<T(==, !new)>(g: Graph<T>, start: T, cycles0: seq<seq<T>>, visited0: set<T>)
    returns (cycles: seq<seq<T>>, visited: set<T>)
    requires Yields(EdgesOf(g), cycles0)
    ensures Yields(EdgesOf(g), cycles) && cycles0 <= cycles
    ensures Explored(EdgesOf(g), cycles, start)
    ensures visited0 <= visited && forall v :: v in visited ==> v in visited0 || Reaches(EdgesOf(g), start, v)
  {
    ghost var edges := EdgesOf(g);
    var paths := [[start]];
    cycles, visited := cycles0, visited0;
    forall q | SimplePath(edges, start, q) ensures Covered(paths, q) {
      assert paths[0] <= q;
    }
    while paths != []
      invariant forall p :: p in paths ==> SimplePath(edges, start, p)
      invariant Yields(edges, cycles) && cycles0 <= cycles
      invariant Complete(edges, start, paths, cycles)
      invariant visited0 <= visited && forall v :: v in visited ==> v in visited0 || Reaches(edges, start, v)
      decreases StackSize(g, paths)
    {
      var path, stack := Last(paths), paths[..|paths| - 1];
      assert paths == stack + [path];
      PushSize(g, stack, path);
      assert path in paths;
      if Last(path) in g {
        ghost var before := cycles;
        paths, cycles, visited := Expand(g, path, stack, cycles, visited, start);
        PopComplete(edges, start, stack, path, before, paths, cycles);
      } else {
        PopComplete(edges, start, stack, path, cycles, stack, cycles);
        paths := stack;
      }
    }
    forall c | ElementaryCycle(edges, c) && Reaches(edges, start, c[0]) ensures Found(cycles, c) {
      SearchFindsCycle(edges, cycles, start, c);
    }
  }

  /** Keys of the dictionary, in whatever order it lists them. */
  method Parents<T(==)>(g: Graph<T>) returns (starts: seq<T>)
    ensures forall p :: p in starts <==> p in g
  {
    starts := [];
    var keys := g.Keys;
    while keys != {}
      invariant keys <= g.Keys
      invariant forall p :: p in starts <==> p in g && p !in keys
    {
      var p :| p in keys;
      starts, keys := starts + [p], keys - {p};
    }
  }

  /** Exactly one yielded cycle is a rotation of c. */
  ghost predicate FoundOnce<T>(cycles: seq<seq<T>>, c: seq<T>) {
    exists k :: 0 <= k < |cycles| && IsRotation(cycles[k], c) && forall j :: 0 <= j < |cycles| && j != k ==> !IsRotation(cycles[j], c)
  }

  lemma OneRepresentative<T>(edges: Edges<T>, cycles: seq<seq<T>>, c: seq<T>)
    requires Yields(edges, cycles) && Found(cycles, c)
    ensures FoundOnce(cycles, c)
  {
    var k :| 0 <= k < |cycles| && IsRotation(cycles[k], c);
    forall j | 0 <= j < |cycles| && j != k ensures !IsRotation(cycles[j], c) {
      if IsRotation(cycles[j], c) {
        RotationSymmetric(cycles[k], c);
        RotationTransitive(cycles[j], c, cycles[k]);
        RotationSymmetric(cycles[j], cycles[k]);
      }
    }
  }

  method FindCycles<T(==, !new)>(parentChildren: Graph<T>) returns (cycles: seq<seq<T>>)
    // every cycle yielded is elementary, and of every elementary cycle exactly one rotation is yielded
    ensures forall k :: 0 <= k < |cycles| ==> ElementaryCycle(EdgesOf(parentChildren), cycles[k])
    ensures forall c :: ElementaryCycle(EdgesOf(parentChildren), c) ==> FoundOnce(cycles, c)
  {
    ghost var edges := EdgesOf(parentChildren);
    cycles := [];
    var visited: set<T> := {};
    var starts := Parents(parentChildren);
    for i := 0 to |starts|
      invariant Yields(edges, cycles)
      invariant forall s :: s in starts[..i] ==> Explored(edges, cycles, s)
      invariant forall v :: v in visited ==> Explored(edges, cycles, v)
    {
      assert starts[..i + 1] == starts[..i] + [starts[i]];
      if starts[i] !in visited {
        ghost var before := cycles;
        cycles, visited := SearchFrom(parentChildren, starts[i], cycles, visited);
        ExploredFurther(edges, before, cycles, starts[i]);
      }
    }
    forall c | ElementaryCycle(edges, c) ensures FoundOnce(cycles, c) {
      assert c[0] in starts[..|starts|] by {
        if |c| > 1 {
          assert Step(edges, c, 0);
        }
      }
      assert Leads(edges, [c[0]], c[0], c[0], 0);
      OneRepresentative(edges, cycles, c);
    }
  }

  /** Exploration survives further yields, and extends to whatever the new start reaches. */
  lemma ExploredFurther<T(!new)>(edges: Edges<T>, cycles: seq<seq<T>>, more: seq<seq<T>>, s: T)
    requires cycles <= more && Explored(edges, more, s)
    ensures forall v :: Explored(edges, cycles, v) || Reaches(edges, s, v) ==> Explored(edges, more, v)
  {
    forall v, c | (Explored(edges, cycles, v) || Reaches(edges, s, v)) && ElementaryCycle(edges, c) && Reaches(edges, v, c[0])
      ensures Found(more, c)
    {
      if Reaches(edges, s, v) {
        ReachesTransitive(edges, s, v, c[0]);
      } else {
        FoundMonotone(cycles, more, c);
      }
    }
  }
}
