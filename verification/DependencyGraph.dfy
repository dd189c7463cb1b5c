// Paths, chains and cycles of a finite graph.
module DependencyGraph {
  import opened Sequences

  type Edges<!T(==)> = set<(T, T)>

  /** The i-th step of p follows an edge. */
  ghost predicate Step<T>(edges: Edges<T>, p: seq<T>, i: nat)
    requires i + 1 < |p|
  {
    (p[i], p[i + 1]) in edges
  }

  ghost predicate IsPath<T>(edges: Edges<T>, p: seq<T>) {
    && p != []
    && forall i :: 0 <= i < |p| - 1 ==> Step(edges, p, i)
  }

  lemma Subpath<T>(edges: Edges<T>, p: seq<T>, i: nat, j: nat)
    requires IsPath(edges, p) && i < j <= |p|
    ensures IsPath(edges, p[i..j])
  {
    forall k | 0 <= k < j - i - 1 ensures Step(edges, p[i..j], k) {
      assert Step(edges, p, i + k);
    }
  }

  /** q starts where p stops. */
  lemma JoinPaths<T>(edges: Edges<T>, p: seq<T>, q: seq<T>)
    requires IsPath(edges, p) && IsPath(edges, q) && Last(p) == q[0]
    ensures IsPath(edges, p + q[1..])
  {
    var r := p + q[1..];
    forall i | 0 <= i < |r| - 1 ensures Step(edges, r, i) {
      if i < |p| - 1 {
        assert Step(edges, p, i);
      } else {
        assert Step(edges, q, i - |p| + 1);
      }
    }
  }

  lemma ExtendPath<T>(edges: Edges<T>, p: seq<T>, x: T)
    requires IsPath(edges, p) && (Last(p), x) in edges
    ensures IsPath(edges, p + [x])
  {
    forall i | 0 <= i < |p| ensures Step(edges, p + [x], i) {
      assert i < |p| - 1 ==> Step(edges, p, i);
    }
  }

  /** p leads from a to b along n edges. */
  ghost predicate Leads<T>(edges: Edges<T>, p: seq<T>, a: T, b: T, n: nat) {
    IsPath(edges, p) && p[0] == a && Last(p) == b && |p| == n + 1
  }

  ghost predicate Reaches<T(!new)>(edges: Edges<T>, a: T, b: T) {
    exists p, n: nat :: Leads(edges, p, a, b, n)
  }

  /** x lies on a closed path of at least one edge. */
  ghost predicate OnCycle<T(!new)>(edges: Edges<T>, x: T) {
    exists p, n: nat :: n > 0 && Leads(edges, p, x, x, n)
  }

  ghost predicate HasCycle<T(!new)>(edges: Edges<T>) {
    exists x :: OnCycle(edges, x)
  }

  /** x is on a cycle, or downstream of one. */
  ghost predicate FedByCycle<T(!new)>(edges: Edges<T>, x: T) {
    exists c :: OnCycle(edges, c) && Reaches(edges, c, x)
  }

  /** Some path of n edges ends in x. */
  ghost predicate HasChain<T(!new)>(edges: Edges<T>, n: nat, x: T) {
    exists p, a :: Leads(edges, p, a, x, n)
  }

  ghost predicate HasEveryChain<T(!new)>(edges: Edges<T>, x: T) {
    forall n: nat :: HasChain(edges, n, x)
  }

  /** The longest path into x has exactly d edges. */
  ghost predicate AtDepth<T(!new)>(edges: Edges<T>, x: T, d: nat) {
    HasChain(edges, d, x) && !HasChain(edges, d + 1, x)
  }

  ghost function Vertices<T>(edges: Edges<T>): set<T> {
    (set e | e in edges :: e.0) + (set e | e in edges :: e.1)
  }

  ghost predicate HasParentIn<T>(edges: Edges<T>, s: set<T>, x: T) {
    exists p :: p in s && (p, x) in edges
  }

  /** Every member of s has a parent in s. */
  ghost predicate ParentClosed<T>(edges: Edges<T>, s: set<T>) {
    forall x :: x in s ==> HasParentIn(edges, s, x)
  }

  lemma NoChain<T(!new)>(edges: Edges<T>, x: T)
    ensures HasChain(edges, 0, x)
  {
    assert Leads(edges, [x], x, x, 0);
  }

  lemma LongerChain<T(!new)>(edges: Edges<T>, n: nat, p: T, x: T)
    requires HasChain(edges, n, p) && (p, x) in edges
    ensures HasChain(edges, n + 1, x)
  {
    var path, a :| Leads(edges, path, a, p, n);
    ExtendPath(edges, path, x);
    assert Leads(edges, path + [x], a, x, n + 1);
  }

  lemma ShorterChain<T(!new)>(edges: Edges<T>, n: nat, x: T) returns (p: T)
    requires HasChain(edges, n + 1, x)
    ensures HasChain(edges, n, p) && (p, x) in edges
  {
    var path, a :| Leads(edges, path, a, x, n + 1);
    p := path[n];
    Subpath(edges, path, 0, n + 1);
    assert Leads(edges, path[0..n + 1], a, p, n);
    assert Step(edges, path, n);
  }

  lemma ChainMonotone<T(!new)>(edges: Edges<T>, m: nat, n: nat, x: T)
    requires m <= n && HasChain(edges, n, x)
    ensures HasChain(edges, m, x)
  {
    var path, a :| Leads(edges, path, a, x, n);
    Subpath(edges, path, n - m, n + 1);
    assert Leads(edges, path[n - m..n + 1], path[n - m], x, m);
  }

  lemma DepthUnique<T(!new)>(edges: Edges<T>, x: T, d: nat, e: nat)
    requires AtDepth(edges, x, d) && AtDepth(edges, x, e)
    ensures d == e
  {
    if d < e {
      ChainMonotone(edges, d + 1, e, x);
    } else if e < d {
      ChainMonotone(edges, e + 1, d, x);
    }
  }

  lemma {:induction false} ClosedHasChains<T(!new)>(edges: Edges<T>, s: set<T>, n: nat, x: T)
    requires ParentClosed(edges, s) && x in s
    ensures HasChain(edges, n, x)
  {
    if n == 0 {
      NoChain(edges, x);
    } else {
      assert HasParentIn(edges, s, x);
      var p :| p in s && (p, x) in edges;
      ClosedHasChains(edges, s, n - 1, p);
      LongerChain(edges, n - 1, p, x);
    }
  }

  /** A chain with more nodes than the graph has vertices runs through a cycle. */
  lemma LongChainFedByCycle<T(!new)>(edges: Edges<T>, x: T)
    requires HasChain(edges, |Vertices(edges)| + 1, x)
    ensures FedByCycle(edges, x)
  {
    var p, a :| Leads(edges, p, a, x, |Vertices(edges)| + 1);
    forall k | 0 <= k < |p| ensures p[k] in Vertices(edges) {
      assert Step(edges, p, if k < |p| - 1 then k else k - 1);
    }
    Pigeonhole(p, Vertices(edges));
    var i, j :| 0 <= i < j < |p| && p[i] == p[j];
    Subpath(edges, p, i, j + 1);
    assert Leads(edges, p[i..j + 1], p[i], p[i], j - i);
    Subpath(edges, p, i, |p|);
    assert Leads(edges, p[i..|p|], p[i], x, |p| - 1 - i);
    assert OnCycle(edges, p[i]) && Reaches(edges, p[i], x);
  }

  /** The vertices with a cycle upstream are exactly those with chains of every length. */
  lemma FedByCycleIffEveryChain<T(!new)>(edges: Edges<T>, x: T)
    ensures FedByCycle(edges, x) <==> HasEveryChain(edges, x)
  {
    if FedByCycle(edges, x) {
      forall n: nat ensures HasChain(edges, n, x) {
        FedByCycleHasChain(edges, x, n);
      }
    }
    if HasEveryChain(edges, x) {
      assert HasChain(edges, |Vertices(edges)| + 1, x);
      LongChainFedByCycle(edges, x);
    }
  }

  lemma FedByCycleHasChain<T(!new)>(edges: Edges<T>, x: T, n: nat)
    requires FedByCycle(edges, x)
    ensures HasChain(edges, n, x)
  {
    var c :| OnCycle(edges, c) && Reaches(edges, c, x);
    var loop, m: nat :| m > 0 && Leads(edges, loop, c, c, m);
    var tail, k: nat :| Leads(edges, tail, c, x, k);
    var s := Elements(loop) + Elements(tail);
    forall y | y in s ensures HasParentIn(edges, s, y) {
      if y in loop {
        var k :| 0 <= k < |loop| && loop[k] == y;
        var k' := if k == 0 then |loop| - 1 else k;
        assert Step(edges, loop, k' - 1);
        assert loop[k' - 1] in s;
      } else {
        var k :| 0 <= k < |tail| && tail[k] == y;
        assert Step(edges, tail, k - 1);
        assert tail[k - 1] in s;
      }
    }
    ClosedHasChains(edges, s, n, x);
  }

  /** A set in which everything has a parent consists of vertices with a cycle upstream. */
  lemma ClosedFedByCycle<T(!new)>(edges: Edges<T>, s: set<T>, x: T)
    requires ParentClosed(edges, s) && x in s
    ensures FedByCycle(edges, x)
  {
    ClosedHasChains(edges, s, |Vertices(edges)| + 1, x);
    LongChainFedByCycle(edges, x);
  }

  lemma ReachesTransitive<T(!new)>(edges: Edges<T>, a: T, b: T, c: T)
    requires Reaches(edges, a, b) && Reaches(edges, b, c)
    ensures Reaches(edges, a, c)
  {
    var p, m: nat :| Leads(edges, p, a, b, m);
    var q, n: nat :| Leads(edges, q, b, c, n);
    JoinPaths(edges, p, q);
    assert Leads(edges, p + q[1..], a, c, m + n);
  }
}
