// What topsort's error has to do with the cycles find_cycles yields.
module CycleReport {
  import opened Sequences
  import opened DependencyGraph
  import opened TopSort
  import opened FindCycles

  /** A closed walk, however tangled, contains an elementary cycle. */
  lemma ClosedWalkHasCycle<T(!new)>(edges: Edges<T>, x: T) returns (c: seq<T>)
    requires OnCycle(edges, x)
    ensures ElementaryCycle(edges, c) && c[0] == x
  {
    var p, n: nat :| n > 0 && Leads(edges, p, x, x, n);
    Subpath(edges, p, 0, n);
    assert Step(edges, p, n - 1);
    c := FirstContact(edges, p[0..n], [p[n - 1]]);
  }

  lemma CycleNodeOnCycle<T(!new)>(edges: Edges<T>, c: seq<T>)
    requires ElementaryCycle(edges, c)
    ensures OnCycle(edges, c[0])
  {
    ExtendPath(edges, c, c[0]);
    assert Leads(edges, c + [c[0]], c[0], c[0], |c|);
  }

  /** topsort fails (see TopSort's contract) exactly when find_cycles has something to yield. */
  lemma SortFailsIffCycleYielded<T(!new)>(edges: Edges<T>, cycles: seq<seq<T>>)
    requires forall k :: 0 <= k < |cycles| ==> ElementaryCycle(edges, cycles[k])
    requires forall c :: ElementaryCycle(edges, c) ==> FoundOnce(cycles, c)
    ensures HasCycle(edges) <==> cycles != []
  {
    if x :| OnCycle(edges, x) {
      var c := ClosedWalkHasCycle(edges, x);
      assert FoundOnce(cycles, c);
    }
    if cycles != [] {
      CycleNodeOnCycle(edges, cycles[0]);
    }
  }

  lemma EdgesLeft<T(!new)>(pairs: Pairs<T>, done: set<T>, children: map<T, seq<T>>, p: T, x: T)
    requires ChildrenFor(pairs, done, children)
    ensures (p, x) in EdgesOf(children) <==> (p, x) in pairs && p !in done
  {
    ChildrenAreEdges(pairs, p, x);
  }

  lemma CycleNodeFed<T(!new)>(edges: Edges<T>, c: seq<T>, i: nat)
    requires ElementaryCycle(edges, c) && i < |c|
    ensures FedByCycle(edges, c[i])
  {
    RotateCycle(edges, c, i);
    CycleNodeOnCycle(edges, c[i..] + c[..i]);
  }

  lemma CycleInSubgraph<T>(some: Edges<T>, all: Edges<T>, c: seq<T>)
    requires ElementaryCycle(all, c)
    requires forall e :: e in all && e.0 in c ==> e in some
    ensures ElementaryCycle(some, c)
  {
    forall i | 0 <= i < |c| - 1 ensures Step(some, c, i) {
      assert Step(all, c, i);
      assert (c[i], c[i + 1]).0 in c;
    }
    assert (Last(c), c[0]).0 in c;
  }

  /** The successor lists carried by a cycle error have exactly the cycles of the whole input. */
  lemma ErrorShowsAllCycles<T(!new)>(pairs: Pairs<T>, items: set<T>, e: Outcome<T>, c: seq<T>)
    requires Items(pairs) <= items
    requires e.CycleError? && Leftovers(pairs, items, e)
    ensures ElementaryCycle(EdgesOf(e.children), c) <==> ElementaryCycle(EdgeSet(pairs), c)
  {
    var some, all := EdgesOf(e.children), EdgeSet(pairs);
    var done := items - set x | x in items && FedByCycle(all, x);
    if ElementaryCycle(some, c) {
      forall d | d in some ensures d in all {
        EdgesLeft(pairs, done, e.children, d.0, d.1);
      }
      CycleInSubgraph(all, some, c);
    }
    if ElementaryCycle(all, c) {
      forall d | d in all && d.0 in c ensures d in some {
        var i :| 0 <= i < |c| && c[i] == d.0;
        CycleNodeFed(all, c, i);
        EdgesLeft(pairs, done, e.children, d.0, d.1);
      }
      CycleInSubgraph(some, all, c);
    }
  }
}
