// The level-by-level dependency sort, and how the growing-list sort refines it.
module TopSortLevels {
  import opened Sequences
  import opened DependencyGraph
  import opened TopSort

  /** Level k lists the items whose longest path from above has k edges, once each; levels stop where nothing is that deep. */
  ghost predicate LevelsByDepth<T(!new)>(edges: Edges<T>, items: set<T>, levels: seq<seq<T>>) {
    && AreLevels(edges, items, levels)
    && (forall x, d: nat :: x in items && AtDepth(edges, x, d) ==> d < |levels|)
  }

  ghost predicate AreLevels<T(!new)>(edges: Edges<T>, items: set<T>, levels: seq<seq<T>>) {
    forall k :: 0 <= k < |levels| ==> IsLevel(edges, items, levels[k], k)
  }

  ghost predicate IsLevel<T(!new)>(edges: Edges<T>, items: set<T>, level: seq<T>, k: nat) {
    && level != []
    && Distinct(level)
    && forall x :: x in level <==> x in items && AtDepth(edges, x, k)
  }

  /** After n levels, exactly the items with no chain of n edges above them are done. */
  ghost predicate ShallowDone<T(!new)>(edges: Edges<T>, items: set<T>, done: set<T>, n: nat) {
    forall x :: x in done <==> x in items && !HasChain(edges, n, x)
  }

  /** The items whose parents are all done, but which are not, form the next level. */
  lemma NextLevel<T(!new)>(pairs: Pairs<T>, items: set<T>, done: set<T>, n: nat, x: T)
    requires Items(pairs) <= items
    requires ShallowDone(EdgeSet(pairs), items, done, n)
    requires x in items
    ensures x !in done && Pending(pairs, done, x) == 0 <==> AtDepth(EdgeSet(pairs), x, n)
  {
    var edges := EdgeSet(pairs);
    PendingPositive(pairs, done, x);
    if Pending(pairs, done, x) > 0 {
      var p :| p !in done && (p, x) in pairs;
      assert (p, x).0 in Items(pairs);
      LongerChain(edges, n, p, x);
    }
    if HasChain(edges, n + 1, x) {
      ChainMonotone(edges, n, n + 1, x);
      var p := ShorterChain(edges, n, x);
    }
  }

  lemma LevelDone<T(!new)>(pairs: Pairs<T>, items: set<T>, done: set<T>, n: nat, numParents: map<T, int>, level: seq<T>)
    requires Items(pairs) <= items && done <= items
    requires Counted(pairs, items, done, numParents)
    requires ShallowDone(EdgeSet(pairs), items, done, n)
    requires Distinct(level) && level != []
    requires forall x :: x in level <==> x in numParents && numParents[x] == 0
    ensures IsLevel(EdgeSet(pairs), items, level, n)
    ensures ShallowDone(EdgeSet(pairs), items, done + Elements(level), n + 1)
  {
    var edges := EdgeSet(pairs);
    forall x ensures x in level <==> x in items && AtDepth(edges, x, n) {
      if x in items {
        NextLevel(pairs, items, done, n, x);
      }
    }
    forall x | x in items && !HasChain(edges, n, x) ensures !HasChain(edges, n + 1, x) {
      if HasChain(edges, n + 1, x) {
        ChainMonotone(edges, n, n + 1, x);
      }
    }
  }

  /** When no item is free to go, no item left has a finite depth, and no item done has a cycle upstream. */
  lemma LevelsEnd<T(!new)>(pairs: Pairs<T>, items: set<T>, done: set<T>, n: nat, numParents: map<T, int>)
    requires Items(pairs) <= items
    requires Counted(pairs, items, done, numParents)
    requires ShallowDone(EdgeSet(pairs), items, done, n)
    requires forall y :: y in numParents ==> numParents[y] != 0
    ensures forall x, d: nat :: x in items && AtDepth(EdgeSet(pairs), x, d) ==> d < n
    ensures forall x :: x in done ==> !FedByCycle(EdgeSet(pairs), x)
  {
    var edges := EdgeSet(pairs);
    forall x, d: nat | x in items && AtDepth(edges, x, d) ensures d < n {
      DepthNotFedByCycle(edges, x, d);
      if x !in done {
        LeftoversFedByCycle(pairs, items, done, x);
      } else if n <= d {
        ChainMonotone(edges, n, d, x);
      }
    }
    forall x | x in done ensures !FedByCycle(edges, x) {
      if FedByCycle(edges, x) {
        FedByCycleHasChain(edges, x, n);
      }
    }
  }

  lemma LevelAdded<T(!new)>(pairs: Pairs<T>, items: set<T>, done: set<T>, levels: seq<seq<T>>, numParents: map<T, int>, level: seq<T>)
    requires Items(pairs) <= items && done <= items
    requires Counted(pairs, items, done, numParents)
    requires ShallowDone(EdgeSet(pairs), items, done, |levels|) && AreLevels(EdgeSet(pairs), items, levels)
    requires Distinct(level) && level != []
    requires forall x :: x in level <==> x in numParents && numParents[x] == 0
    ensures ShallowDone(EdgeSet(pairs), items, done + Elements(level), |levels + [level]|)
    ensures AreLevels(EdgeSet(pairs), items, levels + [level])
    ensures items - (done + Elements(level)) < numParents.Keys
  {
    LevelDone(pairs, items, done, |levels|, numParents, level);
    assert level[0] in level;
  }

  method TopSortLevels<T(==, !new)>(pairs: Pairs<T>) returns (levels: seq<seq<T>>, outcome: Outcome<T>)
    ensures LevelsByDepth(EdgeSet(pairs), Items(pairs), levels)
    ensures outcome.CycleError? <==> HasCycle(EdgeSet(pairs))
    ensures outcome.CycleError? ==> Leftovers(pairs, Items(pairs), outcome)
  {
    var numParents, children := CountParents(pairs);
    levels, outcome := TopSortLevelsCore(numParents, children, pairs);
  }

  /** levels collects what the generator yields before it stops or raises. */
  method TopSortLevelsCore<T(==, !new)>(numParents0: map<T, int>, children0: map<T, seq<T>>, ghost pairs: Pairs<T>)
    returns (levels: seq<seq<T>>, outcome: Outcome<T>)
    requires Describes(pairs, numParents0, children0)
    ensures LevelsByDepth(EdgeSet(pairs), numParents0.Keys, levels)
    ensures outcome.CycleError? <==> HasCycle(EdgeSet(pairs))
    ensures outcome.CycleError? ==> Leftovers(pairs, numParents0.Keys, outcome)
  {
    var numParents, children;
    ghost var done;
    levels, numParents, children, done := YieldLevels(numParents0, children0, pairs);
    LevelsEnd(pairs, numParents0.Keys, done, |levels|, numParents);
    outcome := Conclude(pairs, numParents0.Keys, done, numParents, children);
  }

  /** The generator's loop, which ends when no count is zero. */
  method YieldLevels<T(==, !new)>(numParents0: map<T, int>, children0: map<T, seq<T>>, ghost pairs: Pairs<T>)
    returns (levels: seq<seq<T>>, numParents: map<T, int>, children: map<T, seq<T>>, ghost done: set<T>)
    requires Describes(pairs, numParents0, children0)
    ensures After(pairs, numParents0.Keys, done, numParents, children)
    ensures ShallowDone(EdgeSet(pairs), numParents0.Keys, done, |levels|)
    ensures AreLevels(EdgeSet(pairs), numParents0.Keys, levels)
    ensures forall x :: x in numParents ==> numParents[x] != 0
  {
    ghost var items, edges := numParents0.Keys, EdgeSet(pairs);
    numParents, children, levels, done := numParents0, children0, [], {};
    forall x ensures HasChain(edges, 0, x) {
      NoChain(edges, x);
    }
    while true
      invariant After(pairs, items, done, numParents, children)
      invariant ShallowDone(edges, items, done, |levels|)
      invariant AreLevels(edges, items, levels)
      decreases numParents.Keys
    {
      var level := Parentless(numParents);
      if level == [] {
        break;
      }
      LevelAdded(pairs, items, done, levels, numParents, level);
      numParents, children := SettleLevel(level, numParents, children, pairs, items, done);
      levels := levels + [level];
      done := done + Elements(level);
    }
  }

  method SettleLevel<T(==, !new)>(level: seq<T>, numParents0: map<T, int>, children0: map<T, seq<T>>,
                                  ghost pairs: Pairs<T>, ghost items: set<T>, ghost done: set<T>)
    returns (numParents: map<T, int>, children: map<T, seq<T>>)
    requires Items(pairs) <= items
    requires After(pairs, items, done, numParents0, children0)
    requires Distinct(level)
    requires forall x :: x in level ==> x in numParents0 && numParents0[x] == 0
    ensures After(pairs, items, done + Elements(level), numParents, children)
  {
    numParents, children := numParents0, children0;
    ghost var sofar := done;
    for i := 0 to |level|
      invariant sofar == done + set k | 0 <= k < i :: level[k]
      invariant After(pairs, items, sofar, numParents, children)
    {
      PendingShrinks(pairs, done, sofar, level[i]);
      var freed;
      numParents, children, freed := SettleParent(level[i], numParents, children, pairs, items, sofar);
      sofar := sofar + {level[i]};
    }
    assert sofar == done + Elements(level);
  }

  // ----- topsort against topsort_levels

  /** Where level k starts when the levels are written one after another. */
  ghost function Start<T>(levels: seq<seq<T>>, k: nat): nat
    requires k <= |levels|
  {
    if k == 0 then 0 else Start(levels, k - 1) + |levels[k - 1]|
  }

  /** order is cut into consecutive blocks, block k being a rearrangement of level k. */
  ghost predicate BlocksOf<T>(order: seq<T>, levels: seq<seq<T>>) {
    && |order| == Start(levels, |levels|)
    && forall k :: 0 <= k < |levels| ==> IsBlock(order, levels, k)
  }

  ghost predicate IsBlock<T>(order: seq<T>, levels: seq<seq<T>>, k: nat)
    requires k < |levels|
  {
    && Start(levels, k + 1) <= |order|
    && multiset(order[Start(levels, k)..Start(levels, k + 1)]) == multiset(levels[k])
  }

  /** What topsort promises of its answer, and topsort_levels of its levels. */
  ghost predicate Comparable<T(!new)>(edges: Edges<T>, items: set<T>, order: seq<T>, depths: seq<nat>, levels: seq<seq<T>>) {
    && Distinct(order)
    && Elements(order) == (set x | x in items && !FedByCycle(edges, x))
    && InDepthOrder(edges, order, depths)
    && LevelsByDepth(edges, items, levels)
  }

  /** topsort's answer is a reshuffling of topsort_levels' output, level by level; also before a cycle error. */
  lemma SortRefinesLevels<T(!new)>(edges: Edges<T>, items: set<T>, order: seq<T>, depths: seq<nat>, levels: seq<seq<T>>)
    requires Comparable(edges, items, order, depths, levels)
    ensures BlocksOf(order, levels)
  {
    forall k | 0 <= k < |levels| ensures IsBlock(order, levels, k) {
      BlockMatches(edges, items, order, depths, levels, k);
    }
    BlockStart(edges, items, order, depths, levels, |levels|);
    if order != [] {
      var n := |order| - 1;
      assert order[n] in Elements(order);
      assert AtDepth(edges, order[n], depths[n]);
      assert depths[n] < |levels|;
    }
  }

  /** Level k starts where depth k starts. */
  lemma {:induction false} BlockStart<T(!new)>(edges: Edges<T>, items: set<T>, order: seq<T>, depths: seq<nat>,
                                               levels: seq<seq<T>>, k: nat)
    requires Comparable(edges, items, order, depths, levels)
    requires k <= |levels|
    ensures Start(levels, k) <= |order|
    ensures forall i :: 0 <= i < |order| ==> (i < Start(levels, k) <==> depths[i] < k)
    decreases k, 0
  {
    if k > 0 {
      BlockMatches(edges, items, order, depths, levels, k - 1);
    }
  }

  lemma {:induction false} BlockMatches<T(!new)>(edges: Edges<T>, items: set<T>, order: seq<T>, depths: seq<nat>,
                                                 levels: seq<seq<T>>, k: nat)
    requires Comparable(edges, items, order, depths, levels)
    requires k < |levels|
    ensures Start(levels, k + 1) <= |order|
    ensures forall i :: 0 <= i < |order| ==> (i < Start(levels, k + 1) <==> depths[i] < k + 1)
    ensures IsBlock(order, levels, k)
    decreases k, 1
  {
    BlockStart(edges, items, order, depths, levels, k);
    var a := Start(levels, k);
    var b := a;
    while b < |order| && depths[b] < k + 1
      invariant a <= b <= |order|
      invariant forall i :: 0 <= i < b ==> depths[i] < k + 1
    {
      b := b + 1;
    }
    BlockElements(edges, items, order, depths, levels, k, a, b);
    assert Distinct(levels[k]) by {
      assert IsLevel(edges, items, levels[k], k);
    }
    SameElements(order[a..b], levels[k]);
  }

  lemma BlockElements<T(!new)>(edges: Edges<T>, items: set<T>, order: seq<T>, depths: seq<nat>,
                               levels: seq<seq<T>>, k: nat, a: nat, b: nat)
    requires Comparable(edges, items, order, depths, levels)
    requires k < |levels| && a <= b <= |order|
    requires forall i :: 0 <= i < |order| ==> (a <= i < b <==> depths[i] == k)
    ensures Elements(order[a..b]) == Elements(levels[k])
  {
    assert IsLevel(edges, items, levels[k], k);
    forall x | x in order[a..b] ensures x in levels[k] {
      var i :| a <= i < b && order[i] == x;
      assert AtDepth(edges, order[i], depths[i]);
      assert x in Elements(order);
    }
    forall x | x in levels[k] ensures x in order[a..b] {
      DepthNotFedByCycle(edges, x, k);
      assert x in Elements(order);
      var i :| 0 <= i < |order| && order[i] == x;
      DepthUnique(edges, x, k, depths[i]);
      assert x == order[a..b][i - a];
    }
  }
}
