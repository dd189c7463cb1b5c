// Dependency sorting by an answer that grows.
module TopSort {
  import opened Sequences
  import opened DependencyGraph

  type Pairs<!T> = seq<(T, T)>

  datatype Outcome<!T(==)> =
    | Sorted
    | CycleError(numParents: map<T, int>, children: map<T, seq<T>>)

  function EdgeSet<T(==)>(pairs: Pairs<T>): Edges<T> {
    set e | e in pairs
  }

  function Items<T(==)>(pairs: Pairs<T>): set<T> {
    (set e | e in pairs :: e.0) + (set e | e in pairs :: e.1)
  }

  /** The successors of parent, one entry per pair, in pair order. */
  function ChildrenOf<T(==)>(pairs: Pairs<T>, parent: T): seq<T> {
    if pairs == [] then []
    else
      var e := Last(pairs);
      ChildrenOf(pairs[..|pairs| - 1], parent) + if e.0 == parent then [e.1] else []
  }

  /** How many pairs give x a parent outside done. */
  function Pending<T(==)>(pairs: Pairs<T>, done: set<T>, x: T): nat {
    if pairs == [] then 0
    else
      var e := Last(pairs);
      Pending(pairs[..|pairs| - 1], done, x) + if e.1 == x && e.0 !in done then 1 else 0
  }

  /** The two dictionaries describe pairs; there may be further items that occur in no pair. */
  ghost predicate Describes<T(!new)>(pairs: Pairs<T>, numParents: map<T, int>, children: map<T, seq<T>>) {
    && Items(pairs) <= numParents.Keys
    && (forall x :: x in numParents ==> numParents[x] == Pending(pairs, {}, x))
    && ChildrenFor(pairs, {}, children)
  }

  /** children holds the successor lists of all items outside done. */
  ghost predicate ChildrenFor<T(!new)>(pairs: Pairs<T>, done: set<T>, children: map<T, seq<T>>) {
    && (forall p :: p in children ==> p !in done && children[p] == ChildrenOf(pairs, p))
    && (forall p :: p !in done && p !in children ==> ChildrenOf(pairs, p) == [])
  }

  /** The parent counts once done has been dealt with. */
  ghost predicate Counted<T>(pairs: Pairs<T>, items: set<T>, done: set<T>, numParents: map<T, int>) {
    && numParents.Keys == items - done
    && forall x :: x in numParents ==> numParents[x] == Pending(pairs, done, x)
  }

  /** The parent counts when the children in rest still wait for one decrement each. */
  ghost predicate Underway<T>(pairs: Pairs<T>, items: set<T>, done: set<T>, rest: seq<T>, numParents: map<T, int>) {
    && numParents.Keys == items - done
    && forall x :: x in numParents ==> numParents[x] == Pending(pairs, done, x) + multiset(rest)[x]
  }

  /** Whatever is done has no parent left outside done. */
  ghost predicate Settled<T>(pairs: Pairs<T>, done: set<T>) {
    forall x :: x in done ==> Pending(pairs, done, x) == 0
  }

  /** The dictionaries after done has been dealt with. */
  ghost predicate After<T(!new)>(pairs: Pairs<T>, items: set<T>, done: set<T>, numParents: map<T, int>, children: map<T, seq<T>>) {
    && done <= items
    && Counted(pairs, items, done, numParents)
    && ChildrenFor(pairs, done, children)
    && Settled(pairs, done)
  }

  // ----- facts about the counts

  lemma {:induction false} PendingPositive<T>(pairs: Pairs<T>, done: set<T>, x: T)
    ensures Pending(pairs, done, x) > 0 <==> exists p :: p !in done && (p, x) in pairs
  {
    if pairs != [] {
      var front, e := pairs[..|pairs| - 1], Last(pairs);
      PendingPositive(front, done, x);
      assert pairs == front + [e];
      if p :| p !in done && (p, x) in pairs {
        assert (p, x) in front || e == (p, x);
      }
      if e.1 == x && e.0 !in done {
        assert (e.0, x) in pairs;
      }
      if p :| p !in done && (p, x) in front {
        assert (p, x) in pairs;
      }
    }
  }

  lemma {:induction false} ChildrenAreEdges<T>(pairs: Pairs<T>, p: T, c: T)
    ensures c in ChildrenOf(pairs, p) <==> (p, c) in pairs
  {
    if pairs != [] {
      ChildrenAreEdges(pairs[..|pairs| - 1], p, c);
      assert pairs == pairs[..|pairs| - 1] + [Last(pairs)];
    }
  }

  /** Dealing with p takes one off a child's count for every pair (p, child). */
  lemma {:induction false} PendingAfter<T>(pairs: Pairs<T>, done: set<T>, p: T, x: T)
    requires p !in done
    ensures Pending(pairs, done, x) == Pending(pairs, done + {p}, x) + multiset(ChildrenOf(pairs, p))[x]
  {
    if pairs != [] {
      PendingAfter(pairs[..|pairs| - 1], done, p, x);
    }
  }

  /** Taking p out of the dictionary leaves exactly its children's decrements to do. */
  lemma RemoveParent<T>(pairs: Pairs<T>, items: set<T>, done: set<T>, p: T, numParents: map<T, int>)
    requires Counted(pairs, items, done, numParents)
    requires p in numParents
    ensures Underway(pairs, items, done + {p}, ChildrenOf(pairs, p), numParents - {p})
  {
    forall x | x in numParents && x != p
      ensures numParents[x] == Pending(pairs, done + {p}, x) + multiset(ChildrenOf(pairs, p))[x]
    {
      PendingAfter(pairs, done, p, x);
    }
  }

  /** The next child to decrement is still in the dictionary, with a positive count. */
  lemma ChildStillCounted<T>(pairs: Pairs<T>, items: set<T>, done: set<T>, p: T, c: T, rest: seq<T>, numParents: map<T, int>)
    requires Underway(pairs, items, done, [c] + rest, numParents)
    requires Items(pairs) <= items
    requires c in ChildrenOf(pairs, p) && c !in done
    ensures c in numParents && numParents[c] > 0
    ensures Underway(pairs, items, done, rest, numParents[c := numParents[c] - 1])
  {
    ChildrenAreEdges(pairs, p, c);
    assert (p, c).1 in Items(pairs);
    assert multiset([c] + rest) == multiset{c} + multiset(rest);
  }

  lemma {:induction false} PendingShrinks<T>(pairs: Pairs<T>, done: set<T>, more: set<T>, x: T)
    requires done <= more
    ensures Pending(pairs, more, x) <= Pending(pairs, done, x)
  {
    if pairs != [] {
      PendingShrinks(pairs[..|pairs| - 1], done, more, x);
    }
  }

  /** p may join what is done once it waits for no parent, and then none of its children is done, p itself included. */
  lemma SettledOneMore<T>(pairs: Pairs<T>, done: set<T>, p: T)
    requires Settled(pairs, done) && Pending(pairs, done, p) == 0
    requires p !in done
    ensures Settled(pairs, done + {p})
    ensures forall c :: c in ChildrenOf(pairs, p) ==> c !in done + {p}
  {
    forall x | x in done + {p} ensures Pending(pairs, done + {p}, x) == 0 {
      PendingShrinks(pairs, done, done + {p}, x);
    }
    forall c | c in ChildrenOf(pairs, p) ensures c !in done + {p} {
      ChildrenAreEdges(pairs, p, c);
      PendingPositive(pairs, done, c);
    }
  }

  /** Leftovers that all still wait for a parent all have a cycle upstream, and so has every one of their parents' heirs. */
  lemma LeftoversFedByCycle<T(!new)>(pairs: Pairs<T>, items: set<T>, done: set<T>, x: T)
    requires Items(pairs) <= items
    requires forall y :: y in items - done ==> Pending(pairs, done, y) > 0
    requires x in items - done
    ensures HasParentIn(EdgeSet(pairs), items - done, x)
    ensures FedByCycle(EdgeSet(pairs), x)
  {
    var edges, rest := EdgeSet(pairs), items - done;
    forall y | y in rest ensures HasParentIn(edges, rest, y) {
      PendingPositive(pairs, done, y);
      var p :| p !in done && (p, y) in pairs;
      assert (p, y).0 in Items(pairs);
      assert (p, y) in edges;
    }
    ClosedFedByCycle(edges, rest, x);
  }

  lemma DepthNotFedByCycle<T(!new)>(edges: Edges<T>, x: T, d: nat)
    requires AtDepth(edges, x, d)
    ensures !FedByCycle(edges, x)
  {
    if FedByCycle(edges, x) {
      FedByCycleHasChain(edges, x, d + 1);
    }
  }

  // ----- the operations

  /** What one more pair does to the number of parents, the successor lists and the items. */
  lemma OneMorePair<T>(pairs: Pairs<T>, e: (T, T), x: T)
    ensures Pending(pairs + [e], {}, x) == Pending(pairs, {}, x) + if e.1 == x then 1 else 0
    ensures ChildrenOf(pairs + [e], x) == ChildrenOf(pairs, x) + if e.0 == x then [e.1] else []
    ensures Items(pairs + [e]) == Items(pairs) + {e.0, e.1}
    ensures x !in Items(pairs) ==> Pending(pairs, {}, x) == 0
  {
    assert (pairs + [e])[..|pairs|] == pairs;
    assert forall d :: d in pairs + [e] <==> d in pairs || d == e;
    assert e in pairs + [e];
    PendingPositive(pairs, {}, x);
    if p :| (p, x) in pairs {
      assert (p, x).1 in Items(pairs);
    }
  }

  /** Dictionaries for pairs, brought up to date for one more pair, describe the longer list. */
  lemma DescribesOneMore<T(!new)>(pairs: Pairs<T>, e: (T, T), n0: map<T, int>, c0: map<T, seq<T>>,
                                  n1: map<T, int>, c1: map<T, seq<T>>)
    requires n0.Keys == Items(pairs) && Describes(pairs, n0, c0)
    requires n1.Keys == n0.Keys + {e.0, e.1}
    requires forall x :: x in n1 ==> n1[x] == (if x in n0 then n0[x] else 0) + (if x == e.1 then 1 else 0)
    requires c1 == c0[e.0 := (if e.0 in c0 then c0[e.0] else []) + [e.1]]
    ensures n1.Keys == Items(pairs + [e]) && Describes(pairs + [e], n1, c1)
  {
    OneMorePair(pairs, e, e.0);
    forall x | x in n1 ensures n1[x] == Pending(pairs + [e], {}, x) {
      OneMorePair(pairs, e, x);
    }
    forall p | p in c1 ensures c1[p] == ChildrenOf(pairs + [e], p) {
      OneMorePair(pairs, e, p);
    }
    forall p | p !in c1 ensures ChildrenOf(pairs + [e], p) == [] {
      OneMorePair(pairs, e, p);
    }
  }

  method CountParents<T(==, !new)>(pairs: Pairs<T>) returns (numParents: map<T, int>, children: map<T, seq<T>>)
    ensures numParents.Keys == Items(pairs)
    ensures Describes(pairs, numParents, children)
  {
    numParents, children := map[], map[];
    for i := 0 to |pairs|
      invariant numParents.Keys == Items(pairs[..i])
      invariant Describes(pairs[..i], numParents, children)
    {
      assert pairs[..i + 1] == pairs[..i] + [pairs[i]];
      ghost var n0, c0 := numParents, children;
      var (parent, child) := pairs[i];
      if parent !in numParents {
        numParents := numParents[parent := 0];
      }
      if child !in numParents {
        numParents := numParents[child := 0];
      }
      numParents := numParents[child := numParents[child] + 1];
      children := children[parent := (if parent in children then children[parent] else []) + [child]];
      DescribesOneMore(pairs[..i], pairs[i], n0, c0, numParents, children);
    }
    assert pairs[..|pairs|] == pairs;
  }

  /** The keys with count zero, in whatever order the dictionary lists them. */
  method Parentless<T(==)>(numParents: map<T, int>) returns (xs: seq<T>)
    ensures Distinct(xs)
    ensures forall x :: x in xs <==> x in numParents && numParents[x] == 0
  {
    xs := [];
    var keys := numParents.Keys;
    while keys != {}
      invariant Distinct(xs)
      invariant keys <= numParents.Keys
      invariant forall x :: x in xs <==> x in numParents && x !in keys && numParents[x] == 0
    {
      var x :| x in keys;
      if numParents[x] == 0 {
        xs := xs + [x];
      }
      keys := keys - {x};
    }
  }

  /** Counts have only gone down, and freed lists those that became zero, in the order they did. */
  ghost predicate Freed<T(!new)>(numParents: map<T, int>, counts: map<T, int>, freed: seq<T>)
    requires counts.Keys <= numParents.Keys
  {
    && Distinct(freed)
    && (forall x :: x in freed <==> x in counts && counts[x] == 0 && numParents[x] > 0)
    && forall x :: x in counts ==> counts[x] <= numParents[x]
  }

  lemma FreedMore<T(!new)>(numParents: map<T, int>, counts: map<T, int>, freed: seq<T>, c: T)
    requires counts.Keys <= numParents.Keys && Freed(numParents, counts, freed)
    requires c in counts && counts[c] > 0
    ensures Freed(numParents, counts[c := counts[c] - 1], if counts[c] == 1 then freed + [c] else freed)
  {
    DistinctConcat(freed, [c]);
  }

  /** Takes one off the count of each child of p; freed lists those whose count became zero, in the order they did. */
  method KnockDown<T(==, !new)>(p: T, kids: seq<T>, numParents: map<T, int>,
                          ghost pairs: Pairs<T>, ghost items: set<T>, ghost done: set<T>)
    returns (counts: map<T, int>, freed: seq<T>)
    requires Items(pairs) <= items
    requires kids == ChildrenOf(pairs, p)
    requires Underway(pairs, items, done, kids, numParents)
    requires forall c :: c in kids ==> c !in done
    ensures Counted(pairs, items, done, counts)
    ensures Distinct(freed)
    ensures forall x :: x in freed <==> x in counts && counts[x] == 0 && numParents[x] > 0
  {
    counts, freed := numParents, [];
    for j := 0 to |kids|
      invariant Underway(pairs, items, done, kids[j..], counts)
      invariant Freed(numParents, counts, freed)
    {
      var child := kids[j];
      assert kids[j..] == [child] + kids[j + 1..];
      ChildStillCounted(pairs, items, done, p, child, kids[j + 1..], counts);
      FreedMore(numParents, counts, freed, child);
      counts := counts[child := counts[child] - 1];
      if counts[child] == 0 {
        freed := freed + [child];
      }
    }
    assert kids[|kids|..] == [];
  }

  /** Deletes p from both dictionaries, knocking down the counts of its children. */
  method SettleParent<T(==, !new)>(p: T, numParents: map<T, int>, children: map<T, seq<T>>,
                                   ghost pairs: Pairs<T>, ghost items: set<T>, ghost done: set<T>)
    returns (counts: map<T, int>, rest: map<T, seq<T>>, freed: seq<T>)
    requires Items(pairs) <= items
    requires After(pairs, items, done, numParents, children)
    requires p in numParents && numParents[p] == 0
    ensures After(pairs, items, done + {p}, counts, rest)
    ensures Distinct(freed)
    ensures forall x :: x in freed <==> x in counts && counts[x] == 0 && numParents[x] > 0
  {
    RemoveParent(pairs, items, done, p, numParents);
    SettledOneMore(pairs, done, p);
    counts, rest, freed := numParents - {p}, children, [];
    if p in rest {
      counts, freed := KnockDown(p, rest[p], counts, pairs, items, done + {p});
      rest := rest - {p};
    }
  }

  lemma ParentlessDepth<T(!new)>(pairs: Pairs<T>, x: T)
    requires Pending(pairs, {}, x) == 0
    ensures AtDepth(EdgeSet(pairs), x, 0)
  {
    NoChain(EdgeSet(pairs), x);
    if HasChain(EdgeSet(pairs), 1, x) {
      var p := ShorterChain(EdgeSet(pairs), 0, x);
      PendingPositive(pairs, {}, x);
    }
  }

  lemma CyclicItem<T(!new)>(pairs: Pairs<T>) returns (x: T)
    requires HasCycle(EdgeSet(pairs))
    ensures x in Items(pairs) && FedByCycle(EdgeSet(pairs), x)
  {
    var edges := EdgeSet(pairs);
    x :| OnCycle(edges, x);
    var p, n: nat :| n > 0 && Leads(edges, p, x, x, n);
    assert Step(edges, p, 0);
    assert (x, p[1]).0 in Items(pairs);
  }

  /** When no count is zero any more, what is left in the dictionary is what has a cycle upstream. */
  lemma NothingParentless<T(!new)>(pairs: Pairs<T>, items: set<T>, done: set<T>, numParents: map<T, int>)
    requires Items(pairs) <= items && done <= items
    requires Counted(pairs, items, done, numParents)
    requires forall x :: x in numParents ==> numParents[x] != 0
    requires forall x :: x in done ==> !FedByCycle(EdgeSet(pairs), x)
    ensures numParents.Keys == set x | x in items && FedByCycle(EdgeSet(pairs), x)
    ensures ParentClosed(EdgeSet(pairs), numParents.Keys)
  {
    forall x | x in numParents ensures FedByCycle(EdgeSet(pairs), x) && HasParentIn(EdgeSet(pairs), numParents.Keys, x) {
      LeftoversFedByCycle(pairs, items, done, x);
    }
  }

  lemma SomethingStuck<T(!new)>(pairs: Pairs<T>, items: set<T>, stuck: set<T>)
    requires Items(pairs) <= items
    requires stuck == set x | x in items && FedByCycle(EdgeSet(pairs), x)
    ensures stuck != {} <==> HasCycle(EdgeSet(pairs))
  {
    if HasCycle(EdgeSet(pairs)) {
      var x := CyclicItem(pairs);
      assert x in stuck;
    }
    if stuck != {} {
      var x :| x in stuck;
    }
  }

  /** What a cycle error carries: the items with a cycle upstream, counting only parents among them, and their successor lists. */
  ghost predicate Leftovers<T(!new)>(pairs: Pairs<T>, items: set<T>, e: Outcome<T>)
    requires e.CycleError?
  {
    var stuck := set x | x in items && FedByCycle(EdgeSet(pairs), x);
    && stuck != {}
    && Counted(pairs, items, items - stuck, e.numParents)
    && ChildrenFor(pairs, items - stuck, e.children)
    && ParentClosed(EdgeSet(pairs), stuck)
  }

  /** The test at the end: anything left in the dictionary is reported. */
  method Conclude<T(==, !new)>(ghost pairs: Pairs<T>, ghost items: set<T>, ghost done: set<T>,
                               numParents: map<T, int>, children: map<T, seq<T>>) returns (outcome: Outcome<T>)
    requires Items(pairs) <= items
    requires After(pairs, items, done, numParents, children)
    requires forall x :: x in numParents ==> numParents[x] != 0
    requires forall x :: x in done ==> !FedByCycle(EdgeSet(pairs), x)
    ensures done == set x | x in items && !FedByCycle(EdgeSet(pairs), x)
    ensures outcome.CycleError? <==> HasCycle(EdgeSet(pairs))
    ensures outcome.CycleError? ==> Leftovers(pairs, items, outcome)
  {
    NothingParentless(pairs, items, done, numParents);
    SomethingStuck(pairs, items, numParents.Keys);
    assert done == items - numParents.Keys;
    if numParents != map[] {
      outcome := CycleError(numParents, children);
    } else {
      outcome := Sorted;
    }
  }

  // ----- topsort

  /** s lists items by non-decreasing depth, depths[k] being that of s[k]. */
  ghost predicate InDepthOrder<T(!new)>(edges: Edges<T>, s: seq<T>, depths: seq<nat>) {
    && |s| == |depths|
    && (forall k :: 0 <= k < |s| ==> AtDepth(edges, s[k], depths[k]))
    && forall j, k :: 0 <= j < k < |s| ==> depths[j] <= depths[k]
  }

  /** A child freed by the last of its parents is one deeper than that parent. */
  lemma FreedDepth<T(!new)>(pairs: Pairs<T>, answer: seq<T>, depths: seq<nat>, i: nat, x: T)
    requires i < |answer| && InDepthOrder(EdgeSet(pairs), answer, depths)
    requires Pending(pairs, Elements(answer[..i]), x) > 0
    requires Pending(pairs, Elements(answer[..i + 1]), x) == 0
    ensures AtDepth(EdgeSet(pairs), x, depths[i] + 1)
  {
    var edges := EdgeSet(pairs);
    var before, after := Elements(answer[..i]), Elements(answer[..i + 1]);
    PendingPositive(pairs, before, x);
    PendingPositive(pairs, after, x);
    assert after == before + {answer[i]};
    assert (answer[i], x) in edges;
    LongerChain(edges, depths[i], answer[i], x);
    if HasChain(edges, depths[i] + 2, x) {
      var p := ShorterChain(edges, depths[i] + 1, x);
      assert p in after;
      var k :| 0 <= k <= i && answer[k] == p;
      ChainMonotone(edges, depths[k] + 1, depths[i] + 1, p);
    }
  }

  /** topsort's loop with answer[..i] dealt with: the rest of answer lists the zero counts, and runs at most one level ahead. */
  ghost predicate Sorting<T(!new)>(pairs: Pairs<T>, answer: seq<T>, i: nat, depths: seq<nat>, numParents: map<T, int>)
    requires i <= |answer|
  {
    && Distinct(answer)
    && (forall x :: x in answer[i..] <==> x in numParents && numParents[x] == 0)
    && InDepthOrder(EdgeSet(pairs), answer, depths)
    && forall k :: 0 <= k < |answer| ==> depths[k] <= if i == 0 then 0 else depths[i - 1] + 1
  }

  lemma OrderAppend<T(!new)>(edges: Edges<T>, s: seq<T>, depths: seq<nat>, more: seq<T>, moreDepths: seq<nat>, d: nat)
    requires InDepthOrder(edges, s, depths) && |more| == |moreDepths|
    requires forall k :: 0 <= k < |s| ==> depths[k] <= d
    requires forall k :: 0 <= k < |more| ==> moreDepths[k] == d && AtDepth(edges, more[k], d)
    ensures InDepthOrder(edges, s + more, depths + moreDepths)
    ensures forall k :: 0 <= k < |s + more| ==> (depths + moreDepths)[k] <= d
  {
  }

  /** With answer[i] dealt with, the zero counts are those in the rest of answer and those just freed. */
  lemma ZerosStep<T(!new)>(pairs: Pairs<T>, items: set<T>, answer: seq<T>, i: nat, numParents: map<T, int>, counts: map<T, int>, freed: seq<T>)
    requires i < |answer| && Distinct(answer)
    requires forall x :: x in answer[i..] <==> x in numParents && numParents[x] == 0
    requires Counted(pairs, items, Elements(answer[..i]), numParents)
    requires Counted(pairs, items, Elements(answer[..i + 1]), counts)
    requires forall x :: x in freed <==> x in counts && counts[x] == 0 && numParents[x] > 0
    ensures forall x :: x in answer[i + 1..] + freed <==> x in counts && counts[x] == 0
  {
    assert answer[i..] == [answer[i]] + answer[i + 1..];
    forall x | x in answer[i + 1..] ensures x in counts && counts[x] == 0 {
      PendingShrinks(pairs, Elements(answer[..i]), Elements(answer[..i + 1]), x);
    }
    forall x | x in counts && counts[x] == 0 ensures x in answer[i + 1..] + freed {
      assert numParents[x] == 0 ==> x in answer[i..];
      assert x in answer[i..] ==> x in answer[i + 1..];
    }
  }

  lemma SortingStep<T(!new)>(pairs: Pairs<T>, items: set<T>, answer: seq<T>, i: nat, depths: seq<nat>,
                             numParents: map<T, int>, counts: map<T, int>, freed: seq<T>, freedDepths: seq<nat>)
    requires i < |answer| && Sorting(pairs, answer, i, depths, numParents)
    requires Counted(pairs, items, Elements(answer[..i]), numParents)
    requires Counted(pairs, items, Elements(answer[..i + 1]), counts)
    requires Distinct(freed)
    requires forall x :: x in freed <==> x in counts && counts[x] == 0 && numParents[x] > 0
    requires |freedDepths| == |freed| && forall k :: 0 <= k < |freed| ==> freedDepths[k] == depths[i] + 1
    ensures Sorting(pairs, answer + freed, i + 1, depths + freedDepths, counts)
  {
    var d := depths[i] + 1;
    assert answer == answer[..i] + answer[i..];
    forall x | x in freed ensures AtDepth(EdgeSet(pairs), x, d) && x !in answer {
      FreedDepth(pairs, answer, depths, i, x);
    }
    OrderAppend(EdgeSet(pairs), answer, depths, freed, freedDepths, d);
    ZerosStep(pairs, items, answer, i, numParents, counts, freed);
    assert (answer + freed)[i + 1..] == answer[i + 1..] + freed;
    DistinctConcat(answer, freed);
  }

  lemma SortingStart<T(!new)>(pairs: Pairs<T>, answer: seq<T>, depths: seq<nat>, numParents: map<T, int>)
    requires Counted(pairs, Items(pairs), {}, numParents)
    requires Distinct(answer) && forall x :: x in answer <==> x in numParents && numParents[x] == 0
    requires |depths| == |answer| && forall k :: 0 <= k < |answer| ==> depths[k] == 0
    ensures Sorting(pairs, answer, 0, depths, numParents)
  {
    forall k | 0 <= k < |answer| ensures AtDepth(EdgeSet(pairs), answer[k], 0) {
      ParentlessDepth(pairs, answer[k]);
    }
    assert answer[0..] == answer;
  }

  lemma SortingEnd<T(!new)>(pairs: Pairs<T>, answer: seq<T>, depths: seq<nat>, numParents: map<T, int>)
    requires Sorting(pairs, answer, |answer|, depths, numParents)
    ensures forall x :: x in numParents ==> numParents[x] != 0
    ensures forall x :: x in answer ==> !FedByCycle(EdgeSet(pairs), x)
  {
    assert answer[|answer|..] == [];
    forall x | x in answer ensures !FedByCycle(EdgeSet(pairs), x) {
      var k :| 0 <= k < |answer| && answer[k] == x;
      DepthNotFedByCycle(EdgeSet(pairs), x, depths[k]);
    }
  }

  lemma ParentsFirst<T(!new)>(pairs: Pairs<T>, answer: seq<T>, depths: seq<nat>)
    requires InDepthOrder(EdgeSet(pairs), answer, depths)
    ensures forall i, j :: 0 <= i < |answer| && 0 <= j < |answer| && (answer[i], answer[j]) in pairs ==> i < j
  {
    forall i, j | 0 <= i < |answer| && 0 <= j < |answer| && (answer[i], answer[j]) in pairs ensures i < j {
      LongerChain(EdgeSet(pairs), depths[i], answer[i], answer[j]);
      if j <= i {
        ChainMonotone(EdgeSet(pairs), depths[j] + 1, depths[i] + 1, answer[j]);
      }
    }
  }

  /** One turn of the loop: deals with answer[i], and appends the children that have no parent left. */
  method SortNext<T(==, !new)>(answer0: seq<T>, i: nat, numParents0: map<T, int>, children0: map<T, seq<T>>,
                               ghost pairs: Pairs<T>, ghost depths0: seq<nat>)
    returns (answer: seq<T>, numParents: map<T, int>, children: map<T, seq<T>>, ghost depths: seq<nat>)
    requires i < |answer0| && After(pairs, Items(pairs), Elements(answer0[..i]), numParents0, children0)
    requires Sorting(pairs, answer0, i, depths0, numParents0)
    ensures answer0 <= answer && After(pairs, Items(pairs), Elements(answer[..i + 1]), numParents, children)
    ensures Sorting(pairs, answer, i + 1, depths, numParents)
    ensures numParents.Keys < numParents0.Keys
  {
    var parent := answer0[i];
    assert parent in answer0[i..];
    assert Elements(answer0[..i + 1]) == Elements(answer0[..i]) + {parent};
    var freed;
    numParents, children, freed := SettleParent(parent, numParents0, children0, pairs, Items(pairs), Elements(answer0[..i]));
    ghost var freedDepths := seq(|freed|, _ => depths0[i] + 1);
    SortingStep(pairs, Items(pairs), answer0, i, depths0, numParents0, numParents, freed, freedDepths);
    answer, depths := answer0 + freed, depths0 + freedDepths;
    assert answer[..i + 1] == answer0[..i + 1];
  }

  lemma Prefixes<T>(s: seq<T>)
    ensures Elements(s[..0]) == {} && s[..|s|] == s
  {
  }

  /** The loop over the answer, which grows while it is walked along. */
  method SortLoop<T(==, !new)>(answer0: seq<T>, numParents0: map<T, int>, children0: map<T, seq<T>>,
                               ghost pairs: Pairs<T>, ghost depths0: seq<nat>)
    returns (answer: seq<T>, numParents: map<T, int>, children: map<T, seq<T>>, ghost depths: seq<nat>)
    requires After(pairs, Items(pairs), {}, numParents0, children0) && Sorting(pairs, answer0, 0, depths0, numParents0)
    ensures After(pairs, Items(pairs), Elements(answer), numParents, children)
    ensures Sorting(pairs, answer, |answer|, depths, numParents)
  {
    answer, numParents, children, depths := answer0, numParents0, children0, depths0;
    Prefixes(answer);
    var i := 0;
    while i < |answer|
      invariant 0 <= i <= |answer|
      invariant After(pairs, Items(pairs), Elements(answer[..i]), numParents, children)
      invariant Sorting(pairs, answer, i, depths, numParents)
      decreases numParents.Keys
    {
      answer, numParents, children, depths := SortNext(answer, i, numParents, children, pairs, depths);
      i := i + 1;
    }
    Prefixes(answer);
  }

  method TopSort<T(==, !new)>(pairs: Pairs<T>) returns (answer: seq<T>, outcome: Outcome<T>, ghost depths: seq<nat>)
    // whatever happens, answer lists the items without a cycle upstream, each once, by depth
    ensures Distinct(answer)
    ensures Elements(answer) == set x | x in Items(pairs) && !FedByCycle(EdgeSet(pairs), x)
    ensures InDepthOrder(EdgeSet(pairs), answer, depths)
    // so parents come before their children
    ensures forall i, j :: 0 <= i < |answer| && 0 <= j < |answer| && (answer[i], answer[j]) in pairs ==> i < j
    // it is an error exactly when there is a cycle, and the error shows what hangs on cycles
    ensures outcome.CycleError? <==> HasCycle(EdgeSet(pairs))
    ensures outcome.CycleError? ==> Leftovers(pairs, Items(pairs), outcome)
  {
    var numParents, children := CountParents(pairs);
    answer := Parentless(numParents);
    depths := seq(|answer|, _ => 0);
    SortingStart(pairs, answer, depths, numParents);
    answer, numParents, children, depths := SortLoop(answer, numParents, children, pairs, depths);
    SortingEnd(pairs, answer, depths, numParents);
    outcome := Conclude(pairs, Items(pairs), Elements(answer), numParents, children);
    ParentsFirst(pairs, answer, depths);
  }

  /** With 2 its own parent and that of 3 as well, 3 is left over although it has no child. */
  lemma LeftoverWithoutChild(pairs: Pairs<int>, e: Outcome<int>)
    requires pairs == [(2, 2), (2, 3)]
    ensures HasCycle(EdgeSet(pairs)) && FedByCycle(EdgeSet(pairs), 3) && forall c :: (3, c) !in pairs
    ensures e.CycleError? && Leftovers(pairs, Items(pairs), e) ==> 3 in e.numParents && (3 in e.children ==> e.children[3] == [])
  {
    var edges := EdgeSet(pairs);
    assert (2, 2) in edges && (2, 3) in edges;
    assert Leads(edges, [2, 2], 2, 2, 1) && Leads(edges, [2, 3], 2, 3, 1);
    assert OnCycle(edges, 2) && Reaches(edges, 2, 3);
    assert pairs[1] in pairs && 3 in Items(pairs);
    if ChildrenOf(pairs, 3) != [] {
      ChildrenAreEdges(pairs, 3, ChildrenOf(pairs, 3)[0]);
    }
  }
}
