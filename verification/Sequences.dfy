// Facts about finite sequences and sets that several components rely on.
module Sequences {

  ghost predicate Distinct<T>(s: seq<T>) {
    forall i, j :: 0 <= i < j < |s| ==> s[i] != s[j]
  }

  ghost function Elements<T>(s: seq<T>): set<T> {
    set x | x in s
  }

  function Last<T>(s: seq<T>): T
    requires s != []
  {
    s[|s| - 1]
  }

  lemma {:induction false} DistinctSize<T>(s: seq<T>)
    requires Distinct(s)
    ensures |Elements(s)| == |s|
  {
    if s != [] {
      var t := s[..|s| - 1];
      DistinctSize(t);
      assert Elements(s) == Elements(t) + {Last(s)};
    }
  }

  lemma {:induction false} SubsetSize<T>(a: set<T>, b: set<T>)
    requires a <= b
    ensures |a| <= |b|
    ensures |a| == |b| ==> a == b
  {
    assert b == a + (b - a);
    assert |b| == |a| + |b - a|;
  }

  /** A sequence longer than the set it draws from repeats an element. */
  lemma Pigeonhole<T>(s: seq<T>, pool: set<T>)
    requires Elements(s) <= pool
    requires |s| > |pool|
    ensures exists i, j :: 0 <= i < j < |s| && s[i] == s[j]
  {
    if Distinct(s) {
      DistinctSize(s);
      SubsetSize(Elements(s), pool);
    }
  }

  /** Two duplicate-free sequences with the same elements are rearrangements of each other. */
  lemma {:induction false} SameElements<T>(a: seq<T>, b: seq<T>)
    requires Distinct(a) && Distinct(b)
    requires Elements(a) == Elements(b)
    ensures |a| == |b|
    ensures multiset(a) == multiset(b)
  {
    DistinctSize(a);
    DistinctSize(b);
    forall x ensures multiset(a)[x] == multiset(b)[x] {
      CountDistinct(a, x);
      CountDistinct(b, x);
      assert x in a <==> x in Elements(a);
      assert x in b <==> x in Elements(b);
    }
  }

  lemma {:induction false} CountDistinct<T>(s: seq<T>, x: T)
    requires Distinct(s)
    ensures multiset(s)[x] == if x in s then 1 else 0
  {
    if s != [] {
      var t := s[..|s| - 1];
      assert s == t + [Last(s)];
      CountDistinct(t, x);
    }
  }

  lemma DistinctConcat<T>(a: seq<T>, b: seq<T>)
    requires Distinct(a) && Distinct(b)
    requires forall x :: x in b ==> x !in a
    ensures Distinct(a + b)
  {
    var c := a + b;
    forall i, j | 0 <= i < j < |c| ensures c[i] != c[j] {
      if i < |a| <= j {
        assert c[j] == b[j - |a|] && c[i] in a;
      }
    }
  }

  /** The n numbers from lo on. */
  ghost function Interval(lo: nat, n: nat): set<nat> {
    if n == 0 then {} else Interval(lo, n - 1) + {lo + n - 1}
  }

  lemma {:induction false} IntervalSize(lo: nat, n: nat)
    ensures |Interval(lo, n)| == n
    ensures forall y: nat :: y in Interval(lo, n) <==> lo <= y < lo + n
  {
    if n > 0 {
      IntervalSize(lo, n - 1);
    }
  }

  /** What holds of 0, and of the next number whenever it holds of one below all, holds up to all. */
  lemma {:induction false} Upwards(holds: nat -> bool, n: nat, all: nat)
    requires holds(0) && n <= all
    requires forall m: nat :: m < all && holds(m) ==> holds(m + 1)
    ensures holds(n)
  {
    if n > 0 {
      Upwards(holds, n - 1, all);
    }
  }
}
