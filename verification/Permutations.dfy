// All permutations of a list, by inserting its first item everywhere into those of the rest.
module Permutations {
  import opened Sequences

  function Inserted<T>(sub: seq<T>, i: nat, item: T): seq<T>
    requires i <= |sub|
  {
    sub[..i] + [item] + sub[i..]
  }

  /** item inserted at each of the first n places of sub. */
  function Insertions<T>(sub: seq<T>, item: T, n: nat): seq<seq<T>>
    requires n <= |sub| + 1
  {
    if n == 0 then [] else Insertions(sub, item, n - 1) + [Inserted(sub, n - 1, item)]
  }

  /** item inserted everywhere into each of the first m of subs. */
  function AllInsertions<T>(subs: seq<seq<T>>, item: T, m: nat): seq<seq<T>>
    requires m <= |subs|
  {
    if m == 0 then [] else AllInsertions(subs, item, m - 1) + Insertions(subs[m - 1], item, |subs[m - 1]| + 1)
  }

  function Perms<T>(input: seq<T>): seq<seq<T>> {
    if |input| > 1 then
      var subs := Perms(input[1..]);
      AllInsertions(subs, input[0], |subs|)
    else [input]
  }

  method Permutations<T>(input: seq<T>) returns (out: seq<seq<T>>)
    ensures out == Perms(input)
    decreases |input|
  {
    out := [];
    if |input| > 1 {
      var item := input[0];
      var subs := Permutations(input[1..]);
      for m := 0 to |subs|
        invariant out == AllInsertions(subs, item, m)
      {
        PermsAre(input[1..], subs[m]);
        assert |subs[m]| + 1 == |input| by {
          assert |multiset(subs[m])| == |multiset(input[1..])|;
        }
        ghost var before := out;
        for i := 0 to |input|
          invariant out == before + Insertions(subs[m], item, i)
        {
          out := out + [subs[m][..i] + [item] + subs[m][i..]];
        }
      }
    } else {
      out := [input];
    }
  }

  function Factorial(n: nat): nat {
    if n == 0 then 1 else n * Factorial(n - 1)
  }

  // ----- exactly the rearrangements

  lemma {:induction false} InsertionsAre<T>(sub: seq<T>, item: T, n: nat, p: seq<T>)
    requires n <= |sub| + 1
    ensures p in Insertions(sub, item, n) <==> exists i :: 0 <= i < n && p == Inserted(sub, i, item)
    ensures |Insertions(sub, item, n)| == n
  {
    if n > 0 {
      InsertionsAre(sub, item, n - 1, p);
    }
  }

  lemma {:induction false} AllInsertionsAre<T>(subs: seq<seq<T>>, item: T, m: nat, p: seq<T>)
    requires m <= |subs|
    ensures p in AllInsertions(subs, item, m) <==>
            exists k :: 0 <= k < m && p in Insertions(subs[k], item, |subs[k]| + 1)
  {
    if m > 0 {
      AllInsertionsAre(subs, item, m - 1, p);
    }
  }

  lemma InsertedContents<T>(sub: seq<T>, i: nat, item: T)
    requires i <= |sub|
    ensures multiset(Inserted(sub, i, item)) == multiset(sub) + multiset{item}
  {
    assert sub == sub[..i] + sub[i..];
  }

  lemma SplitFirst<T>(input: seq<T>)
    requires input != []
    ensures multiset(input) == multiset(input[1..]) + multiset{input[0]}
  {
    assert input == [input[0]] + input[1..];
  }

  lemma {:induction false} PermsSound<T>(input: seq<T>, p: seq<T>)
    requires p in Perms(input)
    ensures multiset(p) == multiset(input)
    decreases |input|
  {
    if |input| > 1 {
      var item, subs := input[0], Perms(input[1..]);
      AllInsertionsAre(subs, item, |subs|, p);
      var k :| 0 <= k < |subs| && p in Insertions(subs[k], item, |subs[k]| + 1);
      InsertionsAre(subs[k], item, |subs[k]| + 1, p);
      var i :| 0 <= i < |subs[k]| + 1 && p == Inserted(subs[k], i, item);
      PermsSound(input[1..], subs[k]);
      InsertedContents(subs[k], i, item);
      SplitFirst(input);
    }
  }

  lemma ShortRearrangement<T>(input: seq<T>, p: seq<T>)
    requires |input| <= 1 && multiset(p) == multiset(input)
    ensures p == input
  {
    assert |p| == |multiset(p)| == |multiset(input)| == |input|;
    if input != [] {
      assert p == [p[0]] && p[0] in multiset(p);
      assert p[0] in input;
    }
  }

  /** Taking an item out of a rearrangement, so that it can be inserted back. */
  lemma TakeOut<T>(p: seq<T>, item: T, rest: multiset<T>) returns (sub: seq<T>, i: nat)
    requires multiset(p) == rest + multiset{item}
    ensures multiset(sub) == rest && i <= |sub| && p == Inserted(sub, i, item)
  {
    assert item in multiset(p);
    i :| 0 <= i < |p| && p[i] == item;
    sub := p[..i] + p[i + 1..];
    assert p == Inserted(sub, i, item);
    InsertedContents(sub, i, item);
    assert multiset(sub) + multiset{item} == rest + multiset{item};
    SameRest(multiset(sub), rest, item);
  }

  lemma SameRest<T>(a: multiset<T>, b: multiset<T>, item: T)
    requires a + multiset{item} == b + multiset{item}
    ensures a == b
  {
    assert a == (a + multiset{item}) - multiset{item};
    assert b == (b + multiset{item}) - multiset{item};
  }

  lemma {:induction false} PermsComplete<T>(input: seq<T>, p: seq<T>)
    requires multiset(p) == multiset(input)
    ensures p in Perms(input)
    decreases |input|
  {
    if |input| > 1 {
      var item, subs := input[0], Perms(input[1..]);
      SplitFirst(input);
      var sub, i := TakeOut(p, item, multiset(input[1..]));
      PermsComplete(input[1..], sub);
      var k :| 0 <= k < |subs| && subs[k] == sub;
      InsertionsAre(sub, item, |sub| + 1, p);
      AllInsertionsAre(subs, item, |subs|, p);
    } else {
      ShortRearrangement(input, p);
    }
  }

  /** The permutations of a list are its rearrangements, all of them and nothing else. */
  lemma PermsAre<T>(input: seq<T>, p: seq<T>)
    ensures p in Perms(input) <==> multiset(p) == multiset(input)
  {
    if p in Perms(input) {
      PermsSound(input, p);
    }
    if multiset(p) == multiset(input) {
      PermsComplete(input, p);
    }
  }

  // ----- how many, and whether any repeats

  lemma {:induction false} AllInsertionsCount<T>(subs: seq<seq<T>>, item: T, m: nat, n: nat)
    requires m <= |subs| && forall k :: 0 <= k < |subs| ==> |subs[k]| == n
    ensures |AllInsertions(subs, item, m)| == m * (n + 1)
  {
    if m > 0 {
      AllInsertionsCount(subs, item, m - 1, n);
      InsertionsAre(subs[m - 1], item, n + 1, []);
      assert m * (n + 1) == (m - 1) * (n + 1) + (n + 1);
    }
  }

  lemma {:induction false} PermsCount<T>(input: seq<T>)
    ensures |Perms(input)| == Factorial(|input|)
    decreases |input|
  {
    if |input| > 1 {
      var n, subs := |input| - 1, Perms(input[1..]);
      PermsCount(input[1..]);
      forall k | 0 <= k < |subs| ensures |subs[k]| == n {
        PermsAre(input[1..], subs[k]);
        assert |multiset(subs[k])| == |multiset(input[1..])|;
      }
      AllInsertionsCount(subs, input[0], |subs|, n);
      assert Factorial(n + 1) == (n + 1) * Factorial(n);
    } else {
      assert Factorial(1) == 1 * Factorial(0);
    }
  }

  /** A list without item can be told from where item was inserted and what remains without it. */
  lemma InsertedInjective<T>(a: seq<T>, i: nat, b: seq<T>, j: nat, item: T)
    requires item !in a && item !in b && i <= |a| && j <= |b|
    requires Inserted(a, i, item) == Inserted(b, j, item)
    ensures i == j && a == b
  {
    var p := Inserted(a, i, item);
    assert p[i] == item && p[j] == item;
    assert forall k :: 0 <= k < j ==> p[k] in b;
    assert forall k :: 0 <= k < i ==> p[k] in a;
    assert a == p[..i] + p[i + 1..] && b == p[..j] + p[j + 1..];
  }

  lemma {:induction false} InsertionsDistinct<T>(sub: seq<T>, item: T, n: nat)
    requires item !in sub && n <= |sub| + 1
    ensures Distinct(Insertions(sub, item, n))
  {
    if n > 0 {
      InsertionsDistinct(sub, item, n - 1);
      var before, p := Insertions(sub, item, n - 1), Inserted(sub, n - 1, item);
      InsertionsAre(sub, item, n - 1, p);
      if p in before {
        var i :| 0 <= i < n - 1 && p == Inserted(sub, i, item);
        InsertedInjective(sub, i, sub, n - 1, item);
      }
      DistinctConcat(before, [p]);
    }
  }

  lemma {:induction false} AllInsertionsDistinct<T>(subs: seq<seq<T>>, item: T, m: nat)
    requires m <= |subs| && Distinct(subs) && forall k :: 0 <= k < |subs| ==> item !in subs[k]
    ensures Distinct(AllInsertions(subs, item, m))
  {
    if m > 0 {
      AllInsertionsDistinct(subs, item, m - 1);
      var last := subs[m - 1];
      var before, now := AllInsertions(subs, item, m - 1), Insertions(last, item, |last| + 1);
      InsertionsDistinct(last, item, |last| + 1);
      forall p | p in now ensures p !in before {
        InsertionsAre(last, item, |last| + 1, p);
        var i :| 0 <= i < |last| + 1 && p == Inserted(last, i, item);
        AllInsertionsAre(subs, item, m - 1, p);
        if p in before {
          var k :| 0 <= k < m - 1 && p in Insertions(subs[k], item, |subs[k]| + 1);
          InsertionsAre(subs[k], item, |subs[k]| + 1, p);
          var j :| 0 <= j < |subs[k]| + 1 && p == Inserted(subs[k], j, item);
          InsertedInjective(last, i, subs[k], j, item);
        }
      }
      DistinctConcat(before, now);
    }
  }

  lemma {:induction false} PermsDistinct<T>(input: seq<T>)
    requires Distinct(input)
    ensures Distinct(Perms(input))
    decreases |input|
  {
    if |input| > 1 {
      var subs := Perms(input[1..]);
      PermsDistinct(input[1..]);
      forall k | 0 <= k < |subs| ensures input[0] !in subs[k] {
        PermsAre(input[1..], subs[k]);
        assert input[0] !in multiset(input[1..]);
        assert input[0] !in multiset(subs[k]);
      }
      AllInsertionsDistinct(subs, input[0], |subs|);
    }
  }

  // ----- in what order

  lemma {:induction false} InsertionsAt<T>(sub: seq<T>, item: T, n: nat, i: nat)
    requires i < n <= |sub| + 1
    ensures |Insertions(sub, item, n)| == n && Insertions(sub, item, n)[i] == sub[..i] + [item] + sub[i..]
  {
    InsertionsAre(sub, item, n - 1, []);
    if i < n - 1 {
      InsertionsAt(sub, item, n - 1, i);
    }
  }

  lemma {:induction false} AllInsertionsAt<T>(subs: seq<seq<T>>, item: T, m: nat, n: nat, j: nat, i: nat)
    requires j < m <= |subs| && i < n && forall k :: 0 <= k < |subs| ==> |subs[k]| == n - 1
    ensures At(AllInsertions(subs, item, m), j * n + i, subs[j][..i] + [item] + subs[j][i..])
  {
    AllInsertionsCount(subs, item, m - 1, n - 1);
    InsertionsAt(subs[m - 1], item, n, if j == m - 1 then i else 0);
    if j < m - 1 {
      AllInsertionsAt(subs, item, m - 1, n, j, i);
    }
  }

  lemma PermsLength<T>(input: seq<T>)
    ensures forall k :: 0 <= k < |Perms(input)| ==> |Perms(input)[k]| == |input|
  {
    forall k | 0 <= k < |Perms(input)| ensures |Perms(input)[k]| == |input| {
      var p := Perms(input)[k];
      PermsAre(input, p);
      assert |multiset(p)| == |multiset(input)|;
    }
  }

  predicate At<T(==)>(lists: seq<seq<T>>, n: int, list: seq<T>) {
    0 <= n < |lists| && lists[n] == list
  }

  lemma InsertedInto<T>(input: seq<T>, subs: seq<seq<T>>, lists: seq<seq<T>>, j: nat, i: nat)
    requires j < |subs| && i < |input| && forall k :: 0 <= k < |subs| ==> |subs[k]| == |input| - 1
    requires lists == AllInsertions(subs, input[0], |subs|)
    ensures At(lists, j * |input| + i, subs[j][..i] + [input[0]] + subs[j][i..])
  {
    AllInsertionsAt(subs, input[0], |subs|, |input|, j, i);
  }

  lemma PermsAreInsertions<T>(input: seq<T>) returns (subs: seq<seq<T>>)
    requires |input| > 1
    ensures subs == Perms(input[1..]) && Perms(input) == AllInsertions(subs, input[0], |subs|)
    ensures forall k :: 0 <= k < |subs| ==> |subs[k]| == |input| - 1
  {
    subs := Perms(input[1..]);
    PermsLength(input[1..]);
  }

  /** For each permutation of the rest in turn, the first item goes through every place, from the front to the back. */
  lemma PermsOrder<T>(input: seq<T>, j: nat, i: nat) returns (subs: seq<seq<T>>)
    requires |input| > 1 && j < |Perms(input[1..])| && i < |input|
    ensures subs == Perms(input[1..]) && |subs[j]| == |input| - 1
    ensures At(Perms(input), j * |input| + i, subs[j][..i] + [input[0]] + subs[j][i..])
  {
    subs := PermsAreInsertions(input);
    InsertedInto(input, subs, Perms(input), j, i);
  }

  /** That is not alphabetical order. */
  lemma NotAlphabetical(input: string)
    requires input == "abc"
    ensures |Perms(input)| == 6 && Perms(input)[0] == "abc" && Perms(input)[1] == "bac"
  {
    assert input[1..] == "bc" && "bc"[1..] == "c" && Perms("c") == ["c"];
    PermsCount(input);
    assert Factorial(3) == 6 by {
      assert Factorial(2) == 2 * Factorial(1) && Factorial(1) == 1 * Factorial(0);
    }
    PermsCount("bc");
    var c := PermsOrder("bc", 0, 0);
    assert Perms("bc")[0] == "bc";
    var bc := PermsOrder(input, 0, 0);
    bc := PermsOrder(input, 0, 1);
  }
}
