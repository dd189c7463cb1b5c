// Sequences up to rotation.
module Rotation {
  ghost predicate RotatedBy<T>(a: seq<T>, b: seq<T>, k: nat) {
    k <= |a| && b == a[k..] + a[..k]
  }

  /** b is a, read from some other starting point. */
  ghost predicate IsRotation<T>(a: seq<T>, b: seq<T>) {
    exists k: nat :: RotatedBy(a, b, k)
  }

  lemma RotationReflexive<T>(a: seq<T>)
    ensures IsRotation(a, a)
  {
    assert RotatedBy(a, a, 0);
  }

  lemma RotationSymmetric<T>(a: seq<T>, b: seq<T>)
    requires IsRotation(a, b)
    ensures IsRotation(b, a)
  {
    var k: nat :| RotatedBy(a, b, k);
    assert RotatedBy(b, a, |a| - k);
  }

  lemma RotateWithin<T>(a: seq<T>, k: nat, l: nat, b: seq<T>)
    requires k + l <= |a| && b == a[k..] + a[..k]
    ensures b[l..] + b[..l] == a[k + l..] + a[..k + l]
  {
    assert b[l..] == a[k + l..] + a[..k];
    assert b[..l] == a[k..k + l];
    assert a[..k] + a[k..k + l] == a[..k + l];
  }

  lemma RotateBeyond<T>(a: seq<T>, k: nat, l: nat, b: seq<T>)
    requires k <= |a| <= k + l && l <= |a| && b == a[k..] + a[..k]
    ensures b[l..] + b[..l] == a[k + l - |a|..] + a[..k + l - |a|]
  {
    var m := k + l - |a|;
    assert b[l..] == a[m..k];
    assert b[..l] == a[k..] + a[..m];
    assert a[m..k] + a[k..] == a[m..];
  }

  lemma RotationTransitive<T>(a: seq<T>, b: seq<T>, c: seq<T>)
    requires IsRotation(a, b) && IsRotation(b, c)
    ensures IsRotation(a, c)
  {
    var k: nat :| RotatedBy(a, b, k);
    var l: nat :| RotatedBy(b, c, l);
    if k + l <= |a| {
      RotateWithin(a, k, l, b);
      assert RotatedBy(a, c, k + l);
    } else {
      RotateBeyond(a, k, l, b);
      assert RotatedBy(a, c, k + l - |a|);
    }
  }

  lemma StartOf<T>(a: seq<T>, b: seq<T>) returns (k: nat)
    requires IsRotation(a, b) && a != []
    ensures k < |a| && RotatedBy(a, b, k) && a[k] == b[0]
  {
    k :| RotatedBy(a, b, k);
    if k == |a| {
      assert RotatedBy(a, b, 0);
      k := 0;
    }
  }

  lemma ReadFrom<T>(a: seq<T>, k: nat)
    requires k <= |a|
    ensures (a + a)[k..k + |a|] == a[k..] + a[..k]
  {
  }

  /** The double-length comparison of the source, which looks only at the places where seq2's head occurs. */
  method IsRotated<T(==)>(seq1: seq<T>, seq2: seq<T>) returns (b: bool)
    requires seq2 != [] || seq1 != []
    ensures b <==> IsRotation(seq1, seq2)
  {
    if |seq1| != |seq2| {
      return false;
    }
    var startIndexes: seq<nat> := [];
    var headItem := seq2[0];
    for index1 := 0 to |seq1|
      invariant forall k :: k in startIndexes <==> 0 <= k < index1 && seq1[k] == headItem
    {
      if seq1[index1] == headItem {
        startIndexes := startIndexes + [index1];
      }
    }
    ghost var start: nat := 0;
    if IsRotation(seq1, seq2) {
      start := StartOf(seq1, seq2);
      assert start in startIndexes;
    }
    var doubleSeq1 := seq1 + seq1;
    for i := 0 to |startIndexes|
      invariant forall j :: 0 <= j < i ==> !RotatedBy(seq1, seq2, startIndexes[j])
    {
      var index1 := startIndexes[i];
      assert index1 in startIndexes;
      ReadFrom(seq1, index1);
      if doubleSeq1[index1..index1 + |seq1|] == seq2 {
        assert RotatedBy(seq1, seq2, index1);
        return true;
      }
    }
    return false;
  }
}
