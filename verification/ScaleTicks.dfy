// The visualizer's scale: the distance of its ticks, and the ticks drawn, in integers.
module ScaleTicks {

  ghost predicate PowerOfTen(n: int) {
    n == 1 || (n >= 10 && n % 10 == 0 && PowerOfTen(n / 10))
  }

  /** A distance that puts between 2 and 20 ticks on a span. */
  predicate Suits(delta: int, span: int) {
    2 * delta <= span < 20 * delta
  }

  /** There is only one power of ten to choose. */
  lemma {:induction false} SuitableUnique(a: int, b: int, span: int)
    requires PowerOfTen(a) && PowerOfTen(b) && Suits(a, span) && Suits(b, span)
    ensures a == b
  {
    if a < b {
      PowersApart(a, b);
    } else if b < a {
      PowersApart(b, a);
    }
  }

  lemma {:induction false} PowersApart(a: int, b: int)
    requires PowerOfTen(a) && PowerOfTen(b) && a < b
    ensures 10 * a <= b
  {
    if a != 1 {
      PowersApart(a / 10, b / 10);
    }
  }

  predicate IsTick(x: int, lo: int, hi: int, delta: int)
    requires delta > 0
  {
    x % delta == 0 && lo < x <= hi
  }

  /** The k-th multiple of delta above lo. */
  function TickAt(lo: int, delta: int, k: nat): int
    requires delta > 0
  {
    (lo / delta + 1 + k) * delta
  }

  function TickCount(lo: int, hi: int, delta: int): nat
    requires delta > 0
  {
    if lo <= hi && lo / delta <= hi / delta then hi / delta - lo / delta else 0
  }

  // ----- multiples

  lemma {:induction false} ProductAtLeast(c: int, d: int)
    requires c > 0 && d > 0
    ensures c * d >= d
  {
    if c > 1 {
      ProductAtLeast(c - 1, d);
      assert c * d == (c - 1) * d + d;
    }
  }

  lemma LessProduct(a: int, b: int, d: int)
    requires d > 0
    ensures a * d < b * d <==> a < b
  {
    if a < b {
      ProductAtLeast(b - a, d);
      assert (b - a) * d == b * d - a * d;
    } else if b < a {
      ProductAtLeast(a - b, d);
      assert (a - b) * d == a * d - b * d;
    }
  }

  lemma QuotientOf(x: int, q: int, d: int)
    requires d > 0 && q * d <= x < q * d + d
    ensures x / d == q && x % d == x - q * d
  {
    var p, r := x / d, x % d;
    assert x == p * d + r;
    assert p * d < (q + 1) * d && q * d < (p + 1) * d;
    LessProduct(p, q + 1, d);
    LessProduct(q, p + 1, d);
  }

  lemma QuotientBounds(x: int, d: int)
    requires d > 0
    ensures x / d * d <= x < (x / d + 1) * d && x % d == x - x / d * d
  {
    var q, r := x / d, x % d;
    assert x == q * d + r;
    assert (q + 1) * d == q * d + d;
  }

  /** The multiples of delta from lo exclusively to hi inclusively, by number. */
  lemma TicksAre(x: int, lo: int, hi: int, delta: int)
    requires delta > 0
    ensures IsTick(x, lo, hi, delta) <==> exists k :: 0 <= k < TickCount(lo, hi, delta) && x == TickAt(lo, delta, k)
  {
    QuotientBounds(lo, delta);
    QuotientBounds(hi, delta);
    var m, n := lo / delta, hi / delta;
    if IsTick(x, lo, hi, delta) {
      QuotientBounds(x, delta);
      var q := x / delta;
      LessProduct(m, q, delta);
      LessProduct(n, q, delta);
      LessProduct(q, n + 1, delta);
      assert x == TickAt(lo, delta, q - m - 1);
    }
    if k :| 0 <= k < TickCount(lo, hi, delta) && x == TickAt(lo, delta, k) {
      TickAtIsTick(lo, hi, delta, k);
    }
  }

  lemma TickAtIsTick(lo: int, hi: int, delta: int, k: nat)
    requires delta > 0 && k < TickCount(lo, hi, delta)
    ensures IsTick(TickAt(lo, delta, k), lo, hi, delta)
  {
    QuotientBounds(lo, delta);
    QuotientBounds(hi, delta);
    var m, n := lo / delta, hi / delta;
    var q := m + 1 + k;
    QuotientOf(q * delta, q, delta);
    LessProduct(n, q, delta);
    LessProduct(q, m + 1, delta);
  }

  /** Between 2 and 20 ticks, whatever the span. */
  lemma TickCountBounds(lo: int, hi: int, delta: int)
    requires delta > 0 && Suits(delta, hi - lo)
    ensures 2 <= TickCount(lo, hi, delta) <= 20
  {
    QuotientBounds(lo, delta);
    QuotientBounds(hi, delta);
    var m, n := lo / delta, hi / delta;
    assert (n + 1) * delta > m * delta + 2 * delta == (m + 2) * delta;
    LessProduct(m + 2, n + 1, delta);
    assert n * delta < (m + 1) * delta + 20 * delta == (m + 21) * delta;
    LessProduct(n, m + 21, delta);
  }

  // ----- the scale

  /** The numbers from start up to but not including stop, step apart. */
  method Range(start: int, stop: int, step: int) returns (xs: seq<int>)
    requires step > 0
    ensures forall k :: 0 <= k < |xs| ==> xs[k] == start + k * step
    ensures start + |xs| * step >= stop
    ensures xs != [] ==> start + (|xs| - 1) * step < stop
  {
    xs := [];
    var x := start;
    while x < stop
      invariant x == start + |xs| * step
      invariant forall k :: 0 <= k < |xs| ==> xs[k] == start + k * step
      invariant xs != [] ==> start + (|xs| - 1) * step < stop
      decreases stop - x
    {
      xs := xs + [x];
      x := x + step;
      assert |xs| * step == (|xs| - 1) * step + step;
    }
  }

  /** The multiples of delta drawn: each one above lo and up to hi, in order. */
  method Ticks(lo: int, hi: int, delta: int) returns (ticks: seq<int>)
    requires delta > 0
    ensures |ticks| == TickCount(lo, hi, delta)
    ensures forall k :: 0 <= k < |ticks| ==> ticks[k] == TickAt(lo, delta, k)
    ensures forall x :: x in ticks <==> IsTick(x, lo, hi, delta)
  {
    var start := lo - lo % delta + delta;
    var end := hi - hi % delta;
    ticks := Range(start, end + delta, delta);
    RangeTicks(ticks, lo, hi, delta, start, end + delta);
    forall x ensures x in ticks <==> IsTick(x, lo, hi, delta) {
      TicksAre(x, lo, hi, delta);
    }
  }

  lemma RangeTicks(xs: seq<int>, lo: int, hi: int, delta: int, start: int, stop: int)
    requires delta > 0 && start == lo - lo % delta + delta && stop == hi - hi % delta + delta
    requires forall k :: 0 <= k < |xs| ==> xs[k] == start + k * delta
    requires start + |xs| * delta >= stop && (xs != [] ==> start + (|xs| - 1) * delta < stop)
    ensures |xs| == TickCount(lo, hi, delta)
    ensures forall k :: 0 <= k < |xs| ==> xs[k] == TickAt(lo, delta, k)
  {
    QuotientBounds(lo, delta);
    QuotientBounds(hi, delta);
    var m, n, s := lo / delta, hi / delta, |xs|;
    assert start == (m + 1) * delta && stop == (n + 1) * delta;
    assert start + s * delta == (m + 1 + s) * delta;
    LessProduct(m + 1 + s, n + 1, delta);
    assert start + (s - 1) * delta == (m + s) * delta;
    LessProduct(m + s, n + 1, delta);
    LessProduct(n, m + 1, delta);
    forall k | 0 <= k < s ensures xs[k] == TickAt(lo, delta, k) {
      assert start + k * delta == (m + 1 + k) * delta;
    }
  }

  lemma QuotientCases(closest: int, span: int, q: int)
    requires closest >= 1 && q * closest <= span < (q + 1) * closest
    requires closest * 10 >= span && (closest == 1 || closest < span)
    ensures q == 1 ==> closest <= span < 2 * closest
    ensures q != 1 && span >= 2 ==> Suits(closest, span)
    ensures q != 1 && span < 2 ==> closest == 1 && span != 1
  {
    if q >= 2 {
      LessProduct(1, q, closest);
    } else if q <= 0 {
      LessProduct(1, q + 1, closest);
    }
  }

  /** What is known of the span from its quotient by the power of ten found for it. */
  lemma Quotients(closest: int, span: int)
    requires closest >= 1 && PowerOfTen(closest)
    requires closest * 10 >= span && (closest == 1 || closest < span)
    ensures span / closest == 1 ==> closest <= span < 2 * closest
    ensures span / closest != 1 && span >= 2 ==> Suits(closest, span)
    ensures span / closest != 1 && span < 2 ==> closest == 1 && span != 1
    ensures closest > 1 ==> closest == 10 * (closest / 10) && PowerOfTen(closest / 10)
  {
    QuotientBounds(span, closest);
    QuotientCases(closest, span, span / closest);
  }

  /** The power of ten for a span: zero for a span of one, and otherwise what suits it. */
  method TickDistance(dataDelta: int) returns (delta: int)
    ensures delta == 0 <==> dataDelta == 1
    ensures dataDelta != 1 ==> PowerOfTen(delta)
    ensures if dataDelta >= 2 then Suits(delta, dataDelta) else dataDelta < 1 ==> delta == 1
  {
    var closest := 1;
    while closest * 10 < dataDelta
      invariant PowerOfTen(closest) && closest >= 1
      invariant closest == 1 || closest < dataDelta
      decreases dataDelta - closest
    {
      closest := closest * 10;
    }
    Quotients(closest, dataDelta);
    if dataDelta / closest == 0 {
      delta := closest;
    } else if dataDelta / closest == 1 {
      delta := closest / 10;
    } else {
      delta := closest;
    }
  }

  class ScaleRenderer {
    var lo: int
    var hi: int
    var delta: int

    constructor ()
    {
    }

    method SetBounds(lo: int, hi: int)
      modifies this`lo, this`hi
      ensures this.lo == lo && this.hi == hi
    {
      this.lo, this.hi := lo, hi;
    }

    /** Chooses the distance of the ticks. It fails with a division by zero, before delta is set, on a span of one alone. */
    method Layout() returns (ok: bool)
      modifies this`delta
      ensures ok <==> hi - lo != 1
      ensures !ok ==> delta == old(delta)
      ensures ok ==> PowerOfTen(delta)
      ensures ok ==> if hi - lo >= 2 then Suits(delta, hi - lo) else delta == 1
    {
      var distance := TickDistance(hi - lo);
      if distance == 0 {
        return false;
      }
      delta := distance;
      ok := true;
    }

    /** The ticks, and the finer subticks where there is room for them. */
    method Draw() returns (ticks: seq<int>, subticks: seq<int>)
      requires delta > 0
      ensures |ticks| == TickCount(lo, hi, delta)
      ensures forall k :: 0 <= k < |ticks| ==> ticks[k] == TickAt(lo, delta, k)
      ensures forall x :: x in ticks <==> IsTick(x, lo, hi, delta)
      ensures if delta < 10 then subticks == [] else |subticks| == TickCount(lo, hi, delta / 10)
      ensures delta >= 10 ==> forall k :: 0 <= k < |subticks| ==> subticks[k] == TickAt(lo, delta / 10, k)
      ensures delta >= 10 ==> forall x :: x in subticks <==> IsTick(x, lo, hi, delta / 10)
    {
      ticks := Ticks(lo, hi, delta);
      subticks := [];
      if delta / 10 > 0 {
        subticks := Ticks(lo, hi, delta / 10);
      }
    }

    /** Bounds set, laid out and drawn: whatever the span, from two up, there are between 2 and 20 ticks. */
    method Render(lo: int, hi: int) returns (ok: bool, ticks: seq<int>, subticks: seq<int>)
      modifies this
      ensures ok <==> hi - lo != 1
      ensures ok ==> delta > 0 && forall x :: x in ticks <==> IsTick(x, lo, hi, delta)
      ensures hi - lo >= 2 ==> ok && 2 <= |ticks| <= 20
    {
      SetBounds(lo, hi);
      ok := Layout();
      ticks, subticks := [], [];
      if ok {
        ticks, subticks := Draw();
        if hi - lo >= 2 {
          TickCountBounds(lo, hi, delta);
        }
      }
    }
  }
}
