// Timelines of the visualizer: searches and windows.
module Timelines {
  import opened Sequences

  datatype EventInt = EventInt(at: int, value: real)

  datatype DataRange = DataRange(start: int, end: int)

  // ----- events

  ghost predicate Ordered(es: seq<EventInt>) {
    forall i, j :: 0 <= i < j < |es| ==> es[i].at <= es[j].at
  }

  ghost predicate StrictlyOrdered(es: seq<EventInt>) {
    forall i, j :: 0 <= i < j < |es| ==> es[i].at < es[j].at
  }

  /** i is the place of an event at key if there is one, and otherwise the place where it would be. */
  ghost predicate Place(es: seq<EventInt>, key: int, i: int) {
    && 0 <= i <= |es|
    && (forall k :: 0 <= k < i ==> es[k].at <= key)
    && (forall k :: i <= k < |es| ==> key <= es[k].at)
    && ((i < |es| && es[i].at == key) || forall k :: 0 <= k < |es| ==> es[k].at != key)
  }

  /** From s up to but not including e are the events in the window, and at most the first one after it. */
  ghost predicate Window(es: seq<EventInt>, s: int, e: int, start: int, end: int) {
    && 0 <= s < e <= |es| + 1
    && (forall k :: 0 <= k < |es| && start <= es[k].at <= end ==> s <= k < e)
    && (forall k :: s <= k < e && k < |es| ==> start <= es[k].at && (es[k].at <= end || k == e - 1))
    && (e <= |es| && es[e - 1].at > end ==> forall k :: 0 <= k < e - 1 ==> es[k].at < end)
  }

  /** The binary search for an event at key among those numbered from l to u: its place, or where it would be. */
  function PlaceFrom(es: seq<EventInt>, key: int, l: int, u: int): (i: int)
    requires 0 <= l <= u + 1 <= |es|
    ensures l <= i <= u + 1
    decreases u - l + 1
  {
    if l > u then l
    else
      var i := (l + u) / 2;
      if key == es[i].at then i
      else if key < es[i].at then PlaceFrom(es, key, l, i - 1)
      else PlaceFrom(es, key, i + 1, u)
  }

  function EventPlace(es: seq<EventInt>, key: int): (i: int)
    ensures 0 <= i <= |es|
  {
    PlaceFrom(es, key, 0, |es| - 1)
  }

  /** What lies below l is before key, and what lies above u after it. */
  ghost predicate Between(es: seq<EventInt>, key: int, l: int, u: int) {
    && 0 <= l <= u + 1 <= |es|
    && (forall k :: 0 <= k < l ==> es[k].at < key)
    && forall k :: u < k < |es| ==> key < es[k].at
  }

  lemma Narrow(es: seq<EventInt>, key: int, l: int, u: int, i: int)
    requires Ordered(es) && Between(es, key, l, u) && l <= i <= u
    ensures key < es[i].at ==> Between(es, key, l, i - 1)
    ensures es[i].at < key ==> Between(es, key, i + 1, u)
    ensures key == es[i].at ==> Place(es, key, i)
  {
  }

  lemma {:induction false} PlaceFromIs(es: seq<EventInt>, key: int, l: int, u: int)
    requires Ordered(es) && Between(es, key, l, u)
    ensures Place(es, key, PlaceFrom(es, key, l, u))
    decreases u - l + 1
  {
    if l <= u {
      var i := (l + u) / 2;
      Narrow(es, key, l, u, i);
      if key < es[i].at {
        PlaceFromIs(es, key, l, i - 1);
      } else if es[i].at < key {
        PlaceFromIs(es, key, i + 1, u);
      }
    }
  }

  /** The event in the middle is looked at first. */
  lemma MiddleEvent(es: seq<EventInt>, key: int)
    requires es != [] && es[(|es| - 1) / 2].at == key
    ensures EventPlace(es, key) == (|es| - 1) / 2
  {
  }

  lemma EventPlaceIs(es: seq<EventInt>, key: int)
    requires Ordered(es)
    ensures Place(es, key, EventPlace(es, key))
  {
    PlaceFromIs(es, key, 0, |es| - 1);
  }

  function EventBounds(es: seq<EventInt>, start: int, end: int): (b: (int, int))
    ensures 0 <= b.0 <= |es| && 1 <= b.1 <= |es| + 1
  {
    (EventPlace(es, start), EventPlace(es, end) + 1)
  }

  /** Of the events at the start of the window the first one is found, and of those at its end the last. */
  ghost predicate OuterEvents(es: seq<EventInt>, bounds: (int, int), start: int, end: int) {
    && (forall k :: 0 <= k < |es| && k < bounds.0 ==> es[k].at != start)
    && (forall k :: bounds.1 <= k < |es| && k >= 0 ==> es[k].at != end)
  }

  /** All events strictly inside the window are taken, and none from outside it but for the last one taken. */
  ghost predicate Inner(es: seq<EventInt>, bounds: (int, int), start: int, end: int) {
    && (forall k :: 0 <= k < |es| && start < es[k].at < end ==> bounds.0 <= k < bounds.1)
    && (forall k :: 0 <= k < |es| && bounds.0 <= k < bounds.1 - 1 ==> start <= es[k].at <= end)
  }

  /** Whatever the ties, only events at the two ends can be lost; and none is exactly when the search hits on the outer ones of those. */
  lemma EventBoundsIff(es: seq<EventInt>, start: int, end: int)
    requires Ordered(es) && start <= end
    ensures var b := EventBounds(es, start, end);
            && b.0 < b.1 && Inner(es, b, start, end)
            && (Window(es, b.0, b.1, start, end) <==> OuterEvents(es, b, start, end))
  {
    EventPlaceIs(es, start);
    EventPlaceIs(es, end);
  }

  /** Where no two events happen at the same time, none is lost. */
  lemma StrictlyWindow(es: seq<EventInt>, start: int, end: int)
    requires StrictlyOrdered(es) && start <= end
    ensures Window(es, EventBounds(es, start, end).0, EventBounds(es, start, end).1, start, end)
  {
    EventPlaceIs(es, start);
    EventPlaceIs(es, end);
    EventBoundsIff(es, start, end);
  }

  /** All of it, for the bounds of a window. */
  lemma WindowEvents(es: seq<EventInt>, start: int, end: int, s: int, e: int)
    requires Ordered(es) && (s, e) == EventBounds(es, start, end)
    ensures Place(es, start, s) && Place(es, end, e - 1)
    ensures start <= end ==> s < e && Inner(es, (s, e), start, end)
    ensures start <= end ==> (Window(es, s, e, start, end) <==> OuterEvents(es, (s, e), start, end))
    ensures start <= end && StrictlyOrdered(es) ==> Window(es, s, e, start, end)
  {
    EventPlaceIs(es, start);
    EventPlaceIs(es, end);
    if start <= end {
      EventBoundsIff(es, start, end);
      if StrictlyOrdered(es) {
        StrictlyWindow(es, start, end);
      }
    }
  }

  /** Of three events at the only time in the window, one is taken. */
  lemma TiedEvents(es: seq<EventInt>)
    requires |es| == 3 && forall k :: 0 <= k < 3 ==> es[k].at == 1
    ensures Ordered(es) && EventBounds(es, 1, 1) == (1, 2)
    ensures !OuterEvents(es, (1, 2), 1, 1) && !Window(es, 1, 2, 1, 1)
  {
    assert es[0].at == 1;
  }

  class TimelineEvent {
    var events: seq<EventInt>

    constructor ()
      ensures events == []
    {
      events := [];
    }

    method AddEvent(event: EventInt)
      modifies this
      ensures events == old(events) + [event]
    {
      events := events + [event];
    }

    method SearchLoop(key: int) returns (i: int)
      ensures i == EventPlace(events, key)
    {
      var l, u := 0, |events| - 1;
      while l <= u
        invariant 0 <= l <= u + 1 <= |events|
        invariant PlaceFrom(events, key, l, u) == EventPlace(events, key)
        decreases u - l
      {
        i := (l + u) / 2;
        if key == events[i].at {
          return;
        } else if key < events[i].at {
          u := i - 1;
        } else {
          l := i + 1;
        }
      }
      i := l;
    }

    method Search(key: int) returns (i: int)
      requires Ordered(events)
      ensures i == EventPlace(events, key) && Place(events, key, i)
    {
      i := SearchLoop(key);
      EventPlaceIs(events, key);
    }

    method GetEventsBounds(start: int, end: int) returns (s: int, e: int)
      requires Ordered(events)
      ensures (s, e) == EventBounds(events, start, end)
      ensures Place(events, start, s) && Place(events, end, e - 1)
      // in a window that is not reversed, only events at its ends can be lost
      ensures start <= end ==> s < e && Inner(events, (s, e), start, end)
      // and none is exactly when the search hits on the outer ones of those, as it does where no two events happen at once
      ensures start <= end ==> (Window(events, s, e, start, end) <==> OuterEvents(events, (s, e), start, end))
      ensures start <= end && StrictlyOrdered(events) ==> Window(events, s, e, start, end)
    {
      s := SearchLoop(start);
      e := SearchLoop(end);
      e := e + 1;
      WindowEvents(events, start, end, s, e);
    }

    method GetEvents(start: int, end: int) returns (window: seq<EventInt>)
      requires Ordered(events)
      ensures window == Taken(events, EventBounds(events, start, end))
      // events that stand together in the list; from a window that is not reversed, all but the last lie in it, and it is not before it
      ensures exists s :: StandAt(events, window, s)
      ensures start <= end ==> AllButLastIn(window, start, end)
    {
      var s, e := GetEventsBounds(start, end);
      var stop := if e <= |events| then e else |events|;
      window := if s <= stop then events[s..stop] else [];
      TakenStand(events, start, end);
    }
  }

  ghost predicate AllButLastIn(window: seq<EventInt>, start: int, end: int) {
    && (forall k :: 0 <= k < |window| - 1 ==> start <= window[k].at <= end)
    && (window != [] ==> start <= Last(window).at)
  }

  lemma TakenStand(es: seq<EventInt>, start: int, end: int)
    requires Ordered(es)
    ensures var b := EventBounds(es, start, end);
            StandAt(es, Taken(es, b), b.0) && (start <= end ==> AllButLastIn(Taken(es, b), start, end))
  {
    EventPlaceIs(es, start);
    EventPlaceIs(es, end);
  }

  ghost predicate StandAt(es: seq<EventInt>, part: seq<EventInt>, s: int) {
    0 <= s && s + |part| <= |es| && forall k :: 0 <= k < |part| ==> part[k] == es[s + k]
  }

  /** The events from the first bound up to but not including the second: a Python slice stops at the end of the list, and is empty if reversed. */
  function Taken(es: seq<EventInt>, bounds: (int, int)): seq<EventInt>
    requires 0 <= bounds.0 <= |es|
  {
    var stop := if bounds.1 <= |es| then bounds.1 else |es|;
    if bounds.0 <= stop then es[bounds.0..stop] else []
  }

  /** Nothing strictly inside the window is lost; where no two events happen at the same time, nothing at its ends either. */
  lemma TakenEvents(es: seq<EventInt>, start: int, end: int, k: nat)
    requires Ordered(es) && start <= end && k < |es| && start <= es[k].at <= end
    requires (start < es[k].at < end) || StrictlyOrdered(es)
    ensures var b := EventBounds(es, start, end); b.0 < b.1 && es[k] in Taken(es, b)
  {
    var b := EventBounds(es, start, end);
    EventBoundsIff(es, start, end);
    if start < es[k].at < end {
      assert b.0 <= k < b.1;
    } else {
      StrictlyWindow(es, start, end);
      assert b.0 <= k < b.1;
    }
    assert Taken(es, b)[k - b.0] == es[k];
  }

  // ----- ranges

  /** The order that sorting gives, which is that of the starts only. */
  ghost predicate StartsInOrder(rs: seq<DataRange>) {
    forall i, j :: 0 <= i < j < |rs| ==> rs[i].start <= rs[j].start
  }

  /** Starts and ends in order, and no range reversed: ranges may overlap, but none lies inside one before it. */
  ghost predicate Ascending(rs: seq<DataRange>) {
    && StartsInOrder(rs)
    && (forall i, j :: 0 <= i < j < |rs| ==> rs[i].end <= rs[j].end)
    && forall i :: 0 <= i < |rs| ==> rs[i].start <= rs[i].end
  }

  predicate Holds(r: DataRange, key: int) {
    r.start <= key <= r.end
  }

  /** r has a point in common with the window from start to end. */
  predicate Meets(r: DataRange, start: int, end: int) {
    r.start <= end && start <= r.end && r.start <= r.end
  }

  ghost predicate Covered(rs: seq<DataRange>, key: int) {
    exists k :: 0 <= k < |rs| && Holds(rs[k], key)
  }

  /** The binary search for a range that holds key, among those numbered from l to u. */
  function SearchFrom(rs: seq<DataRange>, key: int, l: int, u: int): (i: int)
    requires 0 <= l <= u + 1 <= |rs|
    ensures i == -1 || (l <= i <= u && Holds(rs[i], key))
    decreases u - l + 1
  {
    if l > u then -1
    else
      var i := (l + u) / 2;
      if Holds(rs[i], key) then i
      else if key < rs[i].start then SearchFrom(rs, key, l, i - 1)
      else SearchFrom(rs, key, i + 1, u)
  }

  function Searched(rs: seq<DataRange>, key: int): (i: int)
    ensures i == -1 || (0 <= i < |rs| && Holds(rs[i], key))
  {
    SearchFrom(rs, key, 0, |rs| - 1)
  }

  predicate Found(rs: seq<DataRange>, key: int) {
    Searched(rs, key) != -1
  }

  // ----- what the search finds

  /** The places where a bisection by the starts alone turns right: the ranges it passes there start by key. */
  function ProbesFrom(rs: seq<DataRange>, key: int, l: int, u: int): (ps: seq<int>)
    requires 0 <= l <= u + 1 <= |rs|
    ensures forall p :: p in ps ==> l <= p <= u && rs[p].start <= key
    decreases u - l + 1
  {
    if l > u then []
    else
      var i := (l + u) / 2;
      if key < rs[i].start then ProbesFrom(rs, key, l, i - 1)
      else [i] + ProbesFrom(rs, key, i + 1, u)
  }

  function Probes(rs: seq<DataRange>, key: int): (ps: seq<int>)
    ensures forall p :: p in ps ==> 0 <= p < |rs| && rs[p].start <= key
  {
    ProbesFrom(rs, key, 0, |rs| - 1)
  }

  /** The range in the middle is looked at first. */
  lemma MiddleRange(rs: seq<DataRange>, key: int)
    requires rs != [] && Holds(rs[(|rs| - 1) / 2], key)
    ensures Searched(rs, key) == (|rs| - 1) / 2
  {
  }

  /** One of these ranges reaches the key. */
  ghost predicate Reached(rs: seq<DataRange>, key: int, ps: seq<int>)
    requires forall p :: p in ps ==> 0 <= p < |rs|
  {
    exists p :: p in ps && key <= rs[p].end
  }

  lemma {:induction false} SearchFromProbes(rs: seq<DataRange>, key: int, l: int, u: int)
    requires 0 <= l <= u + 1 <= |rs|
    ensures SearchFrom(rs, key, l, u) != -1 <==> Reached(rs, key, ProbesFrom(rs, key, l, u))
    decreases u - l + 1
  {
    if l <= u {
      var i := (l + u) / 2;
      if key < rs[i].start {
        SearchFromProbes(rs, key, l, i - 1);
      } else {
        var ps, rest := ProbesFrom(rs, key, l, u), ProbesFrom(rs, key, i + 1, u);
        SearchFromProbes(rs, key, i + 1, u);
        assert ps == [i] + rest;
        assert forall p :: p in ps <==> p == i || p in rest;
      }
    }
  }

  /** Whatever the ends, the search looks at places that the starts alone determine, and finds nothing exactly when none of these reaches the key. */
  lemma SearchProbes(rs: seq<DataRange>, key: int)
    ensures Found(rs, key) <==> Reached(rs, key, Probes(rs, key))
  {
    SearchFromProbes(rs, key, 0, |rs| - 1);
  }

  /** The first of these places, in the order of the search, at which a range reaches the key. */
  function FirstReaching(rs: seq<DataRange>, key: int, ps: seq<int>): int
    requires forall p :: p in ps ==> 0 <= p < |rs|
  {
    if ps == [] then -1
    else
      assert ps[0] in ps && forall p :: p in ps[1..] ==> p in ps;
      if key <= rs[ps[0]].end then ps[0] else FirstReaching(rs, key, ps[1..])
  }

  lemma FirstOrLater(rs: seq<DataRange>, key: int, i: int, rest: seq<int>)
    requires 0 <= i < |rs| && forall p :: p in rest ==> 0 <= p < |rs|
    ensures FirstReaching(rs, key, [i] + rest) == if key <= rs[i].end then i else FirstReaching(rs, key, rest)
  {
    assert ([i] + rest)[1..] == rest;
  }

  /** Of the places it looks at, the search returns the first that reaches the key. */
  lemma {:induction false} SearchFromFirst(rs: seq<DataRange>, key: int, l: int, u: int)
    requires 0 <= l <= u + 1 <= |rs|
    ensures SearchFrom(rs, key, l, u) == FirstReaching(rs, key, ProbesFrom(rs, key, l, u))
    decreases u - l + 1
  {
    if l <= u {
      var i := (l + u) / 2;
      if key < rs[i].start {
        SearchFromFirst(rs, key, l, i - 1);
      } else {
        SearchFromFirst(rs, key, i + 1, u);
        FirstOrLater(rs, key, i, ProbesFrom(rs, key, i + 1, u));
      }
    }
  }

  /** k is the last range that starts by key. */
  ghost predicate LastToStart(rs: seq<DataRange>, key: int, k: int) {
    0 <= k < |rs| && rs[k].start <= key && forall j :: k < j < |rs| ==> key < rs[j].start
  }

  lemma {:induction false} LastProbed(rs: seq<DataRange>, key: int, k: int, l: int, u: int)
    requires StartsInOrder(rs) && LastToStart(rs, key, k) && 0 <= l <= k <= u < |rs|
    ensures k in ProbesFrom(rs, key, l, u)
    decreases u - l + 1
  {
    var i := (l + u) / 2;
    if key < rs[i].start {
      LastProbed(rs, key, k, l, i - 1);
    } else {
      var rest := ProbesFrom(rs, key, i + 1, u);
      assert ProbesFrom(rs, key, l, u)[0] == i;
      if i < k {
        LastProbed(rs, key, k, i + 1, u);
        assert k in [i] + rest;
      }
    }
  }

  /** Among those places is the last range that starts by the key: if that one holds the key, a range is found. */
  lemma LastFound(rs: seq<DataRange>, key: int, k: int)
    requires StartsInOrder(rs) && LastToStart(rs, key, k) && key <= rs[k].end
    ensures Found(rs, key)
  {
    LastProbed(rs, key, k, 0, |rs| - 1);
    SearchProbes(rs, key);
  }

  lemma {:induction false} LastExists(rs: seq<DataRange>, key: int, n: nat) returns (k: int)
    requires StartsInOrder(rs) && n < |rs| && rs[0].start <= key && forall j :: n < j < |rs| ==> key < rs[j].start
    ensures LastToStart(rs, key, k)
  {
    if rs[n].start <= key {
      k := n;
    } else {
      k := LastExists(rs, key, n - 1);
    }
  }

  /** No range that holds key is followed by one that starts by key too, but is over before it. */
  ghost predicate NoneNested(rs: seq<DataRange>, key: int) {
    forall j, k :: 0 <= j < k < |rs| && Holds(rs[j], key) && rs[k].start <= key ==> key <= rs[k].end
  }

  /** Where no range is nested in one that holds the key, the search finds a range exactly when one holds it. */
  lemma SearchDecides(rs: seq<DataRange>, key: int)
    requires StartsInOrder(rs) && NoneNested(rs, key)
    ensures Found(rs, key) <==> Covered(rs, key)
  {
    if Covered(rs, key) {
      var j :| 0 <= j < |rs| && Holds(rs[j], key);
      assert rs[0].start <= rs[j].start;
      var k := LastExists(rs, key, |rs| - 1);
      LastFound(rs, key, k);
    }
  }

  /** So it does for every key if the ends are in order too. */
  lemma AscendingDecides(rs: seq<DataRange>, key: int)
    requires Ascending(rs)
    ensures Found(rs, key) <==> Covered(rs, key)
  {
    SearchDecides(rs, key);
  }

  /** The range found for a later key stands no earlier. */
  lemma {:induction false} SearchMonotone(rs: seq<DataRange>, start: int, end: int, l: int, u: int)
    requires 0 <= l <= u + 1 <= |rs| && start <= end
    requires SearchFrom(rs, start, l, u) != -1 && SearchFrom(rs, end, l, u) != -1
    ensures SearchFrom(rs, start, l, u) <= SearchFrom(rs, end, l, u)
    decreases u - l + 1
  {
    var i := (l + u) / 2;
    if end < rs[i].start {
      SearchMonotone(rs, start, end, l, i - 1);
    } else if rs[i].start <= start && rs[i].end < start {
      SearchMonotone(rs, start, end, i + 1, u);
    }
  }

  /** If the range found for the end starts by the start, the search for the start finds one as well. */
  lemma {:induction false} FoundBefore(rs: seq<DataRange>, start: int, end: int, l: int, u: int)
    requires StartsInOrder(rs) && 0 <= l <= u + 1 <= |rs| && start <= end
    requires SearchFrom(rs, end, l, u) != -1 && rs[SearchFrom(rs, end, l, u)].start <= start
    ensures SearchFrom(rs, start, l, u) != -1
    decreases u - l + 1
  {
    var i := (l + u) / 2;
    if !Holds(rs[i], start) && !Holds(rs[i], end) {
      if end < rs[i].start {
        FoundBefore(rs, start, end, l, i - 1);
      } else {
        FoundBefore(rs, start, end, i + 1, u);
      }
    }
  }

  // ----- the ranges in a window

  /** The bounds taken from the ranges found for the two ends. */
  function Bounds(rs: seq<DataRange>, start: int, end: int): (int, int) {
    var s, e := Searched(rs, start), Searched(rs, end);
    if s == -1 && e == -1 then (0, 0)
    else (if s == -1 then 0 else s, if e == -1 then |rs| else e + 1)
  }

  predicate Within(bounds: (int, int), k: int) {
    bounds.0 <= k < bounds.1
  }

  lemma BoundsInOrder(rs: seq<DataRange>, start: int, end: int)
    requires start <= end
    ensures 0 <= Bounds(rs, start, end).0 <= Bounds(rs, start, end).1 <= |rs|
  {
    if Found(rs, start) && Found(rs, end) {
      SearchMonotone(rs, start, end, 0, |rs| - 1);
    }
  }

  /** The bounds are those of exactly the ranges that meet the window. */
  ghost predicate Exact(rs: seq<DataRange>, bounds: (int, int), start: int, end: int) {
    forall k :: 0 <= k < |rs| ==> (Within(bounds, k) <==> Meets(rs[k], start, end))
  }

  /**
   * An end of the window for which no range is found is taken to lie outside all of them, so it has to;
   * if none is found for either end, no range may meet the window.
   */
  ghost predicate Settled(rs: seq<DataRange>, start: int, end: int) {
    if Found(rs, start) then Found(rs, end) || Last(rs).start <= end
    else if Found(rs, end) then start < rs[0].start
    else forall k :: 0 <= k < |rs| ==> !Meets(rs[k], start, end)
  }

  /** Of the ranges that hold the start of the window, the first one is found, and of those that hold its end, the last. */
  ghost predicate OuterFound(rs: seq<DataRange>, start: int, end: int) {
    && (forall k :: 0 <= k < Searched(rs, start) ==> !Holds(rs[k], start))
    && (forall k :: 0 <= Searched(rs, end) < k < |rs| ==> !Holds(rs[k], end))
  }

  /** Range k is reversed or over before the window although it is in the bounds, or is over inside the window although it stands behind them. */
  predicate Astray(rs: seq<DataRange>, start: int, end: int, k: int)
    requires 0 <= k < |rs|
  {
    var r := rs[k];
    || (Within(Bounds(rs, start, end), k) && (r.end < r.start || r.end < start))
    || (0 <= Searched(rs, end) < k && Meets(r, start, end) && r.end < end)
  }

  ghost predicate NoneAstray(rs: seq<DataRange>, start: int, end: int) {
    forall k :: 0 <= k < |rs| ==> !Astray(rs, start, end, k)
  }

  /** With the bounds right and only the end of the window found, the window starts before all ranges. */
  lemma StartsBefore(rs: seq<DataRange>, start: int, end: int)
    requires StartsInOrder(rs) && start <= end && Exact(rs, Bounds(rs, start, end), start, end)
    requires !Found(rs, start) && Found(rs, end)
    ensures start < rs[0].start
  {
    if rs[0].start <= start {
      var k := LastExists(rs, start, |rs| - 1);
      if start < rs[Searched(rs, end)].start {
        assert Within(Bounds(rs, start, end), k) <==> Meets(rs[k], start, end);
        LastFound(rs, start, k);
      } else {
        FoundBefore(rs, start, end, 0, |rs| - 1);
      }
    }
  }

  lemma ExactSettled(rs: seq<DataRange>, start: int, end: int)
    requires StartsInOrder(rs) && start <= end && Exact(rs, Bounds(rs, start, end), start, end)
    ensures Settled(rs, start, end)
  {
    if Found(rs, start) {
      assert Within(Bounds(rs, start, end), |rs| - 1) <==> Meets(Last(rs), start, end);
    } else if Found(rs, end) {
      StartsBefore(rs, start, end);
    } else {
      forall k | 0 <= k < |rs| ensures !Meets(rs[k], start, end) {
        assert Within(Bounds(rs, start, end), k) <==> Meets(rs[k], start, end);
      }
    }
  }

  lemma ExactOuterFound(rs: seq<DataRange>, start: int, end: int)
    requires StartsInOrder(rs) && start <= end && Exact(rs, Bounds(rs, start, end), start, end)
    ensures OuterFound(rs, start, end) && NoneAstray(rs, start, end)
  {
    forall k | 0 <= k < |rs|
      ensures (k < Searched(rs, start) ==> !Holds(rs[k], start)) && (0 <= Searched(rs, end) < k ==> !Holds(rs[k], end))
      ensures !Astray(rs, start, end, k)
    {
      assert Within(Bounds(rs, start, end), k) <==> Meets(rs[k], start, end);
    }
  }

  lemma SettledExact(rs: seq<DataRange>, start: int, end: int)
    requires StartsInOrder(rs) && start <= end
    requires Settled(rs, start, end) && OuterFound(rs, start, end) && NoneAstray(rs, start, end)
    ensures Exact(rs, Bounds(rs, start, end), start, end)
  {
    forall k | 0 <= k < |rs| ensures Within(Bounds(rs, start, end), k) <==> Meets(rs[k], start, end) {
      assert !Astray(rs, start, end, k);
    }
  }

  /**
   * On ranges as sorting leaves them, nested and reversed ones included, the bounds are right exactly when what is not found
   * lies outside, the search hits on the outer ones of the ranges that hold an end, and no range has gone astray.
   */
  lemma ExactIffSettled(rs: seq<DataRange>, start: int, end: int)
    requires StartsInOrder(rs) && start <= end
    ensures Exact(rs, Bounds(rs, start, end), start, end)
            <==> Settled(rs, start, end) && OuterFound(rs, start, end) && NoneAstray(rs, start, end)
  {
    if Exact(rs, Bounds(rs, start, end), start, end) {
      ExactSettled(rs, start, end);
      ExactOuterFound(rs, start, end);
    } else if Settled(rs, start, end) && OuterFound(rs, start, end) && NoneAstray(rs, start, end) {
      SettledExact(rs, start, end);
    }
  }

  // ----- where the ends are in order too

  /** An end of the window that no range holds lies outside all of them; if neither end is held, no range lies between them. */
  ghost predicate Reliable(rs: seq<DataRange>, start: int, end: int) {
    if Covered(rs, start) then Covered(rs, end) || Last(rs).end < end
    else if Covered(rs, end) then start < rs[0].start
    else forall k :: 0 <= k < |rs| ==> !(start < rs[k].start && rs[k].end < end)
  }

  lemma ReliableIffSettled(rs: seq<DataRange>, start: int, end: int)
    requires Ascending(rs) && start <= end
    ensures Reliable(rs, start, end) <==> Settled(rs, start, end)
  {
    AscendingDecides(rs, start);
    AscendingDecides(rs, end);
    if Found(rs, start) {
      assert !Covered(rs, end) ==> !Holds(Last(rs), end);
      assert Last(rs).end < end ==> !Found(rs, end);
    } else if !Found(rs, end) {
      forall k | 0 <= k < |rs| ensures Meets(rs[k], start, end) <==> start < rs[k].start && rs[k].end < end {
        assert !Holds(rs[k], start) && !Holds(rs[k], end);
      }
    }
  }

  lemma AscendingNoneAstray(rs: seq<DataRange>, start: int, end: int)
    requires Ascending(rs) && start <= end && Settled(rs, start, end)
    ensures NoneAstray(rs, start, end)
  {
  }

  /** The bounds are right exactly when the window is reliable and the search hits on the outer ones of the ranges that hold its ends. */
  lemma ExactIff(rs: seq<DataRange>, start: int, end: int)
    requires Ascending(rs) && start <= end
    ensures Exact(rs, Bounds(rs, start, end), start, end) <==> Reliable(rs, start, end) && OuterFound(rs, start, end)
  {
    ExactIffSettled(rs, start, end);
    ReliableIffSettled(rs, start, end);
    if Settled(rs, start, end) {
      AscendingNoneAstray(rs, start, end);
    }
  }

  /** No two ranges hold key. */
  ghost predicate Sole(rs: seq<DataRange>, key: int) {
    forall j, k :: 0 <= j < k < |rs| ==> !(Holds(rs[j], key) && Holds(rs[k], key))
  }

  /** Reliable windows whose ends are not shared have the right bounds. */
  lemma SoleExact(rs: seq<DataRange>, start: int, end: int)
    requires Ascending(rs) && start <= end && Sole(rs, start) && Sole(rs, end)
    ensures Exact(rs, Bounds(rs, start, end), start, end) <==> Reliable(rs, start, end)
  {
    ExactIff(rs, start, end);
  }

  /** Range k is left out although it meets the window: it holds an end of the window that a range inside holds as well. */
  predicate MissedAtEnd(rs: seq<DataRange>, start: int, end: int, k: int)
    requires 0 <= k < |rs|
  {
    (k < Searched(rs, start) && Holds(rs[k], start)) || (0 <= Searched(rs, end) < k && Holds(rs[k], end))
  }

  /** What is in the bounds meets the window, and what meets it is in the bounds but for ranges that hold an end of it. */
  ghost predicate Close(rs: seq<DataRange>, bounds: (int, int), start: int, end: int) {
    forall k :: 0 <= k < |rs| ==>
      if Within(bounds, k) then Meets(rs[k], start, end) else Meets(rs[k], start, end) ==> MissedAtEnd(rs, start, end, k)
  }

  lemma ReliableClose(rs: seq<DataRange>, start: int, end: int)
    requires Ascending(rs) && start <= end && Reliable(rs, start, end)
    ensures Close(rs, Bounds(rs, start, end), start, end)
  {
    ReliableIffSettled(rs, start, end);
    AscendingNoneAstray(rs, start, end);
    forall k | 0 <= k < |rs|
      ensures if Within(Bounds(rs, start, end), k) then Meets(rs[k], start, end) else Meets(rs[k], start, end) ==> MissedAtEnd(rs, start, end, k)
    {
      assert !Astray(rs, start, end, k);
    }
  }

  /** All of it, for the bounds of a window that is not reversed. */
  lemma WindowBounds(rs: seq<DataRange>, start: int, end: int)
    ensures var bounds := Bounds(rs, start, end);
            start <= end ==>
              && bounds.0 <= bounds.1
              && (StartsInOrder(rs) ==>
                    (Exact(rs, bounds, start, end) <==> Settled(rs, start, end) && OuterFound(rs, start, end) && NoneAstray(rs, start, end)))
              && (Ascending(rs) ==> (Exact(rs, bounds, start, end) <==> Reliable(rs, start, end) && OuterFound(rs, start, end)))
              && (Ascending(rs) && Reliable(rs, start, end) ==> Close(rs, bounds, start, end))
  {
    if start <= end {
      BoundsInOrder(rs, start, end);
      if StartsInOrder(rs) {
        ExactIffSettled(rs, start, end);
      }
      if Ascending(rs) {
        ExactIff(rs, start, end);
        if Reliable(rs, start, end) {
          ReliableClose(rs, start, end);
        }
      }
    }
  }

  lemma BoundsFound(rs: seq<DataRange>, start: int, end: int)
    ensures var (a, b) := Bounds(rs, start, end);
            var s, e := Reached(rs, start, Probes(rs, start)), Reached(rs, end, Probes(rs, end));
            && (s ==> 0 <= a < |rs| && Holds(rs[a], start) && a == FirstReaching(rs, start, Probes(rs, start)))
            && (e ==> 1 <= b <= |rs| && Holds(rs[b - 1], end) && b - 1 == FirstReaching(rs, end, Probes(rs, end)))
            && (e && !s ==> a == 0)
            && (s && !e ==> b == |rs|)
            && (!s && !e ==> a == 0 && b == 0)
  {
    SearchProbes(rs, start);
    SearchProbes(rs, end);
    SearchFromFirst(rs, start, 0, |rs| - 1);
    SearchFromFirst(rs, end, 0, |rs| - 1);
  }

  // ----- four windows

  /** From a gap into the second of two ranges: the bounds take in the first one as well. */
  lemma UnreliableWindow(rs: seq<DataRange>)
    requires rs == [DataRange(0, 10), DataRange(20, 30)]
    ensures Ascending(rs) && Bounds(rs, 15, 25) == (0, 2) && !Meets(rs[0], 15, 25)
    ensures !Reliable(rs, 15, 25) && !Exact(rs, Bounds(rs, 15, 25), 15, 25)
  {
    assert SearchFrom(rs, 15, 0, 1) == -1 && SearchFrom(rs, 25, 0, 1) == 1;
    assert Holds(rs[1], 25);
    assert Within(Bounds(rs, 15, 25), 0);
  }

  /** From the shared end of two ranges: the search hits on the second one. */
  lemma SharedEnd(rs: seq<DataRange>)
    requires rs == [DataRange(0, 10), DataRange(10, 20), DataRange(20, 30)]
    ensures Ascending(rs) && Bounds(rs, 10, 15) == (1, 2) && Meets(rs[0], 10, 15)
    ensures Reliable(rs, 10, 15) && !OuterFound(rs, 10, 15) && !Exact(rs, Bounds(rs, 10, 15), 10, 15)
  {
    assert Searched(rs, 10) == 1 && Searched(rs, 15) == 1;
    assert Holds(rs[0], 10) && Holds(rs[1], 10) && Holds(rs[1], 15);
    assert !Within(Bounds(rs, 10, 15), 0);
  }

  /** Inside the first of three ranges, behind the second, which lies inside it too: the search passes the first one by. */
  lemma NestedMissed(rs: seq<DataRange>)
    requires rs == [DataRange(0, 100), DataRange(10, 20), DataRange(30, 40)]
    ensures StartsInOrder(rs) && Covered(rs, 50) && !Found(rs, 50) && !NoneNested(rs, 50)
    ensures Bounds(rs, 50, 60) == (0, 0) && Meets(rs[0], 50, 60)
    ensures Reliable(rs, 50, 60) && OuterFound(rs, 50, 60) && Sole(rs, 50) && Sole(rs, 60)
    ensures !Settled(rs, 50, 60) && !Exact(rs, Bounds(rs, 50, 60), 50, 60)
  {
    assert SearchFrom(rs, 50, 2, 2) == -1 && SearchFrom(rs, 60, 2, 2) == -1;
    assert Searched(rs, 50) == -1 && Searched(rs, 60) == -1;
    assert Holds(rs[0], 50) && Holds(rs[0], 60);
    assert rs[1].start <= 50 && rs[1].end < 50;
    assert !Within(Bounds(rs, 50, 60), 0);
  }

  /** Both ends are found, and a range inside an earlier one is taken in although it is over before the window. */
  lemma NestedTakenIn(rs: seq<DataRange>)
    requires rs == [DataRange(0, 1), DataRange(2, 100), DataRange(3, 4), DataRange(80, 110)]
    ensures StartsInOrder(rs) && Bounds(rs, 50, 105) == (1, 4) && !Meets(rs[2], 50, 105)
    ensures Settled(rs, 50, 105) && OuterFound(rs, 50, 105) && Astray(rs, 50, 105, 2)
    ensures !Exact(rs, Bounds(rs, 50, 105), 50, 105)
  {
    assert SearchFrom(rs, 105, 2, 3) == SearchFrom(rs, 105, 3, 3) == 3;
    assert Searched(rs, 50) == 1 && Searched(rs, 105) == 3;
    assert Within(Bounds(rs, 50, 105), 2);
  }

  class TimelineDataRange {
    var ranges: seq<DataRange>

    constructor ()
      ensures ranges == []
    {
      ranges := [];
    }

    method AddRange(r: DataRange)
      modifies this
      ensures ranges == old(ranges) + [r]
    {
      ranges := ranges + [r];
    }

    method SearchLoop(key: int) returns (i: int)
      ensures i == Searched(ranges, key)
    {
      var l, u := 0, |ranges| - 1;
      while l <= u
        invariant 0 <= l <= u + 1 <= |ranges|
        invariant SearchFrom(ranges, key, l, u) == Searched(ranges, key)
        decreases u - l
      {
        i := (l + u) / 2;
        if ranges[i].start <= key <= ranges[i].end {
          return;
        } else if key < ranges[i].start {
          u := i - 1;
        } else {
          l := i + 1;
        }
      }
      i := -1;
    }

    method Search(key: int) returns (i: int)
      ensures i == -1 || (0 <= i < |ranges| && Holds(ranges[i], key))
      // a range is found exactly when one of those that the starts determine reaches the key
      ensures i != -1 <==> Reached(ranges, key, Probes(ranges, key))
      ensures i == FirstReaching(ranges, key, Probes(ranges, key))
      // so where no range is nested in one that holds the key, exactly when a range holds it
      ensures StartsInOrder(ranges) && NoneNested(ranges, key) ==> (i != -1 <==> Covered(ranges, key))
    {
      SearchProbes(ranges, key);
      if StartsInOrder(ranges) && NoneNested(ranges, key) {
        SearchDecides(ranges, key);
      }
      i := SearchLoop(key);
      SearchFromFirst(ranges, key, 0, |ranges| - 1);
    }

    /** The bounds, for ranges in any order, and what they are worth when the ranges are in order. */
    method GetRangesBounds(start: int, end: int) returns (a: int, b: int)
      ensures 0 <= a <= |ranges| && 0 <= b <= |ranges|
      // the ranges found hold the ends; where none is found, the bounds go as far as there are ranges
      ensures var s, e := Reached(ranges, start, Probes(ranges, start)), Reached(ranges, end, Probes(ranges, end));
              && (s ==> a < |ranges| && Holds(ranges[a], start) && a == FirstReaching(ranges, start, Probes(ranges, start)))
              && (e ==> 1 <= b && Holds(ranges[b - 1], end) && b - 1 == FirstReaching(ranges, end, Probes(ranges, end)))
              && (e && !s ==> a == 0)
              && (s && !e ==> b == |ranges|)
              && (!s && !e ==> a == 0 && b == 0)
      ensures start <= end ==> a <= b
      // on sorted ranges, exactly when these are the ranges that meet the window
      ensures start <= end && StartsInOrder(ranges) ==>
                (Exact(ranges, (a, b), start, end) <==> Settled(ranges, start, end) && OuterFound(ranges, start, end) && NoneAstray(ranges, start, end))
      // where the ends are in order too, exactly when the window is reliable and the search hits on the outer ranges that hold its ends
      ensures start <= end && Ascending(ranges) ==>
                (Exact(ranges, (a, b), start, end) <==> Reliable(ranges, start, end) && OuterFound(ranges, start, end))
      // then in every reliable window nothing else is taken in, and what is left out holds an end of it
      ensures start <= end && Ascending(ranges) && Reliable(ranges, start, end) ==> Close(ranges, (a, b), start, end)
    {
      WindowBounds(ranges, start, end);
      BoundsFound(ranges, start, end);
      var s := SearchLoop(start);
      var e := SearchLoop(end);
      if s == -1 && e == -1 {
        return 0, 0;
      } else if s == -1 {
        return 0, e + 1;
      } else if e == -1 {
        return s, |ranges|;
      } else {
        return s, e + 1;
      }
    }
  }
}
