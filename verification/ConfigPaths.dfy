// Gathering the configuration paths of object types.
module ConfigPaths {
  import opened Sequences

  /** Types are numbered in the order of registration. */
  type TypeId = nat

  datatype Attribute =
    | Pointer(name: string, pointee: TypeId)
    | Container(name: string, item: TypeId)
    | Plain(name: string)

  datatype TypeInfo = TypeInfo(name: string, attributes: seq<Attribute>, ancestors: set<TypeId>)

  datatype Registry = Registry(types: seq<TypeInfo>, object_: TypeId)

  datatype Edge = Edge(name: string, target: TypeId)

  type Graph = seq<seq<Edge>>

  type Record = (TypeId, string)

  ghost predicate ValidRegistry(r: Registry) {
    forall t :: 0 <= t < |r.types| ==> ValidAttributes(r, r.types[t].attributes)
  }

  ghost predicate ValidAttributes(r: Registry, attributes: seq<Attribute>) {
    forall i :: 0 <= i < |attributes| ==>
      match attributes[i]
      case Pointer(_, pointee) => pointee < |r.types|
      case Container(_, item) => item < |r.types|
      case Plain(_) => true
  }

  // ----- the graph the search walks over

  /** Attribute paths: pointers, except to the most general type, and containers. */
  function AttributeEdge(r: Registry, a: Attribute): seq<Edge> {
    match a
    case Pointer(name, pointee) => if pointee == r.object_ then [] else [Edge(name, pointee)]
    case Container(name, item) => [Edge(name + "/[i]", item)]
    case Plain(_) => []
  }

  function AttributeEdges(r: Registry, t: TypeId, n: nat): seq<Edge>
    requires t < |r.types| && n <= |r.types[t].attributes|
  {
    if n == 0 then [] else AttributeEdges(r, t, n - 1) + AttributeEdge(r, r.types[t].attributes[n - 1])
  }

  function ChildEdges(r: Registry, t: TypeId, n: nat): seq<Edge>
    requires n <= |r.types|
  {
    if n == 0 then []
    else ChildEdges(r, t, n - 1) + if t in r.types[n - 1].ancestors then [Edge("$" + r.types[n - 1].name, n - 1)] else []
  }

  /** The partner of t in an aggregation. */
  function Other(t: TypeId, pair: (TypeId, TypeId)): TypeId {
    if pair.1 == t then pair.0 else pair.1
  }

  function AggregateEdges(r: Registry, aggregates: seq<(TypeId, TypeId)>, t: TypeId, n: nat): seq<Edge>
    requires n <= |aggregates| && ValidAggregates(r, aggregates)
  {
    if n == 0 then []
    else
      var pair := aggregates[n - 1];
      AggregateEdges(r, aggregates, t, n - 1)
      + if pair.0 == t || pair.1 == t then [Edge("$" + r.types[Other(t, pair)].name, Other(t, pair))] else []
  }

  predicate ValidAggregates(r: Registry, aggregates: seq<(TypeId, TypeId)>) {
    forall k :: 0 <= k < |aggregates| ==> aggregates[k].0 < |r.types| && aggregates[k].1 < |r.types|
  }

  function EdgesOf(r: Registry, aggregates: seq<(TypeId, TypeId)>, t: TypeId): seq<Edge>
    requires t < |r.types| && ValidAggregates(r, aggregates)
  {
    AttributeEdges(r, t, |r.types[t].attributes|) + ChildEdges(r, t, |r.types|) + AggregateEdges(r, aggregates, t, |aggregates|)
  }

  predicate Closed(g: Graph) {
    forall t :: 0 <= t < |g| ==> InRange(g[t], |g|)
  }

  predicate InRange(edges: seq<Edge>, n: nat) {
    forall k :: 0 <= k < |edges| ==> edges[k].target < n
  }

  lemma {:induction false} AttributesInRange(r: Registry, t: TypeId, n: nat)
    requires ValidRegistry(r) && t < |r.types| && n <= |r.types[t].attributes|
    ensures InRange(AttributeEdges(r, t, n), |r.types|)
  {
    if n > 0 {
      AttributesInRange(r, t, n - 1);
    }
  }

  lemma {:induction false} ChildrenInRange(r: Registry, t: TypeId, n: nat)
    requires n <= |r.types|
    ensures InRange(ChildEdges(r, t, n), |r.types|)
  {
    if n > 0 {
      ChildrenInRange(r, t, n - 1);
    }
  }

  lemma {:induction false} AggregatesInRange(r: Registry, aggregates: seq<(TypeId, TypeId)>, t: TypeId, n: nat)
    requires n <= |aggregates| && ValidAggregates(r, aggregates)
    ensures InRange(AggregateEdges(r, aggregates, t, n), |r.types|)
  {
    if n > 0 {
      AggregatesInRange(r, aggregates, t, n - 1);
    }
  }

  lemma EdgesInRange(r: Registry, aggregates: seq<(TypeId, TypeId)>)
    requires ValidRegistry(r) && ValidAggregates(r, aggregates)
    ensures forall t :: 0 <= t < |r.types| ==> InRange(EdgesOf(r, aggregates, t), |r.types|)
  {
    forall t | 0 <= t < |r.types| ensures InRange(EdgesOf(r, aggregates, t), |r.types|) {
      AttributesInRange(r, t, |r.types[t].attributes|);
      ChildrenInRange(r, t, |r.types|);
      AggregatesInRange(r, aggregates, t, |aggregates|);
    }
  }

  ghost function GraphOf(r: Registry, aggregates: seq<(TypeId, TypeId)>): (g: Graph)
    requires ValidRegistry(r) && ValidAggregates(r, aggregates)
    ensures |g| == |r.types| && Closed(g)
  {
    EdgesInRange(r, aggregates);
    seq(|r.types|, t requires 0 <= t < |r.types| => EdgesOf(r, aggregates, t))
  }

  // ----- what is followed and recorded, told from the registry

  /** Where an edge comes from. */
  datatype Source = ByAttribute(i: nat) | ByChild(j: nat) | ByAggregate(k: nat)

  /** What this source makes the search follow from t: a name, and the type it leads to. */
  predicate Follows(r: Registry, aggregates: seq<(TypeId, TypeId)>, t: TypeId, source: Source, name: string, target: TypeId)
    requires t < |r.types|
  {
    match source
    case ByAttribute(i) =>
      && i < |r.types[t].attributes|
      && (match r.types[t].attributes[i]
          case Pointer(attribute, pointee) => name == attribute && target == pointee && pointee != r.object_
          case Container(attribute, item) => name == attribute + "/[i]" && target == item
          case Plain(_) => false)
    case ByChild(j) =>
      j < |r.types| && t in r.types[j].ancestors && name == "$" + r.types[j].name && target == j
    case ByAggregate(k) =>
      && k < |aggregates| && (aggregates[k] == (t, target) || aggregates[k] == (target, t))
      && target < |r.types| && name == "$" + r.types[target].name
  }

  /** Attributes come before descendants and those before aggregations, each in the order of their numbers. */
  predicate Earlier(a: Source, b: Source) {
    match (a, b)
    case (ByAttribute(i), ByAttribute(i')) => i < i'
    case (ByChild(j), ByChild(j')) => j < j'
    case (ByAggregate(k), ByAggregate(k')) => k < k'
    case _ => a.ByAttribute? || (a.ByChild? && b.ByAggregate?)
  }

  predicate Among(source: Source, attributes: nat, children: nat, aggregations: nat) {
    match source
    case ByAttribute(i) => i < attributes
    case ByChild(j) => j < children
    case ByAggregate(k) => k < aggregations
  }

  /** These edges are what so many attributes, types and aggregations make the search follow from t, in order. */
  ghost predicate FromSources(r: Registry, aggregates: seq<(TypeId, TypeId)>, t: TypeId, edges: seq<Edge>, sources: seq<Source>, a: nat, b: nat, c: nat)
    requires t < |r.types|
  {
    && |sources| == |edges|
    && (forall n :: 0 <= n < |edges| ==> Among(sources[n], a, b, c) && Follows(r, aggregates, t, sources[n], edges[n].name, edges[n].target))
    && (forall m, n :: 0 <= m < n < |edges| ==> Earlier(sources[m], sources[n]))
    && forall source, name, target :: Among(source, a, b, c) && Follows(r, aggregates, t, source, name, target) ==> source in sources
  }

  /** One more source, from which at most one edge comes. */
  lemma MoreSources(r: Registry, aggregates: seq<(TypeId, TypeId)>, t: TypeId, edges: seq<Edge>, sources: seq<Source>, a: nat, b: nat, c: nat,
                    source: Source, e: seq<Edge>, a': nat, b': nat, c': nat) returns (more: seq<Source>)
    requires t < |r.types| && FromSources(r, aggregates, t, edges, sources, a, b, c)
    requires forall x :: Among(x, a', b', c') <==> Among(x, a, b, c) || x == source
    requires forall x :: Among(x, a, b, c) ==> Earlier(x, source)
    requires if e == [] then forall name, target :: !Follows(r, aggregates, t, source, name, target)
             else |e| == 1 && Follows(r, aggregates, t, source, e[0].name, e[0].target)
    ensures FromSources(r, aggregates, t, edges + e, more, a', b', c')
  {
    more := sources + if e == [] then [] else [source];
    assert forall x :: x in sources ==> x in more;
  }

  lemma {:induction false} AttributeSources(r: Registry, aggregates: seq<(TypeId, TypeId)>, t: TypeId, n: nat) returns (sources: seq<Source>)
    requires t < |r.types| && n <= |r.types[t].attributes|
    ensures FromSources(r, aggregates, t, AttributeEdges(r, t, n), sources, n, 0, 0)
  {
    if n == 0 {
      sources := [];
    } else {
      sources := AttributeSources(r, aggregates, t, n - 1);
      var e := AttributeEdge(r, r.types[t].attributes[n - 1]);
      sources := MoreSources(r, aggregates, t, AttributeEdges(r, t, n - 1), sources, n - 1, 0, 0, ByAttribute(n - 1), e, n, 0, 0);
    }
  }

  lemma {:induction false} ChildSources(r: Registry, aggregates: seq<(TypeId, TypeId)>, t: TypeId, n: nat) returns (sources: seq<Source>)
    requires t < |r.types| && n <= |r.types|
    ensures var a := |r.types[t].attributes|; FromSources(r, aggregates, t, AttributeEdges(r, t, a) + ChildEdges(r, t, n), sources, a, n, 0)
  {
    var a := |r.types[t].attributes|;
    var edges := AttributeEdges(r, t, a);
    if n == 0 {
      sources := AttributeSources(r, aggregates, t, a);
      assert edges + ChildEdges(r, t, 0) == edges;
    } else {
      sources := ChildSources(r, aggregates, t, n - 1);
      var front := ChildEdges(r, t, n - 1);
      var e := if t in r.types[n - 1].ancestors then [Edge("$" + r.types[n - 1].name, n - 1)] else [];
      sources := MoreSources(r, aggregates, t, edges + front, sources, a, n - 1, 0, ByChild(n - 1), e, a, n, 0);
      assert edges + (front + e) == edges + front + e;
    }
  }

  lemma {:induction false} AggregateSources(r: Registry, aggregates: seq<(TypeId, TypeId)>, t: TypeId, n: nat) returns (sources: seq<Source>)
    requires t < |r.types| && n <= |aggregates| && ValidAggregates(r, aggregates)
    ensures var a, b := |r.types[t].attributes|, |r.types|;
            FromSources(r, aggregates, t, AttributeEdges(r, t, a) + ChildEdges(r, t, b) + AggregateEdges(r, aggregates, t, n), sources, a, b, n)
  {
    var a, b := |r.types[t].attributes|, |r.types|;
    var edges := AttributeEdges(r, t, a) + ChildEdges(r, t, b);
    if n == 0 {
      sources := ChildSources(r, aggregates, t, b);
      assert edges + AggregateEdges(r, aggregates, t, 0) == edges;
    } else {
      sources := AggregateSources(r, aggregates, t, n - 1);
      var pair, front := aggregates[n - 1], AggregateEdges(r, aggregates, t, n - 1);
      var e := if pair.0 == t || pair.1 == t then [Edge("$" + r.types[Other(t, pair)].name, Other(t, pair))] else [];
      sources := MoreSources(r, aggregates, t, edges + front, sources, a, b, n - 1, ByAggregate(n - 1), e, a, b, n);
      assert edges + (front + e) == edges + front + e;
    }
  }

  /** From every type the search follows exactly what the registry and the aggregations name, in their order. */
  lemma EdgesAre(r: Registry, aggregates: seq<(TypeId, TypeId)>, t: TypeId) returns (sources: seq<Source>)
    requires t < |r.types| && ValidAggregates(r, aggregates)
    ensures FromSources(r, aggregates, t, EdgesOf(r, aggregates, t), sources, |r.types[t].attributes|, |r.types|, |aggregates|)
  {
    sources := AggregateSources(r, aggregates, t, |aggregates|);
  }

  // ----- what the search records

  /** The first n items of a path, each behind a slash. */
  function PathString(path: seq<string>, n: nat): string
    requires n <= |path|
  {
    if n == 0 then "" else PathString(path, n - 1) + "/" + path[n - 1]
  }

  function Entry(t: TypeId, path: seq<string>): Record {
    (t, PathString(path, |path|))
  }

  ghost function Types(g: Graph): set<TypeId> {
    Interval(0, |g|)
  }

  /** The records of the search at t, reached along path, with the types in stack under way. */
  ghost function Gathered(g: Graph, t: TypeId, path: seq<string>, stack: seq<TypeId>): seq<Record>
    requires Closed(g) && t < |g|
    decreases Types(g) - Elements(stack), 1, 0
  {
    if t in stack then [] else [Entry(t, path)] + GatheredOver(g, t, path, stack, g[t], |g[t]|)
  }

  /** The records from following the first n of some edges of t. */
  ghost function GatheredOver(g: Graph, t: TypeId, path: seq<string>, stack: seq<TypeId>, edges: seq<Edge>, n: nat): seq<Record>
    requires Closed(g) && t < |g| && t !in stack && InRange(edges, |g|) && n <= |edges|
    decreases Types(g) - Elements(stack), 0, n
  {
    if n == 0 then []
    else
      IntervalSize(0, |g|);
      assert Elements(stack + [t]) == Elements(stack) + {t};
      GatheredOver(g, t, path, stack, edges, n - 1)
      + Gathered(g, edges[n - 1].target, path + [edges[n - 1].name], stack + [t])
  }

  lemma {:induction false} GatheredOverPrefix(g: Graph, t: TypeId, path: seq<string>, stack: seq<TypeId>, edges: seq<Edge>, edge: Edge, n: nat)
    requires Closed(g) && t < |g| && t !in stack && InRange(edges, |g|) && n <= |edges| && edge.target < |g|
    ensures InRange(edges + [edge], |g|)
    ensures GatheredOver(g, t, path, stack, edges + [edge], n) == GatheredOver(g, t, path, stack, edges, n)
  {
    if n > 0 {
      GatheredOverPrefix(g, t, path, stack, edges, edge, n - 1);
    }
  }

  // ----- walks

  /** A walk from root is given by the number of the edge taken at each step. */
  type Walk = seq<nat>

  predicate IsWalk(g: Graph, root: TypeId, walk: Walk)
    requires Closed(g) && root < |g|
    decreases |walk|, 0
  {
    walk == [] || (IsWalk(g, root, walk[..|walk| - 1]) && Last(walk) < |g[End(g, root, walk[..|walk| - 1])]|)
  }

  function End(g: Graph, root: TypeId, walk: Walk): (t: TypeId)
    requires Closed(g) && root < |g| && IsWalk(g, root, walk)
    ensures t < |g|
    decreases |walk|, 1
  {
    if walk == [] then root else g[End(g, root, walk[..|walk| - 1])][Last(walk)].target
  }

  /** The types a walk goes through, both ends included. */
  function Nodes(g: Graph, root: TypeId, walk: Walk): (s: seq<TypeId>)
    requires Closed(g) && root < |g| && IsWalk(g, root, walk)
    ensures |s| == |walk| + 1 && Last(s) == End(g, root, walk)
  {
    if walk == [] then [root] else Nodes(g, root, walk[..|walk| - 1]) + [End(g, root, walk)]
  }

  function Labels(g: Graph, root: TypeId, walk: Walk): seq<string>
    requires Closed(g) && root < |g| && IsWalk(g, root, walk)
  {
    if walk == [] then []
    else
      var front := walk[..|walk| - 1];
      Labels(g, root, front) + [g[End(g, root, front)][Last(walk)].name]
  }

  /** A walk that visits no type twice. */
  ghost predicate SimpleWalk(g: Graph, root: TypeId, walk: Walk)
    requires Closed(g) && root < |g|
  {
    IsWalk(g, root, walk) && Distinct(Nodes(g, root, walk))
  }

  function RecordOf(g: Graph, root: TypeId, walk: Walk): Record
    requires Closed(g) && root < |g| && IsWalk(g, root, walk)
  {
    Entry(End(g, root, walk), Labels(g, root, walk))
  }

  lemma {:induction false} NodesInRange(g: Graph, root: TypeId, walk: Walk)
    requires Closed(g) && root < |g| && IsWalk(g, root, walk)
    ensures Elements(Nodes(g, root, walk)) <= Types(g)
  {
    IntervalSize(0, |g|);
    if walk != [] {
      NodesInRange(g, root, walk[..|walk| - 1]);
    }
  }

  // ----- the walks the search makes, in its order

  /** A simple walk is shorter than the number of types. */
  lemma SimpleWalkShort(g: Graph, root: TypeId, walk: Walk)
    requires Closed(g) && root < |g| && SimpleWalk(g, root, walk)
    ensures |walk| < |g|
  {
    NodesInRange(g, root, walk);
    DistinctSize(Nodes(g, root, walk));
    SubsetSize(Elements(Nodes(g, root, walk)), Types(g));
    IntervalSize(0, |g|);
  }

  /** All simple walks that start with this one. */
  ghost function Walks(g: Graph, root: TypeId, walk: Walk): seq<Walk>
    requires Closed(g) && root < |g| && IsWalk(g, root, walk)
    requires |walk| <= |g|
    decreases |g| - |walk|, 1, 0
  {
    if !SimpleWalk(g, root, walk) then []
    else
      SimpleWalkShort(g, root, walk);
      [walk] + WalksOver(g, root, walk, |g[End(g, root, walk)]|)
  }

  ghost function WalksOver(g: Graph, root: TypeId, walk: Walk, n: nat): seq<Walk>
    requires Closed(g) && root < |g| && IsWalk(g, root, walk)
    requires |walk| < |g| && n <= |g[End(g, root, walk)]|
    decreases |g| - |walk|, 0, n
  {
    if n == 0 then []
    else
      assert (walk + [n - 1])[..|walk|] == walk;
      WalksOver(g, root, walk, n - 1) + Walks(g, root, walk + [n - 1])
  }

  lemma Extend(g: Graph, root: TypeId, walk: Walk, n: nat)
    requires Closed(g) && root < |g| && IsWalk(g, root, walk) && n < |g[End(g, root, walk)]|
    ensures IsWalk(g, root, walk + [n])
    ensures End(g, root, walk + [n]) == g[End(g, root, walk)][n].target
    ensures Nodes(g, root, walk + [n]) == Nodes(g, root, walk) + [End(g, root, walk + [n])]
    ensures Labels(g, root, walk + [n]) == Labels(g, root, walk) + [g[End(g, root, walk)][n].name]
  {
    assert (walk + [n])[..|walk|] == walk;
  }

  lemma {:induction false} PrefixWalk(g: Graph, root: TypeId, walk: Walk, n: nat)
    requires Closed(g) && root < |g| && IsWalk(g, root, walk) && n <= |walk|
    ensures IsWalk(g, root, walk[..n])
    ensures Nodes(g, root, walk[..n]) == Nodes(g, root, walk)[..n + 1]
    decreases |walk|
  {
    if n == |walk| {
      assert walk[..n] == walk;
    } else {
      PrefixWalk(g, root, walk[..|walk| - 1], n);
      assert walk[..|walk| - 1][..n] == walk[..n];
    }
  }

  /** Every walk made is simple and starts with the given one; and every such walk is made. */
  lemma {:induction false} WalksAre(g: Graph, root: TypeId, walk: Walk, v: Walk)
    requires Closed(g) && root < |g| && IsWalk(g, root, walk)
    requires |walk| <= |g|
    ensures v in Walks(g, root, walk) <==> walk <= v && SimpleWalk(g, root, v)
    decreases |g| - |walk|, 1, 0
  {
    if SimpleWalk(g, root, walk) {
      SimpleWalkShort(g, root, walk);
      WalksOverAre(g, root, walk, |g[End(g, root, walk)]|, v);
      if walk < v && SimpleWalk(g, root, v) {
        NextStep(g, root, walk, v);
      }
      var rest := WalksOver(g, root, walk, |g[End(g, root, walk)]|);
      assert v in [walk] + rest <==> v == walk || v in rest;
      assert walk <= v <==> v == walk || walk < v;
    } else if walk <= v && SimpleWalk(g, root, v) {
      PrefixSimple(g, root, walk, v);
    }
  }

  lemma PrefixSimple(g: Graph, root: TypeId, walk: Walk, v: Walk)
    requires Closed(g) && root < |g| && walk <= v && SimpleWalk(g, root, v)
    ensures SimpleWalk(g, root, walk)
  {
    PrefixWalk(g, root, v, |walk|);
    assert v[..|walk|] == walk;
  }

  lemma NextStep(g: Graph, root: TypeId, walk: Walk, v: Walk)
    requires Closed(g) && root < |g| && walk < v && IsWalk(g, root, v) && IsWalk(g, root, walk)
    ensures v[|walk|] < |g[End(g, root, walk)]|
  {
    PrefixWalk(g, root, v, |walk| + 1);
    assert v[..|walk| + 1][..|walk|] == walk;
  }

  lemma OneStepOn(walk: Walk, n: nat, v: Walk)
    ensures walk + [n] <= v <==> walk < v && v[|walk|] == n
  {
  }

  lemma {:induction false} WalksOverAre(g: Graph, root: TypeId, walk: Walk, n: nat, v: Walk)
    requires Closed(g) && root < |g| && IsWalk(g, root, walk)
    requires |walk| < |g| && n <= |g[End(g, root, walk)]|
    ensures v in WalksOver(g, root, walk, n) <==> walk < v && v[|walk|] < n && SimpleWalk(g, root, v)
    decreases |g| - |walk|, 0, n
  {
    if n > 0 {
      var walk' := walk + [n - 1];
      WalksOverAre(g, root, walk, n - 1, v);
      Extend(g, root, walk, n - 1);
      WalksAre(g, root, walk', v);
      OneStepOn(walk, n - 1, v);
      InConcat(WalksOver(g, root, walk, n - 1), Walks(g, root, walk'), v);
    }
  }

  lemma InConcat(a: seq<Walk>, b: seq<Walk>, v: Walk)
    ensures v in a + b <==> v in a || v in b
  {
  }

  lemma {:induction false} WalksDistinct(g: Graph, root: TypeId, walk: Walk)
    requires Closed(g) && root < |g| && IsWalk(g, root, walk)
    requires |walk| <= |g|
    ensures Distinct(Walks(g, root, walk))
    decreases |g| - |walk|, 1, 0
  {
    if SimpleWalk(g, root, walk) {
      SimpleWalkShort(g, root, walk);
      var n := |g[End(g, root, walk)]|;
      WalksOverDistinct(g, root, walk, n);
      forall v | v in WalksOver(g, root, walk, n) ensures v !in [walk] {
        WalksOverAre(g, root, walk, n, v);
      }
      DistinctConcat([walk], WalksOver(g, root, walk, n));
    }
  }

  lemma {:induction false} WalksOverDistinct(g: Graph, root: TypeId, walk: Walk, n: nat)
    requires Closed(g) && root < |g| && IsWalk(g, root, walk)
    requires |walk| < |g| && n <= |g[End(g, root, walk)]|
    ensures Distinct(WalksOver(g, root, walk, n))
    decreases |g| - |walk|, 0, n
  {
    if n > 0 {
      var walk' := walk + [n - 1];
      WalksOverDistinct(g, root, walk, n - 1);
      Extend(g, root, walk, n - 1);
      WalksDistinct(g, root, walk');
      NoneMadeBefore(g, root, walk, n - 1);
      DistinctConcat(WalksOver(g, root, walk, n - 1), Walks(g, root, walk'));
    }
  }

  lemma NoneMadeBefore(g: Graph, root: TypeId, walk: Walk, n: nat)
    requires Closed(g) && root < |g| && IsWalk(g, root, walk)
    requires |walk| < |g| && n < |g[End(g, root, walk)]| && IsWalk(g, root, walk + [n])
    ensures forall v :: v in Walks(g, root, walk + [n]) ==> v !in WalksOver(g, root, walk, n)
  {
    forall v | v in Walks(g, root, walk + [n]) ensures v !in WalksOver(g, root, walk, n) {
      NotMadeBefore(g, root, walk, n, v);
    }
  }

  /** A walk made over one edge has not been made over an earlier one. */
  lemma NotMadeBefore(g: Graph, root: TypeId, walk: Walk, n: nat, v: Walk)
    requires Closed(g) && root < |g| && IsWalk(g, root, walk)
    requires |walk| < |g| && n < |g[End(g, root, walk)]| && IsWalk(g, root, walk + [n])
    ensures v in Walks(g, root, walk + [n]) ==> v !in WalksOver(g, root, walk, n)
  {
    WalksAre(g, root, walk + [n], v);
    WalksOverAre(g, root, walk, n, v);
    OneStepOn(walk, n, v);
  }

  /** u is made before v: v goes on from u, or takes a later edge where they part. */
  predicate Before(u: Walk, v: Walk) {
    u < v || exists k :: 0 <= k < |u| && k < |v| && u[..k] == v[..k] && u[k] < v[k]
  }

  ghost predicate InOrder(walks: seq<Walk>) {
    forall i, j :: 0 <= i < j < |walks| ==> Before(walks[i], walks[j])
  }

  lemma OrderConcat(a: seq<Walk>, b: seq<Walk>)
    requires InOrder(a) && InOrder(b) && forall u, v :: u in a && v in b ==> Before(u, v)
    ensures InOrder(a + b)
  {
    var c := a + b;
    forall i, j | 0 <= i < j < |c| ensures Before(c[i], c[j]) {
      if i < |a| <= j {
        assert c[i] in a && c[j] in b;
      }
    }
  }

  /** The search goes as deep as it can, and takes the edges in order. */
  lemma {:induction false} WalksInOrder(g: Graph, root: TypeId, walk: Walk)
    requires Closed(g) && root < |g| && IsWalk(g, root, walk) && |walk| <= |g|
    ensures InOrder(Walks(g, root, walk))
    decreases |g| - |walk|, 1, 0
  {
    if SimpleWalk(g, root, walk) {
      SimpleWalkShort(g, root, walk);
      var n := |g[End(g, root, walk)]|;
      WalksOverInOrder(g, root, walk, n);
      forall v | v in WalksOver(g, root, walk, n) ensures Before(walk, v) {
        WalksOverAre(g, root, walk, n, v);
      }
      OrderConcat([walk], WalksOver(g, root, walk, n));
    }
  }

  lemma {:induction false} WalksOverInOrder(g: Graph, root: TypeId, walk: Walk, n: nat)
    requires Closed(g) && root < |g| && IsWalk(g, root, walk)
    requires |walk| < |g| && n <= |g[End(g, root, walk)]|
    ensures InOrder(WalksOver(g, root, walk, n))
    decreases |g| - |walk|, 0, n
  {
    if n > 0 {
      var walk' := walk + [n - 1];
      WalksOverInOrder(g, root, walk, n - 1);
      Extend(g, root, walk, n - 1);
      WalksInOrder(g, root, walk');
      AllMadeBefore(g, root, walk, n - 1);
      OrderConcat(WalksOver(g, root, walk, n - 1), Walks(g, root, walk'));
    }
  }

  lemma AllMadeBefore(g: Graph, root: TypeId, walk: Walk, n: nat)
    requires Closed(g) && root < |g| && IsWalk(g, root, walk)
    requires |walk| < |g| && n < |g[End(g, root, walk)]| && IsWalk(g, root, walk + [n])
    ensures forall u, v :: u in WalksOver(g, root, walk, n) && v in Walks(g, root, walk + [n]) ==> Before(u, v)
  {
    forall u, v | u in WalksOver(g, root, walk, n) && v in Walks(g, root, walk + [n]) ensures Before(u, v) {
      MadeBefore(g, root, walk, n, u, v);
    }
  }

  lemma MadeBefore(g: Graph, root: TypeId, walk: Walk, n: nat, u: Walk, v: Walk)
    requires Closed(g) && root < |g| && IsWalk(g, root, walk)
    requires |walk| < |g| && n < |g[End(g, root, walk)]| && IsWalk(g, root, walk + [n])
    requires u in WalksOver(g, root, walk, n) && v in Walks(g, root, walk + [n])
    ensures Before(u, v)
  {
    WalksOverAre(g, root, walk, n, u);
    WalksAre(g, root, walk + [n], v);
    OneStepOn(walk, n, v);
    assert u[..|walk|] == walk == v[..|walk|];
  }

  // ----- the records are those of the walks

  /** out lists the records of these walks, in order. */
  ghost predicate RecordsOf(g: Graph, root: TypeId, out: seq<Record>, walks: seq<Walk>)
    requires Closed(g) && root < |g|
  {
    |out| == |walks| && forall k :: 0 <= k < |out| ==> IsWalk(g, root, walks[k]) && out[k] == RecordOf(g, root, walks[k])
  }

  lemma RecordsConcat(g: Graph, root: TypeId, a: seq<Record>, v: seq<Walk>, b: seq<Record>, w: seq<Walk>)
    requires Closed(g) && root < |g|
    requires RecordsOf(g, root, a, v) && RecordsOf(g, root, b, w)
    ensures RecordsOf(g, root, a + b, v + w)
  {
  }

  lemma {:induction false} GatheredRecords(g: Graph, root: TypeId, walk: Walk, stack: seq<TypeId>)
    requires Closed(g) && root < |g| && IsWalk(g, root, walk) && |walk| <= |g|
    requires stack + [End(g, root, walk)] == Nodes(g, root, walk) && Distinct(stack)
    ensures RecordsOf(g, root, Gathered(g, End(g, root, walk), Labels(g, root, walk), stack), Walks(g, root, walk))
    decreases |g| - |walk|, 1, 0
  {
    var t, path := End(g, root, walk), Labels(g, root, walk);
    if t in stack {
      var i :| 0 <= i < |stack| && stack[i] == t;
      assert Nodes(g, root, walk)[i] == Nodes(g, root, walk)[|stack|];
    } else {
      DistinctConcat(stack, [t]);
      SimpleWalkShort(g, root, walk);
      GatheredOverRecords(g, root, walk, stack, |g[t]|);
      RecordsConcat(g, root, [Entry(t, path)], [walk], GatheredOver(g, t, path, stack, g[t], |g[t]|), WalksOver(g, root, walk, |g[t]|));
    }
  }

  lemma {:induction false} GatheredOverRecords(g: Graph, root: TypeId, walk: Walk, stack: seq<TypeId>, n: nat)
    requires Closed(g) && root < |g| && IsWalk(g, root, walk) && |walk| < |g|
    requires stack + [End(g, root, walk)] == Nodes(g, root, walk) && Distinct(stack) && End(g, root, walk) !in stack
    requires n <= |g[End(g, root, walk)]|
    ensures RecordsOf(g, root, GatheredOver(g, End(g, root, walk), Labels(g, root, walk), stack, g[End(g, root, walk)], n), WalksOver(g, root, walk, n))
    decreases |g| - |walk|, 0, n
  {
    if n > 0 {
      GatheredOverRecords(g, root, walk, stack, n - 1);
      var walk', stack' := walk + [n - 1], stack + [End(g, root, walk)];
      StackExtend(g, root, walk, stack, n - 1);
      GatheredRecords(g, root, walk', stack');
      OverRecords(g, root, walk, stack, n);
    }
  }

  lemma StackExtend(g: Graph, root: TypeId, walk: Walk, stack: seq<TypeId>, n: nat)
    requires Closed(g) && root < |g| && IsWalk(g, root, walk) && n < |g[End(g, root, walk)]|
    requires stack + [End(g, root, walk)] == Nodes(g, root, walk) && Distinct(stack) && End(g, root, walk) !in stack
    ensures IsWalk(g, root, walk + [n]) && Distinct(stack + [End(g, root, walk)])
    ensures stack + [End(g, root, walk)] + [End(g, root, walk + [n])] == Nodes(g, root, walk + [n])
  {
    Extend(g, root, walk, n);
    DistinctConcat(stack, [End(g, root, walk)]);
  }

  /** The records of one more edge. */
  lemma OverRecords(g: Graph, root: TypeId, walk: Walk, stack: seq<TypeId>, n: nat)
    requires Closed(g) && root < |g| && IsWalk(g, root, walk) && |walk| < |g| && 0 < n <= |g[End(g, root, walk)]|
    requires End(g, root, walk) !in stack && IsWalk(g, root, walk + [n - 1])
    requires var t, walk' := End(g, root, walk), walk + [n - 1];
             && RecordsOf(g, root, GatheredOver(g, t, Labels(g, root, walk), stack, g[t], n - 1), WalksOver(g, root, walk, n - 1))
             && RecordsOf(g, root, Gathered(g, End(g, root, walk'), Labels(g, root, walk'), stack + [t]), Walks(g, root, walk'))
    ensures RecordsOf(g, root, GatheredOver(g, End(g, root, walk), Labels(g, root, walk), stack, g[End(g, root, walk)], n), WalksOver(g, root, walk, n))
  {
    var t, path := End(g, root, walk), Labels(g, root, walk);
    var e, walk' := g[t][n - 1], walk + [n - 1];
    Extend(g, root, walk, n - 1);
    var a, b := GatheredOver(g, t, path, stack, g[t], n - 1), Gathered(g, e.target, path + [e.name], stack + [t]);
    var u, w := WalksOver(g, root, walk, n - 1), Walks(g, root, walk');
    RecordsConcat(g, root, a, u, b, w);
    assert GatheredOver(g, t, path, stack, g[t], n) == a + b && WalksOver(g, root, walk, n) == u + w;
  }

  /** The search from an empty stack makes exactly one record for each simple walk from the root. */
  lemma OneRecordPerSimpleWalk(g: Graph, root: TypeId) returns (walks: seq<Walk>)
    requires Closed(g) && root < |g|
    ensures Distinct(walks) && InOrder(walks)
    ensures forall v :: v in walks <==> SimpleWalk(g, root, v)
    ensures RecordsOf(g, root, Gathered(g, root, [], []), walks)
  {
    walks := Walks(g, root, []);
    WalksDistinct(g, root, []);
    WalksInOrder(g, root, []);
    forall v ensures v in walks <==> SimpleWalk(g, root, v) {
      WalksAre(g, root, [], v);
    }
    assert [] + [root] == Nodes(g, root, []);
    GatheredRecords(g, root, [], []);
  }

  lemma {:induction false} SimpleWalkTo(g: Graph, root: TypeId, v: Walk) returns (u: Walk)
    requires Closed(g) && root < |g| && IsWalk(g, root, v)
    ensures SimpleWalk(g, root, u) && End(g, root, u) == End(g, root, v)
    decreases |v|
  {
    if v == [] {
      u := [];
    } else {
      u := SimpleWalkTo(g, root, v[..|v| - 1]);
      var t := End(g, root, v);
      var nodes := Nodes(g, root, u);
      if t in nodes {
        var i :| 0 <= i < |nodes| && nodes[i] == t;
        PrefixWalk(g, root, u, i);
        u := u[..i];
      } else {
        Extend(g, root, u, Last(v));
        DistinctConcat(nodes, [t]);
        u := u + [Last(v)];
      }
    }
  }

  /** So every type that can be reached from the root gets a path. */
  lemma ReachableIsRecorded(g: Graph, root: TypeId, v: Walk)
    requires Closed(g) && root < |g| && IsWalk(g, root, v)
    ensures exists path :: (End(g, root, v), path) in Gathered(g, root, [], [])
  {
    var u := SimpleWalkTo(g, root, v);
    var walks := OneRecordPerSimpleWalk(g, root);
    var k :| 0 <= k < |walks| && walks[k] == u;
    assert RecordOf(g, root, walks[k]) == Gathered(g, root, [], [])[k];
  }

  // ----- the records, told from the registry

  /** The record of this trail, the list of types passed through, is among those made. */
  ghost predicate RecordedAs(out: seq<Record>, trails: seq<seq<TypeId>>, trail: seq<TypeId>, record: Record)
    requires |out| == |trails|
  {
    exists k :: 0 <= k < |out| && trails[k] == trail && out[k] == record
  }

  /** Record m is that of record k with one source of its type followed. */
  ghost predicate Arises(r: Registry, aggregates: seq<(TypeId, TypeId)>, out: seq<Record>, trails: seq<seq<TypeId>>, k: nat, m: nat, source: Source, name: string)
    requires k < |out| == |trails| && m < |out| && out[k].0 < |r.types|
  {
    && Follows(r, aggregates, out[k].0, source, name, out[m].0) && out[m].0 !in trails[k]
    && trails[m] == trails[k] + [out[m].0] && out[m].1 == out[k].1 + "/" + name
  }

  ghost predicate ArisesFromSome(r: Registry, aggregates: seq<(TypeId, TypeId)>, out: seq<Record>, trails: seq<seq<TypeId>>, m: nat)
    requires m < |out| == |trails| && forall k :: 0 <= k < |out| ==> out[k].0 < |r.types|
  {
    exists k, source, name :: 0 <= k < |out| && Arises(r, aggregates, out, trails, k, m, source, name)
  }

  /**
   * What is recorded: the root with an empty path; with a record, one for whatever the registry or an aggregation names at
   * its type, unless that has been passed on the way, behind a slash; and nothing else.
   */
  ghost predicate Traced(r: Registry, aggregates: seq<(TypeId, TypeId)>, root: TypeId, out: seq<Record>, trails: seq<seq<TypeId>>) {
    && |trails| == |out|
    && (forall k :: 0 <= k < |out| ==> out[k].0 < |r.types| && trails[k] != [] && Last(trails[k]) == out[k].0 && Distinct(trails[k]))
    && RecordedAs(out, trails, [root], (root, ""))
    && (forall k, source, name, target ::
          0 <= k < |out| && Follows(r, aggregates, out[k].0, source, name, target) && target !in trails[k] ==>
            RecordedAs(out, trails, trails[k] + [target], (target, out[k].1 + "/" + name)))
    && forall m :: 0 <= m < |out| ==> (trails[m] == [root] && out[m] == (root, "")) || ArisesFromSome(r, aggregates, out, trails, m)
  }

  /** Following edge n after a walk. */
  lemma RecordExtend(g: Graph, root: TypeId, walk: Walk, n: nat)
    requires Closed(g) && root < |g| && IsWalk(g, root, walk) && n < |g[End(g, root, walk)]|
    ensures IsWalk(g, root, walk + [n])
    ensures var e := g[End(g, root, walk)][n];
            && RecordOf(g, root, walk + [n]) == (e.target, RecordOf(g, root, walk).1 + "/" + e.name)
            && Nodes(g, root, walk + [n]) == Nodes(g, root, walk) + [e.target]
            && (SimpleWalk(g, root, walk) && e.target !in Nodes(g, root, walk) ==> SimpleWalk(g, root, walk + [n]))
  {
    Extend(g, root, walk, n);
    var names, e := Labels(g, root, walk), g[End(g, root, walk)][n];
    PathStringPrefix(names, e.name, |names|);
    if SimpleWalk(g, root, walk) && e.target !in Nodes(g, root, walk) {
      DistinctConcat(Nodes(g, root, walk), [e.target]);
    }
  }

  /** The path of these items: at each of them, what is before it, a slash, the item, and what is behind it. */
  lemma {:induction false} PathStringAt(path: seq<string>, n: nat)
    requires n < |path|
    ensures PathString(path, |path|) == PathString(path[..n], n) + "/" + path[n] + PathString(path[n + 1..], |path| - n - 1)
    decreases |path|
  {
    var k := |path| - 1;
    var front := path[..k];
    assert path == front + [path[k]];
    PathStringPrefix(front, path[k], k);
    if n == k {
      assert PathString(path[n + 1..], 0) == "";
      assert path[..n] == front;
    } else {
      PathStringAt(front, n);
      assert front[..n] == path[..n] && front[n] == path[n];
      assert path[n + 1..] == front[n + 1..] + [path[k]];
      PathStringPrefix(front[n + 1..], path[k], k - n - 1);
    }
  }

  lemma {:induction false} PathStringPrefix(path: seq<string>, name: string, n: nat)
    requires n <= |path|
    ensures PathString(path + [name], n) == PathString(path, n)
  {
    if n > 0 {
      PathStringPrefix(path, name, n - 1);
    }
  }

  /** The edge that a source gives. */
  lemma EdgeOf(r: Registry, aggregates: seq<(TypeId, TypeId)>, t: TypeId, source: Source, name: string, target: TypeId) returns (n: nat)
    requires t < |r.types| && ValidAggregates(r, aggregates) && Follows(r, aggregates, t, source, name, target)
    ensures n < |EdgesOf(r, aggregates, t)| && EdgesOf(r, aggregates, t)[n] == Edge(name, target)
  {
    var sources := EdgesAre(r, aggregates, t);
    n :| n < |sources| && sources[n] == source;
  }

  /** These records are those of exactly the simple walks. */
  ghost predicate RecordsAllSimple(g: Graph, root: TypeId, out: seq<Record>, walks: seq<Walk>)
    requires Closed(g) && root < |g|
  {
    RecordsOf(g, root, out, walks) && forall v :: v in walks <==> SimpleWalk(g, root, v)
  }

  ghost function Trails(g: Graph, root: TypeId, walks: seq<Walk>): (trails: seq<seq<TypeId>>)
    requires Closed(g) && root < |g| && forall k :: 0 <= k < |walks| ==> IsWalk(g, root, walks[k])
    ensures |trails| == |walks| && forall k :: 0 <= k < |walks| ==> trails[k] == Nodes(g, root, walks[k])
  {
    seq(|walks|, k requires 0 <= k < |walks| => Nodes(g, root, walks[k]))
  }

  lemma WalkRecorded(g: Graph, root: TypeId, out: seq<Record>, walks: seq<Walk>, v: Walk)
    requires Closed(g) && root < |g| && RecordsAllSimple(g, root, out, walks) && SimpleWalk(g, root, v)
    ensures RecordedAs(out, Trails(g, root, walks), Nodes(g, root, v), RecordOf(g, root, v))
  {
    var k :| 0 <= k < |walks| && walks[k] == v;
  }

  lemma FollowedRecorded(r: Registry, aggregates: seq<(TypeId, TypeId)>, root: TypeId, out: seq<Record>, walks: seq<Walk>,
                         k: nat, source: Source, name: string, target: TypeId)
    requires ValidRegistry(r) && ValidAggregates(r, aggregates) && root < |r.types|
    requires RecordsAllSimple(GraphOf(r, aggregates), root, out, walks) && k < |out|
    requires out[k].0 < |r.types| && Follows(r, aggregates, out[k].0, source, name, target)
    requires target !in Trails(GraphOf(r, aggregates), root, walks)[k]
    ensures var trails := Trails(GraphOf(r, aggregates), root, walks);
            RecordedAs(out, trails, trails[k] + [target], (target, out[k].1 + "/" + name))
  {
    var g, v := GraphOf(r, aggregates), walks[k];
    var n := EdgeOf(r, aggregates, out[k].0, source, name, target);
    assert v in walks;
    RecordExtend(g, root, v, n);
    WalkRecorded(g, root, out, walks, v + [n]);
  }

  lemma NextIsNew(g: Graph, root: TypeId, walk: Walk, n: nat)
    requires Closed(g) && root < |g| && IsWalk(g, root, walk) && n < |g[End(g, root, walk)]|
    requires SimpleWalk(g, root, walk + [n])
    ensures g[End(g, root, walk)][n].target !in Nodes(g, root, walk)
  {
    Extend(g, root, walk, n);
    var before, nodes := Nodes(g, root, walk), Nodes(g, root, walk + [n]);
    forall i | 0 <= i < |before| ensures before[i] != nodes[|before|] {
      assert nodes[i] == before[i];
    }
  }

  /** The source behind edge n gives the record of a walk that goes on over it. */
  lemma ArisesOver(r: Registry, aggregates: seq<(TypeId, TypeId)>, root: TypeId, out: seq<Record>, walks: seq<Walk>, k: nat, m: nat, n: nat)
    requires ValidRegistry(r) && ValidAggregates(r, aggregates) && root < |r.types|
    requires RecordsOf(GraphOf(r, aggregates), root, out, walks) && k < |out| && m < |out|
    requires forall k :: 0 <= k < |out| ==> out[k].0 < |r.types|
    requires n < |GraphOf(r, aggregates)[out[k].0]| && walks[m] == walks[k] + [n] && SimpleWalk(GraphOf(r, aggregates), root, walks[m])
    ensures ArisesFromSome(r, aggregates, out, Trails(GraphOf(r, aggregates), root, walks), m)
  {
    var g, u := GraphOf(r, aggregates), walks[k];
    RecordExtend(g, root, u, n);
    NextIsNew(g, root, u, n);
    var sources := EdgesAre(r, aggregates, out[k].0);
    assert Arises(r, aggregates, out, Trails(g, root, walks), k, m, sources[n], g[out[k].0][n].name);
  }

  lemma RecordArises(r: Registry, aggregates: seq<(TypeId, TypeId)>, root: TypeId, out: seq<Record>, walks: seq<Walk>, m: nat)
    requires ValidRegistry(r) && ValidAggregates(r, aggregates) && root < |r.types|
    requires RecordsAllSimple(GraphOf(r, aggregates), root, out, walks) && m < |out| && walks[m] != []
    requires forall k :: 0 <= k < |out| ==> out[k].0 < |r.types|
    ensures ArisesFromSome(r, aggregates, out, Trails(GraphOf(r, aggregates), root, walks), m)
  {
    var g, v := GraphOf(r, aggregates), walks[m];
    var u, n := v[..|v| - 1], v[|v| - 1];
    assert v in walks;
    PrefixSimple(g, root, u, v);
    var k :| 0 <= k < |walks| && walks[k] == u;
    assert v == u + [n];
    assert n < |g[End(g, root, u)]|;
    ArisesOver(r, aggregates, root, out, walks, k, m, n);
  }

  lemma RecordsTraced(r: Registry, aggregates: seq<(TypeId, TypeId)>, root: TypeId, out: seq<Record>, walks: seq<Walk>)
    requires ValidRegistry(r) && ValidAggregates(r, aggregates) && root < |r.types|
    requires RecordsAllSimple(GraphOf(r, aggregates), root, out, walks)
    ensures Traced(r, aggregates, root, out, Trails(GraphOf(r, aggregates), root, walks))
  {
    var g := GraphOf(r, aggregates);
    var trails := Trails(g, root, walks);
    forall k | 0 <= k < |out| ensures out[k].0 < |r.types| && trails[k] != [] && Last(trails[k]) == out[k].0 && Distinct(trails[k]) {
      assert walks[k] in walks;
    }
    WalkRecorded(g, root, out, walks, []);
    forall k, source, name, target | 0 <= k < |out| && Follows(r, aggregates, out[k].0, source, name, target) && target !in trails[k]
      ensures RecordedAs(out, trails, trails[k] + [target], (target, out[k].1 + "/" + name))
    {
      FollowedRecorded(r, aggregates, root, out, walks, k, source, name, target);
    }
    forall m | 0 <= m < |out| ensures (trails[m] == [root] && out[m] == (root, "")) || ArisesFromSome(r, aggregates, out, trails, m) {
      if walks[m] != [] {
        RecordArises(r, aggregates, root, out, walks, m);
      }
    }
  }

  // ----- the class

  class StaticInformation {
    const registry: Registry
    var output: seq<Record>
    var currentPath: seq<string>
    var alreadyProcessed: seq<TypeId>
    var aggregates: seq<(TypeId, TypeId)>

    constructor (registry: Registry)
      ensures this.registry == registry
      ensures output == [] && currentPath == [] && alreadyProcessed == [] && aggregates == []
    {
      this.registry := registry;
      output, currentPath, alreadyProcessed, aggregates := [], [], [], [];
    }

    ghost predicate Valid()
      reads this`aggregates
    {
      ValidRegistry(registry) && ValidAggregates(registry, aggregates)
    }

    method GetCurrentPath() returns (path: string)
      ensures path == PathString(currentPath, |currentPath|)
    {
      path := "";
      for i := 0 to |currentPath|
        invariant path == PathString(currentPath, i)
      {
        path := path + "/" + currentPath[i];
      }
    }

    method RecordOutput(tid: TypeId)
      modifies this`output
      ensures output == old(output) + [Entry(tid, currentPath)]
    {
      var path := GetCurrentPath();
      output := output + [(tid, path)];
    }

    method HasAlreadyBeenProcessed(tid: TypeId) returns (b: bool)
      ensures b <==> tid in alreadyProcessed
    {
      for i := 0 to |alreadyProcessed|
        invariant tid !in alreadyProcessed[..i]
      {
        if alreadyProcessed[i] == tid {
          return true;
        }
      }
      return false;
    }

    /** With tid on the stack, these edges of it have been followed, and what they yield has been added to start. */
    ghost predicate Progress(tid: TypeId, edges: seq<Edge>, start: seq<Record>)
      requires Valid() && tid < |registry.types| && tid !in alreadyProcessed
      reads this
    {
      && InRange(edges, |registry.types|)
      && output == start + GatheredOver(GraphOf(registry, aggregates), tid, currentPath, alreadyProcessed, edges, |edges|)
    }

    /** Follows one more edge. */
    method Follow(tid: TypeId, edge: Edge, ghost edges: seq<Edge>, ghost start: seq<Record>) returns (ghost more: seq<Edge>)
      requires Valid() && tid < |registry.types| && edge.target < |registry.types| && tid !in alreadyProcessed
      requires Progress(tid, edges, start)
      modifies this`output, this`currentPath, this`alreadyProcessed
      ensures currentPath == old(currentPath) && alreadyProcessed == old(alreadyProcessed)
      ensures more == edges + [edge]
      ensures Progress(tid, more, start)
      decreases Interval(0, |registry.types|) - Elements(alreadyProcessed), 0
    {
      IntervalSize(0, |registry.types|);
      ghost var g, path, stack := GraphOf(registry, aggregates), currentPath, alreadyProcessed;
      more := OneMore(g, tid, path, stack, edges, edge, start);
      currentPath := currentPath + [edge.name];
      alreadyProcessed := alreadyProcessed + [tid];
      assert Elements(alreadyProcessed) == Elements(stack) + {tid};
      DoGather(edge.target);
      alreadyProcessed := alreadyProcessed[..|alreadyProcessed| - 1];
      currentPath := currentPath[..|currentPath| - 1];
    }

    method DoGather(tid: TypeId)
      requires Valid() && tid < |registry.types|
      modifies this`output, this`currentPath, this`alreadyProcessed
      ensures currentPath == old(currentPath) && alreadyProcessed == old(alreadyProcessed)
      ensures output == old(output) + Gathered(GraphOf(registry, aggregates), tid, currentPath, alreadyProcessed)
      decreases Interval(0, |registry.types|) - Elements(alreadyProcessed), 3
    {
      var processed := HasAlreadyBeenProcessed(tid);
      if processed {
        return;
      }
      RecordOutput(tid);
      ghost var start := output;
      assert start == start + [];
      ghost var edges := GatherAttributes(tid, [], start);
      assert edges == AttributeEdges(registry, tid, |registry.types[tid].attributes|);
      edges := GatherChildren(tid, edges, start);
      edges := GatherAggregates(tid, edges, start);
      GatheredStep(registry, aggregates, tid, currentPath, alreadyProcessed, edges, old(output));
    }

    /** The search from a clean start adds exactly one record for each simple walk from tid. */
    method Gather(tid: TypeId) returns (ghost walks: seq<Walk>, ghost trails: seq<seq<TypeId>>)
      requires Valid() && tid < |registry.types|
      requires currentPath == [] && alreadyProcessed == []
      modifies this`output, this`currentPath, this`alreadyProcessed
      ensures currentPath == [] && alreadyProcessed == []
      ensures old(output) <= output
      // told from the registry and the aggregations
      ensures Traced(registry, aggregates, tid, output[|old(output)|..], trails)
      // one by one, in the order of the walks, each edge of a type being one thing to follow
      ensures Distinct(walks) && InOrder(walks) && forall v :: v in walks <==> SimpleWalk(GraphOf(registry, aggregates), tid, v)
      ensures RecordsOf(GraphOf(registry, aggregates), tid, output[|old(output)|..], walks)
    {
      DoGather(tid);
      walks := OneRecordPerSimpleWalk(GraphOf(registry, aggregates), tid);
      assert output[|old(output)|..] == Gathered(GraphOf(registry, aggregates), tid, [], []);
      RecordsTraced(registry, aggregates, tid, output[|old(output)|..], walks);
      trails := Trails(GraphOf(registry, aggregates), tid, walks);
    }

    /** Adds the paths through pointer and container attributes; edges are those followed so far from tid. */
    method GatherAttributes(tid: TypeId, ghost edges: seq<Edge>, ghost start: seq<Record>) returns (ghost more: seq<Edge>)
      requires Valid() && tid < |registry.types| && tid !in alreadyProcessed
      requires Progress(tid, edges, start)
      modifies this`output, this`currentPath, this`alreadyProcessed
      ensures currentPath == old(currentPath) && alreadyProcessed == old(alreadyProcessed)
      ensures more == edges + AttributeEdges(registry, tid, |registry.types[tid].attributes|)
      ensures Progress(tid, more, start)
      decreases Interval(0, |registry.types|) - Elements(alreadyProcessed), 2
    {
      more := edges;
      var attributes := registry.types[tid].attributes;
      for i := 0 to |attributes|
        invariant currentPath == old(currentPath) && alreadyProcessed == old(alreadyProcessed)
        invariant more == edges + AttributeEdges(registry, tid, i)
        invariant Progress(tid, more, start)
      {
        ghost var before := AttributeEdges(registry, tid, i);
        assert ValidAttributes(registry, attributes);
        more := GatherAttribute(tid, attributes[i], more, start);
        assert edges + before + AttributeEdge(registry, attributes[i]) == edges + (before + AttributeEdge(registry, attributes[i]));
      }
    }

    /** Follows an attribute that is a pointer, except to the most general type, or a container. */
    method GatherAttribute(tid: TypeId, info: Attribute, ghost edges: seq<Edge>, ghost start: seq<Record>) returns (ghost more: seq<Edge>)
      requires Valid() && tid < |registry.types| && tid !in alreadyProcessed
      requires Progress(tid, edges, start)
      requires (info.Pointer? ==> info.pointee < |registry.types|) && (info.Container? ==> info.item < |registry.types|)
      modifies this`output, this`currentPath, this`alreadyProcessed
      ensures currentPath == old(currentPath) && alreadyProcessed == old(alreadyProcessed)
      ensures more == edges + AttributeEdge(registry, info)
      ensures info.Pointer? && info.pointee != registry.object_ ==> more == edges + [Edge(info.name, info.pointee)]
      ensures info.Container? ==> more == edges + [Edge(info.name + "/[i]", info.item)]
      ensures info.Plain? || (info.Pointer? && info.pointee == registry.object_) ==> more == edges
      ensures Progress(tid, more, start)
      decreases Interval(0, |registry.types|) - Elements(alreadyProcessed), 1
    {
      more := edges;
      if info.Pointer? {
        if info.pointee == registry.object_ {
          return;
        }
        more := Follow(tid, Edge(info.name, info.pointee), more, start);
      } else if info.Container? {
        more := Follow(tid, Edge(info.name + "/[i]", info.item), more, start);
      }
    }

    /** Adds the paths to the registered types below tid. */
    method GatherChildren(tid: TypeId, ghost edges: seq<Edge>, ghost start: seq<Record>) returns (ghost more: seq<Edge>)
      requires Valid() && tid < |registry.types| && tid !in alreadyProcessed
      requires Progress(tid, edges, start)
      modifies this`output, this`currentPath, this`alreadyProcessed
      ensures currentPath == old(currentPath) && alreadyProcessed == old(alreadyProcessed)
      ensures more == edges + ChildEdges(registry, tid, |registry.types|)
      ensures Progress(tid, more, start)
      decreases Interval(0, |registry.types|) - Elements(alreadyProcessed), 1
    {
      more := edges;
      for j := 0 to |registry.types|
        invariant currentPath == old(currentPath) && alreadyProcessed == old(alreadyProcessed)
        invariant more == edges + ChildEdges(registry, tid, j)
        invariant Progress(tid, more, start)
      {
        var child := registry.types[j];
        if tid in child.ancestors {
          more := Follow(tid, Edge("$" + child.name, j), more, start);
        }
      }
    }

    /** Adds the paths to the types aggregated with tid. */
    method GatherAggregates(tid: TypeId, ghost edges: seq<Edge>, ghost start: seq<Record>) returns (ghost more: seq<Edge>)
      requires Valid() && tid < |registry.types| && tid !in alreadyProcessed
      requires Progress(tid, edges, start)
      modifies this`output, this`currentPath, this`alreadyProcessed
      ensures currentPath == old(currentPath) && alreadyProcessed == old(alreadyProcessed)
      ensures more == edges + AggregateEdges(registry, aggregates, tid, |aggregates|)
      ensures Progress(tid, more, start)
      decreases Interval(0, |registry.types|) - Elements(alreadyProcessed), 1
    {
      more := edges;
      for k := 0 to |aggregates|
        invariant currentPath == old(currentPath) && alreadyProcessed == old(alreadyProcessed)
        invariant more == edges + AggregateEdges(registry, aggregates, tid, k)
        invariant Progress(tid, more, start)
      {
        var tmp := aggregates[k];
        if tmp.0 == tid || tmp.1 == tid {
          var other := tid;
          if tmp.0 == tid {
            other := tmp.1;
          }
          if tmp.1 == tid {
            other := tmp.0;
          }
          more := Follow(tid, Edge("$" + registry.types[other].name, other), more, start);
        }
      }
    }
  }

  lemma GatheredStep(r: Registry, aggregates: seq<(TypeId, TypeId)>, t: TypeId, path: seq<string>, stack: seq<TypeId>, edges: seq<Edge>, before: seq<Record>)
    requires ValidRegistry(r) && ValidAggregates(r, aggregates) && t < |r.types| && t !in stack
    requires edges == AttributeEdges(r, t, |r.types[t].attributes|) + ChildEdges(r, t, |r.types|) + AggregateEdges(r, aggregates, t, |aggregates|)
    ensures var g := GraphOf(r, aggregates);
            InRange(edges, |g|) &&
            before + [Entry(t, path)] + GatheredOver(g, t, path, stack, edges, |edges|) == before + Gathered(g, t, path, stack)
  {
    var g := GraphOf(r, aggregates);
    assert g[t] == edges;
    assert InRange(g[t], |g|);
    assert before + [Entry(t, path)] + GatheredOver(g, t, path, stack, edges, |edges|) == before + ([Entry(t, path)] + GatheredOver(g, t, path, stack, edges, |edges|));
  }

  lemma OneMore(g: Graph, t: TypeId, path: seq<string>, stack: seq<TypeId>, edges: seq<Edge>, edge: Edge, start: seq<Record>) returns (more: seq<Edge>)
    requires Closed(g) && t < |g| && t !in stack && InRange(edges, |g|) && edge.target < |g|
    ensures more == edges + [edge] && InRange(more, |g|)
    ensures start + GatheredOver(g, t, path, stack, more, |more|)
         == start + GatheredOver(g, t, path, stack, edges, |edges|) + Gathered(g, edge.target, path + [edge.name], stack + [t])
  {
    more := edges + [edge];
    GatheredOverPrefix(g, t, path, stack, edges, edge, |edges|);
    var a, b := GatheredOver(g, t, path, stack, edges, |edges|), Gathered(g, edge.target, path + [edge.name], stack + [t]);
    assert start + (a + b) == start + a + b;
  }
}
