/** Edge aggregation at a level of the mesh (mesh.go). */
module MeshAggregation {
  import opened Graphs
  import opened Grouping
  import opened Mesh

  // ----- Aggregation -----

  datatype Pair = Pair(src: string, dst: string)

  datatype MeshEdge = MeshEdge(src: string, dst: string, kind: string, weight: real)

  function Ends(nodes: Nodes, e: MeshEdge, level: nat): Pair {
    Pair(Climb(nodes, e.src, level, MAX_CLIMB), Climb(nodes, e.dst, level, MAX_CLIMB))
  }

  predicate Crosses(p: Pair) {
    p.src != "" && p.dst != "" && p.src != p.dst
  }

  /** The edges whose ends have different ancestors, as weights between those ancestors. */
  ghost function Crossings(nodes: Nodes, edges: seq<MeshEdge>, level: nat): seq<Item<Pair>> {
    if edges == [] then []
    else
      var e := edges[|edges| - 1];
      var rest := Crossings(nodes, edges[..|edges| - 1], level);
      if Crosses(Ends(nodes, e, level)) then rest + [Item(Ends(nodes, e, level), e.weight)] else rest
  }

  ghost function Keys(items: seq<Item<Pair>>): seq<Pair> {
    if items == [] then [] else Keys(items[..|items| - 1]) + [items[|items| - 1].key]
  }

  /** The kind of the first edge between two ancestors. */
  ghost function KindOf(nodes: Nodes, edges: seq<MeshEdge>, level: nat, p: Pair): string {
    if edges == [] then ""
    else if p in Keys(Crossings(nodes, edges[..|edges| - 1], level)) then KindOf(nodes, edges[..|edges| - 1], level, p)
    else edges[|edges| - 1].kind
  }

  lemma {:induction false} KeysAre(items: seq<Item<Pair>>)
    ensures forall k :: k in Keys(items) <==> exists x :: x in items && x.key == k
  {
    if items != [] {
      var rest, x := items[..|items| - 1], items[|items| - 1];
      assert items == rest + [x];
      KeysAre(rest);
    }
  }

  /** A pair is a key exactly when some edge crosses from the one ancestor to the other. */
  lemma {:induction false} CrossingKeys(nodes: Nodes, edges: seq<MeshEdge>, level: nat, p: Pair)
    ensures p in Keys(Crossings(nodes, edges, level)) <==>
            Crosses(p) && exists e :: e in edges && Ends(nodes, e, level) == p
  {
    if edges != [] {
      var rest, last := edges[..|edges| - 1], edges[|edges| - 1];
      assert edges == rest + [last];
      CrossingKeys(nodes, rest, level, p);
      var items := Crossings(nodes, rest, level);
      assert (items + [Item(Ends(nodes, last, level), last.weight)])[..|items|] == items;
    }
  }

  /** The entry of a pair: the kind of the first edge, and the weight of all edges. */
  ghost function Summed(nodes: Nodes, edges: seq<MeshEdge>, level: nat, k: Pair): MeshEdge {
    MeshEdge(k.src, k.dst, KindOf(nodes, edges, level, k), SumFor(Crossings(nodes, edges, level), k))
  }

  ghost predicate SumsUp(nodes: Nodes, edges: seq<MeshEdge>, level: nat, agg: map<Pair, MeshEdge>) {
    forall k {:trigger Summed(nodes, edges, level, k)} :: k in agg ==> agg[k] == Summed(nodes, edges, level, k)
  }

  lemma SumsStep(nodes: Nodes, edges: seq<MeshEdge>, e: MeshEdge, level: nat)
    ensures (edges + [e])[..|edges|] == edges
    ensures var k := Ends(nodes, e, level); var items := Crossings(nodes, edges, level);
      if Crosses(k) then
        && Crossings(nodes, edges + [e], level) == items + [Item(k, e.weight)]
        && Keys(items + [Item(k, e.weight)]) == Keys(items) + [k]
        && FirstSeen(Keys(items) + [k]) ==
           (if k in Keys(items) then FirstSeen(Keys(items)) else FirstSeen(Keys(items)) + [k])
      else Crossings(nodes, edges + [e], level) == items
  {
    assert (edges + [e])[..|edges|] == edges;
    var items, x := Crossings(nodes, edges, level), Item(Ends(nodes, e, level), e.weight);
    assert (items + [x])[..|items|] == items;
    FirstSeenSnoc(Keys(items), x.key);
  }

  lemma {:induction false} SumForAbsent(items: seq<Item<Pair>>, k: Pair)
    requires k !in Keys(items)
    ensures SumFor(items, k) == 0.0
  {
    if items != [] {
      assert Keys(items) == Keys(items[..|items| - 1]) + [items[|items| - 1].key];
      SumForAbsent(items[..|items| - 1], k);
    }
  }

  /** What the first loop of Aggregate has when it has gone over these edges. */
  ghost predicate Aggregating(nodes: Nodes, edges: seq<MeshEdge>, level: nat, agg: map<Pair, MeshEdge>,
                              order: seq<Pair>) {
    && SumsUp(nodes, edges, level, agg)
    && order == FirstSeen(Keys(Crossings(nodes, edges, level)))
    && (forall k :: k in agg <==> k in order)
  }

  lemma KindStep(nodes: Nodes, edges: seq<MeshEdge>, e: MeshEdge, level: nat, k: Pair)
    ensures KindOf(nodes, edges + [e], level, k) ==
      if k in Keys(Crossings(nodes, edges, level)) then KindOf(nodes, edges, level, k) else e.kind
  {
    assert (edges + [e])[..|edges|] == edges;
  }

  /** The entry of one pair, after one more crossing edge. */
  lemma AddToSum(nodes: Nodes, edges: seq<MeshEdge>, e: MeshEdge, level: nat, k: Pair, j: Pair)
    requires k == Ends(nodes, e, level) && Crosses(k)
    requires j != k ==> j in Keys(Crossings(nodes, edges, level))
    ensures var before := Summed(nodes, edges, level, j);
      Summed(nodes, edges + [e], level, j) ==
        if j != k then before
        else if k in Keys(Crossings(nodes, edges, level)) then before.(weight := before.weight + e.weight)
        else MeshEdge(k.src, k.dst, e.kind, e.weight)
  {
    var items := Crossings(nodes, edges, level);
    SumsStep(nodes, edges, e, level);
    SumForSnoc(items, Item(k, e.weight), j);
    KindStep(nodes, edges, e, level, j);
    if j !in Keys(items) {
      SumForAbsent(items, j);
    }
  }

  function AddWeight(agg: map<Pair, MeshEdge>, k: Pair, e: MeshEdge): map<Pair, MeshEdge> {
    if k in agg then agg[k := agg[k].(weight := agg[k].weight + e.weight)]
    else agg[k := MeshEdge(k.src, k.dst, e.kind, e.weight)]
  }

  lemma SumsAfter(nodes: Nodes, edges: seq<MeshEdge>, e: MeshEdge, level: nat, agg: map<Pair, MeshEdge>, k: Pair)
    requires SumsUp(nodes, edges, level, agg) && k == Ends(nodes, e, level) && Crosses(k)
    requires forall j :: j in agg <==> j in Keys(Crossings(nodes, edges, level))
    ensures SumsUp(nodes, edges + [e], level, AddWeight(agg, k, e))
  {
    forall j | j in AddWeight(agg, k, e) ensures AddWeight(agg, k, e)[j] == Summed(nodes, edges + [e], level, j) {
      AddToSum(nodes, edges, e, level, k, j);
      var before := Summed(nodes, edges, level, j);
      assert j in agg ==> agg[j] == before;
    }
  }

  lemma KeysAfter(agg: map<Pair, MeshEdge>, order: seq<Pair>, k: Pair, e: MeshEdge)
    requires forall j :: j in agg <==> j in order
    ensures forall j :: j in AddWeight(agg, k, e) <==> j in if k in agg then order else order + [k]
  {
  }

  lemma AddCrossing(nodes: Nodes, edges: seq<MeshEdge>, e: MeshEdge, level: nat, agg: map<Pair, MeshEdge>,
                    order: seq<Pair>, k: Pair)
    requires Aggregating(nodes, edges, level, agg, order) && k == Ends(nodes, e, level) && Crosses(k)
    ensures Aggregating(nodes, edges + [e], level, AddWeight(agg, k, e), if k in agg then order else order + [k])
  {
    var keys := Keys(Crossings(nodes, edges, level));
    assert forall j :: j in agg <==> j in keys by { FirstSeenKeys(keys); }
    SumsAfter(nodes, edges, e, level, agg, k);
    KeysAfter(agg, order, k, e);
    AddToOrder(nodes, edges, e, level, k);
  }

  lemma AddToOrder(nodes: Nodes, edges: seq<MeshEdge>, e: MeshEdge, level: nat, k: Pair)
    requires k == Ends(nodes, e, level) && Crosses(k)
    ensures var keys := Keys(Crossings(nodes, edges, level));
      FirstSeen(Keys(Crossings(nodes, edges + [e], level))) ==
        if k in keys then FirstSeen(keys) else FirstSeen(keys) + [k]
  {
    SumsStep(nodes, edges, e, level);
  }

  lemma SkipEdge(nodes: Nodes, edges: seq<MeshEdge>, e: MeshEdge, level: nat, agg: map<Pair, MeshEdge>,
                 order: seq<Pair>)
    requires Aggregating(nodes, edges, level, agg, order) && !Crosses(Ends(nodes, e, level))
    ensures Aggregating(nodes, edges + [e], level, agg, order)
  {
    SumsStep(nodes, edges, e, level);
    FirstSeenKeys(Keys(Crossings(nodes, edges, level)));
    forall k | k in agg ensures agg[k] == Summed(nodes, edges + [e], level, k) {
      KindStep(nodes, edges, e, level, k);
      assert agg[k] == Summed(nodes, edges, level, k);
    }
  }

  /** The body of the first loop of Aggregate. */
  method AddEdge(nodes: Nodes, ghost seen: seq<MeshEdge>, e: MeshEdge, level: nat, agg0: map<Pair, MeshEdge>,
                 order0: seq<Pair>)
    returns (agg: map<Pair, MeshEdge>, order: seq<Pair>)
    requires Aggregating(nodes, seen, level, agg0, order0)
    ensures Aggregating(nodes, seen + [e], level, agg, order)
  {
    agg, order := agg0, order0;
    var src := ResolveToLevel(nodes, e.src, level);
    var dst := ResolveToLevel(nodes, e.dst, level);
    if src == "" || dst == "" || src == dst {
      SkipEdge(nodes, seen, e, level, agg, order);
      return;
    }
    var k := Pair(src, dst);
    if k in agg {
      agg := agg[k := agg[k].(weight := agg[k].weight + e.weight)];
    } else {
      agg := agg[k := MeshEdge(src, dst, e.kind, e.weight)];
      order := order + [k];
    }
    AddCrossing(nodes, seen, e, level, agg0, order0, k);
  }

  ghost function PairsOf(edges: seq<MeshEdge>): seq<Pair> {
    seq(|edges|, i requires 0 <= i < |edges| => Pair(edges[i].src, edges[i].dst))
  }

  /** One edge for each crossed pair of ancestors, in first-seen order, with the kind of the first edge between
      them and the sum of the weights of all. */
  ghost predicate IsAggregate(nodes: Nodes, edges: seq<MeshEdge>, level: nat, result: seq<MeshEdge>) {
    && PairsOf(result) == FirstSeen(Keys(Crossings(nodes, edges, level)))
    && forall r :: r in result ==>
      && r.weight == SumFor(Crossings(nodes, edges, level), Pair(r.src, r.dst))
      && r.kind == KindOf(nodes, edges, level, Pair(r.src, r.dst))
  }

  lemma Listed(nodes: Nodes, edges: seq<MeshEdge>, level: nat, agg: map<Pair, MeshEdge>, order: seq<Pair>,
               result: seq<MeshEdge>)
    requires Aggregating(nodes, edges, level, agg, order)
    requires |result| == |order| && forall j :: 0 <= j < |order| ==> order[j] in agg && result[j] == agg[order[j]]
    ensures IsAggregate(nodes, edges, level, result)
  {
    forall r | r in result ensures r == Summed(nodes, edges, level, Pair(r.src, r.dst)) {
      var j :| 0 <= j < |result| && result[j] == r;
      assert agg[order[j]] == Summed(nodes, edges, level, order[j]);
    }
    forall j | 0 <= j < |order| ensures PairsOf(result)[j] == order[j] {
      assert agg[order[j]] == Summed(nodes, edges, level, order[j]);
    }
  }

  method Aggregate(nodes: Nodes, edges: seq<MeshEdge>, level: nat) returns (result: seq<MeshEdge>)
    ensures IsAggregate(nodes, edges, level, result)
  {
    var agg: map<Pair, MeshEdge> := map[];
    var order := [];
    for i := 0 to |edges|
      invariant Aggregating(nodes, edges[..i], level, agg, order)
    {
      agg, order := AddEdge(nodes, edges[..i], edges[i], level, agg, order);
      assert edges[..i + 1] == edges[..i] + [edges[i]];
    }
    assert edges[..|edges|] == edges;
    result := [];
    for i := 0 to |order|
      invariant |result| == i && forall j :: 0 <= j < i ==> order[j] in agg && result[j] == agg[order[j]]
    {
      result := result + [agg[order[i]]];
    }
    Listed(nodes, edges, level, agg, order, result);
  }

  /** Edge i is the first whose ends have these ancestors at the level. */
  ghost predicate FirstUnder(nodes: Nodes, edges: seq<MeshEdge>, level: nat, p: Pair, i: int) {
    && 0 <= i < |edges| && Ends(nodes, edges[i], level) == p
    && forall j :: 0 <= j < i ==> Ends(nodes, edges[j], level) != p
  }

  lemma FirstUnderLater(nodes: Nodes, edges: seq<MeshEdge>, e: MeshEdge, level: nat, p: Pair, i: int)
    ensures i < |edges| ==> (FirstUnder(nodes, edges + [e], level, p, i) <==> FirstUnder(nodes, edges, level, p, i))
  {
    assert forall j :: 0 <= j < |edges| ==> (edges + [e])[j] == edges[j];
  }

  /** The pairs of the result, in order. */
  ghost function Order(nodes: Nodes, edges: seq<MeshEdge>, level: nat): seq<Pair> {
    FirstSeen(Keys(Crossings(nodes, edges, level)))
  }

  lemma OrderStep(nodes: Nodes, edges: seq<MeshEdge>, e: MeshEdge, level: nat)
    ensures var order, k := Order(nodes, edges, level), Ends(nodes, e, level);
      Order(nodes, edges + [e], level) == if Crosses(k) && k !in order then order + [k] else order
    ensures forall k :: k in Order(nodes, edges, level) <==> k in Keys(Crossings(nodes, edges, level))
  {
    FirstSeenKeys(Keys(Crossings(nodes, edges, level)));
    SumsStep(nodes, edges, e, level);
  }

  /** A pair is listed with the kind of its first edge. */
  lemma {:induction false} OrderFirst(nodes: Nodes, edges: seq<MeshEdge>, level: nat, n: nat) returns (i: int)
    requires n < |Order(nodes, edges, level)|
    ensures var p := Order(nodes, edges, level)[n];
      FirstUnder(nodes, edges, level, p, i) && KindOf(nodes, edges, level, p) == edges[i].kind
  {
    var rest, e := edges[..|edges| - 1], edges[|edges| - 1];
    assert edges == rest + [e];
    OrderStep(nodes, rest, e, level);
    var p := Order(nodes, edges, level)[n];
    KindStep(nodes, rest, e, level, p);
    if n < |Order(nodes, rest, level)| {
      assert p in Order(nodes, rest, level);
      i := OrderFirst(nodes, rest, level, n);
      FirstUnderLater(nodes, rest, e, level, p, i);
    } else {
      i := |rest|;
      NotUnder(nodes, rest, level, p);
    }
  }

  lemma NotUnder(nodes: Nodes, edges: seq<MeshEdge>, level: nat, p: Pair)
    requires Crosses(p) && p !in Keys(Crossings(nodes, edges, level))
    ensures forall j :: 0 <= j < |edges| ==> Ends(nodes, edges[j], level) != p
  {
    CrossingKeys(nodes, edges, level, p);
    forall j | 0 <= j < |edges| ensures Ends(nodes, edges[j], level) != p {
      assert edges[j] in edges;
    }
  }

  /** Pairs are listed in the order of their first edges. */
  lemma {:induction false} OrderIsFirstSeen(nodes: Nodes, edges: seq<MeshEdge>, level: nat, m: nat, n: nat, i: int,
                                            j: int)
    requires m < n < |Order(nodes, edges, level)|
    requires FirstUnder(nodes, edges, level, Order(nodes, edges, level)[m], i)
    requires FirstUnder(nodes, edges, level, Order(nodes, edges, level)[n], j)
    ensures i < j
  {
    var rest, e := edges[..|edges| - 1], edges[|edges| - 1];
    assert edges == rest + [e];
    OrderStep(nodes, rest, e, level);
    var order := Order(nodes, rest, level);
    var i1 := OrderFirst(nodes, rest, level, m);
    FirstUnderLater(nodes, rest, e, level, order[m], i1);
    FirstUnderLater(nodes, rest, e, level, order[m], i);
    if n < |order| {
      var j1 := OrderFirst(nodes, rest, level, n);
      FirstUnderLater(nodes, rest, e, level, order[n], j1);
      OrderIsFirstSeen(nodes, rest, level, m, n, i1, j1);
    } else {
      NotUnder(nodes, rest, level, Ends(nodes, e, level));
    }
  }

  /** The weight of all edges whose ends climb to these two. */
  ghost function WeightBetween(nodes: Nodes, edges: seq<MeshEdge>, level: nat, src: string, dst: string): real {
    if edges == [] then 0.0
    else
      var e := edges[|edges| - 1];
      WeightBetween(nodes, edges[..|edges| - 1], level, src, dst) +
      if Climb(nodes, e.src, level, MAX_CLIMB) == src && Climb(nodes, e.dst, level, MAX_CLIMB) == dst then e.weight
      else 0.0
  }

  lemma {:induction false} SumIsWeight(nodes: Nodes, edges: seq<MeshEdge>, level: nat, p: Pair)
    requires Crosses(p)
    ensures SumFor(Crossings(nodes, edges, level), p) == WeightBetween(nodes, edges, level, p.src, p.dst)
  {
    if edges != [] {
      var rest, e := edges[..|edges| - 1], edges[|edges| - 1];
      SumIsWeight(nodes, rest, level, p);
      SumForSnoc(Crossings(nodes, rest, level), Item(Ends(nodes, e, level), e.weight), p);
    }
  }

  /** Each returned edge has the kind of the first edge between its ends and the weight of all of them, and the edges
      are in the order of those first edges. */
  lemma AggregateIs(nodes: Nodes, edges: seq<MeshEdge>, level: nat, result: seq<MeshEdge>)
    requires IsAggregate(nodes, edges, level, result)
    ensures forall n :: 0 <= n < |result| ==>
              FromFirst(nodes, edges, level, result[n]) &&
              result[n].weight == WeightBetween(nodes, edges, level, result[n].src, result[n].dst)
    ensures forall m, n, i, j :: 0 <= m < n < |result| ==>
              FirstUnder(nodes, edges, level, Pair(result[m].src, result[m].dst), i) ==>
              FirstUnder(nodes, edges, level, Pair(result[n].src, result[n].dst), j) ==> i < j
  {
    var order := Order(nodes, edges, level);
    assert |order| == |result| && forall n :: 0 <= n < |order| ==> order[n] == Pair(result[n].src, result[n].dst) by {
      assert forall n :: 0 <= n < |result| ==> PairsOf(result)[n] == Pair(result[n].src, result[n].dst);
    }
    forall n | 0 <= n < |result|
      ensures FromFirst(nodes, edges, level, result[n])
      ensures result[n].weight == WeightBetween(nodes, edges, level, result[n].src, result[n].dst)
    {
      var i := OrderFirst(nodes, edges, level, n);
      assert result[n] in result;
      OrderCrosses(nodes, edges, level, n);
      SumIsWeight(nodes, edges, level, order[n]);
    }
    forall m, n, i, j | 0 <= m < n < |result| && FirstUnder(nodes, edges, level, order[m], i) &&
      FirstUnder(nodes, edges, level, order[n], j) ensures i < j
    {
      OrderIsFirstSeen(nodes, edges, level, m, n, i, j);
    }
  }

  ghost predicate FromFirst(nodes: Nodes, edges: seq<MeshEdge>, level: nat, r: MeshEdge) {
    exists i :: FirstUnder(nodes, edges, level, Pair(r.src, r.dst), i) && r.kind == edges[i].kind
  }

  lemma OrderCrosses(nodes: Nodes, edges: seq<MeshEdge>, level: nat, n: nat)
    requires n < |Order(nodes, edges, level)|
    ensures Crosses(Order(nodes, edges, level)[n])
  {
    var p := Order(nodes, edges, level)[n];
    FirstSeenKeys(Keys(Crossings(nodes, edges, level)));
    assert p in Order(nodes, edges, level);
    CrossingKeys(nodes, edges, level, p);
  }

  ghost function WeightOf(edges: seq<MeshEdge>): real {
    if edges == [] then 0.0 else WeightOf(edges[..|edges| - 1]) + edges[|edges| - 1].weight
  }

  lemma {:induction false} WeightIsGroupTotal(result: seq<MeshEdge>, items: seq<Item<Pair>>)
    requires forall r :: r in result ==> r.weight == SumFor(items, Pair(r.src, r.dst))
    ensures WeightOf(result) == GroupTotal(PairsOf(result), items)
  {
    if result != [] {
      var rest, last := result[..|result| - 1], result[|result| - 1];
      assert PairsOf(result) == PairsOf(rest) + [Pair(last.src, last.dst)];
      assert PairsOf(result)[..|result| - 1] == PairsOf(rest);
      WeightIsGroupTotal(rest, items);
    }
  }

  /** Total weight of the edges that cross, taken edge by edge. */
  ghost function CrossingWeight(nodes: Nodes, edges: seq<MeshEdge>, level: nat): real {
    if edges == [] then 0.0
    else
      var e := edges[|edges| - 1];
      CrossingWeight(nodes, edges[..|edges| - 1], level) + if Crosses(Ends(nodes, e, level)) then e.weight else 0.0
  }

  lemma {:induction false} CrossingsWeigh(nodes: Nodes, edges: seq<MeshEdge>, level: nat)
    ensures Total(Crossings(nodes, edges, level)) == CrossingWeight(nodes, edges, level)
  {
    if edges != [] {
      var rest, e := edges[..|edges| - 1], edges[|edges| - 1];
      CrossingsWeigh(nodes, rest, level);
      SumForSnoc(Crossings(nodes, rest, level), Item(Ends(nodes, e, level), e.weight), Ends(nodes, e, level));
    }
  }

  /** What Aggregate returns: distinct pairs, a pair exactly when an edge crosses between the two ancestors,
      and as much weight in all as the crossing edges have. */
  lemma AggregateConserves(nodes: Nodes, edges: seq<MeshEdge>, level: nat, result: seq<MeshEdge>)
    requires IsAggregate(nodes, edges, level, result)
    ensures Distinct(PairsOf(result))
    ensures forall p :: p in PairsOf(result) <==>
              |p.src| > 0 && |p.dst| > 0 && p.src != p.dst && exists e :: e in edges && Ends(nodes, e, level) == p
    ensures WeightOf(result) == CrossingWeight(nodes, edges, level)
  {
    var items := Crossings(nodes, edges, level);
    FirstSeenKeys(Keys(items));
    forall p ensures p in PairsOf(result) <==> Crosses(p) && exists e :: e in edges && Ends(nodes, e, level) == p {
      CrossingKeys(nodes, edges, level, p);
    }
    KeysAre(items);
    forall x | x in items ensures x.key in PairsOf(result) {
      assert x.key in Keys(items);
    }
    GroupsConserve(PairsOf(result), items);
    WeightIsGroupTotal(result, items);
    CrossingsWeigh(nodes, edges, level);
  }

  /** An edge between symbols of the mesh crosses at package or component level exactly when theirs differ. */
  lemma CrossesWhen(sorted: seq<string>, syms: seq<Symbol>, e: MeshEdge, s: Symbol, t: Symbol)
    requires NoClash(sorted, syms) && s in syms && t in syms && e.src == FQN(s) && e.dst == FQN(t)
    ensures Crosses(Ends(NodesOf(sorted, syms), e, COMPONENT)) <==>
            ComponentOf(sorted, s.pkg) != ComponentOf(sorted, t.pkg)
    ensures Crosses(Ends(NodesOf(sorted, syms), e, PACKAGE)) <==> s.pkg != t.pkg
  {
    Hierarchy(sorted, syms, s, MAX_CLIMB);
    Hierarchy(sorted, syms, t, MAX_CLIMB);
  }
}
