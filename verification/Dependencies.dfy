/** Shortest-path dependencies: Brandes' recurrence, stated over the map D of hop distances from a source. */
module Dependencies {
  import opened Graphs
  import opened Sums
  import opened PathCounts

  /** D maps exactly the nodes reachable from s, each to its hop distance from s. */
  ghost predicate Distances(g: Graph, s: Node, D: map<Node, nat>) {
    && Closed(g)
    && forall n, d: nat {:trigger IsDist(g.edges, s, n, d)} ::
         IsDist(g.edges, s, n, d) <==> n in D && D[n] == d
  }

  lemma PathTo(g: Graph, s: Node, D: map<Node, nat>, n: Node) returns (p: seq<Node>)
    requires Distances(g, s, D) && n in D
    ensures IsPath(g.edges, p, s, n) && |p| == D[n] + 1
  {
    assert IsDist(g.edges, s, n, D[n]);
    p :| IsPath(g.edges, p, s, n) && |p| == D[n] + 1;
  }

  lemma PathIsLong(g: Graph, s: Node, D: map<Node, nat>, n: Node, p: seq<Node>)
    requires Distances(g, s, D) && IsPath(g.edges, p, s, n)
    ensures n in D && D[n] < |p|
  {
    assert Reach(g.edges, s, n);
    ReachHasDist(g.edges, s, n);
    var d: nat :| IsDist(g.edges, s, n, d);
  }

  lemma EdgeIsShort(g: Graph, s: Node, D: map<Node, nat>, v: Node, w: Node)
    requires Distances(g, s, D) && v in D && Edge(v, w) in g.edges
    ensures w in D && D[w] <= D[v] + 1
  {
    var p := PathTo(g, s, D, v);
    PathSnoc(g.edges, p, s, v, w);
    PathIsLong(g, s, D, w, p + [w]);
  }

  lemma SourceIsNear(g: Graph, s: Node, D: map<Node, nat>)
    requires Distances(g, s, D)
    ensures s in D && D[s] == 0
  {
    PathIsLong(g, s, D, s, [s]);
  }

  // ----- Counts of shortest paths -----

  /** The number of shortest paths from s to t. */
  ghost function SigmaOf(g: Graph, s: Node, D: map<Node, nat>, t: Node): real {
    if t in D then Num(g, s, t, D[t]) else 0.0
  }

  ghost function Sigma(g: Graph, s: Node, D: map<Node, nat>): Node -> real {
    t => SigmaOf(g, s, D, t)
  }

  ghost function ShortestPaths(g: Graph, s: Node, D: map<Node, nat>, t: Node): set<seq<Node>> {
    if t in D then Walks(g, s, t, D[t]) else {}
  }

  lemma ShortestPathsAre(g: Graph, s: Node, D: map<Node, nat>, t: Node, p: seq<Node>)
    requires Distances(g, s, D)
    ensures p in ShortestPaths(g, s, D, t) <==>
            IsPath(g.edges, p, s, t) && forall q :: IsPath(g.edges, q, s, t) ==> |p| <= |q|
  {
    if t in D {
      WalksArePaths(g, s, t, D[t], p);
      var r := PathTo(g, s, D, t);
    }
    if IsPath(g.edges, p, s, t) { PathIsLong(g, s, D, t, p); }
    if p in ShortestPaths(g, s, D, t) {
      forall q | IsPath(g.edges, q, s, t) ensures |p| <= |q| { PathIsLong(g, s, D, t, q); }
    }
  }

  lemma SigmaCounts(g: Graph, s: Node, D: map<Node, nat>, t: Node)
    requires Distances(g, s, D)
    ensures Sigma(g, s, D)(t) == |ShortestPaths(g, s, D, t)| as real
    ensures t in D ==> Sigma(g, s, D)(t) >= 1.0
  {
    if t in D {
      WalksCount(g, s, t, D[t]);
      var p := PathTo(g, s, D, t);
      WalksArePaths(g, s, t, D[t], p);
      assert Walks(g, s, t, D[t]) != {};
    }
  }

  lemma NoWalk(g: Graph, s: Node, D: map<Node, nat>, t: Node, w: Node, r: nat)
    requires Distances(g, s, D) && w in D && (t in D ==> D[t] > D[w] + r)
    ensures Num(g, w, t, r) == 0.0
  {
    forall p | p in Walks(g, w, t, r) ensures false {
      WalksArePaths(g, w, t, r, p);
      var q := PathTo(g, s, D, w);
      PathJoin(g.edges, q, p, s, w, t);
      PathIsLong(g, s, D, t, q + p[1..]);
    }
    assert Walks(g, w, t, r) == {};
    WalksCount(g, w, t, r);
  }

  /** The nodes one hop further from s than v, reached by an edge from v. */
  ghost function Next(g: Graph, D: map<Node, nat>, v: Node): set<Node> {
    set w | w in D && v in D && D[w] == D[v] + 1 && w in Succs(g, v)
  }

  /** The nodes one hop closer to s than w, with an edge to w. */
  ghost function Parents(g: Graph, D: map<Node, nat>, w: Node): set<Node> {
    set v | v in D && w in D && D[w] == D[v] + 1 && v in Preds(g, w)
  }

  // ----- The fraction of shortest paths through a node -----

  ghost function Quotient(a: real, b: real): real {
    if b == 0.0 then 0.0 else a / b
  }

  /** The shortest paths from s to t that pass through v. */
  ghost function Through(g: Graph, s: Node, D: map<Node, nat>, t: Node, v: Node): set<seq<Node>> {
    set p | p in ShortestPaths(g, s, D, t) && v in p
  }

  /** (t, v) => the fraction of the shortest paths from s to t that pass through v. */
  ghost function Shares(g: Graph, s: Node, D: map<Node, nat>): (Node, Node) -> real {
    (t, v) => Quotient(|Through(g, s, D, t, v)| as real, |ShortestPaths(g, s, D, t)| as real)
  }

  /** v => the number of ways to complete a shortest path from s through v to t. */
  ghost function Completions(g: Graph, D: map<Node, nat>, t: Node): Node -> real {
    v => if t in D && v in D && D[v] <= D[t] then Num(g, v, t, D[t] - D[v]) else 0.0
  }

  /** The i-th node of a shortest path is i hops away. */
  lemma OnShortest(g: Graph, s: Node, D: map<Node, nat>, t: Node, p: seq<Node>, i: nat)
    requires Distances(g, s, D) && p in ShortestPaths(g, s, D, t) && i < |p|
    ensures t in D && |p| == D[t] + 1 && p[i] in D && D[p[i]] == i
  {
    WalksArePaths(g, s, t, D[t], p);
    PathSplit(g.edges, p, s, t, i);
    PathIsLong(g, s, D, p[i], p[..i + 1]);
    var q := PathTo(g, s, D, p[i]);
    PathJoin(g.edges, q, p[i..], s, p[i], t);
    PathIsLong(g, s, D, t, q + p[i..][1..]);
  }

  lemma ThroughIsVia(g: Graph, s: Node, D: map<Node, nat>, t: Node, v: Node, i: nat, r: nat)
    requires Distances(g, s, D) && v in D && t in D && D[v] == i && D[t] == i + r
    ensures Through(g, s, D, t, v) == Via(g, s, t, i + r, i, v)
  {
    forall p | p in Through(g, s, D, t, v) ensures p in Via(g, s, t, i + r, i, v) {
      var j :| 0 <= j < |p| && p[j] == v;
      OnShortest(g, s, D, t, p, j);
    }
  }

  lemma ThroughNothing(g: Graph, s: Node, D: map<Node, nat>, t: Node, v: Node)
    requires Distances(g, s, D) && v != t && (v in D && t in D ==> D[t] <= D[v])
    ensures Through(g, s, D, t, v) == {}
    ensures Shares(g, s, D)(t, v) == 0.0
  {
    forall p | p in Through(g, s, D, t, v) ensures false {
      var i :| 0 <= i < |p| && p[i] == v;
      ShortestPathsAre(g, s, D, t, p);
      OnShortest(g, s, D, t, p, i);
    }
  }

  lemma QuotientTimes(a: real, b: real)
    requires b != 0.0
    ensures Mul(Quotient(a, b), b) == a
  {
  }

  lemma ShareTimes(g: Graph, s: Node, D: map<Node, nat>, t: Node, v: Node)
    requires Distances(g, s, D) && t in D
    ensures Mul(Shares(g, s, D)(t, v), Sigma(g, s, D)(t)) == |Through(g, s, D, t, v)| as real
  {
    SigmaCounts(g, s, D, t);
    QuotientTimes(|Through(g, s, D, t, v)| as real, |ShortestPaths(g, s, D, t)| as real);
  }

  lemma ThroughCount(g: Graph, s: Node, D: map<Node, nat>, t: Node, v: Node)
    requires Distances(g, s, D) && v in D && t in D
    ensures |Through(g, s, D, t, v)| as real == Mul(Sigma(g, s, D)(v), Completions(g, D, t)(v))
  {
    if D[v] <= D[t] {
      ThroughIsVia(g, s, D, t, v, D[v], D[t] - D[v]);
      ViaProduct(g, s, t, D[v], D[t] - D[v], v);
    } else {
      ThroughNothing(g, s, D, t, v);
    }
  }

  lemma CompletionsStep(g: Graph, s: Node, D: map<Node, nat>, t: Node, v: Node)
    requires Distances(g, s, D) && v in D && t in D && v != t
    ensures Completions(g, D, t)(v) == Sum(Next(g, D, v), Completions(g, D, t))
  {
    var f, N := Completions(g, D, t), Next(g, D, v);
    if D[t] > D[v] {
      var r := D[t] - D[v] - 1;
      NumCons(g, v, t, r);
      forall w | w in Succs(g, v) - N ensures NumTo(g, t, r)(w) == 0.0 {
        EdgeIsShort(g, s, D, v, w);
        NoWalk(g, s, D, t, w, r);
      }
      SumRestrict(Succs(g, v), N, NumTo(g, t, r));
      SumSame(N, NumTo(g, t, r), f);
    } else {
      SumRestrict(N, {}, f);
    }
  }

  /** w => the fraction of the shortest paths to w that arrive there from v. */
  ghost function Flow(g: Graph, s: Node, D: map<Node, nat>, v: Node): Node -> real {
    w => Quotient(SigmaOf(g, s, D, v), SigmaOf(g, s, D, w))
  }

  lemma FlowTimes(g: Graph, s: Node, D: map<Node, nat>, v: Node, w: Node)
    requires Distances(g, s, D) && w in D
    ensures Mul(Flow(g, s, D, v)(w), Sigma(g, s, D)(w)) == Sigma(g, s, D)(v)
  {
    SigmaCounts(g, s, D, w);
    QuotientTimes(SigmaOf(g, s, D, v), SigmaOf(g, s, D, w));
  }

  lemma FlowTimesAll(g: Graph, s: Node, D: map<Node, nat>, v: Node)
    requires Distances(g, s, D)
    ensures forall w :: w in D ==> Mul(Flow(g, s, D, v)(w), Sigma(g, s, D)(w)) == Sigma(g, s, D)(v)
  {
    forall w | w in D ensures Mul(Flow(g, s, D, v)(w), Sigma(g, s, D)(w)) == Sigma(g, s, D)(v) {
      FlowTimes(g, s, D, v, w);
    }
  }

  lemma ShareBalance(g: Graph, s: Node, D: map<Node, nat>, t: Node, v: Node)
    requires Distances(g, s, D) && t in D && v in D
    ensures Mul(Row(Shares(g, s, D), t)(v), Sigma(g, s, D)(t)) == Mul(Sigma(g, s, D)(v), Completions(g, D, t)(v))
  {
    ShareTimes(g, s, D, t, v);
    ThroughCount(g, s, D, t, v);
  }

  lemma ShareBalances(g: Graph, s: Node, D: map<Node, nat>, t: Node)
    requires Distances(g, s, D) && t in D
    ensures forall w :: w in D ==>
              Mul(Row(Shares(g, s, D), t)(w), Sigma(g, s, D)(t)) == Mul(Sigma(g, s, D)(w), Completions(g, D, t)(w))
  {
    forall w | w in D
      ensures Mul(Row(Shares(g, s, D), t)(w), Sigma(g, s, D)(t)) == Mul(Sigma(g, s, D)(w), Completions(g, D, t)(w))
    {
      ShareBalance(g, s, D, t, w);
    }
  }

  /** The algebra of splitting a share over the next hops, with all quantities abstract. */
  lemma SplitShare(R: set<Node>, N: set<Node>, flow: Node -> real, sigma: Node -> real,
                   share: Node -> real, rest: Node -> real, t: Node, v: Node)
    requires N <= R && v in R && sigma(t) != 0.0
    requires forall w :: w in R ==> Mul(share(w), sigma(t)) == Mul(sigma(w), rest(w))
    requires forall w :: w in R ==> Mul(flow(w), sigma(w)) == sigma(v)
    requires rest(v) == Sum(N, rest)
    ensures share(v) == Sum(N, Product(flow, share))
  {
    var st, sv := sigma(t), sigma(v);
    forall w | w in N ensures Scaled(sv, rest)(w) == Mul(st, Product(flow, share)(w)) {
      Rearrange(st, sv, flow(w), sigma(w), share(w), rest(w));
    }
    SumProportional(N, Scaled(sv, rest), Product(flow, share), st);
    SumScale(N, rest, sv);
    CancelFactor(st, share(v), Sum(N, Product(flow, share)));
  }

  lemma Rearrange(st: real, sv: real, f: real, sw: real, h: real, r: real)
    requires Mul(h, st) == Mul(sw, r) && Mul(f, sw) == sv
    ensures Mul(sv, r) == Mul(st, Mul(f, h))
  {
    assert st * (f * h) == f * (h * st);
    assert f * (sw * r) == (f * sw) * r;
  }

  lemma CancelFactor(c: real, x: real, y: real)
    requires c != 0.0 && Mul(c, x) == Mul(c, y)
    ensures x == y
  {
  }

  /** Shortest paths through v split over the next hop after v. */
  lemma ShareStep(g: Graph, s: Node, D: map<Node, nat>, t: Node, v: Node)
    requires Distances(g, s, D) && t in D && v in D && v != t
    ensures Shares(g, s, D)(t, v) == Sum(Next(g, D, v), Product(Flow(g, s, D, v), Row(Shares(g, s, D), t)))
  {
    ShareBalances(g, s, D, t);
    FlowTimesAll(g, s, D, v);
    SigmaCounts(g, s, D, t);
    CompletionsStep(g, s, D, t, v);
    SplitShare(D.Keys, Next(g, D, v), Flow(g, s, D, v), Sigma(g, s, D), Row(Shares(g, s, D), t),
      Completions(g, D, t), t, v);
  }

  // ----- Brandes' recurrence -----

  /** The dependency of s on v: over all other reachable targets, the fraction of shortest paths using v. */
  ghost function DependencyOf(g: Graph, s: Node, D: map<Node, nat>, v: Node): real {
    Sum(D.Keys - {v}, Col(Shares(g, s, D), v))
  }

  ghost function Dependency(g: Graph, s: Node, D: map<Node, nat>): Node -> real {
    v => DependencyOf(g, s, D, v)
  }

  ghost function OnePlus(f: Node -> real): Node -> real {
    w => 1.0 + f(w)
  }

  lemma ShareSelf(g: Graph, s: Node, D: map<Node, nat>, t: Node)
    requires Distances(g, s, D) && t in D
    ensures Shares(g, s, D)(t, t) == 1.0
  {
    SigmaCounts(g, s, D, t);
    forall p | p in ShortestPaths(g, s, D, t) ensures t in p {
      WalksArePaths(g, s, t, D[t], p);
      assert p[|p| - 1] == t;
    }
    assert Through(g, s, D, t, t) == ShortestPaths(g, s, D, t);
  }

  lemma DependencyOneHop(g: Graph, s: Node, D: map<Node, nat>, v: Node, w: Node)
    requires Distances(g, s, D) && v in D && w in Next(g, D, v)
    ensures ColSum(Shares(g, s, D), D.Keys - {v})(w) == OnePlus(Dependency(g, s, D))(w)
  {
    var f := Col(Shares(g, s, D), w);
    SumPick(D.Keys, f, v);
    SumPick(D.Keys, f, w);
    ThroughNothing(g, s, D, v, w);
    ShareSelf(g, s, D, w);
  }

  /** Brandes' recurrence: the dependency on v comes from the nodes one hop further out. */
  lemma DependencyStep(g: Graph, s: Node, D: map<Node, nat>, v: Node)
    requires Distances(g, s, D) && v in D
    ensures Dependency(g, s, D)(v) == Sum(Next(g, D, v), Product(Flow(g, s, D, v), OnePlus(Dependency(g, s, D))))
  {
    var R, N, c, F := D.Keys - {v}, Next(g, D, v), Flow(g, s, D, v), Shares(g, s, D);
    forall t | t in R ensures Col(F, v)(t) == WeightedRows(c, F, N)(t) {
      ShareStep(g, s, D, t, v);
    }
    SumSame(R, Col(F, v), WeightedRows(c, F, N));
    SumSwapWeighted(R, N, c, F);
    forall w | w in N ensures ColSum(F, R)(w) == OnePlus(Dependency(g, s, D))(w) {
      DependencyOneHop(g, s, D, v, w);
    }
    SumProductSame(N, c, ColSum(F, R), OnePlus(Dependency(g, s, D)));
  }

  lemma DependencyUnreached(g: Graph, s: Node, D: map<Node, nat>, v: Node)
    requires Distances(g, s, D) && v !in D
    ensures DependencyOf(g, s, D, v) == 0.0
  {
    var f := Col(Shares(g, s, D), v);
    forall t | t in D.Keys - {v} ensures f(t) == 0.0 { ThroughNothing(g, s, D, t, v); }
    SumRestrict(D.Keys - {v}, {}, f);
  }
}
