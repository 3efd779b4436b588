/** Conservation of dependency: level by level, and in total. */
module BrandesLevels {
  import opened Graphs
  import opened Sums
  import opened PathCounts
  import opened Dependencies
  import B = Brandes

  ghost function Level(D: map<Node, nat>, d: nat): set<Node> {
    set n | n in D && D[n] == d
  }

  ghost function Beyond(D: map<Node, nat>, d: nat): set<Node> {
    set n | n in D && D[n] > d
  }

  ghost function ThroughOf(g: Graph, s: Node, D: map<Node, nat>, t: Node): Node -> set<seq<Node>> {
    v => Through(g, s, D, t, v)
  }

  /** Every shortest path of at least d hops crosses level d exactly once. */
  lemma CrossesOnce(g: Graph, s: Node, D: map<Node, nat>, t: Node, d: nat)
    requires Distances(g, s, D) && t in D && d <= D[t]
    ensures |ShortestPaths(g, s, D, t)| as real == Sum(Level(D, d), SizeOf(ThroughOf(g, s, D, t)))
  {
    var L, F, all := Level(D, d), ThroughOf(g, s, D, t), ShortestPaths(g, s, D, t);
    forall p ensures p in all <==> exists v :: v in L && p in F(v) {
      if p in all {
        WalksArePaths(g, s, t, D[t], p);
        OnShortest(g, s, D, t, p, d);
        assert p[d] in L && p in F(p[d]);
      }
    }
    forall v, w, p | v in L && w in L && p in F(v) && p in F(w) ensures v == w {
      var i :| 0 <= i < |p| && p[i] == v;
      var j :| 0 <= j < |p| && p[j] == w;
      OnShortest(g, s, D, t, p, i);
      OnShortest(g, s, D, t, p, j);
    }
    UnionSize(L, F, all);
  }

  lemma QuotientSplit(a: real, b: real)
    requires b != 0.0
    ensures Quotient(a, b) == Mul(1.0 / b, a) && Mul(1.0 / b, b) == 1.0
  {
  }

  /** Summed over the nodes of level d, the shares of one target are 1 if it lies that far out and 0 if not. */
  lemma LevelShare(g: Graph, s: Node, D: map<Node, nat>, t: Node, d: nat)
    requires Distances(g, s, D) && t in D
    ensures Sum(Level(D, d), Row(Shares(g, s, D), t)) == if D[t] >= d then 1.0 else 0.0
  {
    var L, f := Level(D, d), Row(Shares(g, s, D), t);
    if D[t] >= d {
      var n := |ShortestPaths(g, s, D, t)| as real;
      var F := SizeOf(ThroughOf(g, s, D, t));
      assert n != 0.0 by { SigmaCounts(g, s, D, t); }
      forall v | v in L ensures f(v) == Mul(1.0 / n, F(v)) { QuotientSplit(F(v), n); }
      SumProportional(L, f, F, 1.0 / n);
      CrossesOnce(g, s, D, t, d);
      QuotientSplit(n, n);
    } else {
      forall v | v in L ensures f(v) == 0.0 { ThroughNothing(g, s, D, t, v); }
      SumRestrict(L, {}, f);
    }
  }

  lemma WithSelf(g: Graph, s: Node, D: map<Node, nat>, v: Node)
    requires Distances(g, s, D) && v in D
    ensures ColSum(Shares(g, s, D), D.Keys)(v) == OnePlus(Dependency(g, s, D))(v)
  {
    SumPick(D.Keys, Col(Shares(g, s, D), v), v);
    ShareSelf(g, s, D, v);
  }

  /** The dependencies of the nodes at distance d sum to the number of nodes farther away than d. */
  lemma LevelConservation(g: Graph, s: Node, D: map<Node, nat>, d: nat)
    requires Distances(g, s, D)
    ensures Sum(Level(D, d), Dependency(g, s, D)) == |Beyond(D, d)| as real
  {
    var L, F, f := Level(D, d), Shares(g, s, D), Dependency(g, s, D);
    var far := L + Beyond(D, d);
    SumSwap(D.Keys, L, F);
    assert Sum(D.Keys, RowSum(F, L)) == |far| as real by {
      forall t | t in D.Keys ensures RowSum(F, L)(t) == if t in far then 1.0 else 0.0 { LevelShare(g, s, D, t, d); }
      SumRestrict(D.Keys, far, RowSum(F, L));
      SumOnes(far, RowSum(F, L));
    }
    forall v | v in L ensures ColSum(F, D.Keys)(v) == OnePlus(f)(v) { WithSelf(g, s, D, v); }
    SumSame(L, ColSum(F, D.Keys), OnePlus(f));
    var one := (v: Node) => 1.0;
    SumAdd(L, one, f, OnePlus(f));
    SumOnes(L, one);
  }

  // ----- The total added by one source -----

  ghost function Inner(D: map<Node, nat>, m: nat): set<Node> {
    set n | n in D && 1 <= D[n] <= m
  }

  ghost function Capped(D: map<Node, nat>, m: nat): Node -> real {
    n => if n in D && D[n] > 0 then (if D[n] - 1 <= m then D[n] - 1 else m) as real else 0.0
  }

  ghost function IsBeyond(D: map<Node, nat>, m: nat): Node -> real {
    n => if n in Beyond(D, m) then 1.0 else 0.0
  }

  lemma CappedStep(D: map<Node, nat>, k: nat, m: nat)
    requires m == k + 1
    ensures Sum(D.Keys, Capped(D, m)) == Sum(D.Keys, Capped(D, k)) + |Beyond(D, m)| as real
  {
    SumRestrict(D.Keys, Beyond(D, m), IsBeyond(D, m));
    SumOnes(Beyond(D, m), IsBeyond(D, m));
    SumAdd(D.Keys, Capped(D, k), IsBeyond(D, m), Capped(D, m));
  }

  lemma InnerStep(g: Graph, s: Node, D: map<Node, nat>, k: nat, m: nat)
    requires Distances(g, s, D) && m == k + 1
    ensures Sum(Inner(D, m), Dependency(g, s, D)) == Sum(Inner(D, k), Dependency(g, s, D)) + |Beyond(D, m)| as real
  {
    assert Inner(D, m) == Inner(D, k) + Level(D, m);
    SumSplit(Inner(D, k), Level(D, m), Dependency(g, s, D));
    LevelConservation(g, s, D, m);
  }

  lemma NothingInside(D: map<Node, nat>, f: Node -> real)
    ensures Sum(Inner(D, 0), f) == 0.0 == Sum(D.Keys, Capped(D, 0))
  {
    assert Inner(D, 0) == {};
    SumRestrict(D.Keys, {}, Capped(D, 0));
  }

  lemma {:induction false} TotalUpTo(g: Graph, s: Node, D: map<Node, nat>, m: nat)
    requires Distances(g, s, D)
    ensures Sum(Inner(D, m), Dependency(g, s, D)) == Sum(D.Keys, Capped(D, m))
  {
    if m == 0 {
      NothingInside(D, Dependency(g, s, D));
    } else {
      var k := m - 1;
      TotalUpTo(g, s, D, k);
      InnerStep(g, s, D, k, m);
      CappedStep(D, k, m);
    }
  }

  lemma {:induction false} Bounded(D: map<Node, nat>, S: set<Node>) returns (m: nat)
    requires S <= D.Keys
    ensures forall n :: n in S ==> D[n] <= m
    decreases |S|
  {
    if S == {} {
      m := 0;
    } else {
      var x :| x in S;
      var k := Bounded(D, S - {x});
      m := if D[x] <= k then k else D[x];
    }
  }

  ghost function DistanceLessOne(D: map<Node, nat>): Node -> real {
    n => if n in D then D[n] as real - 1.0 else 0.0
  }

  /** One source adds, over all other reachable nodes, exactly the sum of their distances less one. */
  lemma TotalConservation(g: Graph, s: Node, D: map<Node, nat>)
    requires Distances(g, s, D)
    ensures Sum(D.Keys - {s}, Dependency(g, s, D)) == Sum(D.Keys - {s}, DistanceLessOne(D))
  {
    var m := Bounded(D, D.Keys);
    TotalUpTo(g, s, D, m);
    SourceIsNear(g, s, D);
    assert Inner(D, m) == D.Keys - {s} by {
      forall n | n in D && n != s ensures D[n] >= 1 { var p := PathTo(g, s, D, n); }
    }
    SumRestrict(D.Keys, D.Keys - {s}, Capped(D, m));
    SumSame(D.Keys - {s}, Capped(D, m), DistanceLessOne(D));
  }

  /** For a node other than the source, only targets other than both contribute. */
  lemma DependencyPairs(g: Graph, s: Node, D: map<Node, nat>, v: Node)
    requires Distances(g, s, D) && v != s
    ensures DependencyOf(g, s, D, v) == Sum(D.Keys - {v, s}, Col(Shares(g, s, D), v))
  {
    SourceIsNear(g, s, D);
    ThroughNothing(g, s, D, s, v);
    SumRestrict(D.Keys - {v}, D.Keys - {v, s}, Col(Shares(g, s, D), v));
  }

  /** What one run of brandesBFS adds to the score of a node. */
  ghost function Added(local0: map<Node, real>, local: map<Node, real>): Node -> real {
    n => B.Get(local, n) - B.Get(local0, n)
  }

  /** The scores grow by the conserved amounts: at every level beyond the source by the number of nodes farther out,
      and in total by the distances less one. */
  lemma ScoresConserve(g: Graph, s: Node, D: map<Node, nat>, local0: map<Node, real>, local: map<Node, real>)
    requires Distances(g, s, D) && B.Contributed(g, s, local0, local)
    ensures Sum(D.Keys - {s}, Added(local0, local)) == Sum(D.Keys - {s}, DistanceLessOne(D))
    ensures forall d: nat {:trigger Level(D, d)} :: d > 0 ==>
            Sum(Level(D, d), Added(local0, local)) == |Beyond(D, d)| as real
  {
    var added, f := Added(local0, local), Dependency(g, s, D);
    forall n | n != s ensures added(n) == f(n) {
      AddedIs(g, s, D, local0, local, n);
    }
    SumSame(D.Keys - {s}, added, f);
    TotalConservation(g, s, D);
    SourceIsNear(g, s, D);
    forall d: nat | d > 0 ensures Sum(Level(D, d), added) == |Beyond(D, d)| as real {
      SumSame(Level(D, d), added, f);
      LevelConservation(g, s, D, d);
    }
  }

  lemma AddedIs(g: Graph, s: Node, D: map<Node, nat>, local0: map<Node, real>, local: map<Node, real>, n: Node)
    requires Distances(g, s, D) && B.Contributed(g, s, local0, local) && n != s
    ensures Added(local0, local)(n) == Dependency(g, s, D)(n)
  {
    var dependency := DependencyOf(g, s, D, n);
    assert B.Get(local, n) == B.Get(local0, n) + dependency;
  }
}
