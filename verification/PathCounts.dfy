/** Counting paths: how many k-hop paths there are, and how many of them pass through a node. */
module PathCounts {
  import opened Graphs
  import opened Sums

  /** A finite graph whose edges join its nodes. */
  datatype Graph = Graph(nodes: set<Node>, edges: set<Edge>)

  ghost predicate Closed(g: Graph) {
    forall a, b :: Edge(a, b) in g.edges ==> a in g.nodes && b in g.nodes
  }

  ghost function Preds(g: Graph, b: Node): set<Node> {
    set v | v in g.nodes && Edge(v, b) in g.edges
  }

  ghost function Succs(g: Graph, a: Node): set<Node> {
    set w | w in g.nodes && Edge(a, w) in g.edges
  }

  // ----- Numbers of paths, by recursion on the last edge -----

  /** The number of k-hop paths from a to b. */
  ghost function Num(g: Graph, a: Node, b: Node, k: nat): real
    decreases k
  {
    if k == 0 then (if a == b then 1.0 else 0.0)
    else Sum(Preds(g, b), v => Num(g, a, v, k - 1))
  }

  ghost function NumFrom(g: Graph, a: Node, k: nat): Node -> real {
    v => Num(g, a, v, k)
  }

  ghost function NumTo(g: Graph, b: Node, k: nat): Node -> real {
    w => Num(g, w, b, k)
  }

  lemma NumSnoc(g: Graph, a: Node, b: Node, k: nat)
    ensures Num(g, a, b, k + 1) == Sum(Preds(g, b), NumFrom(g, a, k))
  {
    SumSame(Preds(g, b), v => Num(g, a, v, k), NumFrom(g, a, k));
  }

  lemma NumOneHop(g: Graph, a: Node, b: Node)
    requires Closed(g)
    ensures Sum(Preds(g, b), NumFrom(g, a, 0)) == Sum(Succs(g, a), NumTo(g, b, 0))
  {
    var P, S := Preds(g, b) * {a}, Succs(g, a) * {b};
    SumRestrict(Preds(g, b), P, NumFrom(g, a, 0));
    SumOnes(P, NumFrom(g, a, 0));
    SumRestrict(Succs(g, a), S, NumTo(g, b, 0));
    SumOnes(S, NumTo(g, b, 0));
    if Edge(a, b) in g.edges {
      assert P == {a} && S == {b};
    } else {
      assert P == {} && S == {};
    }
  }

  ghost function Middle(g: Graph, k: nat): (Node, Node) -> real {
    (v, w) => Num(g, w, v, k)
  }

  lemma NumSwap(g: Graph, P: set<Node>, S: set<Node>, a: Node, b: Node, k: nat)
    requires forall v :: NumFrom(g, a, k + 1)(v) == Sum(S, NumTo(g, v, k))
    requires forall w :: NumTo(g, b, k + 1)(w) == Sum(P, NumFrom(g, w, k))
    ensures Sum(P, NumFrom(g, a, k + 1)) == Sum(S, NumTo(g, b, k + 1))
  {
    var F := Middle(g, k);
    forall v | v in P ensures NumFrom(g, a, k + 1)(v) == RowSum(F, S)(v) {
      SumSame(S, NumTo(g, v, k), Row(F, v));
    }
    SumSame(P, NumFrom(g, a, k + 1), RowSum(F, S));
    SumSwap(P, S, F);
    forall w | w in S ensures NumTo(g, b, k + 1)(w) == ColSum(F, P)(w) {
      SumSame(P, NumFrom(g, w, k), Col(F, w));
    }
    SumSame(S, NumTo(g, b, k + 1), ColSum(F, P));
  }

  /** Counting k + 1 hop paths by their first edge. */
  lemma {:induction false} NumCons(g: Graph, a: Node, b: Node, k: nat)
    requires Closed(g)
    ensures Num(g, a, b, k + 1) == Sum(Succs(g, a), NumTo(g, b, k))
    decreases k
  {
    NumSnoc(g, a, b, k);
    if k == 0 {
      NumOneHop(g, a, b);
    } else {
      forall v ensures NumFrom(g, a, k)(v) == Sum(Succs(g, a), NumTo(g, v, k - 1)) {
        NumCons(g, a, v, k - 1);
      }
      forall w ensures NumTo(g, b, k)(w) == Sum(Preds(g, b), NumFrom(g, w, k - 1)) {
        NumSnoc(g, w, b, k - 1);
      }
      NumSwap(g, Preds(g, b), Succs(g, a), a, b, k - 1);
    }
  }

  // ----- The paths themselves -----

  ghost predicate AllWalks(g: Graph, a: Node, b: Node, k: nat, W: set<seq<Node>>) {
    forall p {:trigger p in W} {:trigger IsPath(g.edges, p, a, b)} ::
      p in W <==> IsPath(g.edges, p, a, b) && |p| == k + 1
  }

  lemma {:induction false} WalksExist(g: Graph, a: Node, b: Node, k: nat)
    ensures exists W :: AllWalks(g, a, b, k, W)
    decreases k
  {
    if k == 0 {
      var W := if a == b then {[a]} else {};
      forall p | IsPath(g.edges, p, a, b) && |p| == 1 ensures p == [a] {}
      assert a == b ==> IsPath(g.edges, [a], a, b);
      assert AllWalks(g, a, b, 0, W);
    } else {
      var j := k - 1;
      var ends := set e | e in g.edges && e.dst == b :: e.src;
      forall v | v in ends ensures exists W :: AllWalks(g, a, v, j, W) { WalksExist(g, a, v, j); }
      var shorter := map v | v in ends :: var W :| AllWalks(g, a, v, j, W); W;
      var W := set v, q | v in ends && q in shorter[v] :: q + [b];
      forall p ensures p in W <==> IsPath(g.edges, p, a, b) && |p| == k + 1 {
        if p in W {
          var v, q :| v in ends && q in shorter[v] && p == q + [b];
          var e :| e in g.edges && e.dst == b && e.src == v;
          assert e == Edge(v, b);
          PathSnoc(g.edges, q, a, v, b);
        }
        if IsPath(g.edges, p, a, b) && |p| == k + 1 {
          var v, q := LastStep(g, p, a, b);
          assert Edge(v, b).dst == b && Edge(v, b).src == v;
          assert v in ends && AllWalks(g, a, v, j, shorter[v]);
          assert q in shorter[v];
        }
      }
      assert AllWalks(g, a, b, k, W);
    }
  }

  lemma LastStep(g: Graph, p: seq<Node>, a: Node, b: Node) returns (v: Node, q: seq<Node>)
    requires IsPath(g.edges, p, a, b) && |p| > 1
    ensures Edge(v, b) in g.edges && IsPath(g.edges, q, a, v) && p == q + [b] && v == p[|p| - 2]
  {
    v, q := p[|p| - 2], p[..|p| - 1];
    PathSplit(g.edges, p, a, b, |p| - 2);
    assert Edge(p[|p| - 2], p[|p| - 1]) in g.edges;
  }

  /** All paths of exactly k hops from a to b. */
  ghost function Walks(g: Graph, a: Node, b: Node, k: nat): set<seq<Node>> {
    WalksExist(g, a, b, k);
    var W :| AllWalks(g, a, b, k, W);
    W
  }

  lemma WalksArePaths(g: Graph, a: Node, b: Node, k: nat, p: seq<Node>)
    ensures p in Walks(g, a, b, k) <==> IsPath(g.edges, p, a, b) && |p| == k + 1
  {
  }

  lemma NoHops(g: Graph, a: Node, b: Node)
    ensures Walks(g, a, b, 0) == if a == b then {[a]} else {}
  {
    forall p ensures p in Walks(g, a, b, 0) <==> a == b && p == [a] {
      WalksArePaths(g, a, b, 0, p);
    }
  }

  /** The k-hop paths from a to b whose i-th node is x. */
  ghost function Via(g: Graph, a: Node, b: Node, k: nat, i: nat, x: Node): set<seq<Node>> {
    set p | p in Walks(g, a, b, k) && i < |p| && p[i] == x
  }

  ghost function ViaFrom(g: Graph, a: Node, k: nat, i: nat, x: Node): Node -> set<seq<Node>> {
    v => Via(g, a, v, k, i, x)
  }

  ghost function Extended(S: set<seq<Node>>, b: Node): set<seq<Node>> {
    set p | p in S :: p + [b]
  }

  lemma ExtendedOne(S: set<seq<Node>>, b: Node, q: seq<Node>)
    ensures q in Extended(S, b) <==> q != [] && q[|q| - 1] == b && q[..|q| - 1] in S
  {
    if q != [] && q[|q| - 1] == b { assert q == q[..|q| - 1] + [b]; }
  }

  lemma {:induction false} ExtendedSize(S: set<seq<Node>>, b: Node)
    ensures |Extended(S, b)| == |S|
    decreases |S|
  {
    if S != {} {
      var p :| p in S;
      ExtendedSize(S - {p}, b);
      forall q ensures q in Extended(S, b) <==> q in Extended(S - {p}, b) + {p + [b]} {
        ExtendedOne(S, b, q);
        ExtendedOne(S - {p}, b, q);
        if q != [] && q[|q| - 1] == b { assert q == q[..|q| - 1] + [b]; }
      }
      assert Extended(S, b) == Extended(S - {p}, b) + {p + [b]};
      ExtendedOne(S - {p}, b, p + [b]);
    }
  }

  ghost function ExtendedVia(g: Graph, a: Node, b: Node, k: nat, i: nat, x: Node): Node -> set<seq<Node>> {
    v => Extended(Via(g, a, v, k, i, x), b)
  }

  lemma ViaLast(g: Graph, a: Node, b: Node, k: nat, i: nat, x: Node, p: seq<Node>)
    requires Closed(g)
    requires i < k
    ensures p in Via(g, a, b, k, i, x) <==>
            exists v :: v in Preds(g, b) && p in ExtendedVia(g, a, b, k - 1, i, x)(v)
  {
    WalksArePaths(g, a, b, k, p);
    if p in Via(g, a, b, k, i, x) {
      var v, q := LastStep(g, p, a, b);
      WalksArePaths(g, a, v, k - 1, q);
      assert q in Via(g, a, v, k - 1, i, x) && v in Preds(g, b);
      assert p in ExtendedVia(g, a, b, k - 1, i, x)(v);
    }
    if v :| v in Preds(g, b) && p in ExtendedVia(g, a, b, k - 1, i, x)(v) {
      var q :| q in Via(g, a, v, k - 1, i, x) && p == q + [b];
      WalksArePaths(g, a, v, k - 1, q);
      PathSnoc(g.edges, q, a, v, b);
      assert p[i] == q[i] == x;
    }
  }

  lemma ViaLastUnique(g: Graph, a: Node, b: Node, k: nat, i: nat, x: Node, p: seq<Node>, v: Node)
    requires p in ExtendedVia(g, a, b, k, i, x)(v)
    ensures |p| >= 2 && p[|p| - 2] == v
  {
    ExtendedOne(Via(g, a, v, k, i, x), b, p);
    WalksArePaths(g, a, v, k, p[..|p| - 1]);
  }

  lemma ViaSnoc(g: Graph, a: Node, b: Node, k: nat, i: nat, x: Node)
    requires Closed(g)
    requires i < k
    ensures |Via(g, a, b, k, i, x)| as real == Sum(Preds(g, b), SizeOf(ViaFrom(g, a, k - 1, i, x)))
  {
    var F := ExtendedVia(g, a, b, k - 1, i, x);
    forall p ensures p in Via(g, a, b, k, i, x) <==> exists v :: v in Preds(g, b) && p in F(v) {
      ViaLast(g, a, b, k, i, x, p);
    }
    forall v, w, p | p in F(v) && p in F(w) ensures v == w {
      ViaLastUnique(g, a, b, k - 1, i, x, p, v);
      ViaLastUnique(g, a, b, k - 1, i, x, p, w);
    }
    UnionSize(Preds(g, b), F, Via(g, a, b, k, i, x));
    forall v ensures SizeOf(F)(v) == SizeOf(ViaFrom(g, a, k - 1, i, x))(v) {
      ExtendedSize(Via(g, a, v, k - 1, i, x), b);
    }
    SumSame(Preds(g, b), SizeOf(F), SizeOf(ViaFrom(g, a, k - 1, i, x)));
  }

  lemma ViaStart(g: Graph, a: Node, b: Node, k: nat)
    ensures Via(g, a, b, k, 0, a) == Walks(g, a, b, k)
  {
    forall p | p in Walks(g, a, b, k) ensures p in Via(g, a, b, k, 0, a) {
      WalksArePaths(g, a, b, k, p);
    }
  }

  /** Num counts the paths. */
  lemma {:induction false} WalksCount(g: Graph, a: Node, b: Node, k: nat)
    requires Closed(g)
    ensures |Walks(g, a, b, k)| as real == Num(g, a, b, k)
    decreases k
  {
    if k == 0 {
      NoHops(g, a, b);
    } else {
      ViaStart(g, a, b, k);
      ViaSnoc(g, a, b, k, 0, a);
      forall v | v in Preds(g, b) ensures SizeOf(ViaFrom(g, a, k - 1, 0, a))(v) == NumFrom(g, a, k - 1)(v) {
        ViaStart(g, a, v, k - 1);
        WalksCount(g, a, v, k - 1);
      }
      SumSame(Preds(g, b), SizeOf(ViaFrom(g, a, k - 1, 0, a)), NumFrom(g, a, k - 1));
      NumSnoc(g, a, b, k - 1);
    }
  }

  lemma ViaEnd(g: Graph, a: Node, b: Node, k: nat, x: Node)
    requires Closed(g)
    ensures |Via(g, a, b, k, k, x)| as real == Mul(Num(g, a, x, k), Num(g, x, b, 0))
  {
    forall p | p in Walks(g, a, b, k) ensures k < |p| && p[k] == b {
      WalksArePaths(g, a, b, k, p);
    }
    if x == b {
      WalksCount(g, a, x, k);
      assert Via(g, a, b, k, k, x) == Walks(g, a, b, k);
    } else {
      assert Via(g, a, b, k, k, x) == {};
    }
    MulUnits(Num(g, a, x, k));
  }

  lemma MulUnits(c: real)
    ensures Mul(c, 1.0) == c && Mul(c, 0.0) == 0.0
  {
  }

  lemma ViaNext(g: Graph, a: Node, b: Node, i: nat, r: nat, x: Node)
    requires Closed(g)
    requires forall v :: v in Preds(g, b) ==>
               SizeOf(ViaFrom(g, a, i + r, i, x))(v) == Mul(Num(g, a, x, i), NumFrom(g, x, r)(v))
    ensures |Via(g, a, b, i + r + 1, i, x)| as real == Mul(Num(g, a, x, i), Num(g, x, b, r + 1))
  {
    ViaSnoc(g, a, b, i + r + 1, i, x);
    NumSnoc(g, x, b, r);
    SumProportional(Preds(g, b), SizeOf(ViaFrom(g, a, i + r, i, x)), NumFrom(g, x, r), Num(g, a, x, i));
  }

  /** A path through x at position i is a path to x followed by a path from x. */
  lemma {:induction false} ViaProduct(g: Graph, a: Node, b: Node, i: nat, r: nat, x: Node)
    requires Closed(g)
    ensures |Via(g, a, b, i + r, i, x)| as real == Mul(Num(g, a, x, i), Num(g, x, b, r))
    decreases r
  {
    if r == 0 {
      ViaEnd(g, a, b, i, x);
    } else {
      forall v | v in Preds(g, b)
        ensures SizeOf(ViaFrom(g, a, i + r - 1, i, x))(v) == Mul(Num(g, a, x, i), NumFrom(g, x, r - 1)(v))
      {
        ViaProduct(g, a, v, i, r - 1, x);
      }
      ViaNext(g, a, b, i, r - 1, x);
    }
  }
}
