/** Directed graphs as finite edge relations: paths, hop distance, reachability,
    reversal and the breadth-first "ball" that every traversal in the repository builds. */
module Graphs {

  /** A fully qualified name used as a graph key. */
  datatype Node = Node(name: string)

  datatype Edge = Edge(src: Node, dst: Node)

  ghost function Elems<T>(s: seq<T>): set<T> {
    set x | x in s
  }

  lemma ElemsSnoc<T>(s: seq<T>, i: nat)
    requires i < |s|
    ensures Elems(s[..i + 1]) == Elems(s[..i]) + {s[i]}
  {
    assert s[..i + 1] == s[..i] + [s[i]];
  }

  ghost predicate Distinct<T>(s: seq<T>) {
    forall i, j :: 0 <= i < j < |s| ==> s[i] != s[j]
  }

  /** Pigeonhole: a repetition-free sequence over a finite set is no longer than the set. */
  lemma {:induction false} DistinctBound<T>(s: seq<T>, U: set<T>)
    requires Distinct(s) && Elems(s) <= U
    ensures |s| <= |U|
  {
    if s != [] {
      var x := s[|s| - 1];
      assert x in Elems(s);
      var rest := s[..|s| - 1];
      forall y | y in Elems(rest) ensures y in U - {x} {
        assert y in Elems(s);
      }
      DistinctBound(rest, U - {x});
    }
  }

  lemma {:induction false} DistinctSize<T>(s: seq<T>)
    requires Distinct(s)
    ensures |Elems(s)| == |s|
  {
    if s != [] {
      var i := |s| - 1;
      DistinctSize(s[..i]);
      ElemsSnoc(s, i);
      assert s[..i + 1] == s;
    }
  }

  method ListNodes(nodes: set<Node>) returns (list: seq<Node>)
    ensures Distinct(list) && Elems(list) == nodes && |list| == |nodes|
  {
    list := [];
    var rest := nodes;
    while rest != {}
      invariant rest <= nodes && Distinct(list) && Elems(list) == nodes - rest
      invariant |list| + |rest| == |nodes|
    {
      var n :| n in rest;
      rest := rest - {n};
      assert n !in Elems(list);
      list := list + [n];
      assert Elems(list) == Elems(list[..|list| - 1]) + {n};
    }
  }

  // ----- Adjacency maps -----

  type AdjMap = map<Node, set<Node>>

  function Neighbours(adj: AdjMap, v: Node): set<Node> {
    if v in adj then adj[v] else {}
  }

  /** adj lists exactly the edges of E. */
  ghost predicate AdjacencyOf(adj: AdjMap, E: set<Edge>) {
    forall v, w :: w in Neighbours(adj, v) <==> Edge(v, w) in E
  }

  // ----- Paths -----

  /** p is a path from a to b; its hop count is |p| - 1. */
  ghost predicate IsPath(E: set<Edge>, p: seq<Node>, a: Node, b: Node) {
    && |p| > 0 && p[0] == a && p[|p| - 1] == b
    && forall i, j :: 0 <= i && j == i + 1 && j < |p| ==> Edge(p[i], p[j]) in E
  }

  ghost predicate Reach(E: set<Edge>, a: Node, b: Node) {
    exists p :: IsPath(E, p, a, b)
  }

  /** d is the number of hops of a shortest path from a to b. */
  ghost predicate IsDist(E: set<Edge>, a: Node, b: Node, d: nat) {
    && (exists p {:trigger IsPath(E, p, a, b)} :: IsPath(E, p, a, b) && |p| == d + 1)
    && (forall p {:trigger IsPath(E, p, a, b)} :: IsPath(E, p, a, b) ==> |p| >= d + 1)
  }

  lemma PathJoin(E: set<Edge>, p: seq<Node>, q: seq<Node>, a: Node, b: Node, c: Node)
    requires IsPath(E, p, a, b) && IsPath(E, q, b, c)
    ensures IsPath(E, p + q[1..], a, c)
  {
    var r := p + q[1..];
    forall i, j | 0 <= i && j == i + 1 && j < |r| ensures Edge(r[i], r[j]) in E {
      if j >= |p| {
        assert r[j] == q[j - |p| + 1];
        assert r[i] == q[i - |p| + 1];
      }
    }
  }

  lemma PathSnoc(E: set<Edge>, p: seq<Node>, a: Node, b: Node, c: Node)
    requires IsPath(E, p, a, b) && Edge(b, c) in E
    ensures IsPath(E, p + [c], a, c)
  {
    assert IsPath(E, [b, c], b, c);
    PathJoin(E, p, [b, c], a, b, c);
    assert p + [b, c][1..] == p + [c];
  }

  lemma PathSplit(E: set<Edge>, p: seq<Node>, a: Node, b: Node, i: nat)
    requires IsPath(E, p, a, b) && i < |p|
    ensures IsPath(E, p[..i + 1], a, p[i]) && IsPath(E, p[i..], p[i], b)
  {
  }

  lemma PathMono(E: set<Edge>, F: set<Edge>, p: seq<Node>, a: Node, b: Node)
    requires IsPath(E, p, a, b) && E <= F
    ensures IsPath(F, p, a, b)
  {
  }

  lemma ReachTrans(E: set<Edge>, a: Node, b: Node, c: Node)
    requires Reach(E, a, b) && Reach(E, b, c)
    ensures Reach(E, a, c)
  {
    var p :| IsPath(E, p, a, b);
    var q :| IsPath(E, q, b, c);
    PathJoin(E, p, q, a, b, c);
  }

  lemma ReachRefl(E: set<Edge>, a: Node)
    ensures Reach(E, a, a)
  {
    assert IsPath(E, [a], a, a);
  }

  lemma DistUnique(E: set<Edge>, a: Node, b: Node, d: nat, e: nat)
    requires IsDist(E, a, b, d) && IsDist(E, a, b, e)
    ensures d == e
  {
  }

  // ----- Reversal -----

  ghost function Reverse(E: set<Edge>): set<Edge> {
    set e | e in E :: Edge(e.dst, e.src)
  }

  ghost function Flip(p: seq<Node>): seq<Node> {
    seq(|p|, i requires 0 <= i < |p| => p[|p| - 1 - i])
  }

  lemma PathReverse(E: set<Edge>, p: seq<Node>, a: Node, b: Node)
    requires IsPath(E, p, a, b)
    ensures IsPath(Reverse(E), Flip(p), b, a) && |Flip(p)| == |p|
  {
    var r := Flip(p);
    forall i, j | 0 <= i && j == i + 1 && j < |r| ensures Edge(r[i], r[j]) in Reverse(E) {
      assert Edge(p[|p| - 1 - j], p[|p| - 1 - i]) in E;
    }
  }

  lemma ReverseTwice(E: set<Edge>)
    ensures Reverse(Reverse(E)) == E
  {
    forall e | e in E ensures e in Reverse(Reverse(E)) {
      assert Edge(e.dst, e.src) in Reverse(E);
    }
  }

  /** Hop distance from a to b equals hop distance from b to a in the reversed graph. */
  lemma DistReverse(E: set<Edge>, a: Node, b: Node, d: nat)
    ensures IsDist(E, a, b, d) <==> IsDist(Reverse(E), b, a, d)
  {
    if IsDist(E, a, b, d) { DistReverseOneWay(E, a, b, d); }
    if IsDist(Reverse(E), b, a, d) {
      DistReverseOneWay(Reverse(E), b, a, d);
      ReverseTwice(E);
    }
  }

  lemma DistReverseOneWay(E: set<Edge>, a: Node, b: Node, d: nat)
    requires IsDist(E, a, b, d)
    ensures IsDist(Reverse(E), b, a, d)
  {
    var p :| IsPath(E, p, a, b) && |p| == d + 1;
    PathReverse(E, p, a, b);
    forall q | IsPath(Reverse(E), q, b, a) ensures |q| >= d + 1 {
      PathReverse(Reverse(E), q, b, a);
      ReverseTwice(E);
    }
  }

  /** The node before the last on a shortest path. */
  lemma LastHop(E: set<Edge>, a: Node, w: Node, k: nat) returns (u: Node)
    requires IsDist(E, a, w, k + 1)
    ensures IsDist(E, a, u, k) && Edge(u, w) in E
  {
    var p :| IsPath(E, p, a, w) && |p| == k + 2;
    u := p[k];
    PathSplit(E, p, a, w, k);
    assert Edge(p[k], p[k + 1]) in E;
    forall q | IsPath(E, q, a, u) ensures |q| >= k + 1 { PathSnoc(E, q, a, u, w); }
    assert |p[..k + 1]| == k + 1;
  }

  ghost predicate ClosedUnder(E: set<Edge>, S: set<Node>) {
    forall a, b :: Edge(a, b) in E && a in S ==> b in S
  }

  lemma {:induction false} ClosedContains(E: set<Edge>, S: set<Node>, a: Node, b: Node, p: seq<Node>)
    requires ClosedUnder(E, S) && a in S && IsPath(E, p, a, b)
    ensures b in S && forall i :: 0 <= i < |p| ==> p[i] in S
    decreases |p|
  {
    if |p| > 1 {
      var i := |p| - 2;
      PathSplit(E, p, a, b, i);
      ClosedContains(E, S, a, p[i], p[..i + 1]);
      assert Edge(p[i], p[i + 1]) in E && p[..i + 1][i] == p[i];
    }
  }

  // ----- Balls: what a breadth-first search has seen after k levels -----

  ghost function Out(E: set<Edge>, S: set<Node>): set<Node> {
    set e | e in E && e.src in S :: e.dst
  }

  ghost function Ball(E: set<Edge>, a: Node, k: nat): set<Node> {
    if k == 0 then {a} else Ball(E, a, k - 1) + Out(E, Ball(E, a, k - 1))
  }

  /** The nodes first seen at level k. */
  ghost function Sphere(E: set<Edge>, a: Node, k: nat): set<Node> {
    if k == 0 then {a} else Ball(E, a, k) - Ball(E, a, k - 1)
  }

  lemma {:induction false} BallSound(E: set<Edge>, a: Node, b: Node, k: nat)
    requires b in Ball(E, a, k)
    ensures exists p :: IsPath(E, p, a, b) && |p| <= k + 1
    decreases k
  {
    if k == 0 {
      assert IsPath(E, [a], a, b);
    } else if b in Ball(E, a, k - 1) {
      BallSound(E, a, b, k - 1);
    } else {
      var e :| e in E && e.src in Ball(E, a, k - 1) && e.dst == b;
      BallSound(E, a, e.src, k - 1);
      var p :| IsPath(E, p, a, e.src) && |p| <= k;
      assert e == Edge(e.src, b);
      PathSnoc(E, p, a, e.src, b);
    }
  }

  lemma {:induction false} BallComplete(E: set<Edge>, a: Node, b: Node, p: seq<Node>, k: nat)
    requires IsPath(E, p, a, b) && |p| <= k + 1
    ensures b in Ball(E, a, k)
    decreases k
  {
    if k > 0 {
      if |p| <= k {
        BallComplete(E, a, b, p, k - 1);
      } else {
        PathSplit(E, p, a, b, k - 1);
        BallComplete(E, a, p[k - 1], p[..k], k - 1);
        assert Edge(p[k - 1], p[k]) in E;
      }
    }
  }

  lemma {:induction false} BallGrows(E: set<Edge>, a: Node, j: nat, k: nat)
    requires j <= k
    ensures Ball(E, a, j) <= Ball(E, a, k)
    decreases k
  {
    if j < k { BallGrows(E, a, j, k - 1); }
  }

  /** A node lies at hop distance d exactly when it enters the ball at level d. */
  lemma DistIsSphere(E: set<Edge>, a: Node, b: Node, d: nat)
    ensures IsDist(E, a, b, d) <==> b in Sphere(E, a, d)
  {
    if b in Sphere(E, a, d) {
      assert b in Ball(E, a, d);
      BallSound(E, a, b, d);
      var p :| IsPath(E, p, a, b) && |p| <= d + 1;
      forall q | IsPath(E, q, a, b) ensures |q| >= d + 1 {
        if |q| <= d { BallComplete(E, a, b, q, d - 1); }
      }
      assert |p| == d + 1;
    }
    if IsDist(E, a, b, d) {
      var p :| IsPath(E, p, a, b) && |p| == d + 1;
      BallComplete(E, a, b, p, d);
      if d > 0 && b in Ball(E, a, d - 1) { BallSound(E, a, b, d - 1); }
    }
  }

  /** Only the newest level has to be expanded. */
  lemma BallStep(E: set<Edge>, a: Node, d: nat)
    ensures Ball(E, a, d + 1) == Ball(E, a, d) + Out(E, Sphere(E, a, d))
  {
    if d > 0 {
      forall n | n in Out(E, Ball(E, a, d)) ensures n in Ball(E, a, d) + Out(E, Sphere(E, a, d)) {
        var e :| e in E && e.src in Ball(E, a, d) && e.dst == n;
        if e.src in Ball(E, a, d - 1) { assert n in Out(E, Ball(E, a, d - 1)); }
      }
    }
  }

  /** Once a level is empty the ball is the set of all reachable nodes. */
  lemma BallSaturated(E: set<Edge>, a: Node, d: nat)
    requires Sphere(E, a, d) == {}
    ensures forall n :: n in Ball(E, a, d) <==> Reach(E, a, n)
    ensures forall n, e: nat :: IsDist(E, a, n, e) ==> e < d
  {
    forall n ensures n in Ball(E, a, d) <==> Reach(E, a, n) {
      if n in Ball(E, a, d) { BallSound(E, a, n, d); }
      if Reach(E, a, n) {
        var p :| IsPath(E, p, a, n);
        BallComplete(E, a, n, p, |p|);
        BallStuck(E, a, d, |p|);
      }
    }
    forall n, e: nat | IsDist(E, a, n, e) ensures e < d {
      DistIsSphere(E, a, n, e);
      BallStuck(E, a, d, e);
    }
  }

  lemma {:induction false} BallStuck(E: set<Edge>, a: Node, d: nat, k: nat)
    requires Sphere(E, a, d) == {}
    ensures Ball(E, a, k) <= Ball(E, a, d)
    ensures k >= d ==> Sphere(E, a, k) == {}
  {
    if k <= d {
      BallGrows(E, a, k, d);
    } else {
      BallStuck(E, a, d, k - 1);
      EmptyLevel(E, a, k - 1, k);
    }
  }

  /** An empty level stops the growth. */
  lemma EmptyLevel(E: set<Edge>, a: Node, j: nat, k: nat)
    requires k == j + 1 && Sphere(E, a, j) == {}
    ensures Ball(E, a, k) == Ball(E, a, j) && Sphere(E, a, k) == {}
  {
    BallStep(E, a, j);
    assert Out(E, {}) == {};
  }

  /** Every reachable node has a hop distance. */
  lemma {:induction false} DistExists(E: set<Edge>, a: Node, b: Node, k: nat) returns (d: nat)
    requires b in Ball(E, a, k)
    ensures d <= k && IsDist(E, a, b, d)
  {
    if k == 0 || b !in Ball(E, a, k - 1) {
      d := k;
      DistIsSphere(E, a, b, d);
    } else {
      d := DistExists(E, a, b, k - 1);
    }
  }

  lemma ReachHasDist(E: set<Edge>, a: Node, b: Node)
    requires Reach(E, a, b)
    ensures exists d: nat :: IsDist(E, a, b, d)
  {
    var p :| IsPath(E, p, a, b);
    BallComplete(E, a, b, p, |p|);
    var d := DistExists(E, a, b, |p|);
  }

  ghost function Nodes(E: set<Edge>): set<Node> {
    (set e | e in E :: e.src) + (set e | e in E :: e.dst)
  }

  ghost function FirstLevel(E: set<Edge>, a: Node, b: Node, k: nat): int {
    if k > 0 && FirstLevel(E, a, b, k - 1) >= 0 then FirstLevel(E, a, b, k - 1)
    else if b in Ball(E, a, k) then k
    else -1
  }

  /** The hop distance as a value, -1 when there is no path: the first ball that contains b. */
  ghost function Dist(E: set<Edge>, a: Node, b: Node): int {
    FirstLevel(E, a, b, |Nodes(E)|)
  }

  lemma {:induction false} FirstLevelIs(E: set<Edge>, a: Node, b: Node, k: nat)
    ensures -1 <= FirstLevel(E, a, b, k) <= k
    ensures FirstLevel(E, a, b, k) >= 0 <==> b in Ball(E, a, k)
    ensures FirstLevel(E, a, b, k) >= 0 ==> IsDist(E, a, b, FirstLevel(E, a, b, k))
    decreases k
  {
    if k > 0 { FirstLevelIs(E, a, b, k - 1); }
    if FirstLevel(E, a, b, k) == k { DistIsSphere(E, a, b, k); }
  }

  lemma ShortestIsSimple(E: set<Edge>, a: Node, b: Node, p: seq<Node>, i: nat, j: nat)
    requires IsPath(E, p, a, b) && IsDist(E, a, b, |p| - 1) && i < j < |p|
    ensures p[i] != p[j]
  {
    if p[i] == p[j] {
      PathSplit(E, p, a, b, i);
      PathSplit(E, p, a, b, j);
      PathJoin(E, p[..i + 1], p[j..], a, p[i], b);
    }
  }

  /** Shortest paths have at most as many hops as the graph has nodes. */
  lemma DistBound(E: set<Edge>, a: Node, b: Node, d: nat)
    requires IsDist(E, a, b, d)
    ensures d <= |Nodes(E)|
  {
    var p :| IsPath(E, p, a, b) && |p| == d + 1;
    forall i, j | 0 <= i < j < |p| ensures p[i] != p[j] { ShortestIsSimple(E, a, b, p, i, j); }
    forall i | 0 <= i < |p[1..]| ensures p[1..][i] in Nodes(E) {
      assert Edge(p[i], p[i + 1]) in E;
    }
    DistinctBound(p[1..], Nodes(E));
  }

  /** Dist is the length of a shortest path, and -1 exactly when there is none. */
  lemma DistSpec(E: set<Edge>, a: Node, b: Node)
    ensures Dist(E, a, b) >= -1
    ensures Dist(E, a, b) >= 0 <==> Reach(E, a, b)
    ensures Dist(E, a, b) >= 0 ==> IsDist(E, a, b, Dist(E, a, b))
  {
    var k := |Nodes(E)|;
    FirstLevelIs(E, a, b, k);
    if Reach(E, a, b) {
      ReachHasDist(E, a, b);
      var d: nat :| IsDist(E, a, b, d);
      DistBound(E, a, b, d);
      DistIsSphere(E, a, b, d);
      BallGrows(E, a, d, k);
    }
  }

  lemma DistValue(E: set<Edge>, a: Node, b: Node, d: nat)
    requires IsDist(E, a, b, d)
    ensures Dist(E, a, b) == d
  {
    DistSpec(E, a, b);
    DistUnique(E, a, b, d, Dist(E, a, b));
  }

  lemma DistSelf(E: set<Edge>, a: Node)
    ensures Dist(E, a, a) == 0
  {
    assert IsPath(E, [a], a, a);
    DistValue(E, a, a, 0);
  }

  lemma DistPath(E: set<Edge>, a: Node, b: Node) returns (p: seq<Node>)
    requires Dist(E, a, b) >= 0
    ensures IsPath(E, p, a, b) && |p| == Dist(E, a, b) + 1
  {
    DistSpec(E, a, b);
    p :| IsPath(E, p, a, b) && |p| == Dist(E, a, b) + 1;
  }

  lemma DistShortest(E: set<Edge>, a: Node, b: Node, p: seq<Node>)
    requires IsPath(E, p, a, b)
    ensures 0 <= Dist(E, a, b) < |p|
  {
    DistSpec(E, a, b);
  }

  /** One edge lengthens the distance by at most one. */
  lemma DistEdge(E: set<Edge>, a: Node, b: Node, c: Node)
    requires Dist(E, a, b) >= 0 && Edge(b, c) in E
    ensures 0 <= Dist(E, a, c) <= Dist(E, a, b) + 1
  {
    var p := DistPath(E, a, b);
    PathSnoc(E, p, a, b, c);
    DistShortest(E, a, c, p + [c]);
  }

  ghost function Reachable(E: set<Edge>, a: Node): set<Node> {
    set n | n in {a} + Nodes(E) && Dist(E, a, n) >= 0
  }

  lemma ReachableIs(E: set<Edge>, a: Node, n: Node)
    ensures n in Reachable(E, a) <==> Dist(E, a, n) >= 0
    ensures n in Reachable(E, a) <==> Reach(E, a, n)
  {
    DistSpec(E, a, n);
    if Dist(E, a, n) >= 0 {
      var p := DistPath(E, a, n);
      if |p| > 1 { assert Edge(p[|p| - 2], p[|p| - 1]) in E; }
    }
  }
}
