/** Hop distance and neighbourhoods in a mesh, ignoring edge direction (mesh.go). */
module MeshMetric {
  import opened Graphs
  import opened Traversal

  /** The edges in both directions, as the adjacency lists of a mesh see them. */
  ghost function BothWays(edges: seq<Edge>): set<Edge> {
    Elems(edges) + Reverse(Elems(edges))
  }

  lemma BothWaysSymmetric(edges: seq<Edge>)
    ensures Reverse(BothWays(edges)) == BothWays(edges)
  {
    var E := Elems(edges);
    ReverseTwice(E);
    forall e | e in BothWays(edges) ensures e in Reverse(BothWays(edges)) {
      assert Edge(e.dst, e.src) in BothWays(edges) by {
        if e in E { assert Edge(e.dst, e.src) in Reverse(E); }
      }
    }
    forall e | e in Reverse(BothWays(edges)) ensures e in BothWays(edges) {
      var f :| f in BothWays(edges) && e == Edge(f.dst, f.src);
      if f in E { assert Edge(f.dst, f.src) in Reverse(E); }
    }
  }

  lemma OneMoreBothWays(edges: seq<Edge>, i: nat, v: Node, w: Node)
    requires i < |edges|
    ensures Edge(v, w) in BothWays(edges[..i + 1]) <==>
            Edge(v, w) in BothWays(edges[..i]) || Edge(v, w) == edges[i] || Edge(w, v) == edges[i]
  {
    assert edges[..i + 1] == edges[..i] + [edges[i]];
    ReverseMember(edges[..i + 1], v, w);
    ReverseMember(edges[..i], v, w);
  }

  lemma ReverseMember(edges: seq<Edge>, v: Node, w: Node)
    ensures Edge(v, w) in Reverse(Elems(edges)) <==> Edge(w, v) in edges
  {
    if Edge(w, v) in edges {
      var e := Edge(w, v);
      assert e in Elems(edges) && Edge(e.dst, e.src) == Edge(v, w);
    }
  }

  function ListBoth(adj: ListAdj, e: Edge): ListAdj {
    var a := adj[e.src := Listed(adj, e.src) + [e.dst]];
    a[e.dst := Listed(a, e.dst) + [e.src]]
  }

  lemma ListBothIs(adj: ListAdj, e: Edge, v: Node, w: Node)
    ensures w in Listed(ListBoth(adj, e), v) <==> w in Listed(adj, v) || Edge(v, w) == e || Edge(w, v) == e
  {
  }

  lemma BothListed(adj: ListAdj, edges: seq<Edge>, i: nat)
    requires i < |edges| && Lists(adj, BothWays(edges[..i]))
    ensures Lists(ListBoth(adj, edges[i]), BothWays(edges[..i + 1]))
  {
    forall v, w ensures w in Listed(ListBoth(adj, edges[i]), v) <==> Edge(v, w) in BothWays(edges[..i + 1]) {
      ListBothIs(adj, edges[i], v, w);
      OneMoreBothWays(edges, i, v, w);
      assert w in Listed(adj, v) <==> Edge(v, w) in BothWays(edges[..i]);
    }
  }

  method BuildMeshAdj(edges: seq<Edge>) returns (adj: ListAdj)
    ensures Lists(adj, BothWays(edges))
  {
    adj := map[];
    for i := 0 to |edges|
      invariant Lists(adj, BothWays(edges[..i]))
    {
      ghost var adj0 := adj;
      var e := edges[i];
      adj := adj[e.src := Listed(adj, e.src) + [e.dst]];
      adj := adj[e.dst := Listed(adj, e.dst) + [e.src]];
      BothListed(adj0, edges, i);
    }
    assert edges[..|edges|] == edges;
  }

  /** Neighborhood: everything within the given number of hops. */
  method Neighborhood(edges: seq<Edge>, fqn: Node, hops: int) returns (visited: set<Node>)
    ensures hops <= 0 ==> visited == {fqn}
    ensures hops >= 0 ==> forall n :: n in visited <==> 0 <= Dist(BothWays(edges), fqn, n) <= hops
  {
    ghost var E := BothWays(edges);
    if hops <= 0 {
      visited := {fqn};
      NeighborhoodIs(E, fqn, 0, 0);
      return;
    }
    var adj := BuildMeshAdj(edges);
    visited := Spread(fqn, hops, adj, E);
  }

  /** The level loop of Neighborhood. */
  method Spread(fqn: Node, hops: nat, adj: ListAdj, ghost E: set<Edge>) returns (visited: set<Node>)
    requires Lists(adj, E)
    ensures forall n :: n in visited <==> 0 <= Dist(E, fqn, n) <= hops
  {
    visited := {fqn};
    var frontier, d := [fqn], 0;
    while d < hops && frontier != []
      invariant 0 <= d <= hops
      invariant visited == Ball(E, fqn, d) && Elems(frontier) == Sphere(E, fqn, d)
    {
      BallStep(E, fqn, d);
      frontier, visited := ScanLevel(frontier, adj, visited, E);
      d := d + 1;
    }
    NeighborhoodIs(E, fqn, d, hops);
  }

  /** The ball reached when the search stops, because of the hop bound or an empty frontier. */
  lemma NeighborhoodIs(E: set<Edge>, a: Node, d: nat, hops: nat)
    requires d == hops || (d < hops && Sphere(E, a, d) == {})
    ensures forall n :: n in Ball(E, a, d) <==> 0 <= Dist(E, a, n) <= hops
  {
    if d < hops {
      BallStuck(E, a, d, hops);
      BallGrows(E, a, d, hops);
    }
    forall n ensures n in Ball(E, a, d) <==> 0 <= Dist(E, a, n) <= hops { BallIsDist(E, a, n, hops); }
  }

  lemma BallIsDist(E: set<Edge>, a: Node, n: Node, k: nat)
    ensures n in Ball(E, a, k) <==> 0 <= Dist(E, a, n) <= k
  {
    DistSpec(E, a, n);
    if n in Ball(E, a, k) {
      var d := DistExists(E, a, n, k);
      DistValue(E, a, n, d);
    }
    if 0 <= Dist(E, a, n) <= k {
      DistIsSphere(E, a, n, Dist(E, a, n));
      BallGrows(E, a, Dist(E, a, n), k);
    }
  }

  /** Distance: the hop count of a shortest undirected path, -1 when there is none. */
  method Distance(edges: seq<Edge>, from: Node, to: Node) returns (r: int)
    ensures r == Dist(BothWays(edges), from, to)
  {
    ghost var E := BothWays(edges);
    if from == to {
      DistSelf(E, from);
      return 0;
    }
    var adj := BuildMeshAdj(edges);
    var visited, frontier, dist := {from}, [from], 0;
    while frontier != []
      invariant 0 <= dist && to !in visited
      invariant visited == Ball(E, from, dist) && Elems(frontier) == Sphere(E, from, dist)
      decreases ({from} + Nodes(E)) - visited, |frontier|
    {
      BallStep(E, from, dist);
      BallBounded(E, from, dist + 1);
      var next: seq<Node>, seen, found := ScanLevelFor(frontier, adj, visited, to, E);
      dist := dist + 1;
      if found {
        DistIsSphere(E, from, to, dist);
        DistValue(E, from, to, dist);
        return dist;
      }
      if next != [] { assert next[0] in Elems(next); }
      frontier, visited := next, seen;
    }
    BallSaturated(E, from, dist);
    DistSpec(E, from, to);
    return -1;
  }

  /** ScanLevel with the early exit of Distance: found says whether the target is next to the frontier. */
  method ScanLevelFor(frontier: seq<Node>, adj: ListAdj, seen0: set<Node>, to: Node, ghost E: set<Edge>)
    returns (next: seq<Node>, seen: set<Node>, found: bool)
    requires Lists(adj, E) && to !in seen0
    ensures found <==> to in Out(E, Elems(frontier))
    ensures !found ==> seen == seen0 + Out(E, Elems(frontier)) && Elems(next) == seen - seen0
  {
    next, seen, found := [], seen0, false;
    for i := 0 to |frontier|
      invariant seen == seen0 + Out(E, Elems(frontier[..i])) && Elems(next) == seen - seen0 && to !in seen
    {
      var list := Listed(adj, frontier[i]);
      for j := 0 to |list|
        invariant to !in seen && to !in list[..j]
        invariant seen == seen0 + Out(E, Elems(frontier[..i])) + Elems(list[..j]) && Elems(next) == seen - seen0
      {
        if list[j] == to {
          var e := Edge(frontier[i], to);
          assert list[j] in list && e in E && e.src in Elems(frontier);
          found := true;
          return;
        }
        ElemsSnoc(list, j);
        if list[j] !in seen {
          seen := seen + {list[j]};
          next := next + [list[j]];
          ElemsSnoc(next, |next| - 1);
          assert next[..|next|] == next && next[..|next| - 1] + [list[j]] == next;
        }
      }
      assert list[..|list|] == list;
      OutSnoc(E, frontier, i, Elems(list));
    }
    assert frontier[..|frontier|] == frontier;
  }

  // ----- Distance is a metric -----

  lemma DistanceSymmetric(edges: seq<Edge>, a: Node, b: Node)
    ensures Dist(BothWays(edges), a, b) == Dist(BothWays(edges), b, a)
  {
    var E := BothWays(edges);
    BothWaysSymmetric(edges);
    DistSpec(E, a, b);
    DistSpec(E, b, a);
    if Dist(E, a, b) >= 0 {
      DistReverse(E, a, b, Dist(E, a, b));
      DistValue(E, b, a, Dist(E, a, b));
    } else if Dist(E, b, a) >= 0 {
      DistReverse(E, b, a, Dist(E, b, a));
      DistValue(E, a, b, Dist(E, b, a));
    }
  }

  lemma DistanceTriangle(edges: seq<Edge>, a: Node, b: Node, c: Node)
    requires Dist(BothWays(edges), a, b) >= 0 && Dist(BothWays(edges), b, c) >= 0
    ensures 0 <= Dist(BothWays(edges), a, c) <= Dist(BothWays(edges), a, b) + Dist(BothWays(edges), b, c)
  {
    var E := BothWays(edges);
    var p := DistPath(E, a, b);
    var q := DistPath(E, b, c);
    PathJoin(E, p, q, a, b, c);
    DistShortest(E, a, c, p + q[1..]);
  }

  lemma DistanceZero(edges: seq<Edge>, a: Node, b: Node)
    ensures Dist(BothWays(edges), a, b) == 0 <==> a == b
  {
    DistSelf(BothWays(edges), a);
    if Dist(BothWays(edges), a, b) == 0 {
      var p := DistPath(BothWays(edges), a, b);
    }
  }
}
