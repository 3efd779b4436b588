/** Level-by-level searches over adjacency lists (primitives.go and mesh.go). */
module Traversal {
  import opened Graphs

  type ListAdj = map<Node, seq<Node>>

  function Listed(adj: ListAdj, v: Node): seq<Node> {
    if v in adj then adj[v] else []
  }

  /** The targets of v in edge order, repetitions included. */
  function Targets(edges: seq<Edge>, v: Node): seq<Node> {
    if edges == [] then []
    else
      var last := edges[|edges| - 1];
      Targets(edges[..|edges| - 1], v) + if last.src == v then [last.dst] else []
  }

  lemma {:induction false} TargetsAre(edges: seq<Edge>, v: Node, w: Node)
    ensures w in Targets(edges, v) <==> Edge(v, w) in edges
  {
    if edges != [] {
      var i := |edges| - 1;
      TargetsAre(edges[..i], v, w);
      assert edges == edges[..i] + [edges[i]];
    }
  }

  function Turned(edges: seq<Edge>): (r: seq<Edge>) {
    seq(|edges|, i requires 0 <= i < |edges| => Edge(edges[i].dst, edges[i].src))
  }

  /** adj lists exactly the edges of E. */
  ghost predicate Lists(adj: ListAdj, E: set<Edge>) {
    forall v, w :: w in Listed(adj, v) <==> Edge(v, w) in E
  }

  method BuildFwdAdj(edges: seq<Edge>) returns (adj: ListAdj)
    ensures forall v :: Listed(adj, v) == Targets(edges, v)
    ensures Lists(adj, Elems(edges))
  {
    adj := map[];
    for i := 0 to |edges|
      invariant forall v :: Listed(adj, v) == Targets(edges[..i], v)
    {
      var e := edges[i];
      assert edges[..i + 1][..i] == edges[..i];
      adj := adj[e.src := Listed(adj, e.src) + [e.dst]];
    }
    assert edges[..|edges|] == edges;
    forall v, w ensures w in Listed(adj, v) <==> Edge(v, w) in Elems(edges) { TargetsAre(edges, v, w); }
  }

  lemma TurnedSnoc(edges: seq<Edge>, i: nat)
    requires i < |edges|
    ensures Turned(edges[..i + 1]) == Turned(edges[..i]) + [Edge(edges[i].dst, edges[i].src)]
  {
  }

  lemma TurnedIsReverse(edges: seq<Edge>)
    ensures Elems(Turned(edges)) == Reverse(Elems(edges))
  {
    forall e | e in Reverse(Elems(edges)) ensures e in Turned(edges) {
      var i :| 0 <= i < |edges| && e == Edge(edges[i].dst, edges[i].src);
      assert Turned(edges)[i] == e;
    }
  }

  method BuildRevAdj(edges: seq<Edge>) returns (adj: ListAdj)
    ensures forall v :: Listed(adj, v) == Targets(Turned(edges), v)
    ensures Lists(adj, Reverse(Elems(edges)))
  {
    adj := map[];
    for i := 0 to |edges|
      invariant forall v :: Listed(adj, v) == Targets(Turned(edges[..i]), v)
    {
      var e := edges[i];
      TurnedSnoc(edges, i);
      assert Turned(edges[..i + 1])[..i] == Turned(edges[..i]);
      adj := adj[e.dst := Listed(adj, e.dst) + [e.src]];
    }
    assert edges[..|edges|] == edges;
    TurnedIsReverse(edges);
    forall v, w ensures w in Listed(adj, v) <==> Edge(v, w) in Reverse(Elems(edges)) {
      TargetsAre(Turned(edges), v, w);
    }
  }

  // ----- One level -----

  lemma OutSnoc(E: set<Edge>, frontier: seq<Node>, i: nat, out: set<Node>)
    requires i < |frontier|
    requires forall w :: w in out <==> Edge(frontier[i], w) in E
    ensures Out(E, Elems(frontier[..i + 1])) == Out(E, Elems(frontier[..i])) + out
  {
    ElemsSnoc(frontier, i);
    forall w | w in out ensures w in Out(E, Elems(frontier[..i + 1])) {
      var e := Edge(frontier[i], w);
      assert e in E && e.src in Elems(frontier[..i + 1]) && e.dst == w;
    }
    forall w | w in Out(E, Elems(frontier[..i + 1])) ensures w in Out(E, Elems(frontier[..i])) + out {
      var e :| e in E && e.src in Elems(frontier[..i + 1]) && e.dst == w;
      assert e == Edge(e.src, w);
    }
  }

  /** The two nested loops every level search shares: next lists what the frontier sees for the first time. */
  method ScanLevel(frontier: seq<Node>, adj: ListAdj, seen0: set<Node>, ghost E: set<Edge>)
    returns (next: seq<Node>, seen: set<Node>)
    requires Lists(adj, E)
    ensures seen == seen0 + Out(E, Elems(frontier)) && Elems(next) == seen - seen0
  {
    next, seen := [], seen0;
    for i := 0 to |frontier|
      invariant seen == seen0 + Out(E, Elems(frontier[..i])) && Elems(next) == seen - seen0
    {
      var list := Listed(adj, frontier[i]);
      for j := 0 to |list|
        invariant seen == seen0 + Out(E, Elems(frontier[..i])) + Elems(list[..j]) && Elems(next) == seen - seen0
      {
        ElemsSnoc(list, j);
        if list[j] !in seen {
          seen := seen + {list[j]};
          next := next + [list[j]];
          ElemsSnoc(next, |next| - 1);
          assert next[..|next|] == next && next[..|next| - 1] + [list[j]] == next;
        }
      }
      assert list[..|list|] == list;
      OutSnoc(E, frontier, i, Elems(list));
    }
    assert frontier[..|frontier|] == frontier;
  }

  lemma {:induction false} BallBounded(E: set<Edge>, a: Node, k: nat)
    ensures Ball(E, a, k) <= {a} + Out(E, Ball(E, a, k)) && Ball(E, a, k) <= {a} + Nodes(E)
  {
    if k > 0 {
      BallBounded(E, a, k - 1);
    }
  }

  // ----- bfsAll -----

  method BfsAll(start: Node, adj: ListAdj, ghost E: set<Edge>) returns (visited: set<Node>)
    requires Lists(adj, E)
    ensures forall n :: n in visited <==> Reach(E, start, n)
  {
    visited := {start};
    var frontier := [start];
    ghost var d: nat := 0;
    while frontier != []
      invariant visited == Ball(E, start, d) && Elems(frontier) == Sphere(E, start, d)
      decreases ({start} + Nodes(E)) - visited, |frontier|
    {
      BallStep(E, start, d);
      BallBounded(E, start, d + 1);
      var next, seen := ScanLevel(frontier, adj, visited, E);
      if next != [] { assert next[0] in Elems(next); }
      frontier, visited, d := next, seen, d + 1;
    }
    BallSaturated(E, start, d);
  }

  // ----- bfsDirected -----

  /** visited records exactly the nodes at distances 1 to maxDepth, each with its distance. */
  ghost predicate Records(E: set<Edge>, start: Node, maxDepth: int, visited: map<Node, int>) {
    forall n, d: int {:trigger Recorded(visited, n, d)} ::
      Recorded(visited, n, d) <==> 1 <= d <= maxDepth && IsDist(E, start, n, d)
  }

  predicate Recorded(visited: map<Node, int>, n: Node, d: int) {
    n in visited && visited[n] == d
  }

  lemma RecordsNext(E: set<Edge>, start: Node, depth: nat, visited: map<Node, int>, next: seq<Node>,
                    visited1: map<Node, int>)
    requires Records(E, start, depth, visited) && visited.Keys + {start} == Ball(E, start, depth)
    requires Elems(next) == Sphere(E, start, depth + 1)
    requires visited1 == visited + map n | n in next :: depth + 1
    ensures Records(E, start, depth + 1, visited1) && visited1.Keys + {start} == Ball(E, start, depth + 1)
  {
    BallGrows(E, start, depth, depth + 1);
    forall n, d: int ensures Recorded(visited1, n, d) <==> 1 <= d <= depth + 1 && IsDist(E, start, n, d) {
      DistIsSphere(E, start, n, depth + 1);
      assert n in Elems(next) <==> n in next;
      assert Recorded(visited, n, d) <==> 1 <= d <= depth && IsDist(E, start, n, d);
      if n in next {
        assert n !in visited;
        if d >= 0 && IsDist(E, start, n, d) { DistUnique(E, start, n, d, depth + 1); }
      }
    }
  }

  method BfsDirected(start: Node, adj: ListAdj, maxDepth: int, ghost E: set<Edge>) returns (visited: map<Node, int>)
    requires Lists(adj, E)
    ensures Records(E, start, maxDepth, visited)
  {
    visited := map[];
    var frontier, depth := [start], 0;
    while frontier != [] && depth < maxDepth
      invariant 0 <= depth && (depth <= maxDepth || depth == 0)
      invariant Records(E, start, depth, visited)
      invariant visited.Keys + {start} == Ball(E, start, depth)
      invariant Elems(frontier) == Sphere(E, start, depth)
      decreases maxDepth - depth
    {
      BallStep(E, start, depth);
      BallGrows(E, start, depth, depth + 1);
      var next, _ := ScanLevel(frontier, adj, visited.Keys + {start}, E);
      RecordsNext(E, start, depth, visited, next, visited + map n | n in next :: depth + 1);
      depth := depth + 1;
      visited := visited + map n | n in next :: depth;
      frontier := next;
    }
    if frontier == [] {
      BallSaturated(E, start, depth);
    }
  }

  /** Forward search from a and backward search from b agree on their distance. */
  lemma Duality(E: set<Edge>, a: Node, b: Node, k: int, fwd: map<Node, int>, rev: map<Node, int>, d: int)
    requires Records(E, a, k, fwd) && Records(Reverse(E), b, k, rev)
    ensures Recorded(fwd, b, d) <==> Recorded(rev, a, d)
    ensures Recorded(fwd, b, d) ==> 1 <= d <= k && IsDist(E, a, b, d)
  {
    if d >= 0 { DistReverse(E, a, b, d); }
  }
}
