/** Connected components and the effect of removing one symbol (primitives.go). */
module Components {
  import opened Graphs

  /** The edges, in both directions, between listed nodes. */
  ghost function Induced(edges: seq<Edge>, V: set<Node>): set<Edge> {
    set a, b | a in V && b in V && (Edge(a, b) in edges || Edge(b, a) in edges) :: Edge(a, b)
  }

  /** The nodes connected to n. */
  ghost function Component(E: set<Edge>, V: set<Node>, n: Node): set<Node> {
    set m | m in V && Reach(E, n, m)
  }

  ghost function ComponentsOf(E: set<Edge>, V: set<Node>): set<set<Node>> {
    set n | n in V :: Component(E, V, n)
  }

  ghost predicate Symmetric(E: set<Edge>) {
    forall a, b :: Edge(a, b) in E ==> Edge(b, a) in E
  }

  lemma {:induction false} ReachBack(E: set<Edge>, a: Node, b: Node)
    requires Symmetric(E) && Reach(E, a, b)
    ensures Reach(E, b, a)
  {
    var p :| IsPath(E, p, a, b);
    PathReverse(E, p, a, b);
    forall e | e in Reverse(E) ensures e in E {
      var f :| f in E && e == Edge(f.dst, f.src);
      assert f == Edge(f.src, f.dst);
    }
    PathMono(Reverse(E), E, Flip(p), b, a);
  }

  /** Connected nodes have the same component. */
  lemma SameComponent(E: set<Edge>, V: set<Node>, a: Node, b: Node)
    requires Symmetric(E) && Reach(E, a, b)
    ensures Component(E, V, a) == Component(E, V, b)
  {
    ReachBack(E, a, b);
    forall m ensures Reach(E, a, m) <==> Reach(E, b, m) {
      if Reach(E, a, m) { ReachTrans(E, b, a, m); }
      if Reach(E, b, m) { ReachTrans(E, a, b, m); }
    }
  }

  // ----- Counting components -----

  ghost predicate Adjacency(adj: AdjMap, V: set<Node>, E: set<Edge>) {
    && adj.Keys == V
    && (forall a, b :: a in adj && b in adj[a] <==> Edge(a, b) in E)
    && (forall a, b :: Edge(a, b) in E ==> a in V && b in V)
  }

  method BuildAdjacency(edges: seq<Edge>, nodes: set<Node>) returns (adj: AdjMap)
    ensures Adjacency(adj, nodes, Induced(edges, nodes)) && Symmetric(Induced(edges, nodes))
  {
    adj := map n | n in nodes :: {};
    for i := 0 to |edges|
      invariant adj.Keys == nodes
      invariant forall a, b :: a in adj && b in adj[a] <==>
                  a in nodes && b in nodes && (Edge(a, b) in edges[..i] || Edge(b, a) in edges[..i])
    {
      var e := edges[i];
      assert edges[..i + 1] == edges[..i] + [e] && e == Edge(e.src, e.dst);
      ghost var adj0 := adj;
      if e.src in nodes && e.dst in nodes {
        adj := adj[e.src := adj[e.src] + {e.dst}];
        adj := adj[e.dst := adj[e.dst] + {e.src}];
      }
      forall a, b ensures a in adj && b in adj[a] <==> ((a in adj0 && b in adj0[a]) ||
        (e.src in nodes && e.dst in nodes && ((a == e.src && b == e.dst) || (a == e.dst && b == e.src)))) {}
    }
    assert edges[..|edges|] == edges;
  }

  /** The inner loop: marks everything connected to fqn. */
  method Flood(fqn: Node, adj: AdjMap, visited0: set<Node>, ghost V: set<Node>, ghost E: set<Edge>)
    returns (visited: set<Node>)
    requires Adjacency(adj, V, E) && fqn in V && visited0 <= V && ClosedUnder(E, visited0)
    ensures visited == visited0 + Component(E, V, fqn) && ClosedUnder(E, visited)
  {
    var queue := [fqn];
    visited := visited0 + {fqn};
    ReachRefl(E, fqn);
    while queue != []
      invariant fqn in visited && visited0 <= visited <= visited0 + Component(E, V, fqn)
      invariant forall n :: n in queue ==> n in visited && n in Component(E, V, fqn)
      invariant forall a, b :: Edge(a, b) in E && a in visited && a !in queue ==> b in visited
      decreases V - visited, |queue|
    {
      var curr := queue[0];
      assert curr in queue;
      queue := queue[1..];
      visited, queue := Enqueue(curr, adj[curr], visited, queue, fqn, V, E, adj);
    }
    forall n | n in Component(E, V, fqn) ensures n in visited {
      var p :| IsPath(E, p, fqn, n);
      ClosedContains(E, visited, fqn, n, p);
    }
  }

  method Enqueue(curr: Node, neighbours: set<Node>, visited0: set<Node>, queue0: seq<Node>,
                 ghost fqn: Node, ghost V: set<Node>, ghost E: set<Edge>, ghost adj: AdjMap)
    returns (visited: set<Node>, queue: seq<Node>)
    requires Adjacency(adj, V, E) && curr in Component(E, V, fqn) && neighbours == adj[curr]
    ensures visited == visited0 + neighbours && queue0 <= queue
    ensures forall n :: n in queue[|queue0|..] <==> n in neighbours && n !in visited0
    ensures neighbours <= Component(E, V, fqn)
    ensures visited == visited0 ==> queue == queue0
  {
    visited, queue := visited0, queue0;
    var rest := neighbours;
    while rest != {}
      invariant rest <= neighbours && queue0 <= queue
      invariant visited == visited0 + (neighbours - rest)
      invariant forall n :: n in queue[|queue0|..] <==> n in neighbours - rest && n !in visited0
      invariant visited == visited0 ==> queue == queue0
    {
      var nb :| nb in rest;
      rest := rest - {nb};
      if nb !in visited {
        visited := visited + {nb};
        assert (queue + [nb])[|queue0|..] == queue[|queue0|..] + [nb];
        queue := queue + [nb];
      }
    }
    forall n | n in neighbours ensures n in Component(E, V, fqn) {
      assert Edge(curr, n) in E;
      var p :| IsPath(E, p, fqn, curr);
      PathSnoc(E, p, fqn, curr, n);
    }
  }

  method ComponentsWith(edges: seq<Edge>, nodes: set<Node>) returns (count: nat)
    ensures count == |ComponentsOf(Induced(edges, nodes), nodes)|
  {
    ghost var E := Induced(edges, nodes);
    var adj := BuildAdjacency(edges, nodes);
    var visited: set<Node> := {};
    count := 0;
    ghost var found: set<set<Node>> := {};
    var rest := nodes;
    while rest != {}
      invariant rest <= nodes && nodes - rest <= visited <= nodes
      invariant ClosedUnder(E, visited) && found == ComponentsMeeting(E, nodes, visited) && count == |found|
    {
      var fqn :| fqn in rest;
      rest := rest - {fqn};
      if fqn !in visited {
        count := count + 1;
        ghost var before := visited;
        visited := Flood(fqn, adj, visited, nodes, E);
        OneMoreComponent(E, nodes, before, fqn);
        ReachRefl(E, fqn);
        found := found + {Component(E, nodes, fqn)};
      }
    }
    assert visited == nodes;
  }

  ghost function ComponentsMeeting(E: set<Edge>, V: set<Node>, S: set<Node>): set<set<Node>> {
    set n | n in S :: Component(E, V, n)
  }

  lemma OneMoreComponent(E: set<Edge>, V: set<Node>, S: set<Node>, x: Node)
    requires Symmetric(E) && ClosedUnder(E, S) && x in V && x !in S
    ensures Component(E, V, x) !in ComponentsMeeting(E, V, S)
    ensures ComponentsMeeting(E, V, S + Component(E, V, x)) ==
            ComponentsMeeting(E, V, S) + {Component(E, V, x)}
  {
    var C := Component(E, V, x);
    ReachRefl(E, x);
    assert x in C;
    forall n | n in S ensures Component(E, V, n) != C {
      if Reach(E, n, x) {
        var p :| IsPath(E, p, n, x);
        ClosedContains(E, S, n, x, p);
      }
    }
    forall n | n in C ensures Component(E, V, n) == C { SameComponent(E, V, x, n); }
  }

  // ----- Removing a symbol -----

  function Without(edges: seq<Edge>, x: Node): (r: seq<Edge>)
    ensures forall e :: e in r <==> e in edges && e.src != x && e.dst != x
  {
    if edges == [] then []
    else
      var e := edges[|edges| - 1];
      Without(edges[..|edges| - 1], x) + if e.src != x && e.dst != x then [e] else []
  }

  method Isolate(listed: seq<Node>, edges: seq<Edge>, symbol: Node) returns (before: nat, after: nat)
    ensures before == |ComponentsOf(Induced(edges, Elems(listed)), Elems(listed))|
    ensures after == |ComponentsOf(Induced(Without(edges, symbol), Elems(listed) - {symbol}), Elems(listed) - {symbol})|
  {
    var allNodes := set n | n in listed;
    before := ComponentsWith(edges, allNodes);
    var filtered := [];
    for i := 0 to |edges|
      invariant filtered == Without(edges[..i], symbol)
    {
      assert edges[..i + 1][..i] == edges[..i];
      if edges[i].src != symbol && edges[i].dst != symbol {
        filtered := filtered + [edges[i]];
      }
    }
    assert edges[..|edges|] == edges;
    after := ComponentsWith(filtered, allNodes - {symbol});
  }

  /** x has an edge, in either direction, to another listed node. */
  ghost predicate HasNeighbour(edges: seq<Edge>, V: set<Node>, x: Node) {
    exists y :: y in V && y != x && (Edge(x, y) in edges || Edge(y, x) in edges)
  }

  lemma InducedSymmetric(edges: seq<Edge>, V: set<Node>)
    ensures Symmetric(Induced(edges, V))
  {
  }

  lemma InducedWithout(edges: seq<Edge>, V: set<Node>, x: Node)
    ensures Induced(Without(edges, x), V - {x}) == Induced(edges, V - {x})
  {
    forall a, b ensures Edge(a, b) in Induced(Without(edges, x), V - {x}) <==> Edge(a, b) in Induced(edges, V - {x}) {
      assert Edge(a, b).src == a && Edge(a, b).dst == b && Edge(b, a).src == b && Edge(b, a).dst == a;
    }
    forall e ensures e in Induced(Without(edges, x), V - {x}) <==> e in Induced(edges, V - {x}) {
      assert e == Edge(e.src, e.dst);
    }
  }

  /** A component that does not contain x is untouched by removing x. */
  lemma Untouched(edges: seq<Edge>, V: set<Node>, x: Node, n: Node)
    requires x in V && n in V && !Reach(Induced(edges, V), x, n)
    ensures Component(Induced(edges, V - {x}), V - {x}, n) == Component(Induced(edges, V), V, n)
    ensures x !in Component(Induced(edges, V), V, n)
  {
    var E, F := Induced(edges, V), Induced(edges, V - {x});
    InducedSymmetric(edges, V);
    if Reach(E, n, x) { ReachBack(E, n, x); }
    forall m | m in V && Reach(E, n, m) ensures m != x && Reach(F, n, m) {
      var p :| IsPath(E, p, n, m);
      forall i | 0 <= i < |p| ensures p[i] != x { PathSplit(E, p, n, m, i); }
      assert IsPath(F, p, n, m);
    }
    forall m | Reach(F, n, m) ensures Reach(E, n, m) {
      var p :| IsPath(F, p, n, m);
      PathMono(F, E, p, n, m);
    }
  }

  /** The components away from x, and the pieces x's own component falls into. */
  ghost function Others(edges: seq<Edge>, V: set<Node>, x: Node): set<set<Node>> {
    ComponentsMeeting(Induced(edges, V), V, V - Component(Induced(edges, V), V, x))
  }

  ghost function Pieces(edges: seq<Edge>, V: set<Node>, x: Node): set<set<Node>> {
    ComponentsMeeting(Induced(edges, V - {x}), V - {x}, Component(Induced(edges, V), V, x) - {x})
  }

  lemma BeforeRemoval(edges: seq<Edge>, V: set<Node>, x: Node)
    requires x in V
    ensures |ComponentsOf(Induced(edges, V), V)| == |Others(edges, V, x)| + 1
  {
    var E := Induced(edges, V);
    var C, O := Component(E, V, x), Others(edges, V, x);
    InducedSymmetric(edges, V);
    ReachRefl(E, x);
    forall n | n in C ensures Component(E, V, n) == C { SameComponent(E, V, x, n); }
    forall n | n in V - C ensures Component(E, V, n) != C { Untouched(edges, V, x, n); }
    assert ComponentsOf(E, V) == O + {C};
  }

  lemma AfterRemoval(edges: seq<Edge>, V: set<Node>, x: Node)
    requires x in V
    ensures |ComponentsOf(Induced(edges, V - {x}), V - {x})| == |Others(edges, V, x)| + |Pieces(edges, V, x)|
  {
    var E, F, W := Induced(edges, V), Induced(edges, V - {x}), V - {x};
    var C := Component(E, V, x);
    var O, P := Others(edges, V, x), Pieces(edges, V, x);
    ReachRefl(E, x);
    forall n | n in V - C ensures Component(F, W, n) == Component(E, V, n) { Untouched(edges, V, x, n); }
    assert ComponentsOf(F, W) == O + P;
    forall S | S in O && S in P ensures false {
      var n :| n in V - C && S == Component(E, V, n);
      var m :| m in C - {x} && S == Component(F, W, m);
      ReachRefl(F, m);
      assert m in Component(E, V, n);
      InducedSymmetric(edges, V);
      ReachBack(E, n, m);
      ReachTrans(E, x, m, n);
    }
    assert O !! P;
  }

  lemma PiecesEmpty(edges: seq<Edge>, V: set<Node>, x: Node)
    requires x in V
    ensures Pieces(edges, V, x) == {} <==> !HasNeighbour(edges, V, x)
  {
    var E := Induced(edges, V);
    if HasNeighbour(edges, V, x) {
      var y :| y in V && y != x && (Edge(x, y) in edges || Edge(y, x) in edges);
      assert IsPath(E, [x, y], x, y);
      assert y in Component(E, V, x) - {x};
      assert Component(Induced(edges, V - {x}), V - {x}, y) in Pieces(edges, V, x);
    } else {
      forall a, b | Edge(a, b) in E && a in {x} ensures b in {x} {}
      forall n | n in Component(E, V, x) ensures n == x {
        var p :| IsPath(E, p, x, n);
        ClosedContains(E, {x}, x, n, p);
      }
    }
  }

  /** Isolate loses at most one component, loses one exactly when the symbol is an unconnected node,
      and changes nothing when the symbol is not a node. */
  lemma RemovalCount(edges: seq<Edge>, V: set<Node>, x: Node)
    ensures var before, after := |ComponentsOf(Induced(edges, V), V)|,
                                 |ComponentsOf(Induced(Without(edges, x), V - {x}), V - {x})|;
            && after >= before - 1
            && (after == before - 1 <==> x in V && !HasNeighbour(edges, V, x))
            && (x !in V ==> after == before)
  {
    InducedWithout(edges, V, x);
    if x in V {
      BeforeRemoval(edges, V, x);
      AfterRemoval(edges, V, x);
      PiecesEmpty(edges, V, x);
    } else {
      assert V - {x} == V;
    }
  }
}
