/** Breadth-first search with a queue: what one list of discovered nodes, expanded up to a head, guarantees.
    Used by graph/graph.go, graph/metrics.go, graph/partition.go and engine/taint.go. */
module QueueSearch {
  import opened Graphs

  ghost predicate Expanded(E: set<Edge>, order: seq<Node>, v: Node) {
    forall w :: Edge(v, w) in E ==> w in order
  }

  ghost predicate ByDistance(E: set<Edge>, src: Node, order: seq<Node>) {
    && (forall n :: n in order ==> Dist(E, src, n) >= 0)
    && (forall i, j :: 0 <= i <= j < |order| ==> Dist(E, src, order[i]) <= Dist(E, src, order[j]))
  }

  /** order lists the discovered nodes; the first h have been taken from the queue and expanded. */
  ghost predicate Search(E: set<Edge>, src: Node, order: seq<Node>, h: int) {
    && 0 <= h <= |order| && order != [] && order[0] == src && Distinct(order)
    && ByDistance(E, src, order)
    && (h < |order| ==> Dist(E, src, order[|order| - 1]) <= Dist(E, src, order[h]) + 1)
    && (forall i :: 0 <= i < h ==> Expanded(E, order, order[i]))
  }

  lemma SearchStarts(E: set<Edge>, src: Node)
    ensures Search(E, src, [src], 0)
  {
    DistSelf(E, src);
  }

  lemma LastHopDist(E: set<Edge>, src: Node, x: Node) returns (u: Node)
    requires Dist(E, src, x) > 0
    ensures Dist(E, src, u) == Dist(E, src, x) - 1 && Edge(u, x) in E
  {
    DistSpec(E, src, x);
    u := LastHop(E, src, x, Dist(E, src, x) - 1);
    DistValue(E, src, u, Dist(E, src, x) - 1);
  }

  lemma ZeroIsSource(E: set<Edge>, src: Node, x: Node)
    requires Dist(E, src, x) == 0
    ensures x == src
  {
    var p := DistPath(E, src, x);
  }

  /** Everything no farther than the head of the queue has been discovered; with an empty queue, all reachable. */
  lemma {:induction false} SearchComplete(E: set<Edge>, src: Node, order: seq<Node>, h: int, x: Node)
    requires Search(E, src, order, h) && Dist(E, src, x) >= 0
    requires h < |order| ==> Dist(E, src, x) <= Dist(E, src, order[h])
    ensures x in order
    decreases Dist(E, src, x)
  {
    if Dist(E, src, x) == 0 {
      ZeroIsSource(E, src, x);
    } else {
      var u := LastHopDist(E, src, x);
      SearchComplete(E, src, order, h, u);
      var i :| 0 <= i < |order| && order[i] == u;
      if h < |order| {
        assert i < h;
      }
      assert Expanded(E, order, order[i]);
    }
  }

  /** An undiscovered successor of the head is one hop farther, and goes to the end of the queue. */
  lemma Discover(E: set<Edge>, src: Node, order: seq<Node>, h: int, w: Node)
    requires Search(E, src, order, h) && h < |order| && Edge(order[h], w) in E && w !in order
    ensures Dist(E, src, w) == Dist(E, src, order[h]) + 1
    ensures Search(E, src, order + [w], h)
  {
    DistEdge(E, src, order[h], w);
    if Dist(E, src, w) <= Dist(E, src, order[h]) {
      SearchComplete(E, src, order, h, w);
    }
    var after := order + [w];
    forall i | 0 <= i < h ensures Expanded(E, after, after[i]) {
      assert Expanded(E, order, order[i]);
    }
  }

  lemma Advance(E: set<Edge>, src: Node, order: seq<Node>, h: int)
    requires Search(E, src, order, h) && h < |order| && Expanded(E, order, order[h])
    ensures Search(E, src, order, h + 1)
  {
  }

  /** When the queue is empty the list is the reachable nodes, each once, by distance. */
  lemma SearchEnds(E: set<Edge>, src: Node, order: seq<Node>)
    requires Search(E, src, order, |order|)
    ensures forall n :: n in order <==> Reach(E, src, n)
  {
    forall n ensures n in order <==> Reach(E, src, n) {
      DistSpec(E, src, n);
      if Reach(E, src, n) {
        SearchComplete(E, src, order, |order|, n);
      }
    }
  }

  lemma DiscoveredInNodes(E: set<Edge>, src: Node, order: seq<Node>, h: int)
    requires Search(E, src, order, h)
    ensures Elems(order) <= Nodes(E) + {src} && |order| <= |Nodes(E) + {src}|
  {
    forall n | n in order ensures n in Nodes(E) + {src} {
      ReachableIs(E, src, n);
    }
    DistinctBound(order, Nodes(E) + {src});
  }

  // ----- Searches over a set adjacency -----

  /** The edges into unvisited nodes. */
  ghost function Into(E: set<Edge>, blocked: set<Node>): set<Edge> {
    set e | e in E && e.dst !in blocked
  }

  /** The inner loop of BFSGroup: queues the unvisited neighbours of the node at the head, in any order. */
  /** After its first node the path keeps out of the blocked nodes. */
  ghost predicate Avoids(p: seq<Node>, blocked: set<Node>) {
    forall i :: 0 < i < |p| ==> p[i] !in blocked
  }

  ghost predicate Around(E: set<Edge>, blocked: set<Node>, a: Node, b: Node) {
    exists p :: IsPath(E, p, a, b) && Avoids(p, blocked)
  }

  lemma IntoIs(E: set<Edge>, blocked: set<Node>, a: Node, b: Node)
    ensures Reach(Into(E, blocked), a, b) <==> Around(E, blocked, a, b)
  {
    var F := Into(E, blocked);
    forall p ensures IsPath(F, p, a, b) <==> IsPath(E, p, a, b) && Avoids(p, blocked) {
      PathInto(E, blocked, p, a, b);
    }
  }

  lemma PathInto(E: set<Edge>, blocked: set<Node>, p: seq<Node>, a: Node, b: Node)
    ensures IsPath(Into(E, blocked), p, a, b) <==> IsPath(E, p, a, b) && Avoids(p, blocked)
  {
    var F := Into(E, blocked);
    forall v, w ensures Edge(v, w) in F <==> Edge(v, w) in E && w !in blocked {
      assert Edge(v, w).dst == w;
    }
    if IsPath(F, p, a, b) {
      forall i | 0 < i < |p| ensures p[i] !in blocked {
        assert Edge(p[i - 1], p[i]) in F;
      }
    }
  }

  method ScanGroup(neighbours: set<Node>, visited0: set<Node>, queue0: seq<Node>, ghost E: set<Edge>, ghost start: Node,
                   ghost group: seq<Node>, ghost cur: Node, ghost before: set<Node>)
    returns (visited: set<Node>, queue: seq<Node>)
    requires Search(E, start, group + [cur] + queue0, |group|)
    requires forall w :: w in neighbours && w !in before <==> Edge(cur, w) in E
    requires visited0 == before + Elems(group + [cur] + queue0)
    ensures Search(E, start, group + [cur] + queue, |group| + 1)
    ensures visited == before + Elems(group + [cur] + queue)
  {
    visited, queue := visited0, queue0;
    var rest := neighbours;
    while rest != {}
      invariant rest <= neighbours
      invariant Search(E, start, group + [cur] + queue, |group|)
      invariant visited == before + Elems(group + [cur] + queue)
      invariant forall w :: w in neighbours && w !in rest ==> w in visited
      decreases rest
    {
      var w :| w in rest;
      rest := rest - {w};
      if w !in visited {
        ghost var order := group + [cur] + queue;
        assert order[|group|] == cur;
        Discover(E, start, order, |group|, w);
        assert order + [w] == group + [cur] + (queue + [w]);
        ElemsPlus(order, w);
        visited := visited + {w};
        queue := queue + [w];
      }
    }
    ghost var order := group + [cur] + queue;
    assert order[|group|] == cur;
    assert Expanded(E, order, cur);
    Advance(E, start, order, |group|);
  }

  lemma ElemsPlus(s: seq<Node>, w: Node)
    ensures Elems(s + [w]) == Elems(s) + {w}
  {
  }

  ghost predicate GroupState(F: set<Edge>, start: Node, before: set<Node>, visited: set<Node>, group: seq<Node>,
                             queue: seq<Node>) {
    Search(F, start, group + queue, |group|) && visited == before + Elems(group + queue)
  }

  /** One turn of the loop of BFSGroup. */
  method TurnGroup(adj: AdjMap, visited0: set<Node>, queue0: seq<Node>, group0: seq<Node>,
                   ghost F: set<Edge>, ghost start: Node, ghost before: set<Node>)
    returns (visited: set<Node>, queue: seq<Node>, group: seq<Node>)
    requires forall v, w :: w in Neighbours(adj, v) && w !in before <==> Edge(v, w) in F
    requires GroupState(F, start, before, visited0, group0, queue0) && queue0 != []
    ensures GroupState(F, start, before, visited, group, queue) && |group| == |group0| + 1
  {
    var cur := queue0[0];
    assert group0 + queue0 == group0 + [cur] + queue0[1..];
    group := group0 + [cur];
    visited, queue := ScanGroup(Neighbours(adj, cur), visited0, queue0[1..], F, start, group0, cur, before);
  }

  lemma GroupBound(F: set<Edge>, start: Node, before: set<Node>, visited: set<Node>, group: seq<Node>, queue: seq<Node>)
    requires GroupState(F, start, before, visited, group, queue) && queue != []
    ensures |group| < |Nodes(F) + {start}|
  {
    DiscoveredInNodes(F, start, group + queue, |group|);
  }

  /** The nodes reachable from start without entering a visited node, each once, by distance; all become visited. */
  method BFSGroup(start: Node, adj: AdjMap, visited0: set<Node>, ghost E: set<Edge>)
    returns (group: seq<Node>, visited: set<Node>)
    requires AdjacencyOf(adj, E)
    ensures Distinct(group) && ByDistance(Into(E, visited0), start, group)
    ensures forall n :: n in group <==> Reach(Into(E, visited0), start, n)
    ensures forall n :: n in group <==> Around(E, visited0, start, n)
    ensures visited == visited0 + Elems(group)
  {
    ghost var F := Into(E, visited0);
    group, visited := [], visited0 + {start};
    var queue := [start];
    SearchStarts(F, start);
    assert group + queue == [start];
    while queue != []
      invariant GroupState(F, start, visited0, visited, group, queue)
      decreases |Nodes(F) + {start}| - |group|
    {
      GroupBound(F, start, visited0, visited, group, queue);
      visited, queue, group := TurnGroup(adj, visited, queue, group, F, start, visited0);
    }
    assert group + queue == group;
    SearchEnds(F, start, group);
    forall n ensures Reach(F, start, n) <==> Around(E, visited0, start, n) { IntoIs(E, visited0, start, n); }
  }

  // ----- Searches from a set of seeds -----

  ghost predicate Seeded(E: set<Edge>, seed: set<Node>, n: Node) {
    exists s :: s in seed && Reach(E, s, n)
  }

  /** The edges into nodes of validSet that are not skipped. */
  ghost function Allowed(E: set<Edge>, validSet: set<Node>, skip: set<Node>): set<Edge> {
    set e | e in E && e.dst in validSet && e.dst !in skip
  }

  /** After its first node the path keeps to valid nodes that are not skipped. */
  ghost predicate Keeps(p: seq<Node>, validSet: set<Node>, skip: set<Node>) {
    forall i :: 0 < i < |p| ==> p[i] in validSet && p[i] !in skip
  }

  lemma PathAllowed(E: set<Edge>, validSet: set<Node>, skip: set<Node>, p: seq<Node>, a: Node, b: Node)
    ensures IsPath(Allowed(E, validSet, skip), p, a, b) <==> IsPath(E, p, a, b) && Keeps(p, validSet, skip)
  {
    var F := Allowed(E, validSet, skip);
    forall v, w ensures Edge(v, w) in F <==> Edge(v, w) in E && w in validSet && w !in skip {
      assert Edge(v, w).dst == w;
    }
    if IsPath(F, p, a, b) {
      forall i | 0 < i < |p| ensures p[i] in validSet && p[i] !in skip {
        assert Edge(p[i - 1], p[i]) in F;
      }
    }
  }

  /** Some path from a seed to n keeps to valid nodes that are not skipped. */
  ghost predicate Found(E: set<Edge>, validSet: set<Node>, skip: set<Node>, seed: set<Node>, n: Node) {
    exists s, p :: s in seed && IsPath(E, p, s, n) && Keeps(p, validSet, skip)
  }

  lemma AllowedIs(E: set<Edge>, validSet: set<Node>, skip: set<Node>, seed: set<Node>, n: Node)
    ensures Seeded(Allowed(E, validSet, skip), seed, n) <==> Found(E, validSet, skip, seed, n)
  {
    var F := Allowed(E, validSet, skip);
    if Seeded(F, seed, n) {
      var s :| s in seed && Reach(F, s, n);
      var p :| IsPath(F, p, s, n);
      PathAllowed(E, validSet, skip, p, s, n);
    }
    if s, p :| s in seed && IsPath(E, p, s, n) && Keeps(p, validSet, skip) {
      PathAllowed(E, validSet, skip, p, s, n);
      assert Reach(F, s, n);
    }
  }

  lemma SeededStep(F: set<Edge>, seed: set<Node>, v: Node, w: Node)
    requires Seeded(F, seed, v) && Edge(v, w) in F
    ensures Seeded(F, seed, w)
  {
    var s :| s in seed && Reach(F, s, v);
    var p :| IsPath(F, p, s, v);
    PathSnoc(F, p, s, v, w);
    assert Reach(F, s, w);
  }

  /** order lists the discovered nodes, the seeds among them; the first h have been expanded. */
  ghost predicate SeedSearch(F: set<Edge>, seed: set<Node>, order: seq<Node>, h: int) {
    && 0 <= h <= |order| && Distinct(order)
    && (forall n :: n in seed ==> n in order)
    && (forall n {:trigger Seeded(F, seed, n)} :: n in order ==> Seeded(F, seed, n))
    && (forall i :: 0 <= i < h ==> Expanded(F, order, order[i]))
  }

  lemma SeedDiscover(F: set<Edge>, seed: set<Node>, order: seq<Node>, h: int, w: Node)
    requires SeedSearch(F, seed, order, h) && h < |order| && Edge(order[h], w) in F && w !in order
    ensures SeedSearch(F, seed, order + [w], h)
  {
    SeededStep(F, seed, order[h], w);
    var after := order + [w];
    forall i | 0 <= i < h ensures Expanded(F, after, after[i]) {
      assert Expanded(F, order, order[i]);
    }
  }

  lemma SeedSearchEnds(F: set<Edge>, seed: set<Node>, order: seq<Node>, n: Node)
    requires SeedSearch(F, seed, order, |order|)
    ensures n in order <==> Seeded(F, seed, n)
  {
    if Seeded(F, seed, n) {
      var s :| s in seed && Reach(F, s, n);
      var p :| IsPath(F, p, s, n);
      forall a, b | Edge(a, b) in F && a in order ensures b in order {
        var i :| 0 <= i < |order| && order[i] == a;
        assert Expanded(F, order, order[i]);
      }
      ClosedContains(F, Elems(order), s, n, p);
    }
  }

  lemma SeededInNodes(F: set<Edge>, seed: set<Node>, n: Node)
    requires Seeded(F, seed, n)
    ensures n in Nodes(F) + seed
  {
    var s :| s in seed && Reach(F, s, n);
    ReachableIs(F, s, n);
  }

  lemma SeedBound(F: set<Edge>, seed: set<Node>, order: seq<Node>, h: int)
    requires SeedSearch(F, seed, order, h)
    ensures |order| <= |Nodes(F) + seed|
  {
    forall n | n in order ensures n in Nodes(F) + seed {
      SeededInNodes(F, seed, n);
    }
    DistinctBound(order, Nodes(F) + seed);
  }

  /** The inner loop of BFS. */
  method ScanAllowed(neighbours: set<Node>, validSet: set<Node>, skip: set<Node>, visited0: set<Node>,
                     queue0: seq<Node>, ghost F: set<Edge>, ghost seed: set<Node>, ghost done: seq<Node>,
                     ghost cur: Node)
    returns (visited: set<Node>, queue: seq<Node>)
    requires forall w :: Edge(cur, w) in F <==> w in neighbours && w in validSet && w !in skip
    requires SeedSearch(F, seed, done + [cur] + queue0, |done|) && visited0 == Elems(done + [cur] + queue0)
    ensures SeedSearch(F, seed, done + [cur] + queue, |done| + 1) && visited == Elems(done + [cur] + queue)
  {
    visited, queue := visited0, queue0;
    var rest := neighbours;
    while rest != {}
      invariant rest <= neighbours
      invariant SeedSearch(F, seed, done + [cur] + queue, |done|) && visited == Elems(done + [cur] + queue)
      invariant forall w :: Edge(cur, w) in F && w !in rest ==> w in visited
      decreases rest
    {
      var w :| w in rest;
      rest := rest - {w};
      if w in validSet && w !in visited && w !in skip {
        ghost var order := done + [cur] + queue;
        assert order[|done|] == cur;
        SeedDiscover(F, seed, order, |done|, w);
        assert order + [w] == done + [cur] + (queue + [w]);
        ElemsPlus(order, w);
        visited := visited + {w};
        queue := queue + [w];
      }
    }
    ghost var order := done + [cur] + queue;
    assert order[|done|] == cur;
    assert Expanded(F, order, cur);
  }

  ghost predicate SeedState(F: set<Edge>, seed: set<Node>, visited: set<Node>, done: seq<Node>, queue: seq<Node>) {
    SeedSearch(F, seed, done + queue, |done|) && visited == Elems(done + queue)
  }

  /** One turn of the loop of BFS. */
  method TurnBFS(adj: AdjMap, validSet: set<Node>, skip: set<Node>, visited0: set<Node>, queue0: seq<Node>,
                 ghost E: set<Edge>, ghost F: set<Edge>, ghost seed: set<Node>, ghost done0: seq<Node>)
    returns (visited: set<Node>, queue: seq<Node>, ghost done: seq<Node>)
    requires AdjacencyOf(adj, E) && F == Allowed(E, validSet, skip) && queue0 != []
    requires SeedState(F, seed, visited0, done0, queue0)
    ensures SeedState(F, seed, visited, done, queue)
    ensures |done| == |done0| + 1 <= |Nodes(F) + seed|
  {
    var cur := queue0[0];
    SeedBound(F, seed, done0 + queue0, |done0|);
    assert done0 + queue0 == done0 + [cur] + queue0[1..];
    done := done0 + [cur];
    visited, queue := ScanAllowed(Neighbours(adj, cur), validSet, skip, visited0, queue0[1..], F, seed, done0, cur);
  }

  /** graph.BFS: the seeds and everything reachable from them through valid nodes that are not skipped. */
  method BFS(seed: set<Node>, adj: AdjMap, validSet: set<Node>, skip: set<Node>, ghost E: set<Edge>)
    returns (visited: set<Node>)
    requires AdjacencyOf(adj, E)
    ensures forall n :: n in visited <==> Seeded(Allowed(E, validSet, skip), seed, n)
    ensures forall n :: n in visited <==> Found(E, validSet, skip, seed, n)
  {
    ghost var F := Allowed(E, validSet, skip);
    visited := seed;
    var queue := ListNodes(seed);
    ghost var done: seq<Node> := [];
    forall n | n in seed ensures Seeded(F, seed, n) { ReachRefl(F, n); }
    assert done + queue == queue;
    while queue != []
      invariant SeedState(F, seed, visited, done, queue)
      decreases |Nodes(F) + seed| - |done|
    {
      visited, queue, done := TurnBFS(adj, validSet, skip, visited, queue, E, F, seed, done);
    }
    assert done + queue == done;
    forall n ensures n in visited <==> Seeded(F, seed, n) { SeedSearchEnds(F, seed, done, n); }
    forall n ensures n in visited <==> Found(E, validSet, skip, seed, n) { AllowedIs(E, validSet, skip, seed, n); }
  }
}
