/** The shortest call path between two symbols (engine/taint.go). */
module CallPath {
  import opened Graphs
  import opened Traversal
  import opened QueueSearch

  datatype KindEdge = KindEdge(edge: Edge, kind: string)

  predicate Contains(s: string, part: string)
    decreases |s|
  {
    part <= s || (s != "" && Contains(s[1..], part))
  }

  /** Untyped edges, call edges of any flavour and data flow are followed. */
  predicate Followed(kind: string) {
    kind == "" || kind == "call" || Contains(kind, "call") || kind == "data_flow" || kind == "DATA_FLOWS"
  }

  ghost function Flow(edges: seq<KindEdge>): set<Edge> {
    set e | e in edges && Followed(e.kind) :: e.edge
  }

  lemma {:induction false} ContainsIs(s: string, part: string)
    ensures Contains(s, part) <==> exists i: nat :: Occurs(s, part, i)
  {
    if part <= s {
      assert Occurs(s, part, 0);
    } else if s != "" {
      ContainsIs(s[1..], part);
      if i: nat :| Occurs(s[1..], part, i) {
        assert s[1..][i..i + |part|] == s[i + 1..i + 1 + |part|];
        assert Occurs(s, part, i + 1);
      }
      if i: nat :| Occurs(s, part, i) {
        assert i > 0 && s[1..][i - 1..i - 1 + |part|] == s[i..i + |part|];
        assert Occurs(s[1..], part, i - 1);
      }
    }
  }

  ghost predicate Occurs(s: string, part: string, i: nat) {
    i + |part| <= |s| && s[i..i + |part|] == part
  }

  /** An edge is followed if its kind is empty, has call in it, or is one of the two for data flow. */
  ghost predicate FollowedKind(kind: string) {
    |kind| == 0 || (exists i: nat :: Occurs(kind, "call", i)) || kind == "data_flow" || kind == "DATA_FLOWS"
  }

  lemma FlowIs(edges: seq<KindEdge>, a: Node, b: Node)
    ensures Edge(a, b) in Flow(edges) <==>
            exists e :: e in edges && e.edge.src == a && e.edge.dst == b && FollowedKind(e.kind)
  {
    forall kind ensures Followed(kind) <==> FollowedKind(kind) {
      ContainsIs(kind, "call");
    }
    forall e: KindEdge ensures e.edge == Edge(e.edge.src, e.edge.dst) {}
  }

  datatype Item = Item(node: Node, path: seq<Node>)

  /** The queued item carries a shortest path to its node. */
  ghost predicate Carries(E: set<Edge>, src: Node, x: Item) {
    IsPath(E, x.path, src, x.node) && |x.path| == Dist(E, src, x.node) + 1
  }

  ghost function NodesOf(q: seq<Item>): seq<Node> {
    seq(|q|, i requires 0 <= i < |q| => q[i].node)
  }

  ghost predicate State(E: set<Edge>, src: Node, dst: Node, seen: set<Node>, done: seq<Node>, q: seq<Item>) {
    && Search(E, src, done + NodesOf(q), |done|)
    && seen == Elems(done + NodesOf(q)) && dst !in seen
    && (forall i :: 0 <= i < |q| ==> Carries(E, src, q[i]))
  }

  /** The state while cur, just taken from the queue, is being expanded. */
  ghost predicate Expanding(E: set<Edge>, src: Node, dst: Node, seen: set<Node>, done: seq<Node>, cur: Item,
                            q: seq<Item>) {
    && Search(E, src, done + [cur.node] + NodesOf(q), |done|)
    && seen == Elems(done + [cur.node] + NodesOf(q)) && dst !in seen
    && (forall i :: 0 <= i < |q| ==> Carries(E, src, q[i])) && Carries(E, src, cur)
  }

  lemma Take(E: set<Edge>, src: Node, dst: Node, seen: set<Node>, done: seq<Node>, q: seq<Item>)
    requires State(E, src, dst, seen, done, q) && q != []
    ensures Expanding(E, src, dst, seen, done, q[0], q[1..])
  {
    assert done + NodesOf(q) == done + [q[0].node] + NodesOf(q[1..]);
  }

  /** A new neighbour of cur is reached on a shortest path through cur. */
  lemma Visit(E: set<Edge>, src: Node, dst: Node, seen: set<Node>, done: seq<Node>, cur: Item, q: seq<Item>, next: Node)
    requires Expanding(E, src, dst, seen, done, cur, q) && Edge(cur.node, next) in E && next !in seen
    ensures Carries(E, src, Item(next, cur.path + [next]))
    ensures next != dst ==> Expanding(E, src, dst, seen + {next}, done, cur, q + [Item(next, cur.path + [next])])
  {
    var order := done + [cur.node] + NodesOf(q);
    assert order[|done|] == cur.node;
    Discover(E, src, order, |done|, next);
    PathSnoc(E, cur.path, src, cur.node, next);
    assert order + [next] == done + [cur.node] + NodesOf(q + [Item(next, cur.path + [next])]);
    ElemsPlus(order, next);
  }

  lemma Finish(E: set<Edge>, src: Node, dst: Node, seen: set<Node>, done: seq<Node>, cur: Item, q: seq<Item>,
               nexts: seq<Node>)
    requires Expanding(E, src, dst, seen, done, cur, q)
    requires forall w :: w in nexts <==> Edge(cur.node, w) in E
    requires AllSeen(nexts, |nexts|, seen)
    ensures State(E, src, dst, seen, done + [cur.node], q)
  {
    var order := done + [cur.node] + NodesOf(q);
    assert order[|done|] == cur.node;
    forall w | Edge(cur.node, w) in E ensures w in order {
      assert w in nexts;
    }
    Advance(E, src, order, |done|);
  }

  /** The body of the loop over the neighbours of cur. */
  method Meet(cur: Item, next: Node, dst: Node, seen0: set<Node>, q0: seq<Item>, ghost E: set<Edge>, ghost src: Node,
              ghost done: seq<Node>)
    returns (found: bool, np: seq<Node>, seen: set<Node>, q: seq<Item>)
    requires Expanding(E, src, dst, seen0, done, cur, q0) && Edge(cur.node, next) in E
    ensures found ==> Carries(E, src, Item(dst, np))
    ensures !found ==> Expanding(E, src, dst, seen, done, cur, q) && seen == seen0 + {next}
  {
    found, np, seen, q := false, [], seen0, q0;
    if next in seen {
      return;
    }
    Visit(E, src, dst, seen, done, cur, q, next);
    np := cur.path + [next];
    if next == dst {
      found := true;
      return;
    }
    seen := seen + {next};
    q := q + [Item(next, np)];
  }

  ghost predicate AllSeen(nexts: seq<Node>, n: int, seen: set<Node>)
    requires n <= |nexts|
  {
    forall j :: 0 <= j < n ==> nexts[j] in seen
  }

  lemma AllSeenStep(nexts: seq<Node>, i: nat, seen: set<Node>)
    requires i < |nexts| && AllSeen(nexts, i, seen)
    ensures AllSeen(nexts, i + 1, seen + {nexts[i]})
  {
  }

  /** One turn of the loop: found, or one more node expanded. */
  method Turn(adj: ListAdj, dst: Node, seen0: set<Node>, q0: seq<Item>, ghost E: set<Edge>, ghost src: Node,
              ghost done: seq<Node>)
    returns (found: bool, np: seq<Node>, seen: set<Node>, q: seq<Item>, ghost cur: Node)
    requires Lists(adj, E) && q0 != [] && State(E, src, dst, seen0, done, q0)
    ensures found ==> Carries(E, src, Item(dst, np))
    ensures !found ==> State(E, src, dst, seen, done + [cur], q)
  {
    var item := q0[0];
    cur := item.node;
    q, seen, found, np := q0[1..], seen0, false, [];
    Take(E, src, dst, seen0, done, q0);
    var nexts := Listed(adj, item.node);
    for i := 0 to |nexts|
      invariant Expanding(E, src, dst, seen, done, item, q)
      invariant AllSeen(nexts, i, seen)
    {
      AllSeenStep(nexts, i, seen);
      found, np, seen, q := Meet(item, nexts[i], dst, seen, q, E, src, done);
      if found {
        return;
      }
    }
    Finish(E, src, dst, seen, done, item, q, nexts);
  }

  lemma StateBound(E: set<Edge>, src: Node, dst: Node, seen: set<Node>, done: seq<Node>, q: seq<Item>)
    requires State(E, src, dst, seen, done, q) && q != []
    ensures |done| < |Nodes(E) + {src}|
  {
    DiscoveredInNodes(E, src, done + NodesOf(q), |done|);
  }

  method BuildAdj(edges: seq<KindEdge>) returns (adj: ListAdj)
    ensures Lists(adj, Flow(edges))
  {
    adj := map[];
    for i := 0 to |edges|
      invariant Lists(adj, Flow(edges[..i]))
    {
      var e := edges[i];
      ghost var before := edges[..i];
      assert edges[..i + 1] == before + [e];
      var kind := e.kind;
      if !(kind != "" && kind != "call" && !Contains(kind, "call") && kind != "data_flow" && kind != "DATA_FLOWS") {
        assert Flow(before + [e]) == Flow(before) + {e.edge};
        adj := adj[e.edge.src := Listed(adj, e.edge.src) + [e.edge.dst]];
      } else {
        assert Flow(before + [e]) == Flow(before);
      }
    }
    assert edges[..|edges|] == edges;
  }

  /** A shortest path over the followed edges; empty exactly when there is none. */
  lemma FoundPath(E: set<Edge>, src: Node, dst: Node, path: seq<Node>)
    requires Carries(E, src, Item(dst, path))
    ensures path != [] && IsPath(E, path, src, dst) && IsDist(E, src, dst, |path| - 1) && Reach(E, src, dst)
  {
    DistSpec(E, src, dst);
  }

  lemma NotFound(E: set<Edge>, src: Node, dst: Node, seen: set<Node>, done: seq<Node>)
    requires State(E, src, dst, seen, done, [])
    ensures !Reach(E, src, dst)
  {
    assert done + NodesOf([]) == done;
    SearchEnds(E, src, done);
  }

  lemma StateStarts(E: set<Edge>, src: Node, dst: Node)
    requires src != dst
    ensures State(E, src, dst, {src}, [], [Item(src, [src])])
  {
    SearchStarts(E, src);
    DistSelf(E, src);
    assert [] + NodesOf([Item(src, [src])]) == [src];
  }

  method BfsCallPath(edges: seq<KindEdge>, src: Node, dst: Node) returns (path: seq<Node>)
    ensures path == [] <==> !Reach(Flow(edges), src, dst)
    ensures path != [] ==> IsPath(Flow(edges), path, src, dst) && IsDist(Flow(edges), src, dst, |path| - 1)
    ensures src == dst ==> path == [src]
  {
    ghost var E := Flow(edges);
    var adj := BuildAdj(edges);
    if src == dst {
      DistSelf(E, src);
      FoundPath(E, src, src, [src]);
      return [src];
    }
    path := SearchPath(adj, src, dst, E);
  }

  /** The loop over the queue. */
  method SearchPath(adj: ListAdj, src: Node, dst: Node, ghost E: set<Edge>) returns (path: seq<Node>)
    requires Lists(adj, E) && src != dst
    ensures path == [] <==> !Reach(E, src, dst)
    ensures path != [] ==> IsPath(E, path, src, dst) && IsDist(E, src, dst, |path| - 1)
  {
    var q, seen := [Item(src, [src])], {src};
    ghost var done: seq<Node> := [];
    StateStarts(E, src, dst);
    while q != []
      invariant State(E, src, dst, seen, done, q)
      decreases |Nodes(E) + {src}| - |done|
    {
      StateBound(E, src, dst, seen, done, q);
      var found, np;
      ghost var cur;
      found, np, seen, q, cur := Turn(adj, dst, seen, q, E, src, done);
      if found {
        FoundPath(E, src, dst, np);
        return np;
      }
      done := done + [cur];
    }
    NotFound(E, src, dst, seen, done);
    path := [];
  }
}
