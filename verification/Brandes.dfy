/** One source of Brandes' betweenness algorithm (graph/metrics.go). */
module Brandes {
  import opened Graphs
  import opened Sums
  import opened PathCounts
  import opened Dependencies

  /** The value a Go map read yields for a possibly missing key. */
  function Get(m: map<Node, real>, n: Node): real {
    if n in m then m[n] else 0.0
  }

  function At(dist: map<Node, int>, n: Node): int {
    if n in dist then dist[n] else 0
  }

  function GetList(m: map<Node, seq<Node>>, n: Node): seq<Node> {
    if n in m then m[n] else []
  }

  /** adj, over the nodes listed in nodeList, is the graph g. */
  ghost predicate Adjacency(adj: AdjMap, nodeList: seq<Node>, g: Graph) {
    && Closed(g)
    && Elems(nodeList) == g.nodes
    && AdjacencyOf(adj, g.edges)
  }

  // ----- Discovery -----

  /** n is one of the scanned neighbours S, and one hop further out than v. */
  ghost predicate Hit(dist0: map<Node, int>, v: Node, S: set<Node>, n: Node) {
    n in S && n in dist0 && v in dist0 && (dist0[n] < 0 || dist0[n] == dist0[v] + 1)
  }

  ghost predicate DistAfter(dist0: map<Node, int>, v: Node, S: set<Node>, dist: map<Node, int>) {
    && dist.Keys == dist0.Keys
    && forall n :: n in dist0 ==> dist[n] == if n in S && dist0[n] < 0 then At(dist0, v) + 1 else dist0[n]
  }

  /** queue is queue0 followed by the scanned nodes seen for the first time, each once. */
  ghost predicate QueueAfter(dist0: map<Node, int>, S: set<Node>, queue0: seq<Node>, queue: seq<Node>) {
    && queue0 <= queue
    && Distinct(queue[|queue0|..])
    && forall n :: n in queue[|queue0|..] <==> n in S && n in dist0 && dist0[n] < 0
  }

  ghost predicate SigmaAfter(dist0: map<Node, int>, v: Node, S: set<Node>,
                             sigma0: map<Node, real>, sigma: map<Node, real>) {
    forall n :: Get(sigma, n) == Get(sigma0, n) + if Hit(dist0, v, S, n) then Get(sigma0, v) else 0.0
  }

  ghost predicate PredAfter(dist0: map<Node, int>, v: Node, S: set<Node>,
                            pred0: map<Node, seq<Node>>, pred: map<Node, seq<Node>>) {
    forall n :: GetList(pred, n) == GetList(pred0, n) + if Hit(dist0, v, S, n) then [v] else []
  }

  lemma QueueStep(dist0: map<Node, int>, S: set<Node>, queue0: seq<Node>, queue: seq<Node>, w: Node)
    requires QueueAfter(dist0, S, queue0, queue) && w in dist0 && w !in S
    ensures QueueAfter(dist0, S + {w}, queue0, if dist0[w] < 0 then queue + [w] else queue)
  {
    if dist0[w] < 0 {
      assert (queue + [w])[|queue0|..] == queue[|queue0|..] + [w];
    }
  }

  lemma SigmaStepOne(dist0: map<Node, int>, v: Node, S: set<Node>,
                     sigma0: map<Node, real>, sigma: map<Node, real>, w: Node)
    requires SigmaAfter(dist0, v, S, sigma0, sigma) && w in dist0 && v in dist0 && dist0[v] >= 0 && w !in S
    ensures Hit(dist0, v, S + {w}, w) ==>
              SigmaAfter(dist0, v, S + {w}, sigma0, sigma[w := Get(sigma, w) + Get(sigma, v)])
    ensures !Hit(dist0, v, S + {w}, w) ==> SigmaAfter(dist0, v, S + {w}, sigma0, sigma)
  {
    forall n | n != w ensures Hit(dist0, v, S + {w}, n) <==> Hit(dist0, v, S, n) {}
    assert dist0[v] >= 0 ==> !Hit(dist0, v, S, v);
  }

  lemma PredStep(dist0: map<Node, int>, v: Node, S: set<Node>,
                 pred0: map<Node, seq<Node>>, pred: map<Node, seq<Node>>, w: Node)
    requires PredAfter(dist0, v, S, pred0, pred) && w in dist0 && v in dist0 && w !in S
    ensures Hit(dist0, v, S + {w}, w) ==>
              PredAfter(dist0, v, S + {w}, pred0, pred[w := GetList(pred, w) + [v]])
    ensures !Hit(dist0, v, S + {w}, w) ==> PredAfter(dist0, v, S + {w}, pred0, pred)
  {
    forall n | n != w ensures Hit(dist0, v, S + {w}, n) <==> Hit(dist0, v, S, n) {}
  }

  /** After the neighbours S of v have been scanned. */
  ghost predicate Relaxed(v: Node, S: set<Node>, dist0: map<Node, int>, sigma0: map<Node, real>,
                          pred0: map<Node, seq<Node>>, queue0: seq<Node>, dist: map<Node, int>, sigma: map<Node, real>,
                          pred: map<Node, seq<Node>>, queue: seq<Node>) {
    && DistAfter(dist0, v, S, dist)
    && QueueAfter(dist0, S, queue0, queue)
    && SigmaAfter(dist0, v, S, sigma0, sigma)
    && PredAfter(dist0, v, S, pred0, pred)
  }

  /** The body of the inner loop. */
  method RelaxOne(v: Node, w: Node, dist1: map<Node, int>, sigma1: map<Node, real>, pred1: map<Node, seq<Node>>,
                  queue1: seq<Node>, ghost done: set<Node>, ghost dist0: map<Node, int>, ghost sigma0: map<Node, real>,
                  ghost pred0: map<Node, seq<Node>>, ghost queue0: seq<Node>)
    returns (dist: map<Node, int>, sigma: map<Node, real>, pred: map<Node, seq<Node>>, queue: seq<Node>)
    requires v in dist0 && dist0[v] >= 0 && w in dist0 && w !in done
    requires Relaxed(v, done, dist0, sigma0, pred0, queue0, dist1, sigma1, pred1, queue1)
    ensures Relaxed(v, done + {w}, dist0, sigma0, pred0, queue0, dist, sigma, pred, queue)
  {
    dist, sigma, pred, queue := dist1, sigma1, pred1, queue1;
    dist, queue := Visit(v, w, dist1, queue1, done, dist0, queue0);
    if dist[w] == dist[v] + 1 {
      assert Hit(dist0, v, done + {w}, w);
      sigma := sigma[w := Get(sigma, w) + Get(sigma, v)];
      pred := pred[w := GetList(pred, w) + [v]];
    }
    SigmaStepOne(dist0, v, done, sigma0, sigma1, w);
    PredStep(dist0, v, done, pred0, pred1, w);
  }

  /** The first visit of w, if it is one. */
  method Visit(v: Node, w: Node, dist1: map<Node, int>, queue1: seq<Node>,
               ghost done: set<Node>, ghost dist0: map<Node, int>, ghost queue0: seq<Node>)
    returns (dist: map<Node, int>, queue: seq<Node>)
    requires v in dist0 && dist0[v] >= 0 && w in dist0 && w !in done
    requires DistAfter(dist0, v, done, dist1) && QueueAfter(dist0, done, queue0, queue1)
    ensures DistAfter(dist0, v, done + {w}, dist) && QueueAfter(dist0, done + {w}, queue0, queue)
    ensures dist[v] == dist0[v] && (dist[w] == dist[v] + 1 <==> Hit(dist0, v, done + {w}, w))
  {
    dist, queue := dist1, queue1;
    QueueStep(dist0, done, queue0, queue1, w);
    if dist[w] < 0 {
      dist := dist[w := dist[v] + 1];
      queue := queue + [w];
    }
  }

  /** The inner loop: scanning the neighbours of v for first visits, path counts and predecessors. */
  method Relax(v: Node, neighbours: set<Node>, dist0: map<Node, int>, sigma0: map<Node, real>,
               pred0: map<Node, seq<Node>>, queue0: seq<Node>)
    returns (dist: map<Node, int>, sigma: map<Node, real>, pred: map<Node, seq<Node>>, queue: seq<Node>)
    requires v in dist0 && dist0[v] >= 0 && neighbours <= dist0.Keys
    ensures DistAfter(dist0, v, neighbours, dist)
    ensures QueueAfter(dist0, neighbours, queue0, queue)
    ensures SigmaAfter(dist0, v, neighbours, sigma0, sigma)
    ensures PredAfter(dist0, v, neighbours, pred0, pred)
  {
    dist, sigma, pred, queue := dist0, sigma0, pred0, queue0;
    var rest := neighbours;
    ghost var done := {};
    while rest != {}
      invariant rest + done == neighbours && rest !! done
      invariant Relaxed(v, done, dist0, sigma0, pred0, queue0, dist, sigma, pred, queue)
      decreases rest
    {
      var w :| w in rest;
      rest := rest - {w};
      dist, sigma, pred, queue := RelaxOne(v, w, dist, sigma, pred, queue, done, dist0, sigma0, pred0, queue0);
      done := done + {w};
    }
    assert done == neighbours;
  }

  // ----- The search invariant: d is the level being expanded, the first c queue entries lie on it -----

  ghost predicate Seen(dist: map<Node, int>, n: Node) {
    n in dist && dist[n] >= 0
  }

  /** Seen nodes carry their true hop distance, and everything up to level d has been seen. */
  ghost predicate Levelled(g: Graph, src: Node, dist: map<Node, int>, d: nat) {
    && dist.Keys == g.nodes
    && (forall n :: Seen(dist, n) ==> IsDist(g.edges, src, n, At(dist, n)))
    && (forall n, k: nat {:trigger IsDist(g.edges, src, n, k)} ::
          IsDist(g.edges, src, n, k) && k <= d ==> Seen(dist, n))
  }

  /** stack followed by queue lists each seen node once, in order of distance. */
  ghost predicate Ordered(dist: map<Node, int>, stack: seq<Node>, queue: seq<Node>, d: nat, c: nat) {
    && Distinct(stack + queue)
    && (forall n :: n in stack || n in queue <==> Seen(dist, n))
    && c <= |queue| && (c == 0 ==> queue == [])
    && (forall i :: 0 <= i < |stack| ==> At(dist, stack[i]) <= d)
    && (forall i, j :: 0 <= i < j < |stack| ==> At(dist, stack[i]) <= At(dist, stack[j]))
    && (forall i :: 0 <= i < |queue| ==> At(dist, queue[i]) == if i < c then d else d + 1)
  }

  ghost predicate Expanded(g: Graph, dist: map<Node, int>, stack: seq<Node>) {
    forall v, w :: v in stack && Edge(v, w) in g.edges ==> Seen(dist, w)
  }

  lemma NewLevel(E: set<Edge>, a: Node, v: Node, w: Node, d: nat)
    requires IsDist(E, a, v, d) && Edge(v, w) in E
    requires forall k: nat {:trigger IsDist(E, a, w, k)} :: k <= d ==> !IsDist(E, a, w, k)
    ensures IsDist(E, a, w, d + 1)
  {
    var p :| IsPath(E, p, a, v) && |p| == d + 1;
    PathSnoc(E, p, a, v, w);
    assert Reach(E, a, w);
    ReachHasDist(E, a, w);
    var k: nat :| IsDist(E, a, w, k);
    assert |p + [w]| == d + 2;
  }

  lemma LevelledStep(g: Graph, src: Node, nodeList: seq<Node>, adj: AdjMap, dist0: map<Node, int>, d: nat,
                     v: Node, dist: map<Node, int>)
    requires Adjacency(adj, nodeList, g) && Levelled(g, src, dist0, d)
    requires Seen(dist0, v) && dist0[v] == d && DistAfter(dist0, v, Neighbours(adj, v), dist)
    ensures Levelled(g, src, dist, d)
  {
    forall n | Seen(dist, n) ensures IsDist(g.edges, src, n, At(dist, n)) {
      if !Seen(dist0, n) {
        assert Seen(dist0, v);
        NewLevel(g.edges, src, v, n, d);
      }
    }
  }

  lemma LevelledNext(g: Graph, src: Node, dist: map<Node, int>, d: nat, stack: seq<Node>, queue: seq<Node>)
    requires Levelled(g, src, dist, d) && Expanded(g, dist, stack)
    requires forall n :: n in stack || n in queue <==> Seen(dist, n)
    requires forall n :: n in queue ==> At(dist, n) == d + 1
    ensures Levelled(g, src, dist, d + 1)
  {
    forall n, k: nat | IsDist(g.edges, src, n, k) && k <= d + 1 ensures Seen(dist, n) {
      if k == d + 1 {
        var u := LastHop(g.edges, src, n, d);
        DistUnique(g.edges, src, u, d, At(dist, u));
      }
    }
  }

  lemma OrderedStep(dist0: map<Node, int>, stack: seq<Node>, queue: seq<Node>, d: nat, c: nat, v: Node,
                    neighbours: set<Node>, dist: map<Node, int>, queue1: seq<Node>)
    requires Ordered(dist0, stack, queue, d, c) && queue != [] && v == queue[0]
    requires neighbours <= dist0.Keys && DistAfter(dist0, v, neighbours, dist)
    requires QueueAfter(dist0, neighbours, queue[1..], queue1)
    ensures Distinct(stack + [v] + queue1)
    ensures forall n :: n in stack + [v] || n in queue1 <==> Seen(dist, n)
    ensures forall i :: 0 <= i < |queue1| ==> At(dist, queue1[i]) == if i < c - 1 then d else d + 1
    ensures forall i :: 0 <= i < |stack + [v]| ==> At(dist, (stack + [v])[i]) <= d
    ensures forall i, j :: 0 <= i < j < |stack + [v]| ==> At(dist, (stack + [v])[i]) <= At(dist, (stack + [v])[j])
  {
    var m := |queue| - 1;
    var added := queue1[m..];
    assert queue1 == queue[1..] + added;
    assert queue == [v] + queue[1..];
    assert stack + [v] + queue1 == (stack + queue) + added;
    forall n ensures n in stack + [v] || n in queue1 <==> Seen(dist, n) {
      assert n in queue1 <==> n in queue[1..] || n in added;
      assert n in queue <==> n == v || n in queue[1..];
    }
    forall i | 0 <= i < |added| ensures added[i] !in stack + queue && At(dist, added[i]) == d + 1 {
      assert added[i] in added;
    }
    assert forall n :: n in dist0 && dist0[n] >= 0 ==> At(dist, n) == At(dist0, n);
    assert v in queue;
    forall i | 0 <= i < |stack + [v]| ensures At(dist, (stack + [v])[i]) == At(dist0, (stack + [v])[i]) {
      if i < |stack| { assert stack[i] in stack; }
    }
    forall i | 0 <= i < |queue1| ensures At(dist, queue1[i]) == if i < c - 1 then d else d + 1 {
      if i < m { assert queue1[i] == queue[i + 1]; } else { assert queue1[i] == added[i - m]; }
    }
  }

  lemma ExpandedStep(g: Graph, nodeList: seq<Node>, adj: AdjMap, dist0: map<Node, int>, stack: seq<Node>,
                     v: Node, dist: map<Node, int>)
    requires Adjacency(adj, nodeList, g) && Expanded(g, dist0, stack) && g.nodes == dist0.Keys
    requires Seen(dist0, v) && DistAfter(dist0, v, Neighbours(adj, v), dist)
    ensures Expanded(g, dist, stack + [v])
  {
    forall u, w | u in stack + [v] && Edge(u, w) in g.edges ensures Seen(dist, w) {
      if u != v { assert u in stack; }
    }
  }

  // ----- Path counts and predecessors during the search -----

  ghost function Arrivals(g: Graph, src: Node, k: int): Node -> real {
    v => if k >= 0 then Num(g, src, v, k) else 0.0
  }

  ghost predicate IsParent(g: Graph, dist: map<Node, int>, v: Node, w: Node) {
    Edge(v, w) in g.edges && Seen(dist, v) && Seen(dist, w) && dist[w] == dist[v] + 1
  }

  /** pred lists the expanded parents of each node, and sigma adds up their path counts. */
  ghost predicate Counted(g: Graph, src: Node, stack: seq<Node>, dist: map<Node, int>,
                          sigma: map<Node, real>, pred: map<Node, seq<Node>>) {
    && (forall w :: Distinct(GetList(pred, w)))
    && (forall w, v :: v in GetList(pred, w) <==> v in stack && IsParent(g, dist, v, w))
    && (forall w {:trigger CountAt(g, src, dist, sigma, pred, w)} :: CountAt(g, src, dist, sigma, pred, w))
  }

  ghost predicate CountAt(g: Graph, src: Node, dist: map<Node, int>, sigma: map<Node, real>, pred: map<Node, seq<Node>>,
                          w: Node) {
    Get(sigma, w) == (if w == src then 1.0 else 0.0) + Sum(Elems(GetList(pred, w)), Arrivals(g, src, At(dist, w) - 1))
  }

  /** A node's count is complete once all nodes closer to the source have been expanded. */
  lemma CountComplete(g: Graph, src: Node, stack: seq<Node>, dist: map<Node, int>, d: nat,
                      sigma: map<Node, real>, pred: map<Node, seq<Node>>, v: Node)
    requires Closed(g) && Levelled(g, src, dist, d) && Counted(g, src, stack, dist, sigma, pred)
    requires Seen(dist, v) && dist[v] <= d
    requires forall n :: Seen(dist, n) && dist[n] < dist[v] ==> n in stack
    ensures Get(sigma, v) == Num(g, src, v, dist[v])
  {
    SourceOnly(g.edges, src, v);
    assert CountAt(g, src, dist, sigma, pred, v);
    if dist[v] == 0 {
      PredsFarther(g, src, stack, dist, sigma, pred, v);
      assert Get(sigma, v) == 1.0 + Sum(Elems<Node>([]), Arrivals(g, src, -1));
    } else {
      ParentsAreAll(g, src, stack, dist, d, pred, v, dist[v] - 1);
      NumSnoc(g, src, v, dist[v] - 1);
    }
  }

  lemma ParentsAreAll(g: Graph, src: Node, stack: seq<Node>, dist: map<Node, int>, d: nat,
                      pred: map<Node, seq<Node>>, v: Node, k: nat)
    requires Closed(g) && Levelled(g, src, dist, d)
    requires Seen(dist, v) && dist[v] == k + 1 <= d
    requires forall n :: Seen(dist, n) && dist[n] < dist[v] ==> n in stack
    requires forall u :: u in GetList(pred, v) <==> u in stack && IsParent(g, dist, u, v)
    ensures Sum(Elems(GetList(pred, v)), Arrivals(g, src, k)) == Sum(Preds(g, v), NumFrom(g, src, k))
  {
    var P := Elems(GetList(pred, v));
    forall u | u in P ensures u in Preds(g, v) {
      assert IsParent(g, dist, u, v);
    }
    forall u | u in Preds(g, v) - P ensures NumFrom(g, src, k)(u) == 0.0 {
      NotAParent(g, src, dist, d, u, v, k);
    }
    SumRestrict(Preds(g, v), P, NumFrom(g, src, k));
    SumSame(P, NumFrom(g, src, k), Arrivals(g, src, k));
  }

  lemma SourceOnly(E: set<Edge>, src: Node, v: Node)
    ensures IsDist(E, src, src, 0)
    ensures IsDist(E, src, v, 0) ==> v == src
  {
    assert IsPath(E, [src], src, src) && |[src]| == 1;
  }

  lemma SameLevel(g: Graph, src: Node, dist: map<Node, int>, d: nat, u: Node, k: nat)
    requires Levelled(g, src, dist, d) && k <= d && IsDist(g.edges, src, u, k)
    ensures Seen(dist, u) && dist[u] == k
  {
    DistUnique(g.edges, src, u, k, At(dist, u));
  }

  lemma NotAParent(g: Graph, src: Node, dist: map<Node, int>, d: nat, u: Node, v: Node, k: nat)
    requires Levelled(g, src, dist, d) && k <= d && IsDist(g.edges, src, v, k + 1) && Edge(u, v) in g.edges
    requires Closed(g) && !(Seen(dist, u) && dist[u] == k)
    ensures Num(g, src, u, k) == 0.0
  {
    forall p | p in Walks(g, src, u, k) ensures false {
      WalksArePaths(g, src, u, k, p);
      PathSnoc(g.edges, p, src, u, v);
      forall q | IsPath(g.edges, q, src, u) ensures |q| >= k + 1 { PathSnoc(g.edges, q, src, u, v); }
      assert IsDist(g.edges, src, u, k);
      SameLevel(g, src, dist, d, u, k);
    }
    assert Walks(g, src, u, k) == {};
    WalksCount(g, src, u, k);
  }

  lemma CountedStep(g: Graph, src: Node, stack: seq<Node>, v: Node, d: nat, S: set<Node>,
                    dist0: map<Node, int>, sigma0: map<Node, real>, pred0: map<Node, seq<Node>>,
                    dist: map<Node, int>, sigma: map<Node, real>, pred: map<Node, seq<Node>>)
    requires Closed(g) && g.nodes == dist0.Keys
    requires (forall n :: n in stack ==> Seen(dist0, n)) && Expanded(g, dist0, stack)
    requires forall w :: w in S <==> Edge(v, w) in g.edges
    requires Counted(g, src, stack, dist0, sigma0, pred0)
    requires Seen(dist0, v) && dist0[v] == d && v !in stack && Get(sigma0, v) == Num(g, src, v, d)
    requires DistAfter(dist0, v, S, dist)
    requires SigmaAfter(dist0, v, S, sigma0, sigma) && PredAfter(dist0, v, S, pred0, pred)
    ensures Counted(g, src, stack + [v], dist, sigma, pred)
  {
    PredsStep(g, stack, v, S, dist0, pred0, dist, pred);
    forall w ensures CountAt(g, src, dist, sigma, pred, w) {
      assert CountAt(g, src, dist0, sigma0, pred0, w);
      PredsFarther(g, src, stack, dist0, sigma0, pred0, w);
      SigmaSums(g, src, v, d, dist0, sigma0, pred0, dist, sigma, pred, S, w);
    }
  }

  lemma PredsStep(g: Graph, stack: seq<Node>, v: Node, S: set<Node>, dist0: map<Node, int>, pred0: map<Node, seq<Node>>,
                  dist: map<Node, int>, pred: map<Node, seq<Node>>)
    requires Closed(g) && g.nodes == dist0.Keys
    requires (forall n :: n in stack ==> Seen(dist0, n)) && Expanded(g, dist0, stack)
    requires forall w :: w in S <==> Edge(v, w) in g.edges
    requires (forall w :: Distinct(GetList(pred0, w)))
    requires forall w, u :: u in GetList(pred0, w) <==> u in stack && IsParent(g, dist0, u, w)
    requires Seen(dist0, v) && v !in stack
    requires DistAfter(dist0, v, S, dist) && PredAfter(dist0, v, S, pred0, pred)
    ensures forall w :: Distinct(GetList(pred, w))
    ensures forall w, u :: u in GetList(pred, w) <==> u in stack + [v] && IsParent(g, dist, u, w)
  {
    forall w, u ensures u in GetList(pred, w) <==> u in stack + [v] && IsParent(g, dist, u, w) {
      HitIsParent(g, dist0, v, S, dist, w);
      PredMembers(g, stack, v, dist0, pred0, dist, pred, S, w, u);
    }
    forall w ensures Distinct(GetList(pred, w)) {
      PredDistinct(g, stack, v, dist0, pred0, pred, S, w);
    }
  }

  lemma PredDistinct(g: Graph, stack: seq<Node>, v: Node, dist0: map<Node, int>, pred0: map<Node, seq<Node>>,
                     pred: map<Node, seq<Node>>, S: set<Node>, w: Node)
    requires PredAfter(dist0, v, S, pred0, pred) && v !in stack
    requires Distinct(GetList(pred0, w)) && (v in GetList(pred0, w) ==> v in stack)
    ensures Distinct(GetList(pred, w))
  {
    assert GetList(pred, w) == GetList(pred0, w) + if Hit(dist0, v, S, w) then [v] else [];
  }

  lemma PredsFarther(g: Graph, src: Node, stack: seq<Node>, dist: map<Node, int>,
                      sigma: map<Node, real>, pred: map<Node, seq<Node>>, w: Node)
    requires Counted(g, src, stack, dist, sigma, pred)
    ensures GetList(pred, w) != [] ==> Seen(dist, w) && dist[w] > 0
  {
    if GetList(pred, w) != [] { assert IsParent(g, dist, GetList(pred, w)[0], w); }
  }

  lemma HitIsParent(g: Graph, dist0: map<Node, int>, v: Node, S: set<Node>, dist: map<Node, int>, w: Node)
    requires Closed(g) && g.nodes == dist0.Keys && Seen(dist0, v) && DistAfter(dist0, v, S, dist)
    requires w in S <==> Edge(v, w) in g.edges
    ensures Hit(dist0, v, S, w) <==> IsParent(g, dist, v, w)
  {
  }

  lemma PredMembers(g: Graph, stack: seq<Node>, v: Node, dist0: map<Node, int>, pred0: map<Node, seq<Node>>,
                    dist: map<Node, int>, pred: map<Node, seq<Node>>, S: set<Node>, w: Node, u: Node)
    requires (forall n :: n in stack ==> Seen(dist0, n)) && Expanded(g, dist0, stack)
    requires DistAfter(dist0, v, S, dist) && PredAfter(dist0, v, S, pred0, pred)
    requires Seen(dist0, v) && v !in stack
    requires u in GetList(pred0, w) <==> u in stack && IsParent(g, dist0, u, w)
    requires Hit(dist0, v, S, w) <==> IsParent(g, dist, v, w)
    ensures u in GetList(pred, w) <==> u in stack + [v] && IsParent(g, dist, u, w)
  {
    assert u in GetList(pred, w) <==> u in GetList(pred0, w) || (u == v && Hit(dist0, v, S, w));
    if u in stack && Edge(u, w) in g.edges {
      assert Seen(dist0, w);
      assert IsParent(g, dist0, u, w) <==> IsParent(g, dist, u, w);
    }
  }

  lemma SigmaSums(g: Graph, src: Node, v: Node, d: nat,
                  dist0: map<Node, int>, sigma0: map<Node, real>, pred0: map<Node, seq<Node>>,
                  dist: map<Node, int>, sigma: map<Node, real>, pred: map<Node, seq<Node>>, S: set<Node>, w: Node)
    requires DistAfter(dist0, v, S, dist) && Seen(dist0, v) && dist0[v] == d
    requires SigmaAfter(dist0, v, S, sigma0, sigma) && PredAfter(dist0, v, S, pred0, pred)
    requires v !in GetList(pred0, w) && Get(sigma0, v) == Num(g, src, v, d)
    requires !Seen(dist0, w) ==> GetList(pred0, w) == []
    requires CountAt(g, src, dist0, sigma0, pred0, w)
    ensures CountAt(g, src, dist, sigma, pred, w)
  {
    var f0, f := Arrivals(g, src, At(dist0, w) - 1), Arrivals(g, src, At(dist, w) - 1);
    var P0 := Elems(GetList(pred0, w));
    assert Sum(P0, f0) == Sum(P0, f) by {
      if !Seen(dist0, w) { assert P0 == {}; }
    }
    if Hit(dist0, v, S, w) {
      assert f(v) == Num(g, src, v, d);
      assert Sum(Elems(GetList(pred, w)), f) == f(v) + Sum(P0, f) by {
        assert Elems(GetList(pred, w)) - {v} == P0;
        SumPick(Elems(GetList(pred, w)), f, v);
      }
    } else {
      assert GetList(pred, w) == GetList(pred0, w);
    }
  }

  // ----- The two phases -----

  /** Everything reachable is on the stack once the queue is empty. */
  lemma {:induction false} AllSeen(g: Graph, src: Node, dist: map<Node, int>, d: nat, stack: seq<Node>, n: Node, k: nat)
    requires Levelled(g, src, dist, d) && Expanded(g, dist, stack)
    requires forall m :: m in stack <==> Seen(dist, m)
    requires IsDist(g.edges, src, n, k)
    ensures Seen(dist, n)
    decreases k
  {
    if k > d {
      var u := LastHop(g.edges, src, n, k - 1);
      AllSeen(g, src, dist, d, stack, u, k - 1);
    }
  }

  ghost function DistancesSeen(dist: map<Node, int>): map<Node, nat> {
    map n | n in dist && dist[n] >= 0 :: dist[n]
  }

  lemma SearchDone(g: Graph, src: Node, dist: map<Node, int>, d: nat, stack: seq<Node>)
    requires Closed(g) && Levelled(g, src, dist, d) && Expanded(g, dist, stack)
    requires forall m :: m in stack <==> Seen(dist, m)
    ensures Distances(g, src, DistancesSeen(dist))
  {
    var D := DistancesSeen(dist);
    forall n, k: nat ensures IsDist(g.edges, src, n, k) <==> n in D && D[n] == k {
      if IsDist(g.edges, src, n, k) {
        AllSeen(g, src, dist, d, stack, n, k);
        DistUnique(g.edges, src, n, k, At(dist, n));
      }
      if n in D && D[n] == k { assert Seen(dist, n) && At(dist, n) == k; }
    }
  }

  lemma Start(g: Graph, src: Node, dist: map<Node, int>, sigma: map<Node, real>)
    requires Closed(g) && src in g.nodes
    requires dist == (map n | n in g.nodes :: -1)[src := 0] && sigma == map[src := 1.0]
    ensures Levelled(g, src, dist, 0) && Ordered(dist, [], [src], 0, 1) && Expanded(g, dist, [])
    ensures Counted(g, src, [], dist, sigma, map[])
  {
    forall n, k: nat | IsDist(g.edges, src, n, k) && k <= 0 ensures Seen(dist, n) {
      SourceOnly(g.edges, src, n);
    }
    SourceOnly(g.edges, src, src);
    assert [] + [src] == [src];
  }

  lemma StackIsShort(g: Graph, dist: map<Node, int>, stack: seq<Node>, queue: seq<Node>, d: nat, c: nat)
    requires Ordered(dist, stack, queue, d, c) && dist.Keys == g.nodes
    ensures |stack| + |queue| <= |g.nodes|
  {
    forall n | n in stack + queue ensures n in g.nodes { assert Seen(dist, n); }
    DistinctBound(stack + queue, g.nodes);
  }

  /** What the search hands to the accumulation phase. */
  ghost predicate Discovered(g: Graph, src: Node, D: map<Node, nat>, stack: seq<Node>,
                             sigma: map<Node, real>, pred: map<Node, seq<Node>>) {
    && Distances(g, src, D)
    && Distinct(stack) && Elems(stack) == D.Keys
    && (forall i, j :: 0 <= i < j < |stack| && stack[i] in D && stack[j] in D ==> D[stack[i]] <= D[stack[j]])
    && (forall w :: w in D ==> Get(sigma, w) == SigmaOf(g, src, D, w))
    && (forall w :: Distinct(GetList(pred, w)) && Elems(GetList(pred, w)) == Parents(g, D, w))
  }

  lemma Discovery(g: Graph, src: Node, dist: map<Node, int>, d: nat, c: nat, stack: seq<Node>,
                  sigma: map<Node, real>, pred: map<Node, seq<Node>>)
    requires Closed(g) && Levelled(g, src, dist, d) && Ordered(dist, stack, [], d, c) && Expanded(g, dist, stack)
    requires Counted(g, src, stack, dist, sigma, pred)
    ensures Discovered(g, src, DistancesSeen(dist), stack, sigma, pred)
  {
    var D := DistancesSeen(dist);
    SearchDone(g, src, dist, d, stack);
    assert stack + [] == stack;
    forall w | w in D ensures Get(sigma, w) == SigmaOf(g, src, D, w) {
      SigmaDone(g, src, dist, d, c, stack, sigma, pred, w);
    }
    forall w ensures Distinct(GetList(pred, w)) && Elems(GetList(pred, w)) == Parents(g, D, w) {
      ParentsDone(g, dist, stack, GetList(pred, w), w);
    }
  }

  lemma SigmaDone(g: Graph, src: Node, dist: map<Node, int>, d: nat, c: nat, stack: seq<Node>,
                  sigma: map<Node, real>, pred: map<Node, seq<Node>>, w: Node)
    requires Closed(g) && Levelled(g, src, dist, d) && Ordered(dist, stack, [], d, c)
    requires Counted(g, src, stack, dist, sigma, pred) && w in DistancesSeen(dist)
    ensures Get(sigma, w) == SigmaOf(g, src, DistancesSeen(dist), w)
  {
    assert Seen(dist, w) && w in stack;
    var i :| 0 <= i < |stack| && stack[i] == w;
    CountComplete(g, src, stack, dist, d, sigma, pred, w);
  }

  lemma ParentsDone(g: Graph, dist: map<Node, int>, stack: seq<Node>, list: seq<Node>, w: Node)
    requires Closed(g) && forall n :: n in stack <==> Seen(dist, n)
    requires forall v :: v in list <==> v in stack && IsParent(g, dist, v, w)
    ensures Elems(list) == Parents(g, DistancesSeen(dist), w)
  {
  }

  lemma PopFacts(dist: map<Node, int>, stack: seq<Node>, queue: seq<Node>, d: nat, c: nat)
    requires Ordered(dist, stack, queue, d, c) && queue != []
    ensures Seen(dist, queue[0]) && dist[queue[0]] == d && queue[0] !in stack
    ensures forall n :: Seen(dist, n) && dist[n] < d ==> n in stack
    ensures forall n :: n in stack ==> Seen(dist, n)
  {
    assert queue[0] in queue && queue[0] == (stack + queue)[|stack|];
    forall i | 0 <= i < |stack| ensures stack[i] != queue[0] {
      assert stack[i] == (stack + queue)[i];
    }
  }

  ghost predicate Searching(g: Graph, src: Node, stack: seq<Node>, queue: seq<Node>, dist: map<Node, int>,
                            sigma: map<Node, real>, pred: map<Node, seq<Node>>, d: nat, c: nat) {
    && Levelled(g, src, dist, d)
    && Ordered(dist, stack, queue, d, c)
    && Expanded(g, dist, stack)
    && Counted(g, src, stack, dist, sigma, pred)
  }

  /** Expanding the head of the queue keeps the search invariant, at this level or the next. */
  lemma SearchStep(g: Graph, src: Node, adj: AdjMap, nodeList: seq<Node>, stack: seq<Node>, queue: seq<Node>,
                   dist: map<Node, int>, sigma: map<Node, real>, pred: map<Node, seq<Node>>, d: nat, c: nat,
                   queue1: seq<Node>, dist1: map<Node, int>, sigma1: map<Node, real>, pred1: map<Node, seq<Node>>)
    returns (d1: nat, c1: nat)
    requires Adjacency(adj, nodeList, g) && Searching(g, src, stack, queue, dist, sigma, pred, d, c) && queue != []
    requires DistAfter(dist, queue[0], Neighbours(adj, queue[0]), dist1)
    requires QueueAfter(dist, Neighbours(adj, queue[0]), queue[1..], queue1)
    requires SigmaAfter(dist, queue[0], Neighbours(adj, queue[0]), sigma, sigma1)
    requires PredAfter(dist, queue[0], Neighbours(adj, queue[0]), pred, pred1)
    ensures Searching(g, src, stack + [queue[0]], queue1, dist1, sigma1, pred1, d1, c1)
  {
    var v := queue[0];
    var S := Neighbours(adj, v);
    PopFacts(dist, stack, queue, d, c);
    assert Expanded(g, dist1, stack + [v]) by { ExpandedStep(g, nodeList, adj, dist, stack, v, dist1); }
    assert Levelled(g, src, dist1, d) by { LevelledStep(g, src, nodeList, adj, dist, d, v, dist1); }
    assert Counted(g, src, stack + [v], dist1, sigma1, pred1) by {
      CountComplete(g, src, stack, dist, d, sigma, pred, v);
      CountedStep(g, src, stack, v, d, S, dist, sigma, pred, dist1, sigma1, pred1);
    }
    d1, c1 := LevelEnd(g, src, stack, queue, dist, d, c, S, queue1, dist1);
  }

  lemma LevelEnd(g: Graph, src: Node, stack: seq<Node>, queue: seq<Node>, dist: map<Node, int>, d: nat, c: nat,
                 S: set<Node>, queue1: seq<Node>, dist1: map<Node, int>)
    returns (d1: nat, c1: nat)
    requires Ordered(dist, stack, queue, d, c) && queue != [] && S <= dist.Keys
    requires DistAfter(dist, queue[0], S, dist1) && QueueAfter(dist, S, queue[1..], queue1)
    requires Levelled(g, src, dist1, d) && Expanded(g, dist1, stack + [queue[0]])
    ensures Ordered(dist1, stack + [queue[0]], queue1, d1, c1) && Levelled(g, src, dist1, d1)
  {
    OrderedStep(dist, stack, queue, d, c, queue[0], S, dist1, queue1);
    d1, c1 := d, c - 1;
    if c1 == 0 {
      LevelledNext(g, src, dist1, d, stack + [queue[0]], queue1);
      d1, c1 := d + 1, |queue1|;
    }
  }

  /** The forward phase of brandesBFS. */
  method Discover(src: Node, nodeList: seq<Node>, adj: AdjMap, ghost g: Graph)
    returns (stack: seq<Node>, sigma: map<Node, real>, pred: map<Node, seq<Node>>, ghost D: map<Node, nat>)
    requires Adjacency(adj, nodeList, g) && src in nodeList
    ensures Discovered(g, src, D, stack, sigma, pred)
  {
    var dist := (map n | n in nodeList :: -1)[src := 0];
    assert dist == (map n | n in g.nodes :: -1)[src := 0];
    sigma, pred, stack := map[src := 1.0], map[], [];
    var queue := [src];
    ghost var d: nat, c: nat := 0, 1;
    Start(g, src, dist, sigma);
    while queue != []
      invariant Searching(g, src, stack, queue, dist, sigma, pred, d, c)
      decreases |g.nodes| - |stack|
    {
      StackIsShort(g, dist, stack, queue, d, c);
      PopFacts(dist, stack, queue, d, c);
      var v := queue[0];
      ghost var dist0, stack0, queue0, sigma0, pred0 := dist, stack, queue, sigma, pred;
      queue := queue[1..];
      stack := stack + [v];
      dist, sigma, pred, queue := Relax(v, Neighbours(adj, v), dist, sigma, pred, queue);
      d, c := SearchStep(g, src, adj, nodeList, stack0, queue0, dist0, sigma0, pred0, d, c, queue, dist, sigma, pred);
    }
    D := DistancesSeen(dist);
    Discovery(g, src, dist, d, c, stack, sigma, pred);
  }

  /** What the nodes of done have passed to v. */
  ghost function Received(g: Graph, src: Node, D: map<Node, nat>, done: set<Node>, v: Node): real {
    Sum(Next(g, D, v) * done, Product(Flow(g, src, D, v), OnePlus(Dependency(g, src, D))))
  }

  /** done is the part of the stack already accumulated; delta holds what its nodes passed to their parents. */
  ghost predicate Passed(g: Graph, src: Node, D: map<Node, nat>, done: set<Node>, delta: map<Node, real>) {
    forall v {:trigger Received(g, src, D, done, v)} :: v in D ==> Get(delta, v) == Received(g, src, D, done, v)
  }

  /** local has received the dependency of every accumulated node but the source. */
  ghost predicate Credited(g: Graph, src: Node, D: map<Node, nat>, done: set<Node>,
                           local0: map<Node, real>, local: map<Node, real>) {
    forall n {:trigger DependencyOf(g, src, D, n)} :: Get(local, n) ==
      Get(local0, n) + if n in done && n != src then DependencyOf(g, src, D, n) else 0.0
  }

  lemma DeltaComplete(g: Graph, src: Node, D: map<Node, nat>, done: set<Node>, delta: map<Node, real>, w: Node)
    requires Distances(g, src, D) && Passed(g, src, D, done, delta) && w in D && Next(g, D, w) <= done
    ensures Get(delta, w) == DependencyOf(g, src, D, w)
  {
    assert Get(delta, w) == Received(g, src, D, done, w);
    assert Next(g, D, w) * done == Next(g, D, w);
    assert DependencyOf(g, src, D, w) == Dependency(g, src, D)(w);
    DependencyStep(g, src, D, w);
  }

  lemma NextIsLater(g: Graph, src: Node, D: map<Node, nat>, stack: seq<Node>, sigma: map<Node, real>,
                    pred: map<Node, seq<Node>>, i: nat)
    requires Discovered(g, src, D, stack, sigma, pred) && i < |stack|
    ensures stack[i] in D && Next(g, D, stack[i]) <= Elems(stack[i + 1..])
    ensures stack[i] !in Elems(stack[i + 1..])
    ensures Elems(stack[i..]) == Elems(stack[i + 1..]) + {stack[i]}
  {
    assert stack[i] in Elems(stack);
    forall x | x in Next(g, D, stack[i]) ensures x in stack[i + 1..] {
      assert x in Elems(stack);
      var j :| 0 <= j < |stack| && stack[j] == x;
      assert j > i;
      assert stack[j] == stack[i + 1..][j - i - 1];
    }
    assert stack[i..] == [stack[i]] + stack[i + 1..];
  }

  /** What w passes to a parent v. */
  ghost function Portion(sigma: map<Node, real>, delta0: map<Node, real>, w: Node, v: Node): real {
    Mul(Quotient(Get(sigma, v), Get(sigma, w)), 1.0 + Get(delta0, w))
  }

  /** The inner accumulation loop: w passes a share of its dependency to each of its parents. */
  method PassBack(w: Node, parents: seq<Node>, sigma: map<Node, real>, delta0: map<Node, real>)
    returns (delta: map<Node, real>)
    requires Distinct(parents) && w !in parents && Get(sigma, w) != 0.0
    ensures forall v :: Get(delta, v) ==
              Get(delta0, v) + if v in parents then Portion(sigma, delta0, w, v) else 0.0
  {
    delta := delta0;
    for i := 0 to |parents|
      invariant forall v :: Get(delta, v) ==
                  Get(delta0, v) + if v in parents[..i] then Portion(sigma, delta0, w, v) else 0.0
    {
      var v := parents[i];
      assert parents[..i + 1] == parents[..i] + [v];
      delta := delta[v := Get(delta, v) + (Get(sigma, v) / Get(sigma, w)) * (1.0 + Get(delta, w))];
    }
    assert parents[..|parents|] == parents;
  }

  lemma PassedStep(g: Graph, src: Node, D: map<Node, nat>, done: set<Node>, sigma: map<Node, real>,
                   w: Node, parents: seq<Node>, delta0: map<Node, real>, delta: map<Node, real>)
    requires Distances(g, src, D) && Passed(g, src, D, done, delta0) && w in D && w !in done
    requires Elems(parents) == Parents(g, D, w)
    requires Get(delta0, w) == DependencyOf(g, src, D, w)
    requires forall v :: v in D ==> Get(sigma, v) == SigmaOf(g, src, D, v)
    requires forall v :: Get(delta, v) ==
               Get(delta0, v) + if v in parents then Portion(sigma, delta0, w, v) else 0.0
    ensures Passed(g, src, D, done + {w}, delta)
  {
    forall v | v in D ensures Get(delta, v) == Received(g, src, D, done + {w}, v) {
      var portion := Portion(sigma, delta0, w, v);
      assert Get(delta, v) == Get(delta0, v) + if v in Parents(g, D, w) then portion else 0.0 by {
        assert v in parents <==> v in Parents(g, D, w);
      }
      var received := Received(g, src, D, done + {w}, v);
      assert received == Get(delta0, v) + if v in Parents(g, D, w) then portion else 0.0 by {
        PassedOne(g, src, D, done, sigma, w, delta0, v);
      }
    }
  }

  lemma PassedOne(g: Graph, src: Node, D: map<Node, nat>, done: set<Node>, sigma: map<Node, real>,
                  w: Node, delta0: map<Node, real>, v: Node)
    requires Closed(g) && v in D && w in D && w !in done
    requires Get(delta0, w) == DependencyOf(g, src, D, w)
    requires Get(sigma, v) == SigmaOf(g, src, D, v) && Get(sigma, w) == SigmaOf(g, src, D, w)
    requires Get(delta0, v) == Received(g, src, D, done, v)
    ensures Received(g, src, D, done + {w}, v) ==
            Get(delta0, v) + if v in Parents(g, D, w) then Portion(sigma, delta0, w, v) else 0.0
  {
    ReceiveOne(g, D, done, w, v, Product(Flow(g, src, D, v), OnePlus(Dependency(g, src, D))));
    PortionIs(g, src, D, sigma, w, delta0, v);
  }

  lemma PortionIs(g: Graph, src: Node, D: map<Node, nat>, sigma: map<Node, real>, w: Node,
                  delta0: map<Node, real>, v: Node)
    requires Get(delta0, w) == DependencyOf(g, src, D, w)
    requires Get(sigma, v) == SigmaOf(g, src, D, v) && Get(sigma, w) == SigmaOf(g, src, D, w)
    ensures Portion(sigma, delta0, w, v) == Product(Flow(g, src, D, v), OnePlus(Dependency(g, src, D)))(w)
  {
    var flow, one := Flow(g, src, D, v), OnePlus(Dependency(g, src, D));
    FlowIs(g, src, D, v, w, Get(sigma, v), Get(sigma, w));
    OnePlusIs(g, src, D, w, Get(delta0, w));
    ProductOf(flow, one, w, Quotient(Get(sigma, v), Get(sigma, w)), 1.0 + Get(delta0, w));
    PortionParts(sigma, delta0, w, v);
  }

  lemma PortionParts(sigma: map<Node, real>, delta0: map<Node, real>, w: Node, v: Node)
    ensures Portion(sigma, delta0, w, v) == Mul(Quotient(Get(sigma, v), Get(sigma, w)), 1.0 + Get(delta0, w))
  {
  }

  lemma ProductOf(c: Node -> real, f: Node -> real, w: Node, x: real, y: real)
    requires c(w) == x && f(w) == y
    ensures Product(c, f)(w) == Mul(x, y)
  {
  }

  lemma OnePlusIs(g: Graph, src: Node, D: map<Node, nat>, w: Node, x: real)
    requires x == DependencyOf(g, src, D, w)
    ensures OnePlus(Dependency(g, src, D))(w) == 1.0 + x
  {
  }

  lemma FlowIs(g: Graph, src: Node, D: map<Node, nat>, v: Node, w: Node, x: real, y: real)
    requires x == SigmaOf(g, src, D, v) && y == SigmaOf(g, src, D, w)
    ensures Flow(g, src, D, v)(w) == Quotient(x, y)
  {
  }

  lemma ReceiveOne(g: Graph, D: map<Node, nat>, done: set<Node>, w: Node, v: Node, f: Node -> real)
    requires Closed(g) && v in D && w in D && w !in done
    ensures Sum(Next(g, D, v) * (done + {w}), f) ==
            Sum(Next(g, D, v) * done, f) + if v in Parents(g, D, w) then f(w) else 0.0
  {
    var N, N1 := Next(g, D, v) * done, Next(g, D, v) * (done + {w});
    if v in Parents(g, D, w) {
      assert w in Next(g, D, v);
      assert N1 - {w} == N;
      SumPick(N1, f, w);
    } else {
      assert w !in Next(g, D, v);
      assert N1 == N;
    }
  }

  lemma NothingPassed(g: Graph, src: Node, D: map<Node, nat>)
    ensures Passed(g, src, D, {}, map[])
  {
    forall v | v in D ensures Received(g, src, D, {}, v) == 0.0 {
      assert Next(g, D, v) * {} == {};
    }
  }

  lemma ParentsReady(g: Graph, src: Node, D: map<Node, nat>, stack: seq<Node>, sigma: map<Node, real>,
                     pred: map<Node, seq<Node>>, w: Node)
    requires Discovered(g, src, D, stack, sigma, pred) && w in D
    ensures w !in GetList(pred, w) && Get(sigma, w) != 0.0
  {
    SigmaCounts(g, src, D, w);
    assert w !in Parents(g, D, w);
  }

  lemma CreditedStep(g: Graph, src: Node, D: map<Node, nat>, done: set<Node>, local0: map<Node, real>,
                     local1: map<Node, real>, w: Node, x: real, local: map<Node, real>)
    requires Credited(g, src, D, done, local0, local1) && w !in done
    requires x == DependencyOf(g, src, D, w)
    requires forall n :: Get(local, n) == Get(local1, n) + if n == w && w != src then x else 0.0
    ensures Credited(g, src, D, done + {w}, local0, local)
  {
    forall n ensures Get(local, n) ==
      Get(local0, n) + if n in done + {w} && n != src then DependencyOf(g, src, D, n) else 0.0
    {
      var dependency := DependencyOf(g, src, D, n);
      assert Get(local1, n) == Get(local0, n) + if n in done && n != src then dependency else 0.0;
    }
  }

  /** One round of the backward loop: w passes to its parents, then collects its own dependency. */
  method AccumulateOne(src: Node, w: Node, parents: seq<Node>, sigma: map<Node, real>, delta0: map<Node, real>,
                       local1: map<Node, real>, ghost g: Graph, ghost D: map<Node, nat>, ghost done: set<Node>,
                       ghost local0: map<Node, real>)
    returns (delta: map<Node, real>, local: map<Node, real>)
    requires Distances(g, src, D) && w in D && w !in done && Next(g, D, w) <= done
    requires Distinct(parents) && Elems(parents) == Parents(g, D, w) && w !in parents && Get(sigma, w) != 0.0
    requires forall v :: v in D ==> Get(sigma, v) == SigmaOf(g, src, D, v)
    requires Passed(g, src, D, done, delta0) && Credited(g, src, D, done, local0, local1)
    ensures Passed(g, src, D, done + {w}, delta) && Credited(g, src, D, done + {w}, local0, local)
  {
    delta := PassBack(w, parents, sigma, delta0);
    local := local1;
    if w != src {
      local := local[w := Get(local, w) + Get(delta, w)];
    }
    assert Get(delta, w) == DependencyOf(g, src, D, w) by { DeltaComplete(g, src, D, done, delta0, w); }
    assert Credited(g, src, D, done + {w}, local0, local) by {
      CreditedStep(g, src, D, done, local0, local1, w, Get(delta, w), local);
    }
    PassedStep(g, src, D, done, sigma, w, parents, delta0, delta);
  }

  /** The backward phase of brandesBFS. */
  method Accumulate(src: Node, stack: seq<Node>, sigma: map<Node, real>, pred: map<Node, seq<Node>>,
                    local0: map<Node, real>, ghost g: Graph, ghost D: map<Node, nat>)
    returns (local: map<Node, real>)
    requires Discovered(g, src, D, stack, sigma, pred)
    ensures Credited(g, src, D, D.Keys, local0, local)
  {
    var delta: map<Node, real> := map[];
    local := local0;
    ghost var done: set<Node> := {};
    NothingPassed(g, src, D);
    for i := |stack| downto 0
      invariant done == Elems(stack[i..])
      invariant Passed(g, src, D, done, delta) && Credited(g, src, D, done, local0, local)
    {
      var w := stack[i];
      NextIsLater(g, src, D, stack, sigma, pred, i);
      ParentsReady(g, src, D, stack, sigma, pred, w);
      delta, local := AccumulateOne(src, w, GetList(pred, w), sigma, delta, local, g, D, done, local0);
      done := done + {w};
    }
    assert stack[0..] == stack;
  }

  /** local is local0 with the dependency of src added to every node but src. */
  ghost predicate Contributed(g: Graph, src: Node, local0: map<Node, real>, local: map<Node, real>) {
    forall D, w :: Distances(g, src, D) ==>
      Get(local, w) == Get(local0, w) + if w != src then DependencyOf(g, src, D, w) else 0.0
  }

  /** brandesBFS: adds to every node but the source the dependency of the source on it. */
  method BrandesBFS(src: Node, nodeList: seq<Node>, adj: AdjMap, local0: map<Node, real>, ghost g: Graph)
    returns (local: map<Node, real>)
    requires Adjacency(adj, nodeList, g) && src in nodeList
    ensures Contributed(g, src, local0, local)
  {
    var stack, sigma, pred;
    ghost var D;
    stack, sigma, pred, D := Discover(src, nodeList, adj, g);
    local := Accumulate(src, stack, sigma, pred, local0, g, D);
    forall D', w | Distances(g, src, D')
      ensures Get(local, w) == Get(local0, w) + if w != src then DependencyOf(g, src, D', w) else 0.0
    {
      DistancesUnique(g, src, D, D');
      CreditOfOne(g, src, D, local0, local, w);
    }
  }

  lemma CreditOfOne(g: Graph, src: Node, D: map<Node, nat>, local0: map<Node, real>, local: map<Node, real>, w: Node)
    requires Distances(g, src, D) && Credited(g, src, D, D.Keys, local0, local)
    ensures Get(local, w) == Get(local0, w) + if w != src then DependencyOf(g, src, D, w) else 0.0
  {
    var dependency := DependencyOf(g, src, D, w);
    assert Get(local, w) == Get(local0, w) + if w in D && w != src then dependency else 0.0;
    if w !in D {
      DependencyUnreached(g, src, D, w);
    }
  }

  lemma DistancesUnique(g: Graph, s: Node, D: map<Node, nat>, D': map<Node, nat>)
    requires Distances(g, s, D) && Distances(g, s, D')
    ensures D == D'
  {
    forall n | n in D ensures n in D' && D'[n] == D[n] { assert IsDist(g.edges, s, n, D[n]); }
    forall n | n in D' ensures n in D { assert IsDist(g.edges, s, n, D'[n]); }
  }
}
