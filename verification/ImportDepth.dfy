/** Import depth as longest path, and the import direction check (graph/graph.go, constraint/import_direction.go). */
module ImportDepth {
  import opened Graphs
  import opened Traversal

  ghost predicate OnCycle(E: set<Edge>, n: Node) {
    exists p :: IsPath(E, p, n, n) && |p| > 1
  }

  /** n is neither on a cycle nor downstream of one. */
  ghost predicate Clean(E: set<Edge>, n: Node) {
    forall c :: OnCycle(E, c) ==> !Reach(E, c, n)
  }

  /** The longest path ending at n has d hops. */
  ghost predicate IsLongest(E: set<Edge>, n: Node, d: int) {
    && (exists a, p :: IsPath(E, p, a, n) && |p| == d + 1)
    && (forall a, p {:trigger IsPath(E, p, a, n)} :: IsPath(E, p, a, n) ==> |p| <= d + 1)
  }

  // ----- In-degrees -----

  /** The number of edges into n whose source is outside P. */
  ghost function Pending(edges: seq<Edge>, P: set<Node>, n: Node): nat {
    if edges == [] then 0
    else
      var e := edges[|edges| - 1];
      Pending(edges[..|edges| - 1], P, n) + if e.dst == n && e.src !in P then 1 else 0
  }

  lemma {:induction false} PendingZero(edges: seq<Edge>, P: set<Node>, n: Node)
    ensures Pending(edges, P, n) == 0 <==> forall u :: Edge(u, n) in edges ==> u in P
  {
    if edges != [] {
      var i := |edges| - 1;
      PendingZero(edges[..i], P, n);
      assert edges == edges[..i] + [edges[i]];
      assert edges[i] == Edge(edges[i].src, edges[i].dst);
    }
  }

  lemma {:induction false} PendingStep(edges: seq<Edge>, P: set<Node>, v: Node, n: Node)
    requires v !in P
    ensures Pending(edges, P, n) == Pending(edges, P + {v}, n) + multiset(Targets(edges, v))[n]
  {
    if edges != [] {
      PendingStep(edges[..|edges| - 1], P, v, n);
    }
  }

  // ----- Longest paths -----

  lemma LongestFromImporters(E: set<Edge>, n: Node, depth: map<Node, int>)
    requires n in depth && depth[n] >= 0
    requires forall u :: Edge(u, n) in E ==> u in depth && IsLongest(E, u, depth[u]) && depth[u] + 1 <= depth[n]
    requires depth[n] > 0 ==> exists u :: Edge(u, n) in E && depth[n] == depth[u] + 1
    ensures IsLongest(E, n, depth[n])
  {
    if depth[n] == 0 {
      assert IsPath(E, [n], n, n) && |[n]| == 1;
    } else {
      var u :| Edge(u, n) in E && depth[n] == depth[u] + 1;
      var a, p :| IsPath(E, p, a, u) && |p| == depth[u] + 1;
      PathSnoc(E, p, a, u, n);
      assert |p + [n]| == depth[n] + 1;
    }
    forall a, p | IsPath(E, p, a, n) ensures |p| <= depth[n] + 1 {
      if |p| > 1 {
        var u := p[|p| - 2];
        PathSplit(E, p, a, n, |p| - 2);
        assert Edge(p[|p| - 2], p[|p| - 1]) in E;
        assert |p[..|p| - 1]| <= depth[u] + 1;
      }
    }
  }

  // ----- Nodes the queue never reaches lie downstream of a cycle -----

  lemma CleanImporter(E: set<Edge>, u: Node, n: Node)
    requires Clean(E, n) && Edge(u, n) in E
    ensures Clean(E, u)
  {
    forall c | OnCycle(E, c) ensures !Reach(E, c, u) {
      if Reach(E, c, u) {
        assert IsPath(E, [u, n], u, n);
        ReachTrans(E, c, u, n);
      }
    }
  }

  lemma NodeOfEdge(E: set<Edge>, u: Node, n: Node)
    requires Edge(u, n) in E
    ensures u in Nodes(E) && n in Nodes(E)
  {
    assert Edge(u, n).src == u && Edge(u, n).dst == n;
  }

  /** Unprocessed clean nodes have arbitrarily long chains of unprocessed importers. */
  lemma {:induction false} BackChain(E: set<Edge>, P: set<Node>, n: Node, k: nat) returns (p: seq<Node>)
    requires n in Nodes(E) && Clean(E, n) && n !in P
    requires forall m :: m in Nodes(E) && Clean(E, m) && m !in P ==> exists u :: Edge(u, m) in E && u !in P
    ensures |p| == k + 1 && IsPath(E, p, p[0], n) && Elems(p) <= Nodes(E)
    decreases k
  {
    if k == 0 {
      p := [n];
    } else {
      var u :| Edge(u, n) in E && u !in P;
      CleanImporter(E, u, n);
      NodeOfEdge(E, u, n);
      p := BackChain(E, P, u, k - 1);
      PathSnoc(E, p, p[0], u, n);
      p := p + [n];
    }
  }

  lemma AllCleanDone(E: set<Edge>, P: set<Node>, n: Node)
    requires n in Nodes(E) && Clean(E, n)
    requires forall m :: m in Nodes(E) && Clean(E, m) && m !in P ==> exists u :: Edge(u, m) in E && u !in P
    ensures n in P
  {
    if n !in P {
      var p := BackChain(E, P, n, |Nodes(E)|);
      if Distinct(p) { DistinctBound(p, Nodes(E)); }
      var i, j :| 0 <= i < j < |p| && p[i] == p[j];
      PathSplit(E, p, p[0], n, i);
      PathSplit(E, p[i..], p[i], n, j - i);
      assert IsPath(E, p[i..][..j - i + 1], p[i], p[i]);
      assert OnCycle(E, p[i]) && Reach(E, p[i], n);
    }
  }

  lemma CycleIsNotClean(E: set<Edge>, n: Node)
    requires OnCycle(E, n)
    ensures !Clean(E, n)
  {
    ReachRefl(E, n);
  }

  // ----- The algorithm -----

  /** d is one more than the depth of the deepest clean importer of n, and 0 without one. */
  ghost predicate AboveCleanImporters(E: set<Edge>, depth: map<Node, int>, n: Node, d: int) {
    && (forall u :: Edge(u, n) in E && Clean(E, u) && u in depth ==> depth[u] + 1 <= d)
    && (d != 0 ==> exists u :: Edge(u, n) in E && Clean(E, u) && u in depth && depth[u] + 1 == d)
  }

  /** What ImportDepth promises about a depth map, for every node: on a cycle, clean, or downstream of a cycle. */
  ghost predicate ImportDepths(edges: seq<Edge>, depth: map<Node, int>) {
    var E := Elems(edges);
    && depth.Keys == Nodes(E)
    && (forall n :: n in depth ==> if OnCycle(E, n) then depth[n] == -1 else depth[n] >= 0)
    && (forall n :: n in depth && Clean(E, n) ==> IsLongest(E, n, depth[n]))
    && (forall n :: n in depth && !OnCycle(E, n) ==> AboveCleanImporters(E, depth, n, depth[n]))
  }

  method CountInDegrees(edges: seq<Edge>, nodes: set<Node>) returns (inDeg: map<Node, int>)
    requires forall e :: e in edges ==> e.dst in nodes
    ensures inDeg.Keys == nodes && forall n :: n in nodes ==> inDeg[n] == Pending(edges, {}, n)
  {
    inDeg := map n | n in nodes :: 0;
    for i := 0 to |edges|
      invariant inDeg.Keys == nodes && forall n :: n in nodes ==> inDeg[n] == Pending(edges[..i], {}, n)
    {
      assert edges[..i + 1][..i] == edges[..i];
      inDeg := inDeg[edges[i].dst := inDeg[edges[i].dst] + 1];
    }
    assert edges[..|edges|] == edges;
  }

  /** P is processed: queue and P are the acyclic nodes with no unprocessed importer. */
  ghost predicate Queued(inDeg: map<Node, int>, cyclic: set<Node>, P: set<Node>, queue: seq<Node>) {
    && Distinct(queue)
    && (forall n :: n in queue ==> n !in P)
    && (forall n :: (n in P || n in queue) <==> n in inDeg && n !in cyclic && inDeg[n] == 0)
  }

  ghost predicate Degrees(edges: seq<Edge>, inDeg: map<Node, int>, cyclic: set<Node>, P: set<Node>) {
    forall n {:trigger Pending(edges, P, n)} :: n in inDeg && n !in cyclic ==> inDeg[n] == Pending(edges, P, n)
  }

  ghost predicate Attained(depth: map<Node, int>, imports: set<Edge>, n: Node) {
    exists u :: Edge(u, n) in imports && u in depth && n in depth && depth[n] == depth[u] + 1
  }

  /** Every acyclic node is one deeper than the deepest importer seen so far, or at depth 0 without any. */
  ghost predicate Deepest(depth: map<Node, int>, cyclic: set<Node>, imports: set<Edge>) {
    && (forall n :: n in depth ==> if n in cyclic then depth[n] == -1 else depth[n] >= 0)
    && (forall u, n :: Edge(u, n) in imports && u in depth && n in depth && n !in cyclic ==> depth[u] + 1 <= depth[n])
    && (forall n {:trigger Attained(depth, imports, n)} ::
          n in depth && n !in cyclic && depth[n] > 0 ==> Attained(depth, imports, n))
  }

  /** The edges from nodes of P, and those from v to the listed nodes. */
  ghost function Scanned(E: set<Edge>, P: set<Node>, v: Node, list: seq<Node>): set<Edge> {
    set e | e in E && (e.src in P || (e.src == v && e.dst in list))
  }

  lemma DeepestStep(depth: map<Node, int>, cyclic: set<Node>, imports: set<Edge>, v: Node, n: Node,
                    depth1: map<Node, int>)
    requires Deepest(depth, cyclic, imports) && v in depth && n in depth && v !in cyclic && n !in cyclic && n != v
    requires forall m :: Edge(n, m) !in imports
    requires depth1 == if depth[v] + 1 > depth[n] then depth[n := depth[v] + 1] else depth
    ensures Deepest(depth1, cyclic, imports + {Edge(v, n)})
  {
    var I := imports + {Edge(v, n)};
    forall m | m in depth1 && m !in cyclic && depth1[m] > 0
      ensures Attained(depth1, I, m)
    {
      if m == n && depth1 != depth {
        assert Edge(v, m) in I && depth1[m] == depth1[v] + 1;
      } else {
        assert Attained(depth, imports, m);
        var u :| Edge(u, m) in imports && u in depth && depth[m] == depth[u] + 1;
        assert u != n;
        assert Edge(u, m) in I && depth1[m] == depth1[u] + 1;
      }
    }
  }

  lemma DeepestSkip(depth: map<Node, int>, cyclic: set<Node>, imports: set<Edge>, v: Node, n: Node)
    requires Deepest(depth, cyclic, imports) && n in cyclic
    ensures Deepest(depth, cyclic, imports + {Edge(v, n)})
  {
    var I := imports + {Edge(v, n)};
    forall m | m in depth && m !in cyclic && depth[m] > 0
      ensures Attained(depth, I, m)
    {
      assert Attained(depth, imports, m);
      var u :| Edge(u, m) in imports && u in depth && depth[m] == depth[u] + 1;
      assert Edge(u, m) in I;
    }
  }

  lemma QueuedStep(inDeg: map<Node, int>, cyclic: set<Node>, P: set<Node>, queue: seq<Node>, n: Node,
                   inDeg1: map<Node, int>, queue1: seq<Node>)
    requires Queued(inDeg, cyclic, P, queue) && n in inDeg && n !in cyclic && inDeg[n] >= 1
    requires inDeg1 == inDeg[n := inDeg[n] - 1] && queue1 == if inDeg[n] == 1 then queue + [n] else queue
    ensures Queued(inDeg1, cyclic, P, queue1)
  {
  }

  /** The body of the inner loop, for one import of v. */
  method Import(v: Node, next: Node, cyclic: set<Node>, depth0: map<Node, int>, inDeg0: map<Node, int>,
                queue0: seq<Node>, ghost P: set<Node>, ghost imports: set<Edge>)
    returns (depth: map<Node, int>, inDeg: map<Node, int>, queue: seq<Node>)
    requires v in depth0 && v !in cyclic && depth0.Keys == inDeg0.Keys && next in depth0 && next != v
    requires Queued(inDeg0, cyclic, P, queue0) && Deepest(depth0, cyclic, imports)
    requires next !in cyclic ==> inDeg0[next] >= 1
    requires forall m :: Edge(next, m) !in imports
    ensures depth.Keys == inDeg.Keys == depth0.Keys
    ensures inDeg == if next in cyclic then inDeg0 else inDeg0[next := inDeg0[next] - 1]
    ensures Queued(inDeg, cyclic, P, queue)
    ensures Deepest(depth, cyclic, imports + {Edge(v, next)})
  {
    depth, inDeg, queue := depth0, inDeg0, queue0;
    if next in cyclic {
      DeepestSkip(depth, cyclic, imports, v, next);
      return;
    }
    DeepestStep(depth, cyclic, imports, v, next,
      if depth[v] + 1 > depth[next] then depth[next := depth[v] + 1] else depth);
    if depth[v] + 1 > depth[next] {
      depth := depth[next := depth[v] + 1];
    }
    inDeg := inDeg[next := inDeg[next] - 1];
    if inDeg[next] == 0 {
      queue := queue + [next];
    }
    QueuedStep(inDeg0, cyclic, P, queue0, next, inDeg, queue);
  }

  ghost predicate Reduced(inDeg0: map<Node, int>, cyclic: set<Node>, list: seq<Node>, inDeg: map<Node, int>) {
    forall n :: n in inDeg && n in inDeg0 && n !in cyclic ==> inDeg[n] == inDeg0[n] - multiset(list)[n]
  }

  /** What the inner loop keeps, after the imports in done. */
  ghost predicate Releasing(v: Node, cyclic: set<Node>, E: set<Edge>, P: set<Node>, inDeg0: map<Node, int>,
                            done: seq<Node>, depth: map<Node, int>, inDeg: map<Node, int>, queue: seq<Node>) {
    && depth.Keys == inDeg.Keys == inDeg0.Keys
    && Reduced(inDeg0, cyclic, done, inDeg) && Queued(inDeg, cyclic, P + {v}, queue)
    && Deepest(depth, cyclic, Scanned(E, P, v, done))
  }

  /** The next import of v, from the list of all. */
  method ReleaseNext(v: Node, list: seq<Node>, j: nat, cyclic: set<Node>, depth0: map<Node, int>,
                     inDeg1: map<Node, int>, queue0: seq<Node>, ghost E: set<Edge>, ghost P: set<Node>,
                     ghost inDeg0: map<Node, int>)
    returns (depth: map<Node, int>, inDeg: map<Node, int>, queue: seq<Node>)
    requires v in depth0 && v !in cyclic && j < |list|
    requires list[j] in depth0 && list[j] != v && list[j] !in P && Edge(v, list[j]) in E
    requires list[j] in inDeg0 && (list[j] !in cyclic ==> inDeg0[list[j]] >= multiset(list)[list[j]])
    requires Releasing(v, cyclic, E, P, inDeg0, list[..j], depth0, inDeg1, queue0)
    ensures Releasing(v, cyclic, E, P, inDeg0, list[..j + 1], depth, inDeg, queue)
  {
    ListStep(E, P, list, j, v);
    ImportReady(E, P, v, list, j, cyclic, inDeg0, inDeg1);
    depth, inDeg, queue := Import(v, list[j], cyclic, depth0, inDeg1, queue0, P + {v}, Scanned(E, P, v, list[..j]));
    ReducedStep(inDeg0, cyclic, list, j, inDeg1, inDeg);
  }

  /** The inner loop: processed node v raises the depth of what it imports and releases it. */
  method Release(v: Node, list: seq<Node>, cyclic: set<Node>, depth0: map<Node, int>, inDeg0: map<Node, int>,
                 queue0: seq<Node>, ghost E: set<Edge>, ghost P: set<Node>)
    returns (depth: map<Node, int>, inDeg: map<Node, int>, queue: seq<Node>)
    requires v in depth0 && v !in cyclic && v !in P && depth0.Keys == inDeg0.Keys
    requires Queued(inDeg0, cyclic, P + {v}, queue0) && Deepest(depth0, cyclic, Scanned(E, P, v, []))
    requires forall n :: n in list ==> n in depth0 && n != v && n !in P && Edge(v, n) in E
    requires forall n :: n in list && n !in cyclic ==> inDeg0[n] >= multiset(list)[n]
    ensures depth.Keys == inDeg.Keys == depth0.Keys
    ensures Reduced(inDeg0, cyclic, list, inDeg) && Queued(inDeg, cyclic, P + {v}, queue)
    ensures Deepest(depth, cyclic, Scanned(E, P, v, list))
  {
    depth, inDeg, queue := depth0, inDeg0, queue0;
    assert list[..0] == [];
    for j := 0 to |list|
      invariant Releasing(v, cyclic, E, P, inDeg0, list[..j], depth, inDeg, queue)
    {
      assert list[j] in list;
      depth, inDeg, queue := ReleaseNext(v, list, j, cyclic, depth, inDeg, queue, E, P, inDeg0);
    }
    assert list[..|list|] == list;
  }

  lemma ImportReady(E: set<Edge>, P: set<Node>, v: Node, list: seq<Node>, j: nat, cyclic: set<Node>,
                    inDeg0: map<Node, int>, inDeg: map<Node, int>)
    requires j < |list| && Reduced(inDeg0, cyclic, list[..j], inDeg) && list[j] in inDeg && list[j] in inDeg0
    requires list[j] != v && list[j] !in P
    requires list[j] !in cyclic ==> inDeg0[list[j]] >= multiset(list)[list[j]]
    requires multiset(list)[list[j]] > multiset(list[..j])[list[j]]
    ensures list[j] !in cyclic ==> inDeg[list[j]] >= 1
    ensures forall m :: Edge(list[j], m) !in Scanned(E, P, v, list[..j])
  {
  }

  lemma ReducedStep(inDeg0: map<Node, int>, cyclic: set<Node>, list: seq<Node>, j: nat,
                    inDeg: map<Node, int>, inDeg1: map<Node, int>)
    requires j < |list| && list[j] in inDeg && Reduced(inDeg0, cyclic, list[..j], inDeg)
    requires inDeg1 == if list[j] in cyclic then inDeg else inDeg[list[j] := inDeg[list[j]] - 1]
    ensures Reduced(inDeg0, cyclic, list[..j + 1], inDeg1)
  {
    assert list[..j + 1] == list[..j] + [list[j]];
  }

  lemma ListStep(E: set<Edge>, P: set<Node>, list: seq<Node>, j: nat, v: Node)
    requires j < |list|
    ensures list[j] in list && multiset(list)[list[j]] > multiset(list[..j])[list[j]]
    ensures Edge(v, list[j]) in E ==>
              Scanned(E, P, v, list[..j + 1]) == Scanned(E, P, v, list[..j]) + {Edge(v, list[j])}
  {
    assert list[..j + 1] == list[..j] + [list[j]];
    assert list == list[..j] + list[j..] && list[j..] == [list[j]] + list[j + 1..];
    assert multiset(list) == multiset(list[..j]) + multiset(list[j..]);
    assert list[j] in multiset(list[j..]);
    forall e | e in Scanned(E, P, v, list[..j + 1])
      ensures e in Scanned(E, P, v, list[..j]) + {Edge(v, list[j])}
    {
      assert e == Edge(e.src, e.dst);
    }
  }

  ghost function From(E: set<Edge>, P: set<Node>): set<Edge> {
    set e | e in E && e.src in P
  }

  lemma ScannedEnds(edges: seq<Edge>, P: set<Node>, v: Node)
    ensures Scanned(Elems(edges), P, v, []) == From(Elems(edges), P)
    ensures Scanned(Elems(edges), P, v, Targets(edges, v)) == From(Elems(edges), P + {v})
  {
    forall e | e in edges && e.src == v ensures e.dst in Targets(edges, v) {
      TargetsAre(edges, v, e.dst);
      assert e == Edge(v, e.dst);
    }
  }

  /** What a node popped from the queue offers the inner loop. */
  lemma Popped(edges: seq<Edge>, inDeg: map<Node, int>, cyclic: set<Node>, P: set<Node>, queue: seq<Node>, v: Node,
               n: Node)
    requires forall m :: m in cyclic <==> OnCycle(Elems(edges), m)
    requires inDeg.Keys == Nodes(Elems(edges)) && Degrees(edges, inDeg, cyclic, P) && Queued(inDeg, cyclic, P, queue)
    requires v in queue && n in Targets(edges, v)
    ensures n in inDeg && n != v && n !in P && Edge(v, n) in edges
    ensures n !in cyclic ==> inDeg[n] >= multiset(Targets(edges, v))[n]
  {
    var E := Elems(edges);
    TargetsAre(edges, v, n);
    NodeOfEdge(E, v, n);
    if n == v { assert IsPath(E, [v, v], v, v) && |[v, v]| > 1; }
    PendingZero(edges, P, n);
    PendingStep(edges, P, v, n);
    assert n !in cyclic ==> inDeg[n] == Pending(edges, P, n);
  }

  lemma DegreesStep(edges: seq<Edge>, inDeg: map<Node, int>, cyclic: set<Node>, P: set<Node>, v: Node,
                    inDeg1: map<Node, int>)
    requires v !in P && Degrees(edges, inDeg, cyclic, P) && inDeg1.Keys == inDeg.Keys
    requires Reduced(inDeg, cyclic, Targets(edges, v), inDeg1)
    ensures Degrees(edges, inDeg1, cyclic, P + {v})
  {
    forall n | n in inDeg1 && n !in cyclic ensures inDeg1[n] == Pending(edges, P + {v}, n) {
      PendingStep(edges, P, v, n);
      assert inDeg[n] == Pending(edges, P, n);
    }
  }

  lemma {:induction false} DepthExact(E: set<Edge>, cyclic: set<Node>, P: set<Node>, depth: map<Node, int>, n: Node)
    requires P <= depth.Keys && P !! cyclic && Deepest(depth, cyclic, From(E, P)) && n in P
    requires forall u, m :: Edge(u, m) in E && m in P ==> u in P
    ensures IsLongest(E, n, depth[n])
    decreases depth[n]
  {
    forall u | Edge(u, n) in E ensures IsLongest(E, u, depth[u]) && depth[u] + 1 <= depth[n] {
      assert Edge(u, n).src == u && Edge(u, n) in From(E, P);
      DepthExact(E, cyclic, P, depth, u);
    }
    assert depth[n] > 0 ==> Attained(depth, From(E, P), n);
    LongestFromImporters(E, n, depth);
  }

  method InitialQueue(nodes: set<Node>, inDeg: map<Node, int>, cyclic: set<Node>) returns (queue: seq<Node>)
    requires inDeg.Keys == nodes
    ensures Queued(inDeg, cyclic, {}, queue)
  {
    queue := [];
    var rest := nodes;
    while rest != {}
      invariant rest <= nodes && Distinct(queue)
      invariant forall n :: n in queue <==> n in nodes - rest && n !in cyclic && inDeg[n] == 0
    {
      var n :| n in rest;
      rest := rest - {n};
      if inDeg[n] == 0 && n !in cyclic {
        queue := queue + [n];
      }
    }
  }

  /** ImportDepth, given the nodes that cycle detection finds on cycles. */
  method ComputeDepths(edges: seq<Edge>, cyclic: set<Node>) returns (depth: map<Node, int>)
    requires forall n :: n in cyclic <==> OnCycle(Elems(edges), n)
    ensures ImportDepths(edges, depth)
  {
    ghost var E := Elems(edges);
    var adj := BuildFwdAdj(edges);
    var nodes := (set e | e in edges :: e.src) + (set e | e in edges :: e.dst);
    assert nodes == Nodes(E);
    var inDeg := CountInDegrees(edges, nodes);
    depth := map n | n in nodes :: if n in cyclic then -1 else 0;
    var queue := InitialQueue(nodes, inDeg, cyclic);
    ghost var P: set<Node> := {};
    while queue != []
      invariant depth.Keys == inDeg.Keys == nodes && P <= nodes
      invariant Queued(inDeg, cyclic, P, queue) && Degrees(edges, inDeg, cyclic, P)
      invariant Deepest(depth, cyclic, From(E, P))
      decreases nodes - P
    {
      var v := queue[0];
      assert v in queue;
      ghost var inDeg0 := inDeg;
      ScannedEnds(edges, P, v);
      forall n | n in Targets(edges, v)
        ensures n in inDeg && n != v && n !in P && Edge(v, n) in E
        ensures n !in cyclic ==> inDeg[n] >= multiset(Targets(edges, v))[n]
      {
        Popped(edges, inDeg, cyclic, P, queue, v, n);
      }
      QueueTail(inDeg, cyclic, P, queue);
      depth, inDeg, queue := Release(v, Listed(adj, v), cyclic, depth, inDeg, queue[1..], E, P);
      DegreesStep(edges, inDeg0, cyclic, P, v, inDeg);
      P := P + {v};
    }
    DepthsDone(edges, cyclic, P, inDeg, depth);
  }

  lemma QueueTail(inDeg: map<Node, int>, cyclic: set<Node>, P: set<Node>, queue: seq<Node>)
    requires Queued(inDeg, cyclic, P, queue) && queue != []
    ensures Queued(inDeg, cyclic, P + {queue[0]}, queue[1..])
    ensures queue[0] !in P && queue[0] in inDeg && queue[0] !in cyclic
  {
    assert queue == [queue[0]] + queue[1..];
    assert queue[0] in queue;
  }

  /** Processed nodes are clean: their importers are processed, and no node on a cycle is. */
  lemma {:induction false} ProcessedFrom(E: set<Edge>, P: set<Node>, p: seq<Node>, a: Node, b: Node)
    requires forall u, m :: Edge(u, m) in E && m in P ==> u in P
    requires IsPath(E, p, a, b) && b in P
    ensures a in P
    decreases |p|
  {
    if |p| > 1 {
      PathSplit(E, p, a, b, |p| - 2);
      assert Edge(p[|p| - 2], p[|p| - 1]) in E;
      ProcessedFrom(E, P, p[..|p| - 1], a, p[|p| - 2]);
    }
  }

  lemma ProcessedClean(E: set<Edge>, P: set<Node>, m: Node)
    requires forall u, n :: Edge(u, n) in E && n in P ==> u in P
    requires m in P && forall c :: OnCycle(E, c) ==> c !in P
    ensures Clean(E, m)
  {
    forall c | OnCycle(E, c) ensures !Reach(E, c, m) {
      if Reach(E, c, m) {
        var p :| IsPath(E, p, c, m);
        ProcessedFrom(E, P, p, c, m);
      }
    }
  }

  lemma ImportersDone(E: set<Edge>, cyclic: set<Node>, P: set<Node>, depth: map<Node, int>, n: Node)
    requires n in depth && n !in cyclic && Deepest(depth, cyclic, From(E, P))
    requires forall u :: u in depth ==> (u in P <==> Clean(E, u))
    ensures AboveCleanImporters(E, depth, n, depth[n])
  {
    forall u | Edge(u, n) in E && Clean(E, u) && u in depth ensures depth[u] + 1 <= depth[n] {
      assert Edge(u, n).src == u && Edge(u, n) in From(E, P);
    }
    if depth[n] != 0 {
      assert Attained(depth, From(E, P), n);
      var u :| Edge(u, n) in From(E, P) && u in depth && depth[n] == depth[u] + 1;
      assert Edge(u, n).src == u;
    }
  }

  lemma DepthsDone(edges: seq<Edge>, cyclic: set<Node>, P: set<Node>, inDeg: map<Node, int>, depth: map<Node, int>)
    requires forall n :: n in cyclic <==> OnCycle(Elems(edges), n)
    requires depth.Keys == inDeg.Keys == Nodes(Elems(edges)) && P <= inDeg.Keys
    requires Queued(inDeg, cyclic, P, []) && Degrees(edges, inDeg, cyclic, P)
    requires Deepest(depth, cyclic, From(Elems(edges), P))
    ensures ImportDepths(edges, depth)
  {
    var E := Elems(edges);
    forall m | m in P ensures forall u :: Edge(u, m) in E ==> u in P {
      PendingZero(edges, P, m);
      assert inDeg[m] == Pending(edges, P, m);
    }
    forall m | m in Nodes(E) && Clean(E, m) && m !in P ensures exists u :: Edge(u, m) in E && u !in P {
      if OnCycle(E, m) { CycleIsNotClean(E, m); }
      PendingZero(edges, P, m);
      assert inDeg[m] == Pending(edges, P, m);
    }
    forall n | n in depth && Clean(E, n) ensures IsLongest(E, n, depth[n]) {
      AllCleanDone(E, P, n);
      DepthExact(E, cyclic, P, depth, n);
    }
    forall n | n in depth && n !in cyclic ensures AboveCleanImporters(E, depth, n, depth[n]) {
      forall u | u in depth ensures u in P <==> Clean(E, u) {
        if u in P { ProcessedClean(E, P, u); }
        if Clean(E, u) { AllCleanDone(E, P, u); }
      }
      ImportersDone(E, cyclic, P, depth, n);
    }
  }

  // ----- Import direction -----

  datatype Violation = Violation(from: Node, to: Node, fromDepth: int, toDepth: int)

  function DepthAt(depths: map<Node, int>, n: Node): int {
    if n in depths then depths[n] else 0
  }

  predicate Violates(depths: map<Node, int>, e: Edge) {
    && DepthAt(depths, e.src) != -1 && DepthAt(depths, e.dst) != -1
    && DepthAt(depths, e.src) != 0
    && DepthAt(depths, e.src) < DepthAt(depths, e.dst)
  }

  /** The violations of an edge list in edge order, before the report sorts them by importer. */
  function Violations(edges: seq<Edge>, depths: map<Node, int>): seq<Violation> {
    if edges == [] then []
    else
      var e := edges[|edges| - 1];
      Violations(edges[..|edges| - 1], depths) +
      if Violates(depths, e) then [Violation(e.src, e.dst, DepthAt(depths, e.src), DepthAt(depths, e.dst))] else []
  }

  /** v is the report of an edge whose two depths are d and e: neither -1, the first not 0, and smaller. */
  ghost predicate Reports(v: Violation, edge: Edge, d: int, e: int) {
    && v.from == edge.src && v.to == edge.dst && v.fromDepth == d && v.toDepth == e
    && d != -1 && e != -1 && d != 0 && d < e
  }

  /** The report of any depth map, absent nodes counting as depth 0: each edge that is to be reported, as often as it
      occurs. */
  lemma {:induction false} ReportCounts(edges: seq<Edge>, depths: map<Node, int>, v: Violation)
    ensures var d := if v.from in depths then depths[v.from] else 0;
      var e := if v.to in depths then depths[v.to] else 0;
      multiset(Violations(edges, depths))[v] ==
      if Reports(v, Edge(v.from, v.to), d, e) then multiset(edges)[Edge(v.from, v.to)] else 0
  {
    if edges != [] {
      var i := |edges| - 1;
      ReportCounts(edges[..i], depths, v);
      assert edges == edges[..i] + [edges[i]];
      assert edges[i] == Edge(edges[i].src, edges[i].dst);
    }
  }

  lemma InCounts<T>(s: seq<T>, x: T)
    ensures x in s <==> multiset(s)[x] > 0
  {
  }

  /** With the computed depths, an edge is reported if and only if neither end is on a cycle and its source is at a
      positive depth smaller than that of its target. */
  lemma ReportIs(edges: seq<Edge>, depth: map<Node, int>, v: Violation)
    requires ImportDepths(edges, depth)
    ensures v in Violations(edges, depth) <==>
            && Edge(v.from, v.to) in edges && !OnCycle(Elems(edges), v.from) && !OnCycle(Elems(edges), v.to)
            && v.from in depth && v.to in depth && v.fromDepth == depth[v.from] && v.toDepth == depth[v.to]
            && 0 < v.fromDepth < v.toDepth
  {
    ReportCounts(edges, depth, v);
    InCounts(Violations(edges, depth), v);
    InCounts(edges, Edge(v.from, v.to));
    if Edge(v.from, v.to) in edges {
      NodeOfEdge(Elems(edges), v.from, v.to);
    }
  }

  method ComputeImportDirection(edges: seq<Edge>, depths: map<Node, int>)
    returns (violations: seq<Violation>, warnings: nat)
    ensures violations == Violations(edges, depths) && warnings == |violations|
  {
    violations, warnings := [], 0;
    for i := 0 to |edges|
      invariant violations == Violations(edges[..i], depths) && warnings == |violations|
    {
      assert edges[..i + 1][..i] == edges[..i];
      var fromDepth, toDepth := DepthAt(depths, edges[i].src), DepthAt(depths, edges[i].dst);
      if fromDepth == -1 || toDepth == -1 {
        continue;
      }
      if fromDepth == 0 {
        continue;
      }
      if fromDepth < toDepth {
        violations := violations + [Violation(edges[i].src, edges[i].dst, fromDepth, toDepth)];
        warnings := warnings + 1;
      }
    }
    assert edges[..|edges|] == edges;
  }

  /** Away from cycles, an importer is always shallower than what it imports. */
  lemma DepthIncreases(edges: seq<Edge>, depth: map<Node, int>, e: Edge)
    requires ImportDepths(edges, depth) && e in edges && Clean(Elems(edges), e.dst)
    ensures e.src in depth && e.dst in depth && 0 <= depth[e.src] < depth[e.dst]
  {
    var E := Elems(edges);
    assert e == Edge(e.src, e.dst);
    NodeOfEdge(E, e.src, e.dst);
    CleanImporter(E, e.src, e.dst);
    if OnCycle(E, e.src) { CycleIsNotClean(E, e.src); }
    var a, p :| IsPath(E, p, a, e.src) && |p| == depth[e.src] + 1;
    PathSnoc(E, p, a, e.src, e.dst);
    assert |p + [e.dst]| <= depth[e.dst] + 1;
  }

  /** So the check reports an edge away from cycles exactly when its source has an importer itself. */
  lemma ReportsImportedSources(edges: seq<Edge>, depth: map<Node, int>, e: Edge)
    requires ImportDepths(edges, depth) && e in edges && Clean(Elems(edges), e.dst)
    ensures e.src in depth && e.dst in depth
    ensures Violation(e.src, e.dst, depth[e.src], depth[e.dst]) in Violations(edges, depth) <==>
            exists u :: Edge(u, e.src) in edges
  {
    var E := Elems(edges);
    DepthIncreases(edges, depth, e);
    assert e == Edge(e.src, e.dst);
    CleanImporter(E, e.src, e.dst);
    if OnCycle(E, e.src) { CycleIsNotClean(E, e.src); }
    if OnCycle(E, e.dst) { CycleIsNotClean(E, e.dst); }
    ReportIs(edges, depth, Violation(e.src, e.dst, depth[e.src], depth[e.dst]));
    if u :| Edge(u, e.src) in edges {
      DepthIncreases(edges, depth, Edge(u, e.src));
    }
    if depth[e.src] > 0 {
      var a, p :| IsPath(E, p, a, e.src) && |p| == depth[e.src] + 1;
      assert Edge(p[|p| - 2], p[|p| - 1]) in E;
    }
  }

  /** On a cycle-free graph the report is exactly the edges whose source has an importer. */
  lemma ReportOnAcyclic(edges: seq<Edge>, depth: map<Node, int>, v: Violation)
    requires ImportDepths(edges, depth) && forall n :: !OnCycle(Elems(edges), n)
    ensures v in Violations(edges, depth) <==>
            && Edge(v.from, v.to) in edges && (exists u :: Edge(u, v.from) in edges)
            && v.from in depth && v.to in depth && v.fromDepth == depth[v.from] && v.toDepth == depth[v.to]
  {
    ReportIs(edges, depth, v);
    if Edge(v.from, v.to) in edges {
      ReportsImportedSources(edges, depth, Edge(v.from, v.to));
    }
  }
}
