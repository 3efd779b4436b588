/** Node ordering by reverse Cuthill-McKee (graph/partition.go). */
module Partition {
  import opened Graphs
  import opened QueueSearch
  import B = Betweenness

  function Degree(adj: AdjMap, n: Node): nat {
    |Neighbours(adj, n)|
  }

  ghost predicate LeastDegree(adj: AdjMap, nodes: seq<Node>, start: Node) {
    start in nodes && forall n :: n in nodes ==> Degree(adj, start) <= Degree(adj, n)
  }

  lemma DegreeBound(edges: seq<Edge>, adj: AdjMap, nodes: set<Node>, n: Node)
    requires forall v, w :: w in Neighbours(adj, v) <==> B.Adjacent(edges, v, w)
    requires nodes == B.Undirected(edges).nodes
    ensures Degree(adj, n) <= |nodes|
  {
    B.UndirectedIs(edges);
    forall w | w in Neighbours(adj, n) ensures w in nodes {
      assert B.Adjacent(edges, n, w);
      assert Edge(n, w) in B.Undirected(edges).edges;
    }
    SubsetSize(Neighbours(adj, n), nodes);
  }

  lemma SubsetSize(a: set<Node>, b: set<Node>)
    requires a <= b
    ensures |a| <= |b|
  {
    assert b == a + (b - a);
  }

  method Peripheral(sorted: seq<Node>, adj: AdjMap) returns (start: Node)
    requires sorted != [] && forall n :: n in sorted ==> Degree(adj, n) <= |sorted|
    ensures LeastDegree(adj, sorted, start)
  {
    var minDeg := |sorted|;
    start := sorted[0];
    for i := 0 to |sorted|
      invariant start in sorted && Degree(adj, start) <= |sorted|
      invariant minDeg == |sorted| || minDeg == Degree(adj, start)
      invariant forall j :: 0 <= j < i ==> minDeg <= Degree(adj, sorted[j])
    {
      var deg := Degree(adj, sorted[i]);
      if deg < minDeg {
        minDeg := deg;
        start := sorted[i];
      }
    }
  }

  ghost function Reversed<T>(s: seq<T>): seq<T> {
    seq(|s|, i requires 0 <= i < |s| => s[|s| - 1 - i])
  }

  method ReverseInPlace(order: array<Node>)
    modifies order
    ensures order[..] == Reversed(old(order[..]))
  {
    var i, j := 0, order.Length - 1;
    while i < j
      invariant 0 <= i <= order.Length && j == order.Length - 1 - i && i <= j + 2
      invariant forall k :: 0 <= k < i || j < k < order.Length ==> order[k] == old(order[order.Length - 1 - k])
      invariant forall k :: i <= k <= j ==> order[k] == old(order[k])
    {
      order[i], order[j] := order[j], order[i];
      i, j := i + 1, j - 1;
    }
  }

  /** list has been sorted in some way. */
  ghost predicate Sorts(sort: (seq<Node>, AdjMap) -> seq<Node>) {
    forall l, adj {:trigger sort(l, adj)} :: forall n :: n in sort(l, adj) <==> n in l
  }

  /** The visited nodes are those before the head, the node being expanded and the queue. */
  ghost predicate Expanding(E: set<Edge>, start: Node, order: seq<Node>, cur: Node, queue: seq<Node>,
                            visited: set<Node>) {
    Search(E, start, order + [cur] + queue, |order|) && visited == Elems(order + [cur] + queue)
  }

  lemma Enqueue(E: set<Edge>, start: Node, order: seq<Node>, cur: Node, queue: seq<Node>, visited: set<Node>, n: Node)
    requires Expanding(E, start, order, cur, queue, visited) && Edge(cur, n) in E && n !in visited
    ensures Expanding(E, start, order, cur, queue + [n], visited + {n})
  {
    var all := order + [cur] + queue;
    assert all[|order|] == cur;
    Discover(E, start, all, |order|, n);
    assert all + [n] == order + [cur] + (queue + [n]);
    ElemsPlus(all, n);
  }

  lemma Finished(E: set<Edge>, start: Node, order: seq<Node>, cur: Node, queue: seq<Node>, visited: set<Node>)
    requires Expanding(E, start, order, cur, queue, visited)
    requires forall w :: Edge(cur, w) in E ==> w in visited
    ensures Search(E, start, order + [cur] + queue, |order| + 1)
  {
    var all := order + [cur] + queue;
    assert all[|order|] == cur;
    assert Expanded(E, all, cur);
    Advance(E, start, all, |order|);
  }

  method Unvisited(adjacent: set<Node>, visited: set<Node>) returns (neighbors: seq<Node>)
    ensures forall n :: n in neighbors <==> n in adjacent && n !in visited
  {
    neighbors := ListNodes(set n | n in adjacent && n !in visited);
    assert forall n :: n in neighbors <==> n in Elems(neighbors);
  }

  /** Queues the unvisited neighbours of cur, by increasing degree or in any other order. */
  method ExpandNode(cur: Node, adj: AdjMap, sort: (seq<Node>, AdjMap) -> seq<Node>, visited0: set<Node>,
                    queue0: seq<Node>, ghost E: set<Edge>, ghost start: Node, ghost order: seq<Node>)
    returns (visited: set<Node>, queue: seq<Node>)
    requires AdjacencyOf(adj, E) && Sorts(sort)
    requires Expanding(E, start, order, cur, queue0, visited0)
    ensures Expanding(E, start, order, cur, queue, visited)
    ensures forall w :: Edge(cur, w) in E ==> w in visited
  {
    visited, queue := visited0, queue0;
    var neighbors := Unvisited(Neighbours(adj, cur), visited);
    neighbors := sort(neighbors, adj);
    for i := 0 to |neighbors|
      invariant Expanding(E, start, order, cur, queue, visited) && visited0 <= visited
      invariant forall j :: 0 <= j < i ==> neighbors[j] in visited
    {
      var n := neighbors[i];
      if n !in visited {
        assert n in neighbors;
        Enqueue(E, start, order, cur, queue, visited, n);
        visited := visited + {n};
        queue := queue + [n];
      }
    }
  }

  ghost predicate Searching(E: set<Edge>, start: Node, order: seq<Node>, queue: seq<Node>, visited: set<Node>) {
    Search(E, start, order + queue, |order|) && visited == Elems(order + queue)
  }

  lemma SearchBound(E: set<Edge>, start: Node, order: seq<Node>, queue: seq<Node>, visited: set<Node>)
    requires Searching(E, start, order, queue, visited) && queue != []
    ensures |order| < |Nodes(E) + {start}|
  {
    DiscoveredInNodes(E, start, order + queue, |order|);
  }

  /** One turn of the search. */
  method Turn(adj: AdjMap, sort: (seq<Node>, AdjMap) -> seq<Node>, order0: seq<Node>, queue0: seq<Node>,
              visited0: set<Node>, ghost E: set<Edge>, ghost start: Node)
    returns (order: seq<Node>, queue: seq<Node>, visited: set<Node>)
    requires AdjacencyOf(adj, E) && Sorts(sort) && queue0 != [] && Searching(E, start, order0, queue0, visited0)
    ensures Searching(E, start, order, queue, visited) && |order| == |order0| + 1
  {
    var cur := queue0[0];
    assert order0 + queue0 == order0 + [cur] + queue0[1..];
    visited, queue := ExpandNode(cur, adj, sort, visited0, queue0[1..], E, start, order0);
    Finished(E, start, order0, cur, queue, visited);
    order := order0 + [cur];
  }

  /** The nodes reachable from start, by distance. */
  method CuthillMcKee(start: Node, adj: AdjMap, sort: (seq<Node>, AdjMap) -> seq<Node>, ghost E: set<Edge>)
    returns (order: seq<Node>, visited: set<Node>)
    requires AdjacencyOf(adj, E) && Sorts(sort)
    ensures order != [] && order[0] == start && Distinct(order) && ByDistance(E, start, order)
    ensures forall n :: n in order <==> Reach(E, start, n)
    ensures visited == Elems(order)
  {
    order, visited := [], {start};
    var queue := [start];
    SearchStarts(E, start);
    assert order + queue == [start];
    while queue != []
      invariant Searching(E, start, order, queue, visited)
      decreases |Nodes(E) + {start}| - |order|
    {
      SearchBound(E, start, order, queue, visited);
      order, queue, visited := Turn(adj, sort, order, queue, visited, E, start);
    }
    assert order + queue == order;
    SearchEnds(E, start, order);
  }

  /** What the order looks like before it is reversed: the component of start by distance, then the rest. */
  ghost predicate Arranged(E: set<Edge>, nodes: set<Node>, start: Node, order: seq<Node>, size: nat) {
    && 0 < size <= |order| && Distinct(order) && Elems(order) == nodes
    && order[0] == start && ByDistance(E, start, order[..size])
    && (forall n :: n in order[..size] <==> Reach(E, start, n))
  }

  lemma RestAppended(E: set<Edge>, nodes: set<Node>, sorted: seq<Node>, start: Node, first: seq<Node>, order: seq<Node>)
    requires Distinct(sorted) && Elems(sorted) == nodes && Elems(first) <= nodes
    requires first != [] && first[0] == start && Distinct(first) && ByDistance(E, start, first)
    requires forall n :: n in first <==> Reach(E, start, n)
    requires first <= order && Appended(sorted, Elems(first), order[|first|..])
    ensures Arranged(E, nodes, start, order, |first|)
  {
    var rest := order[|first|..];
    assert order == first + rest && order[..|first|] == first;
    AppendedIs(sorted, Elems(first), rest);
    forall i | 0 <= i < |rest| ensures rest[i] !in first {
      assert rest[i] in rest;
    }
    forall n ensures n in order <==> n in nodes {
      assert n in order <==> n in first || n in rest;
      assert n in sorted <==> n in nodes;
    }
  }

  /** rest is the subsequence of sorted that was not visited. */
  ghost predicate Appended(sorted: seq<Node>, visited: set<Node>, rest: seq<Node>) {
    rest == Left(sorted, visited)
  }

  ghost function Left(sorted: seq<Node>, visited: set<Node>): seq<Node> {
    if sorted == [] then []
    else
      var n := sorted[|sorted| - 1];
      Left(sorted[..|sorted| - 1], visited) + if n in visited then [] else [n]
  }

  lemma {:induction false} AppendedIs(sorted: seq<Node>, visited: set<Node>, rest: seq<Node>)
    requires Distinct(sorted) && Appended(sorted, visited, rest)
    ensures Distinct(rest) && forall n :: n in rest <==> n in sorted && n !in visited
  {
    if sorted != [] {
      var before := sorted[..|sorted| - 1];
      assert sorted == before + [sorted[|sorted| - 1]];
      AppendedIs(before, visited, Left(before, visited));
      forall i | 0 <= i < |Left(before, visited)| ensures Left(before, visited)[i] in before {
        assert Left(before, visited)[i] in Left(before, visited);
      }
    }
  }

  lemma ReversedPermutes<T>(s: seq<T>)
    requires Distinct(s)
    ensures Distinct(Reversed(s)) && Elems(Reversed(s)) == Elems(s)
  {
    forall x | x in s ensures x in Reversed(s) {
      var i :| 0 <= i < |s| && s[i] == x;
      assert Reversed(s)[|s| - 1 - i] == x;
    }
  }

  method AppendRest(sorted: seq<Node>, visited: set<Node>, order0: seq<Node>) returns (order: seq<Node>)
    ensures order0 <= order && Appended(sorted, visited, order[|order0|..])
  {
    order := order0;
    for i := 0 to |sorted|
      invariant order0 <= order && Appended(sorted[..i], visited, order[|order0|..])
    {
      var n := sorted[i];
      assert sorted[..i + 1][..i] == sorted[..i];
      if n !in visited {
        assert (order + [n])[|order0|..] == order[|order0|..] + [n];
        order := order + [n];
      }
    }
    assert sorted[..|sorted|] == sorted;
  }

  method Reverse(order: seq<Node>) returns (result: seq<Node>)
    ensures Reversed(result) == order
  {
    var a := new Node[|order|](i requires 0 <= i < |order| => order[i]);
    assert a[..] == order;
    ReverseInPlace(a);
    result := a[..];
  }

  /** The parameters stand for sort.Strings on the node names and sort.Slice by degree. */
  method Partition(edges: seq<Edge>, sortNames: (seq<Node>, AdjMap) -> seq<Node>,
                   sortByDegree: (seq<Node>, AdjMap) -> seq<Node>)
    returns (result: seq<Node>, ghost start: Node, ghost size: nat)
    requires Sorts(sortByDegree)
    requires forall l, adj {:trigger sortNames(l, adj)} ::
      Distinct(l) ==> Distinct(sortNames(l, adj)) && Elems(sortNames(l, adj)) == Elems(l)
    ensures edges == [] ==> result == []
    ensures edges != [] ==>
            Arranged(B.Undirected(edges).edges, B.Undirected(edges).nodes, start, Reversed(result), size)
    ensures edges != [] ==> start in B.Undirected(edges).nodes && forall n :: n in B.Undirected(edges).nodes ==>
      NeighbourCount(edges, start) <= NeighbourCount(edges, n)
  {
    result, start, size := [], Node(""), 0;
    if |edges| == 0 {
      return;
    }
    ghost var g := B.Undirected(edges);
    var adj, nodes := B.BuildAdjacency(edges);
    B.UndirectedIs(edges);
    var listed := ListNodes(nodes);
    var sorted := sortNames(listed, adj);
    SortedNodes(edges, nodes, sorted, adj);
    var first := Peripheral(sorted, adj);
    LeastCount(edges, adj, sorted, first);
    start := first;
    var order, visited := CuthillMcKee(first, adj, sortByDegree, g.edges);
    ReachStays(edges, first, order);
    ghost var reached := order;
    order := AppendRest(sorted, visited, order);
    size := |reached|;
    RestAppended(g.edges, nodes, sorted, first, reached, order);
    result := Reverse(order);
  }

  /** How many distinct nodes share an edge with n. */
  ghost function NeighbourCount(edges: seq<Edge>, n: Node): nat {
    |set w | w in B.Undirected(edges).nodes && B.Adjacent(edges, n, w)|
  }

  lemma CountIsDegree(edges: seq<Edge>, adj: AdjMap, n: Node)
    requires forall v, w :: w in Neighbours(adj, v) <==> B.Adjacent(edges, v, w)
    ensures NeighbourCount(edges, n) == Degree(adj, n)
  {
    B.UndirectedIs(edges);
    var V := B.Undirected(edges).nodes;
    forall w | w in Neighbours(adj, n) ensures w in V {
      assert B.Adjacent(edges, n, w);
      assert Edge(n, w) in B.Undirected(edges).edges;
    }
    assert (set w | w in V && B.Adjacent(edges, n, w)) == Neighbours(adj, n);
  }

  lemma LeastCount(edges: seq<Edge>, adj: AdjMap, sorted: seq<Node>, start: Node)
    requires forall v, w :: w in Neighbours(adj, v) <==> B.Adjacent(edges, v, w)
    requires LeastDegree(adj, sorted, start) && Elems(sorted) == B.Undirected(edges).nodes
    ensures start in B.Undirected(edges).nodes
    ensures forall n :: n in B.Undirected(edges).nodes ==> NeighbourCount(edges, start) <= NeighbourCount(edges, n)
  {
    assert start in Elems(sorted);
    forall n | n in B.Undirected(edges).nodes ensures NeighbourCount(edges, start) <= NeighbourCount(edges, n) {
      assert n in Elems(sorted);
      CountIsDegree(edges, adj, n);
      CountIsDegree(edges, adj, start);
    }
  }

  lemma SortedNodes(edges: seq<Edge>, nodes: set<Node>, sorted: seq<Node>, adj: AdjMap)
    requires edges != [] && nodes == B.Undirected(edges).nodes && Distinct(sorted) && Elems(sorted) == nodes
    requires forall v, w :: w in Neighbours(adj, v) <==> B.Adjacent(edges, v, w)
    ensures sorted != [] && forall n :: n in sorted ==> Degree(adj, n) <= |sorted|
  {
    assert edges[0].src in nodes;
    assert edges[0].src in Elems(sorted);
    DistinctSize(sorted);
    forall n ensures Degree(adj, n) <= |nodes| { DegreeBound(edges, adj, nodes, n); }
  }

  lemma ReachStays(edges: seq<Edge>, start: Node, order: seq<Node>)
    requires start in B.Undirected(edges).nodes
    requires forall n :: n in order <==> Reach(B.Undirected(edges).edges, start, n)
    ensures Elems(order) <= B.Undirected(edges).nodes
  {
    B.UndirectedIs(edges);
    var g := B.Undirected(edges);
    forall n | n in order ensures n in g.nodes {
      var p :| IsPath(g.edges, p, start, n);
      ClosedContains(g.edges, g.nodes, start, n, p);
    }
  }

  lemma NotInPrefix(order: seq<Node>, size: nat, k: nat)
    requires Distinct(order) && size <= k < |order|
    ensures order[k] !in order[..size]
  {
  }

  /** The result is a permutation of the nodes; the start, of least degree, comes last, its component fills the end
      of the list, and along it the distance to the start never grows. */
  lemma ArrangedBackwards(E: set<Edge>, nodes: set<Node>, start: Node, result: seq<Node>, size: nat)
    requires Arranged(E, nodes, start, Reversed(result), size)
    ensures Distinct(result) && Elems(result) == nodes && result[|result| - 1] == start
    ensures forall i :: 0 <= i < |result| ==> (Reach(E, start, result[i]) <==> i >= |result| - size)
    ensures forall i, j :: |result| - size <= i <= j < |result| ==>
            Dist(E, start, result[i]) >= Dist(E, start, result[j])
  {
    var order := Reversed(result);
    assert Reversed(order) == result;
    ReversedPermutes(order);
    ReversedReach(E, nodes, start, result, order, size);
    ReversedByDistance(E, start, result, order, size);
  }

  lemma ReversedReach(E: set<Edge>, nodes: set<Node>, start: Node, result: seq<Node>, order: seq<Node>, size: nat)
    requires order == Reversed(result) && Arranged(E, nodes, start, order, size)
    ensures forall i :: 0 <= i < |result| ==> (Reach(E, start, result[i]) <==> i >= |result| - size)
  {
    forall i | 0 <= i < |result| ensures Reach(E, start, result[i]) <==> i >= |result| - size {
      var k := |result| - 1 - i;
      assert order[k] == result[i];
      if k < size {
        assert order[..size][k] == order[k];
      } else {
        NotInPrefix(order, size, k);
      }
    }
  }

  lemma ReversedByDistance(E: set<Edge>, start: Node, result: seq<Node>, order: seq<Node>, size: nat)
    requires order == Reversed(result) && size <= |order| && ByDistance(E, start, order[..size])
    ensures forall i, j :: |result| - size <= i <= j < |result| ==>
            Dist(E, start, result[i]) >= Dist(E, start, result[j])
  {
    forall i, j | |result| - size <= i <= j < |result| ensures Dist(E, start, result[i]) >= Dist(E, start, result[j]) {
      assert order[..size][|result| - 1 - j] == result[j] && order[..size][|result| - 1 - i] == result[i];
    }
  }
}
