/** Betweenness centrality over all sources, split across workers (graph/metrics.go). */
module Betweenness {
  import opened Graphs
  import opened Sums
  import opened PathCounts
  import opened Dependencies
  import opened Brandes

  lemma DistancesExist(g: Graph, s: Node)
    requires Closed(g)
    ensures exists D :: Distances(g, s, D)
  {
    var D := map n | n in g.nodes + {s} && Dist(g.edges, s, n) >= 0 :: Dist(g.edges, s, n) as nat;
    forall n, d: nat ensures IsDist(g.edges, s, n, d) <==> n in D && D[n] == d {
      DistSpec(g.edges, s, n);
      if IsDist(g.edges, s, n, d) {
        DistValue(g.edges, s, n, d);
        var p :| IsPath(g.edges, p, s, n) && |p| == d + 1;
        if d > 0 { assert Edge(p[d - 1], p[d]) in g.edges; }
      }
    }
    assert Distances(g, s, D);
  }

  ghost function DistancesOf(g: Graph, s: Node): (D: map<Node, nat>)
    requires Closed(g)
  {
    DistancesExist(g, s);
    var D :| Distances(g, s, D);
    D
  }

  /** The score that source s contributes to node w. */
  ghost function CreditOf(g: Graph, s: Node, w: Node): real {
    if Closed(g) && s != w then DependencyOf(g, s, DistancesOf(g, s), w) else 0.0
  }

  ghost function Credits(g: Graph, w: Node): Node -> real {
    s => CreditOf(g, s, w)
  }

  /** The sum of the contributions of a set of sources. */
  ghost function Score(g: Graph, S: set<Node>, w: Node): real {
    Sum(S, Credits(g, w))
  }

  ghost predicate Scored(g: Graph, S: set<Node>, m: map<Node, real>) {
    forall w {:trigger Score(g, S, w)} :: Get(m, w) == Score(g, S, w)
  }

  lemma NothingScored(g: Graph)
    ensures Scored(g, {}, map[])
  {
  }

  lemma ScoredStep(g: Graph, S: set<Node>, m0: map<Node, real>, s: Node, m: map<Node, real>)
    requires Closed(g) && Scored(g, S, m0) && s !in S
    requires forall D, w :: Distances(g, s, D) ==>
               Get(m, w) == Get(m0, w) + if w != s then DependencyOf(g, s, D, w) else 0.0
    ensures Scored(g, S + {s}, m)
  {
    forall w ensures Get(m, w) == Score(g, S + {s}, w) {
      assert Get(m0, w) == Score(g, S, w);
      SumPick(S + {s}, Credits(g, w), s);
      assert S + {s} - {s} == S;
      DistancesExist(g, s);
      assert Distances(g, s, DistancesOf(g, s));
    }
  }

  lemma ScoredUnion(g: Graph, S: set<Node>, T: set<Node>, m0: map<Node, real>, m1: map<Node, real>, m: map<Node, real>)
    requires S !! T && Scored(g, S, m0) && Scored(g, T, m1)
    requires forall w :: Get(m, w) == Get(m0, w) + Get(m1, w)
    ensures Scored(g, S + T, m)
  {
    forall w ensures Get(m, w) == Score(g, S + T, w) {
      assert Get(m0, w) == Score(g, S, w) && Get(m1, w) == Score(g, T, w);
      SumSplit(S, T, Credits(g, w));
    }
  }

  /** The body of one worker: its sources in sequence, into one local map. */
  method ScoreChunk(srcs: seq<Node>, nodeList: seq<Node>, adj: AdjMap, ghost g: Graph)
    returns (local: map<Node, real>)
    requires Adjacency(adj, nodeList, g) && Distinct(srcs) && Elems(srcs) <= g.nodes
    ensures Scored(g, Elems(srcs), local)
  {
    local := map[];
    NothingScored(g);
    for i := 0 to |srcs|
      invariant Scored(g, Elems(srcs[..i]), local)
    {
      ghost var before := local;
      assert srcs[i] in Elems(srcs) && srcs[i] !in Elems(srcs[..i]);
      local := BrandesBFS(srcs[i], nodeList, adj, local, g);
      ElemsSnoc(srcs, i);
      ScoredStep(g, Elems(srcs[..i]), before, srcs[i], local);
    }
    assert srcs[..|srcs|] == srcs;
  }

  /** Adds one worker's scores into the totals. */
  method Merge(total0: map<Node, real>, partial: map<Node, real>) returns (total: map<Node, real>)
    ensures forall w :: Get(total, w) == Get(total0, w) + Get(partial, w)
  {
    total := total0;
    var rest := partial.Keys;
    while rest != {}
      invariant rest <= partial.Keys
      invariant forall w :: Get(total, w) == Get(total0, w) + if w in rest then 0.0 else Get(partial, w)
    {
      var k :| k in rest;
      rest := rest - {k};
      total := total[k := Get(total, k) + partial[k]];
    }
  }

  // ----- The chunks -----

  /** Where worker w's chunk starts, clipped to the n sources. */
  function Start(c: nat, w: nat, n: nat): (s: nat)
    ensures s <= n
  {
    if w * c < n then w * c else n
  }

  function Ceiling(n: nat, workers: nat): nat
    requires workers > 0
  {
    (n + workers - 1) / workers
  }

  lemma ChunkNext(c: nat, w: nat, n: nat)
    ensures Start(c, w, n) <= Start(c, w + 1, n)
    ensures Start(c, w + 1, n) == if w * c + c < n then w * c + c else n
  {
    assert (w + 1) * c == w * c + c;
  }

  /** The last chunk ends at the last source. */
  lemma ChunksCover(n: nat, workers: nat)
    requires workers > 0
    ensures Start(Ceiling(n, workers), workers, n) == n
  {
    var c := Ceiling(n, workers);
    assert (n + workers - 1) == workers * c + (n + workers - 1) % workers;
    assert workers * c >= n;
  }

  lemma ChunkElems(s: seq<Node>, a: nat, b: nat)
    requires a <= b <= |s| && Distinct(s)
    ensures Elems(s[..b]) == Elems(s[..a]) + Elems(s[a..b]) && Elems(s[..a]) !! Elems(s[a..b])
    ensures Distinct(s[a..b])
  {
    assert s[..b] == s[..a] + s[a..b];
    forall x | x in s[..a] ensures x !in s[a..b] {
      var i :| 0 <= i < a && s[i] == x;
    }
  }

  /** The worker ids 0 .. n - 1. */
  function Ids(n: nat): (s: set<nat>)
    ensures forall w: nat :: w in s <==> w < n
  {
    if n == 0 then {} else Ids(n - 1) + {n - 1}
  }

  ghost predicate PartialDone(g: Graph, sources: seq<Node>, c: nat, w: nat, partial: map<Node, real>) {
    var a, b := Start(c, w, |sources|), Start(c, w + 1, |sources|);
    a <= b && Scored(g, Elems(sources[a..b]), partial)
  }

  /** The parallel part: workers run in any order, each filling its own slot; the slots are then merged. */
  method ScoreSources(sources: seq<Node>, nodeList: seq<Node>, adj: AdjMap, procs: int, ghost g: Graph)
    returns (centrality: map<Node, real>)
    requires Adjacency(adj, nodeList, g) && Distinct(sources) && Elems(sources) <= g.nodes
    ensures Scored(g, Elems(sources), centrality)
  {
    var workers := if procs > |sources| then |sources| else procs;
    workers := if workers < 1 then 1 else workers;
    var c := Ceiling(|sources|, workers);
    var partials := seq(workers, _ => map[]);
    var pending := Ids(workers);
    while pending != {}
      invariant |partials| == workers && pending <= Ids(workers)
      invariant forall w :: 0 <= w < workers && w in pending ==> partials[w] == map[]
      invariant forall w {:trigger PartialDone(g, sources, c, w, partials[w])} ::
                  0 <= w < workers && w !in pending ==> PartialDone(g, sources, c, w, partials[w])
    {
      var w :| w in pending;
      pending := pending - {w};
      ChunkNext(c, w, |sources|);
      var start := w * c;
      var end := if start + c > |sources| then |sources| else start + c;
      if start < end {
        ChunkElems(sources, start, end);
        forall x | x in sources[start..end] ensures x in g.nodes { assert x in Elems(sources); }
        var local := ScoreChunk(sources[start..end], nodeList, adj, g);
        partials := partials[w := local];
      } else {
        NothingScored(g);
        assert Elems(sources[Start(c, w, |sources|)..Start(c, w + 1, |sources|)]) == {};
      }
      assert PartialDone(g, sources, c, w, partials[w]);
    }
    centrality := MergeAll(sources, workers, c, partials, g);
  }

  /** The merge after all workers are done. */
  method MergeAll(sources: seq<Node>, workers: nat, c: nat, partials: seq<map<Node, real>>, ghost g: Graph)
    returns (centrality: map<Node, real>)
    requires Distinct(sources) && workers >= 1 && c == Ceiling(|sources|, workers) && |partials| == workers
    requires forall w {:trigger PartialDone(g, sources, c, w, partials[w])} ::
               0 <= w < workers ==> PartialDone(g, sources, c, w, partials[w])
    ensures Scored(g, Elems(sources), centrality)
  {
    centrality := map[];
    NothingScored(g);
    for w := 0 to workers
      invariant Scored(g, Elems(sources[..Start(c, w, |sources|)]), centrality)
    {
      ghost var before := centrality;
      ChunkNext(c, w, |sources|);
      ChunkElems(sources, Start(c, w, |sources|), Start(c, w + 1, |sources|));
      centrality := Merge(centrality, partials[w]);
      assert PartialDone(g, sources, c, w, partials[w]);
      ScoredUnion(g, Elems(sources[..Start(c, w, |sources|)]),
        Elems(sources[Start(c, w, |sources|)..Start(c, w + 1, |sources|)]), before, partials[w], centrality);
    }
    ChunksCover(|sources|, workers);
    assert sources[..|sources|] == sources;
  }

  // ----- The whole computation -----

  ghost predicate Adjacent(edges: seq<Edge>, v: Node, w: Node) {
    Edge(v, w) in edges || Edge(w, v) in edges
  }

  /** The undirected graph of the listed edges. */
  ghost function Undirected(edges: seq<Edge>): Graph {
    Graph((set e | e in edges :: e.src) + (set e | e in edges :: e.dst),
          (set e | e in edges) + (set e | e in edges :: Edge(e.dst, e.src)))
  }

  lemma UndirectedIs(edges: seq<Edge>)
    ensures Closed(Undirected(edges))
    ensures forall v, w :: Edge(v, w) in Undirected(edges).edges <==> Adjacent(edges, v, w)
  {
    forall v, w ensures Edge(v, w) in Undirected(edges).edges <==> Adjacent(edges, v, w) {
      if Edge(w, v) in edges { assert Edge(w, v).dst == v && Edge(w, v).src == w; }
    }
    forall v, w | Edge(v, w) in Undirected(edges).edges
      ensures v in Undirected(edges).nodes && w in Undirected(edges).nodes
    {
      var e := if Edge(v, w) in edges then Edge(v, w) else Edge(w, v);
      assert e in edges && {e.src, e.dst} == {v, w};
    }
  }

  lemma OneMoreEdge(edges: seq<Edge>, i: nat)
    requires i < |edges|
    ensures forall e :: e in edges[..i + 1] <==> e in edges[..i] || e == edges[i]
    ensures Undirected(edges[..i + 1]).nodes == Undirected(edges[..i]).nodes + {edges[i].src, edges[i].dst}
  {
    assert edges[..i + 1] == edges[..i] + [edges[i]];
  }

  method BuildAdjacency(edges: seq<Edge>) returns (adj: AdjMap, nodes: set<Node>)
    ensures forall v, w :: w in Neighbours(adj, v) <==> Adjacent(edges, v, w)
    ensures nodes == Undirected(edges).nodes
  {
    adj, nodes := map[], {};
    for i := 0 to |edges|
      invariant forall v, w :: w in Neighbours(adj, v) <==> Adjacent(edges[..i], v, w)
      invariant nodes == Undirected(edges[..i]).nodes
    {
      var s, t := edges[i].src, edges[i].dst;
      nodes := nodes + {s, t};
      ghost var adj0 := adj;
      adj := adj[s := Neighbours(adj, s) + {t}];
      adj := adj[t := Neighbours(adj, t) + {s}];
      forall v, w ensures w in Neighbours(adj, v) <==>
        w in Neighbours(adj0, v) || (v == s && w == t) || (v == t && w == s) {}
      OneMoreEdge(edges, i);
      forall v, w ensures Adjacent(edges[..i + 1], v, w) <==>
        Adjacent(edges[..i], v, w) || (v == s && w == t) || (v == t && w == s)
      {
        assert edges[i] == Edge(s, t);
      }
    }
    assert edges[..|edges|] == edges;
  }

  const MAX_SOURCES := 200

  /** shuffle reorders a repetition-free list. */
  ghost predicate Shuffles(shuffle: seq<Node> -> seq<Node>) {
    forall l {:trigger shuffle(l)} :: Distinct(l) ==> Distinct(shuffle(l)) && Elems(shuffle(l)) == Elems(l)
  }

  /** The scores before normalisation; the seeded shuffle of a long source list is a parameter. */
  method BetweennessCentrality(edges: seq<Edge>, procs: int, shuffle: seq<Node> -> seq<Node>)
    returns (centrality: map<Node, real>, sources: seq<Node>)
    requires Shuffles(shuffle)
    ensures Distinct(sources) && Elems(sources) <= Undirected(edges).nodes
    ensures var n := |Undirected(edges).nodes|; |Elems(sources)| == if n <= 200 then n else 200
    ensures Scored(Undirected(edges), Elems(sources), centrality)
  {
    var adj, nodes := BuildAdjacency(edges);
    var nodeList := ListNodes(nodes);
    sources := ChooseSources(nodeList, shuffle);
    UndirectedIs(edges);
    centrality := ScoreSources(sources, nodeList, adj, procs, Undirected(edges));
  }

  /** All nodes, or the first MAX_SOURCES of a shuffle of them. */
  method ChooseSources(nodeList: seq<Node>, shuffle: seq<Node> -> seq<Node>) returns (chosen: seq<Node>)
    requires Shuffles(shuffle) && Distinct(nodeList)
    ensures Distinct(chosen) && Elems(chosen) <= Elems(nodeList)
    ensures |Elems(chosen)| == if |nodeList| <= MAX_SOURCES then |nodeList| else MAX_SOURCES
  {
    chosen := nodeList;
    if |chosen| > MAX_SOURCES {
      var shuffled := shuffle(nodeList);
      DistinctSize(nodeList);
      DistinctSize(shuffled);
      chosen := shuffled[..MAX_SOURCES];
      forall n | n in chosen ensures n in Elems(nodeList) { assert n in shuffled && n in Elems(shuffled); }
    }
    DistinctSize(chosen);
  }
}
