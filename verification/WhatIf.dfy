/** Hypothetical moves on the architecture edges (impact/what_if.go). */
module WhatIf {
  import opened Options

  datatype ArchEdge = ArchEdge(name: string, src: string, dst: string, protocol: string,
                               weight: int, callSites: int, locSurface: int)

  /** A rename, or a deletion when to is empty. */
  datatype Move = Move(from: string, to: string)

  datatype Key = Key(src: string, dst: string)

  datatype Delta = Delta(removed: set<Key>, added: set<Key>, edgesBefore: nat, edgesAfter: nat)

  function KeyOf(e: ArchEdge): Key {
    Key(e.src, e.dst)
  }

  // ----- Moves as substitutions -----

  ghost function Step(m: Move, n: string): Option<string> {
    if n != m.from then Some(n) else if m.to == "" then None else Some(m.to)
  }

  /** What becomes of a component name under all the moves in turn. */
  ghost function Follow(moves: seq<Move>, n: string): Option<string> {
    if moves == [] then Some(n)
    else
      match Follow(moves[..|moves| - 1], n)
      case None => None
      case Some(x) => Step(moves[|moves| - 1], x)
  }

  ghost predicate Survives(moves: seq<Move>, e: ArchEdge) {
    Follow(moves, e.src).Some? && Follow(moves, e.dst).Some?
  }

  ghost function Image(moves: seq<Move>, e: ArchEdge): ArchEdge
    requires Survives(moves, e)
  {
    e.(src := Follow(moves, e.src).value, dst := Follow(moves, e.dst).value)
  }

  /** The edges whose ends both survive, with their ends substituted. */
  ghost function Images(moves: seq<Move>, edges: seq<ArchEdge>): seq<ArchEdge> {
    if edges == [] then []
    else
      var e := edges[|edges| - 1];
      Images(moves, edges[..|edges| - 1]) + if Survives(moves, e) then [Image(moves, e)] else []
  }

  lemma {:induction false} ImagesOfNoMove(edges: seq<ArchEdge>)
    ensures Images([], edges) == edges
  {
    if edges != [] {
      ImagesOfNoMove(edges[..|edges| - 1]);
      assert edges == edges[..|edges| - 1] + [edges[|edges| - 1]];
    }
  }

  lemma {:induction false} InImages(moves: seq<Move>, edges: seq<ArchEdge>, x: ArchEdge)
    ensures x in Images(moves, edges) <==> exists e :: e in edges && Survives(moves, e) && Image(moves, e) == x
  {
    if edges != [] {
      var rest, last := edges[..|edges| - 1], edges[|edges| - 1];
      assert edges == rest + [last];
      InImages(moves, rest, x);
    }
  }

  // ----- Delete and rename -----

  ghost function Without(edges: seq<ArchEdge>, name: string): seq<ArchEdge> {
    if edges == [] then []
    else
      var e := edges[|edges| - 1];
      Without(edges[..|edges| - 1], name) + if e.src != name && e.dst != name then [e] else []
  }

  function Renamed(e: ArchEdge, from: string, to: string): ArchEdge {
    e.(src := if e.src == from then to else e.src, dst := if e.dst == from then to else e.dst)
  }

  ghost function RenamedAll(edges: seq<ArchEdge>, from: string, to: string): seq<ArchEdge> {
    seq(|edges|, i requires 0 <= i < |edges| => Renamed(edges[i], from, to))
  }

  ghost function Apply(m: Move, edges: seq<ArchEdge>): seq<ArchEdge> {
    if m.to == "" then Without(edges, m.from) else RenamedAll(edges, m.from, m.to)
  }

  lemma ApplySnoc(m: Move, edges: seq<ArchEdge>, e: ArchEdge)
    ensures Apply(m, edges + [e]) == Apply(m, edges) + Apply(m, [e])
    ensures Apply(m, [e]) ==
            if m.to != "" then [Renamed(e, m.from, m.to)] else if e.src != m.from && e.dst != m.from then [e] else []
  {
    if m.to == "" {
      assert (edges + [e])[..|edges|] == edges;
      assert [e][..0] == [];
      assert Without([e], m.from) == if e.src != m.from && e.dst != m.from then [e] else [];
      assert Without(edges + [e], m.from) == Without(edges, m.from) + Without([e], m.from);
    } else {
      assert RenamedAll(edges + [e], m.from, m.to) == RenamedAll(edges, m.from, m.to) + [Renamed(e, m.from, m.to)];
    }
  }

  lemma StepImage(moves: seq<Move>, m: Move, e: ArchEdge)
    requires Survives(moves, e)
    ensures Apply(m, [Image(moves, e)]) == if Survives(moves + [m], e) then [Image(moves + [m], e)] else []
  {
    assert (moves + [m])[..|moves|] == moves;
    ApplySnoc(m, [], Image(moves, e));
  }

  lemma StepGone(moves: seq<Move>, m: Move, e: ArchEdge)
    requires !Survives(moves, e)
    ensures !Survives(moves + [m], e)
  {
    assert (moves + [m])[..|moves|] == moves;
  }

  /** One more move on the substituted edges is the substitution of one more move. */
  lemma {:induction false} ApplyComposes(moves: seq<Move>, m: Move, edges: seq<ArchEdge>)
    ensures Apply(m, Images(moves, edges)) == Images(moves + [m], edges)
  {
    if edges != [] {
      var rest, e := edges[..|edges| - 1], edges[|edges| - 1];
      ApplyComposes(moves, m, rest);
      if Survives(moves, e) {
        ApplySnoc(m, Images(moves, rest), Image(moves, e));
        StepImage(moves, m, e);
      } else {
        StepGone(moves, m, e);
        assert Images(moves, edges) == Images(moves, rest);
      }
    }
  }

  method ApplyDelete(edges: array<ArchEdge>, name: string) returns (kept: array<ArchEdge>)
    ensures fresh(kept) && kept[..] == Without(edges[..], name)
  {
    var newEdges := [];
    for i := 0 to edges.Length
      invariant newEdges == Without(edges[..i], name)
    {
      var e := edges[i];
      if e.src != name && e.dst != name {
        newEdges := newEdges + [e];
      }
      assert edges[..i + 1][..i] == edges[..i];
    }
    assert edges[..edges.Length] == edges[..];
    kept := new ArchEdge[|newEdges|](i requires 0 <= i < |newEdges| => newEdges[i]);
    assert kept[..] == newEdges;
  }

  method ApplyRename(edges: array<ArchEdge>, from: string, to: string)
    modifies edges
    ensures edges[..] == RenamedAll(old(edges[..]), from, to)
  {
    for i := 0 to edges.Length
      invariant forall j :: 0 <= j < i ==> edges[j] == Renamed(old(edges[j]), from, to)
      invariant forall j :: i <= j < edges.Length ==> edges[j] == old(edges[j])
    {
      if edges[i].src == from {
        edges[i] := edges[i].(src := to);
      }
      if edges[i].dst == from {
        edges[i] := edges[i].(dst := to);
      }
    }
  }

  // ----- Merging duplicates -----

  function Merge(a: ArchEdge, b: ArchEdge): ArchEdge {
    a.(callSites := a.callSites + b.callSites, locSurface := a.locSurface + b.locSurface,
       weight := if b.weight > a.weight then b.weight else a.weight)
  }

  ghost predicate KeyAt(edges: seq<ArchEdge>, i: int, k: Key) {
    0 <= i < |edges| && KeyOf(edges[i]) == k
  }

  /** The first position with the key, or the length. */
  ghost function Find(edges: seq<ArchEdge>, k: Key): (i: nat)
    ensures i <= |edges|
    ensures i < |edges| ==> KeyAt(edges, i, k)
    ensures i == |edges| ==> forall e :: e in edges ==> KeyOf(e) != k
  {
    if edges == [] then 0 else if KeyOf(edges[0]) == k then 0 else Find(edges[1..], k) + 1
  }

  ghost function Absorb(merged: seq<ArchEdge>, e: ArchEdge): seq<ArchEdge> {
    var i := Find(merged, KeyOf(e));
    if i < |merged| then merged[i := Merge(merged[i], e)] else merged + [e]
  }

  ghost function Deduped(edges: seq<ArchEdge>): seq<ArchEdge> {
    if edges == [] then [] else Absorb(Deduped(edges[..|edges| - 1]), edges[|edges| - 1])
  }

  ghost predicate DistinctKeys(edges: seq<ArchEdge>) {
    forall i, j :: 0 <= i < j < |edges| ==> KeyOf(edges[i]) != KeyOf(edges[j])
  }

  ghost predicate Keyed(merged: map<Key, ArchEdge>, order: seq<Key>, edges: seq<ArchEdge>) {
    && |order| == |edges| && DistinctKeys(edges)
    && (forall i :: 0 <= i < |edges| ==>
        order[i] == KeyOf(edges[i]) && order[i] in merged && merged[order[i]] == edges[i])
    && (forall k :: k in merged ==> k in order)
  }

  /** The body of the first loop of deduplicateEdges. */
  method MergeOne(merged0: map<Key, ArchEdge>, order0: seq<Key>, e: ArchEdge, ghost edges: seq<ArchEdge>)
    returns (merged: map<Key, ArchEdge>, order: seq<Key>)
    requires Keyed(merged0, order0, edges)
    ensures Keyed(merged, order, Absorb(edges, e))
  {
    merged, order := merged0, order0;
    var k := KeyOf(e);
    ghost var at := Find(edges, k);
    if k in merged {
      var existing := merged[k];
      existing := existing.(callSites := existing.callSites + e.callSites,
                            locSurface := existing.locSurface + e.locSurface);
      if e.weight > existing.weight {
        existing := existing.(weight := e.weight);
      }
      merged := merged[k := existing];
      assert KeyAt(edges, at, k);
    } else {
      merged := merged[k := e];
      order := order + [k];
    }
  }

  method DeduplicateEdges(edges: array<ArchEdge>) returns (result: array<ArchEdge>)
    ensures fresh(result) && result[..] == Deduped(edges[..])
  {
    var merged: map<Key, ArchEdge> := map[];
    var order := [];
    for i := 0 to edges.Length
      invariant Keyed(merged, order, Deduped(edges[..i]))
    {
      merged, order := MergeOne(merged, order, edges[i], Deduped(edges[..i]));
      assert edges[..i + 1][..i] == edges[..i];
    }
    assert edges[..edges.Length] == edges[..];
    result := new ArchEdge[|order|](i requires 0 <= i < |order| && order[i] in merged => merged[order[i]]);
    assert result[..] == Deduped(edges[..]);
  }

  ghost function NoLoops(edges: seq<ArchEdge>): seq<ArchEdge> {
    if edges == [] then []
    else
      var e := edges[|edges| - 1];
      NoLoops(edges[..|edges| - 1]) + if e.src != e.dst then [e] else []
  }

  method RemoveSelfLoops(edges: array<ArchEdge>) returns (result: seq<ArchEdge>)
    ensures result == NoLoops(edges[..])
  {
    result := [];
    for i := 0 to edges.Length
      invariant result == NoLoops(edges[..i])
    {
      var e := edges[i];
      if e.src != e.dst {
        result := result + [e];
      }
      assert edges[..i + 1][..i] == edges[..i];
    }
    assert edges[..edges.Length] == edges[..];
  }

  lemma AbsorbKeys(merged: seq<ArchEdge>, e: ArchEdge)
    requires DistinctKeys(merged)
    ensures DistinctKeys(Absorb(merged, e))
    ensures Keys(Absorb(merged, e)) == Keys(merged) + {KeyOf(e)}
  {
    var after := Absorb(merged, e);
    var i := Find(merged, KeyOf(e));
    if i < |merged| {
      forall x | x in merged ensures exists y :: y in after && KeyOf(y) == KeyOf(x) {
        var j :| 0 <= j < |merged| && merged[j] == x;
        assert after[j] in after && KeyOf(after[j]) == KeyOf(x);
      }
    }
  }

  ghost function Keys(edges: seq<ArchEdge>): set<Key> {
    set e | e in edges :: KeyOf(e)
  }

  lemma {:induction false} DedupedKeys(edges: seq<ArchEdge>)
    ensures DistinctKeys(Deduped(edges)) && Keys(Deduped(edges)) == Keys(edges)
  {
    if edges != [] {
      var rest, e := edges[..|edges| - 1], edges[|edges| - 1];
      assert edges == rest + [e];
      DedupedKeys(rest);
      AbsorbKeys(Deduped(rest), e);
    }
  }

  // ----- What merging keeps -----

  datatype Load = Load(sites: int, surface: int)

  function Plus(a: Load, b: Load): Load {
    Load(a.sites + b.sites, a.surface + b.surface)
  }

  function LoadOf(e: ArchEdge): Load {
    Load(e.callSites, e.locSurface)
  }

  /** Call sites and surface of the edges with this key. */
  ghost function GroupLoad(edges: seq<ArchEdge>, k: Key): Load {
    if edges == [] then Load(0, 0)
    else
      var e := edges[|edges| - 1];
      Plus(GroupLoad(edges[..|edges| - 1], k), if KeyOf(e) == k then LoadOf(e) else Load(0, 0))
  }

  ghost function TotalLoad(edges: seq<ArchEdge>): Load {
    if edges == [] then Load(0, 0) else Plus(TotalLoad(edges[..|edges| - 1]), LoadOf(edges[|edges| - 1]))
  }

  ghost predicate IsGroupMax(edges: seq<ArchEdge>, k: Key, w: int) {
    && (exists e :: e in edges && KeyOf(e) == k && e.weight == w)
    && (forall e :: e in edges && KeyOf(e) == k ==> e.weight <= w)
  }

  /** d stands for all the edges with its key. */
  ghost predicate Represents(edges: seq<ArchEdge>, d: ArchEdge) {
    LoadOf(d) == GroupLoad(edges, KeyOf(d)) && IsGroupMax(edges, KeyOf(d), d.weight)
  }

  lemma RepresentsSnoc(edges: seq<ArchEdge>, e: ArchEdge, d: ArchEdge)
    requires Represents(edges, d)
    ensures Represents(edges + [e], if KeyOf(d) == KeyOf(e) then Merge(d, e) else d)
  {
    assert (edges + [e])[..|edges|] == edges;
    var w :| w in edges && KeyOf(w) == KeyOf(d) && w.weight == d.weight;
    assert w in edges + [e] && e in edges + [e];
  }

  lemma {:induction false} NoLoad(edges: seq<ArchEdge>, k: Key)
    requires forall e :: e in edges ==> KeyOf(e) != k
    ensures GroupLoad(edges, k) == Load(0, 0)
  {
    if edges != [] {
      NoLoad(edges[..|edges| - 1], k);
    }
  }

  lemma RepresentsNew(edges: seq<ArchEdge>, e: ArchEdge)
    requires forall x :: x in edges ==> KeyOf(x) != KeyOf(e)
    ensures Represents(edges + [e], e)
  {
    assert (edges + [e])[..|edges|] == edges;
    NoLoad(edges, KeyOf(e));
    assert e in edges + [e];
  }

  lemma NoKey(edges: seq<ArchEdge>, k: Key)
    requires k !in Keys(edges)
    ensures forall e :: e in edges ==> KeyOf(e) != k
  {
  }

  lemma {:induction false} DedupedRepresents(edges: seq<ArchEdge>, d: ArchEdge)
    requires d in Deduped(edges)
    ensures Represents(edges, d)
  {
    var rest, e := edges[..|edges| - 1], edges[|edges| - 1];
    assert edges == rest + [e];
    var merged := Deduped(rest);
    DedupedKeys(rest);
    var i := Find(merged, KeyOf(e));
    if i < |merged| {
      assert KeyAt(merged, i, KeyOf(e));
      var j :| 0 <= j < |merged| && d == merged[i := Merge(merged[i], e)][j];
      DedupedRepresents(rest, merged[j]);
      RepresentsSnoc(rest, e, merged[j]);
    } else if d in merged {
      DedupedRepresents(rest, d);
      RepresentsSnoc(rest, e, d);
    } else {
      assert KeyOf(e) !in Keys(merged);
      NoKey(rest, KeyOf(e));
      RepresentsNew(rest, e);
    }
  }

  /** Edge i is the first between these ends. */
  ghost predicate FirstBetween(edges: seq<ArchEdge>, src: string, dst: string, i: int) {
    && 0 <= i < |edges| && edges[i].src == src && edges[i].dst == dst
    && forall j :: 0 <= j < i ==> edges[j].src != src || edges[j].dst != dst
  }

  lemma FirstLater(edges: seq<ArchEdge>, e: ArchEdge, src: string, dst: string, i: int)
    ensures i < |edges| ==> (FirstBetween(edges + [e], src, dst, i) <==> FirstBetween(edges, src, dst, i))
  {
    assert forall j :: 0 <= j < |edges| ==> (edges + [e])[j] == edges[j];
  }

  lemma AbsorbAt(merged: seq<ArchEdge>, e: ArchEdge, n: nat)
    requires n < |Absorb(merged, e)|
    ensures n < |merged| ==> var d := Absorb(merged, e)[n];
      KeyOf(d) == KeyOf(merged[n]) && d.name == merged[n].name && d.protocol == merged[n].protocol
    ensures n >= |merged| ==> n == |merged| && Absorb(merged, e)[n] == e && KeyOf(e) !in Keys(merged)
  {
    var i := Find(merged, KeyOf(e));
    if i < |merged| {
      assert KeyAt(merged, i, KeyOf(e));
    }
  }

  /** A merged edge has the ends, name and protocol of the first edge between its ends. */
  lemma {:induction false} DedupedFirst(edges: seq<ArchEdge>, n: nat) returns (i: int)
    requires n < |Deduped(edges)|
    ensures var d := Deduped(edges)[n];
      FirstBetween(edges, d.src, d.dst, i) && d.name == edges[i].name && d.protocol == edges[i].protocol
  {
    var rest, e := edges[..|edges| - 1], edges[|edges| - 1];
    assert edges == rest + [e];
    AbsorbAt(Deduped(rest), e, n);
    if n < |Deduped(rest)| {
      i := DedupedFirst(rest, n);
      FirstLater(rest, e, Deduped(rest)[n].src, Deduped(rest)[n].dst, i);
    } else {
      i := |rest|;
      NoneBetween(rest, e);
    }
  }

  lemma NoneBetween(edges: seq<ArchEdge>, e: ArchEdge)
    requires KeyOf(e) !in Keys(Deduped(edges))
    ensures forall j :: 0 <= j < |edges| ==> edges[j].src != e.src || edges[j].dst != e.dst
  {
    DedupedKeys(edges);
    forall j | 0 <= j < |edges| ensures KeyOf(edges[j]) != KeyOf(e) {
      assert edges[j] in edges;
    }
  }

  /** Merged edges stand in the order in which their ends are first seen. */
  lemma {:induction false} DedupedInOrder(edges: seq<ArchEdge>, m: nat, n: nat, i: int, j: int)
    requires m < n < |Deduped(edges)|
    requires FirstBetween(edges, Deduped(edges)[m].src, Deduped(edges)[m].dst, i)
    requires FirstBetween(edges, Deduped(edges)[n].src, Deduped(edges)[n].dst, j)
    ensures i < j
  {
    var rest, e := edges[..|edges| - 1], edges[|edges| - 1];
    var merged := Deduped(rest);
    assert edges == rest + [e];
    AbsorbAt(merged, e, m);
    AbsorbAt(merged, e, n);
    var i1 := DedupedFirst(rest, m);
    FirstLater(rest, e, merged[m].src, merged[m].dst, i1);
    FirstLater(rest, e, merged[m].src, merged[m].dst, i);
    if n < |merged| {
      var j1 := DedupedFirst(rest, n);
      FirstLater(rest, e, merged[n].src, merged[n].dst, j1);
      DedupedInOrder(rest, m, n, i1, j1);
    } else {
      NoneBetween(rest, e);
    }
  }

  /** Removing loops drops edges one by one and keeps the order. */
  lemma {:induction false} NoLoopsJoin(a: seq<ArchEdge>, b: seq<ArchEdge>)
    ensures NoLoops(a + b) == NoLoops(a) + NoLoops(b)
    ensures |b| == 1 ==> NoLoops(b) == if b[0].src != b[0].dst then b else []
  {
    if b == [] {
      assert a + b == a;
    } else {
      var front, e := b[..|b| - 1], b[|b| - 1];
      NoLoopsJoin(a, front);
      assert (a + b)[..|a + b| - 1] == a + front;
    }
  }

  /** Call sites and surface of the edges that are not loops. */
  ghost function OpenLoad(edges: seq<ArchEdge>): Load {
    if edges == [] then Load(0, 0)
    else
      var e := edges[|edges| - 1];
      Plus(OpenLoad(edges[..|edges| - 1]), if e.src != e.dst then LoadOf(e) else Load(0, 0))
  }

  lemma OpenLoadSnoc(edges: seq<ArchEdge>, e: ArchEdge)
    ensures OpenLoad(edges + [e]) == Plus(OpenLoad(edges), if e.src != e.dst then LoadOf(e) else Load(0, 0))
  {
    assert (edges + [e])[..|edges|] == edges;
  }

  lemma {:induction false} OpenLoadIs(edges: seq<ArchEdge>)
    ensures TotalLoad(NoLoops(edges)) == OpenLoad(edges)
  {
    if edges != [] {
      var rest, e := NoLoops(edges[..|edges| - 1]), edges[|edges| - 1];
      OpenLoadIs(edges[..|edges| - 1]);
      assert (rest + [e])[..|rest|] == rest;
      assert rest + [] == rest;
    }
  }

  /** Merging an edge into one with the same ends adds its load. */
  lemma {:induction false} LoadUpdate(edges: seq<ArchEdge>, i: nat, e: ArchEdge)
    requires i < |edges| && KeyOf(edges[i]) == KeyOf(e)
    ensures OpenLoad(edges[i := Merge(edges[i], e)]) ==
            Plus(OpenLoad(edges), if e.src != e.dst then LoadOf(e) else Load(0, 0))
  {
    var n := |edges| - 1;
    var after := edges[i := Merge(edges[i], e)];
    if i < n {
      LoadUpdate(edges[..n], i, e);
      assert after[..n] == edges[..n][i := Merge(edges[i], e)];
    } else {
      assert after[..n] == edges[..n];
    }
  }

  lemma {:induction false} OpenLoadDeduped(edges: seq<ArchEdge>)
    ensures OpenLoad(Deduped(edges)) == OpenLoad(edges)
  {
    if edges != [] {
      var rest, e := edges[..|edges| - 1], edges[|edges| - 1];
      OpenLoadDeduped(rest);
      var merged := Deduped(rest);
      var i := Find(merged, KeyOf(e));
      if i < |merged| {
        assert KeyAt(merged, i, KeyOf(e));
        LoadUpdate(merged, i, e);
      } else {
        OpenLoadSnoc(merged, e);
      }
    }
  }

  /** Merging duplicates loses no call site and no surface of the edges that are not loops. */
  lemma DedupedConserves(edges: seq<ArchEdge>)
    ensures TotalLoad(NoLoops(Deduped(edges))) == TotalLoad(NoLoops(edges))
  {
    OpenLoadDeduped(edges);
    OpenLoadIs(edges);
    OpenLoadIs(Deduped(edges));
  }

  lemma {:induction false} InNoLoops(edges: seq<ArchEdge>, e: ArchEdge)
    ensures e in NoLoops(edges) <==> e in edges && e.src != e.dst
  {
    if edges != [] {
      assert edges == edges[..|edges| - 1] + [edges[|edges| - 1]];
      InNoLoops(edges[..|edges| - 1], e);
    }
  }

  lemma {:induction false} NoLoopsDistinct(edges: seq<ArchEdge>)
    requires DistinctKeys(edges)
    ensures DistinctKeys(NoLoops(edges))
  {
    if edges != [] {
      var rest := edges[..|edges| - 1];
      NoLoopsDistinct(rest);
      var last := edges[|edges| - 1];
      forall x | x in NoLoops(rest) ensures KeyOf(x) != KeyOf(last) {
        InNoLoops(rest, x);
      }
    }
  }

  // ----- The whole computation -----

  ghost function After(moves: seq<Move>, edges: seq<ArchEdge>): seq<ArchEdge> {
    NoLoops(Deduped(Images(moves, edges)))
  }

  ghost predicate MapsTo(moves: seq<Move>, e: ArchEdge, k: Key) {
    Follow(moves, e.src) == Some(k.src) && Follow(moves, e.dst) == Some(k.dst)
  }

  /** The edges afterwards are the images of the original edges under the composed substitution, loops left out:
      each once, with the load of all it stands for and the greatest of their weights. */
  lemma AfterIsImage(moves: seq<Move>, edges: seq<ArchEdge>)
    ensures DistinctKeys(After(moves, edges))
    ensures forall k :: k in Keys(After(moves, edges)) <==>
            k.src != k.dst && exists e :: e in edges && MapsTo(moves, e, k)
    ensures forall d :: d in After(moves, edges) ==> Represents(Images(moves, edges), d)
    ensures TotalLoad(After(moves, edges)) == TotalLoad(NoLoops(Images(moves, edges)))
  {
    var images := Images(moves, edges);
    var merged := Deduped(images);
    DedupedKeys(images);
    NoLoopsDistinct(merged);
    DedupedConserves(images);
    forall d | d in NoLoops(merged) ensures Represents(images, d) {
      InNoLoops(merged, d);
      DedupedRepresents(images, d);
    }
    forall k ensures k in Keys(NoLoops(merged)) <==> k.src != k.dst && exists e :: e in edges && MapsTo(moves, e, k) {
      KeyAfter(moves, edges, k);
    }
  }

  lemma KeyAfter(moves: seq<Move>, edges: seq<ArchEdge>, k: Key)
    ensures k in Keys(After(moves, edges)) <==> k.src != k.dst && exists e :: e in edges && MapsTo(moves, e, k)
  {
    var images := Images(moves, edges);
    var merged := Deduped(images);
    DedupedKeys(images);
    if k in Keys(After(moves, edges)) {
      var d :| d in After(moves, edges) && KeyOf(d) == k;
      InNoLoops(merged, d);
      assert k in Keys(merged);
      var x :| x in images && KeyOf(x) == k;
      InImages(moves, edges, x);
      var e :| e in edges && Survives(moves, e) && Image(moves, e) == x;
      assert MapsTo(moves, e, k);
    }
    if k.src != k.dst && exists e :: e in edges && MapsTo(moves, e, k) {
      var e :| e in edges && MapsTo(moves, e, k);
      InImages(moves, edges, Image(moves, e));
      assert k in Keys(images);
      var d :| d in merged && KeyOf(d) == k;
      InNoLoops(merged, d);
    }
  }

  method MutateEdges(edges: array<ArchEdge>, moves: seq<Move>) returns (after: seq<ArchEdge>)
    ensures after == After(moves, edges[..])
  {
    var mut := new ArchEdge[edges.Length](i requires 0 <= i < edges.Length reads edges => edges[i]);
    ImagesOfNoMove(edges[..]);
    assert mut[..] == edges[..];
    for i := 0 to |moves|
      invariant fresh(mut) && mut[..] == Images(moves[..i], edges[..])
    {
      var m := moves[i];
      ApplyComposes(moves[..i], m, edges[..]);
      assert moves[..i + 1] == moves[..i] + [m];
      if m.to == "" {
        mut := ApplyDelete(mut, m.from);
      } else {
        ApplyRename(mut, m.from, m.to);
      }
    }
    assert moves[..|moves|] == moves;
    var merged := DeduplicateEdges(mut);
    after := RemoveSelfLoops(merged);
  }

  method EdgeSet(edges: seq<ArchEdge>) returns (s: set<Key>)
    ensures s == Keys(edges)
  {
    s := {};
    for i := 0 to |edges|
      invariant s == Keys(edges[..i])
    {
      s := s + {KeyOf(edges[i])};
      assert edges[..i + 1] == edges[..i] + [edges[i]];
    }
    assert edges[..|edges|] == edges;
  }

  /** The differences between the edge sets before and after; the given edges themselves stay as they are. */
  method ComputeWhatIf(edges: array<ArchEdge>, moves: seq<Move>) returns (delta: Delta)
    ensures delta.edgesBefore == edges.Length
    ensures moves == [] ==> delta == Delta({}, {}, edges.Length, edges.Length)
    ensures moves != [] ==> var after := After(moves, edges[..]);
      && delta.removed == Keys(edges[..]) - Keys(after) && delta.added == Keys(after) - Keys(edges[..])
      && (Keys(edges[..]) - delta.removed) + delta.added == Keys(after)
      && delta.edgesAfter == |after|
  {
    if moves == [] {
      return Delta({}, {}, edges.Length, edges.Length);
    }
    var before := EdgeSet(edges[..]);
    var mutated := MutateEdges(edges, moves);
    var after := EdgeSet(mutated);
    delta := Delta(before - after, after - before, edges.Length, |mutated|);
  }

  /** The reported number of edges afterwards is the number of distinct pairs. */
  lemma {:induction false} DistinctKeysCount(edges: seq<ArchEdge>)
    requires DistinctKeys(edges)
    ensures |Keys(edges)| == |edges|
  {
    if edges != [] {
      var rest, e := edges[..|edges| - 1], edges[|edges| - 1];
      assert edges == rest + [e];
      DistinctKeysCount(rest);
      assert Keys(edges) == Keys(rest) + {KeyOf(e)};
      assert KeyOf(e) !in Keys(rest);
    }
  }

  ghost predicate Touches(moves: seq<Move>, edges: seq<ArchEdge>) {
    exists e :: e in edges && !MapsTo(moves, e, KeyOf(e))
  }

  /** Moves that touch no edge are not a no-op: the edges afterwards are the distinct pairs without the self-loops. */
  lemma UntouchedEdges(moves: seq<Move>, edges: seq<ArchEdge>)
    requires !Touches(moves, edges)
    ensures Keys(edges) - Keys(After(moves, edges)) == set k | k in Keys(edges) && k.src == k.dst
    ensures Keys(After(moves, edges)) - Keys(edges) == {}
    ensures |After(moves, edges)| == |set k | k in Keys(edges) && k.src != k.dst|
  {
    forall k ensures k in Keys(After(moves, edges)) <==> k.src != k.dst && k in Keys(edges) {
      KeyAfter(moves, edges, k);
      if k in Keys(edges) {
        var e :| e in edges && KeyOf(e) == k;
        assert MapsTo(moves, e, k);
      }
    }
    AfterIsImage(moves, edges);
    DistinctKeysCount(After(moves, edges));
    assert Keys(After(moves, edges)) == set k | k in Keys(edges) && k.src != k.dst;
  }
}
