/** Linear typed call chains (pipeline.go). */
module Pipelines {

  datatype CallEdge = CallEdge(src: string, dst: string, kind: string,
                               paramTypes: seq<string>, returnTypes: seq<string>)

  datatype Sig = Sig(paramTypes: seq<string>, returnTypes: seq<string>)

  datatype Step = Step(fqn: string, sig: Sig)

  datatype Pipeline = Pipeline(steps: seq<Step>, typeChain: seq<string>)

  const DEFAULT_MIN_LENGTH := 3

  const NO_SIG := Sig([], [])

  // ----- Type overlap -----

  function Normal(t: string): string {
    if t != "" && t[0] == '*' then t[1..] else t
  }

  /** A return type that is not error and is some parameter's type, leading stars aside. */
  ghost predicate Fits(r: string, paramTypes: seq<string>) {
    Normal(r) != "error" && exists p :: p in paramTypes && Normal(p) == Normal(r)
  }

  ghost predicate Starred(t: string) {
    |t| > 0 && t[0] == '*'
  }

  /** Two types are the same up to one star in front of one of them. */
  ghost predicate SameType(r: string, p: string) {
    r == p || (r == "*" + p && !Starred(p)) || (p == "*" + r && !Starred(r))
  }

  lemma NormalIs(t: string)
    ensures Starred(t) ==> t == "*" + Normal(t)
    ensures !Starred(t) ==> t == Normal(t)
  {
  }

  lemma SameNormal(r: string, p: string)
    ensures Normal(r) == Normal(p) <==> SameType(r, p)
  {
    NormalIs(r);
    NormalIs(p);
    assert Starred("*" + p) && Starred("*" + r);
    assert ("*" + p)[1..] == p && ("*" + r)[1..] == r;
  }

  /** A return type fits when it is not error, starred or not, and is the type of some parameter up to one star. */
  lemma FitsIs(r: string, paramTypes: seq<string>)
    ensures Fits(r, paramTypes) <==>
            r != "error" && r != "*error" && exists p :: p in paramTypes && SameType(r, p)
  {
    forall p ensures Normal(r) == Normal(p) <==> SameType(r, p) { SameNormal(r, p); }
    NormalIs(r);
    assert "*" + "error" == "*error" && "*error"[1..] == "error";
  }

  /** t is the first return type that fits. */
  ghost predicate Overlap(returnTypes: seq<string>, paramTypes: seq<string>, t: string) {
    exists i :: 0 <= i < |returnTypes| && returnTypes[i] == t && FirstFit(returnTypes, paramTypes, i)
  }

  ghost predicate FirstFit(returnTypes: seq<string>, paramTypes: seq<string>, i: int)
    requires 0 <= i < |returnTypes|
  {
    Fits(returnTypes[i], paramTypes) && forall j :: 0 <= j < i ==> !Fits(returnTypes[j], paramTypes)
  }

  method TypesOverlap(returnTypes: seq<string>, paramTypes: seq<string>) returns (t: string, found: bool)
    ensures found <==> exists r :: r in returnTypes && Fits(r, paramTypes)
    ensures found ==> Overlap(returnTypes, paramTypes, t)
    ensures !found ==> t == ""
  {
    if |returnTypes| == 0 || |paramTypes| == 0 {
      return "", false;
    }
    var paramSet: set<string> := {};
    for i := 0 to |paramTypes|
      invariant forall n :: n in paramSet <==> exists p :: p in paramTypes[..i] && Normal(p) == n
    {
      paramSet := paramSet + {Normal(paramTypes[i])};
      assert paramTypes[..i + 1] == paramTypes[..i] + [paramTypes[i]];
    }
    assert paramTypes[..|paramTypes|] == paramTypes;
    for i := 0 to |returnTypes|
      invariant forall j :: 0 <= j < i ==> !Fits(returnTypes[j], paramTypes)
    {
      var r := returnTypes[i];
      var nr := Normal(r);
      if nr != "error" && nr in paramSet {
        assert FirstFit(returnTypes, paramTypes, i);
        return r, true;
      }
    }
    return "", false;
  }

  lemma OverlapIsOne(returnTypes: seq<string>, paramTypes: seq<string>, t: string, u: string)
    requires Overlap(returnTypes, paramTypes, t) && Overlap(returnTypes, paramTypes, u)
    ensures t == u
  {
    var i :| 0 <= i < |returnTypes| && returnTypes[i] == t && FirstFit(returnTypes, paramTypes, i);
    var j :| 0 <= j < |returnTypes| && returnTypes[j] == u && FirstFit(returnTypes, paramTypes, j);
    assert i == j;
  }

  // ----- Adjacency and signatures -----

  ghost function CallsFrom(edges: seq<CallEdge>, n: string): seq<CallEdge> {
    if edges == [] then []
    else
      var e := edges[|edges| - 1];
      CallsFrom(edges[..|edges| - 1], n) + if e.kind == "call" && e.src == n then [e] else []
  }

  /** The types on the last typed call edge into n. */
  ghost function SigOf(edges: seq<CallEdge>, n: string): Sig {
    if edges == [] then NO_SIG
    else
      var e := edges[|edges| - 1];
      if e.kind == "call" && e.dst == n && (|e.paramTypes| > 0 || |e.returnTypes| > 0)
      then Sig(e.paramTypes, e.returnTypes)
      else SigOf(edges[..|edges| - 1], n)
  }

  ghost predicate CallsAt(edges: seq<CallEdge>, adj: map<string, seq<CallEdge>>, n: string) {
    if n in adj then adj[n] == CallsFrom(edges, n) != [] else CallsFrom(edges, n) == []
  }

  ghost predicate SigAt(edges: seq<CallEdge>, sigs: map<string, Sig>, n: string) {
    SigOf(edges, n) == if n in sigs then sigs[n] else NO_SIG
  }

  ghost predicate Indexed(edges: seq<CallEdge>, adj: map<string, seq<CallEdge>>, sigs: map<string, Sig>) {
    && (forall n :: CallsAt(edges, adj, n))
    && (forall n :: SigAt(edges, sigs, n))
  }

  /** The only call edge from n is the i-th edge. */
  ghost predicate OnlyCall(edges: seq<CallEdge>, n: string, i: int) {
    && 0 <= i < |edges| && edges[i].kind == "call" && edges[i].src == n
    && forall j :: 0 <= j < |edges| && edges[j].kind == "call" && edges[j].src == n ==> j == i
  }

  ghost predicate NoCall(edges: seq<CallEdge>, n: string) {
    forall j :: 0 <= j < |edges| ==> edges[j].kind != "call" || edges[j].src != n
  }

  lemma NoCallSnoc(edges: seq<CallEdge>, e: CallEdge, n: string)
    ensures NoCall(edges + [e], n) <==> NoCall(edges, n) && (e.kind != "call" || e.src != n)
  {
    var all := edges + [e];
    assert all[|edges|] == e && forall j :: 0 <= j < |edges| ==> all[j] == edges[j];
  }

  lemma {:induction false} NoCallFrom(edges: seq<CallEdge>, n: string)
    ensures CallsFrom(edges, n) == [] <==> NoCall(edges, n)
  {
    if edges != [] {
      var rest, e := edges[..|edges| - 1], edges[|edges| - 1];
      NoCallFrom(rest, n);
      NoCallSnoc(rest, e, n);
      assert edges == rest + [e];
    }
  }

  lemma OnlyCallSnoc(edges: seq<CallEdge>, e: CallEdge, n: string, i: int)
    ensures OnlyCall(edges + [e], n, i) <==>
            if e.kind == "call" && e.src == n then i == |edges| && NoCall(edges, n) else OnlyCall(edges, n, i)
  {
    var all := edges + [e];
    assert all[|edges|] == e && forall j :: 0 <= j < |edges| ==> all[j] == edges[j];
  }

  /** A single call from n to b is listed exactly when it is the only call edge from n. */
  lemma {:induction false} OneCallFrom(edges: seq<CallEdge>, n: string, b: string)
    ensures |CallsFrom(edges, n)| == 1 && CallsFrom(edges, n)[0].dst == b <==>
            exists i :: OnlyCall(edges, n, i) && edges[i].dst == b
  {
    if edges != [] {
      var rest, e := edges[..|edges| - 1], edges[|edges| - 1];
      OneCallFrom(rest, n, b);
      NoCallFrom(rest, n);
      assert edges == rest + [e];
      forall i ensures OnlyCall(edges, n, i) <==>
        if e.kind == "call" && e.src == n then i == |rest| && NoCall(rest, n) else OnlyCall(rest, n, i)
      {
        OnlyCallSnoc(rest, e, n, i);
      }
      OneMoreCall(rest, e, n, b);
    }
  }

  lemma OneMoreCall(edges: seq<CallEdge>, e: CallEdge, n: string, b: string)
    ensures (|CallsFrom(edges + [e], n)| == 1 && CallsFrom(edges + [e], n)[0].dst == b) <==>
            if e.kind == "call" && e.src == n then CallsFrom(edges, n) == [] && e.dst == b
            else |CallsFrom(edges, n)| == 1 && CallsFrom(edges, n)[0].dst == b
  {
    assert (edges + [e])[..|edges|] == edges;
  }

  /** The i-th edge is a call to n with types. */
  ghost predicate TypedCall(edges: seq<CallEdge>, n: string, i: int) {
    0 <= i < |edges| && IsTyped(edges[i], n)
  }

  ghost predicate IsTyped(e: CallEdge, n: string) {
    e.kind == "call" && e.dst == n && (e.paramTypes != [] || e.returnTypes != [])
  }

  /** The signature of n is on the last typed call to it, and empty without one. */
  lemma {:induction false} SigIs(edges: seq<CallEdge>, n: string)
    ensures (forall i :: !TypedCall(edges, n, i)) ==> SigOf(edges, n) == Sig([], [])
    ensures forall i :: TypedCall(edges, n, i) && (forall j :: i < j ==> !TypedCall(edges, n, j)) ==>
              SigOf(edges, n) == Sig(edges[i].paramTypes, edges[i].returnTypes)
  {
    if edges != [] {
      var rest, e := edges[..|edges| - 1], edges[|edges| - 1];
      SigIs(rest, n);
      assert edges == rest + [e];
      forall i ensures TypedCall(edges, n, i) <==>
        if i == |rest| then IsTyped(e, n) else TypedCall(rest, n, i)
      {
        TypedSnoc(rest, e, n, i);
      }
      SigSnoc(rest, e, n);
      assert TypedCall(edges, n, |rest|) || !TypedCall(edges, n, |rest|);
    }
  }

  lemma TypedSnoc(edges: seq<CallEdge>, e: CallEdge, n: string, i: int)
    ensures TypedCall(edges + [e], n, i) <==> if i == |edges| then IsTyped(e, n) else TypedCall(edges, n, i)
  {
    assert (edges + [e])[|edges|] == e && forall j :: 0 <= j < |edges| ==> (edges + [e])[j] == edges[j];
  }

  lemma SigSnoc(edges: seq<CallEdge>, e: CallEdge, n: string)
    ensures SigOf(edges + [e], n) == if IsTyped(e, n) then Sig(e.paramTypes, e.returnTypes) else SigOf(edges, n)
  {
    assert (edges + [e])[..|edges|] == edges;
  }

  lemma CallsStep(edges: seq<CallEdge>, e: CallEdge, adj: map<string, seq<CallEdge>>, n: string)
    requires CallsAt(edges, adj, n)
    ensures if e.kind == "call" then
            CallsAt(edges + [e], adj[e.src := (if e.src in adj then adj[e.src] else []) + [e]], n)
            else CallsAt(edges + [e], adj, n)
  {
    assert (edges + [e])[..|edges|] == edges;
  }

  lemma SigStep(edges: seq<CallEdge>, e: CallEdge, sigs: map<string, Sig>, n: string)
    requires SigAt(edges, sigs, n)
    ensures if e.kind == "call" && (|e.paramTypes| > 0 || |e.returnTypes| > 0)
            then SigAt(edges + [e], sigs[e.dst := Sig(e.paramTypes, e.returnTypes)], n)
            else SigAt(edges + [e], sigs, n)
  {
    assert (edges + [e])[..|edges|] == edges;
  }

  lemma IndexStep(edges: seq<CallEdge>, after: seq<CallEdge>, e: CallEdge, adj: map<string, seq<CallEdge>>,
                  sigs: map<string, Sig>, adj1: map<string, seq<CallEdge>>, sigs1: map<string, Sig>)
    requires Indexed(edges, adj, sigs) && after == edges + [e]
    requires adj1 == if e.kind == "call" then adj[e.src := (if e.src in adj then adj[e.src] else []) + [e]] else adj
    requires sigs1 == if e.kind == "call" && (|e.paramTypes| > 0 || |e.returnTypes| > 0)
                      then sigs[e.dst := Sig(e.paramTypes, e.returnTypes)] else sigs
    ensures Indexed(after, adj1, sigs1)
  {
    forall n ensures CallsAt(after, adj1, n) { CallsStep(edges, e, adj, n); }
    forall n ensures SigAt(after, sigs1, n) { SigStep(edges, e, sigs, n); }
  }

  method Index(edges: seq<CallEdge>) returns (adj: map<string, seq<CallEdge>>, sigs: map<string, Sig>)
    ensures Indexed(edges, adj, sigs)
  {
    adj, sigs := map[], map[];
    for i := 0 to |edges|
      invariant Indexed(edges[..i], adj, sigs)
    {
      var e := edges[i];
      ghost var adj0, sigs0 := adj, sigs;
      if e.kind == "call" {
        adj := adj[e.src := (if e.src in adj then adj[e.src] else []) + [e]];
        if |e.paramTypes| > 0 || |e.returnTypes| > 0 {
          sigs := sigs[e.dst := Sig(e.paramTypes, e.returnTypes)];
        }
      }
      assert edges[..i + 1] == edges[..i] + [e];
      IndexStep(edges[..i], edges[..i + 1], e, adj0, sigs0, adj, sigs);
    }
    assert edges[..|edges|] == edges;
  }

  lemma {:induction false} CallsAreEdges(edges: seq<CallEdge>, n: string, e: CallEdge)
    ensures e in CallsFrom(edges, n) <==> e in edges && e.kind == "call" && e.src == n
  {
    if edges != [] {
      assert edges == edges[..|edges| - 1] + [edges[|edges| - 1]];
      CallsAreEdges(edges[..|edges| - 1], n, e);
    }
  }

  // ----- Chains -----

  /** The only outgoing call of a goes to b, and t is the first type that a returns and b takes. */
  ghost predicate Joined(edges: seq<CallEdge>, a: string, b: string, t: string) {
    && |CallsFrom(edges, a)| == 1 && CallsFrom(edges, a)[0].dst == b
    && Overlap(SigOf(edges, a).returnTypes, SigOf(edges, b).paramTypes, t)
  }

  ghost predicate HasNext(edges: seq<CallEdge>, a: string) {
    exists b, t :: Joined(edges, a, b, t)
  }

  lemma NextIsOne(edges: seq<CallEdge>, a: string, b: string, t: string, c: string, u: string)
    requires Joined(edges, a, b, t) && Joined(edges, a, c, u)
    ensures b == c && t == u
  {
    OverlapIsOne(SigOf(edges, a).returnTypes, SigOf(edges, b).paramTypes, t, u);
  }

  ghost function Names(steps: seq<Step>): set<string> {
    set s | s in steps :: s.fqn
  }

  /** Steps without repetition, each joined to the next by the type in between. */
  ghost predicate Linked(edges: seq<CallEdge>, steps: seq<Step>, typeChain: seq<string>) {
    && |steps| <= |typeChain| + 1
    && (forall i, j :: 0 <= i < j < |steps| ==> steps[i].fqn != steps[j].fqn)
    && (forall i :: 0 <= i < |steps| ==> steps[i].sig == SigOf(edges, steps[i].fqn))
    && (forall i, j :: 0 <= i && j == i + 1 && j < |steps| ==> Joined(edges, steps[i].fqn, steps[j].fqn, typeChain[i]))
  }

  /** How a chain ends: with one type more than joins, before a function already visited,
      or with no next function to join. */
  ghost predicate Ends(edges: seq<CallEdge>, p: Pipeline, visited: set<string>)
    requires p.steps != []
  {
    var last := p.steps[|p.steps| - 1].fqn;
    if |p.typeChain| == |p.steps| then
      exists next :: next in visited && Joined(edges, last, next, p.typeChain[|p.steps| - 1])
    else
      |p.typeChain| == |p.steps| - 1 && !HasNext(edges, last)
  }

  ghost predicate IsChain(edges: seq<CallEdge>, start: string, p: Pipeline, visited: set<string>) {
    p.steps != [] && p.steps[0].fqn == start && Linked(edges, p.steps, p.typeChain) && Ends(edges, p, visited)
  }

  /** One turn of the loop of BuildChain, after current was found unvisited. */
  method Advance(ghost edges: seq<CallEdge>, current: string, adj: map<string, seq<CallEdge>>, sigs: map<string, Sig>)
    returns (sig: Sig, next: string, t: string, more: bool)
    requires Indexed(edges, adj, sigs)
    ensures sig == SigOf(edges, current)
    ensures more ==> Joined(edges, current, next, t) && exists e :: e in edges && e.dst == next
    ensures !more ==> !HasNext(edges, current)
  {
    assert SigAt(edges, sigs, current) && CallsAt(edges, adj, current);
    sig := if current in sigs then sigs[current] else NO_SIG;
    next, t, more := "", "", false;
    var outs := if current in adj then adj[current] else [];
    if |outs| != 1 {
      return;
    }
    var target := outs[0].dst;
    CallsAreEdges(edges, current, outs[0]);
    var nextSig := if target in sigs then sigs[target] else NO_SIG;
    assert SigAt(edges, sigs, target);
    next := target;
    t, more := TypesOverlap(sig.returnTypes, nextSig.paramTypes);
  }

  ghost function Targets(edges: seq<CallEdge>): set<string> {
    set e | e in edges :: e.dst
  }

  /** What the loop keeps: the steps so far, and where it goes next. */
  ghost predicate Walking(edges: seq<CallEdge>, start: string, steps: seq<Step>, typeChain: seq<string>,
                          current: string) {
    && |steps| == |typeChain| && Linked(edges, steps, typeChain)
    && (if steps == [] then current == start
        else steps[0].fqn == start && Joined(edges, steps[|steps| - 1].fqn, current, typeChain[|steps| - 1]))
  }

  lemma NamesSnoc(steps: seq<Step>, s: Step)
    ensures Names(steps + [s]) == Names(steps) + {s.fqn}
  {
    forall x ensures x in steps + [s] <==> x in steps || x == s {}
  }

  lemma LinkedSnoc(edges: seq<CallEdge>, steps: seq<Step>, typeChain: seq<string>, s: Step)
    requires |steps| == |typeChain| && Linked(edges, steps, typeChain)
    requires s.sig == SigOf(edges, s.fqn) && forall i :: 0 <= i < |steps| ==> steps[i].fqn != s.fqn
    requires steps != [] ==> Joined(edges, steps[|steps| - 1].fqn, s.fqn, typeChain[|steps| - 1])
    ensures Linked(edges, steps + [s], typeChain)
  {
    var after := steps + [s];
    assert after[|steps|] == s && forall i :: 0 <= i < |steps| ==> after[i] == steps[i];
  }

  lemma WalkOn(edges: seq<CallEdge>, start: string, steps: seq<Step>, typeChain: seq<string>, current: string)
    requires Walking(edges, start, steps, typeChain, current) && current !in Names(steps)
    ensures Linked(edges, steps + [Step(current, SigOf(edges, current))], typeChain)
    ensures Names(steps + [Step(current, SigOf(edges, current))]) == Names(steps) + {current}
  {
    forall i | 0 <= i < |steps| ensures steps[i].fqn != current {
      assert steps[i] in steps;
    }
    LinkedSnoc(edges, steps, typeChain, Step(current, SigOf(edges, current)));
    NamesSnoc(steps, Step(current, SigOf(edges, current)));
  }

  lemma WalkOnType(edges: seq<CallEdge>, steps: seq<Step>, typeChain: seq<string>, t: string)
    requires Linked(edges, steps, typeChain) && |steps| == |typeChain| + 1
    ensures Linked(edges, steps, typeChain + [t])
  {
  }

  method BuildChain(ghost edges: seq<CallEdge>, start: string, adj: map<string, seq<CallEdge>>, sigs: map<string, Sig>,
                    visited0: set<string>)
    returns (p: Pipeline, visited: set<string>)
    requires Indexed(edges, adj, sigs) && start !in visited0
    ensures IsChain(edges, start, p, visited)
    ensures Names(p.steps) !! visited0 && visited == visited0 + Names(p.steps)
  {
    visited := visited0;
    var steps: seq<Step>, typeChain := [], [];
    var current := start;
    ghost var universe := Targets(edges) + {start};
    while current !in visited
      invariant Walking(edges, start, steps, typeChain, current) && (steps == [] ==> visited == visited0)
      invariant Names(steps) !! visited0 && visited == visited0 + Names(steps)
      invariant current in universe
      decreases universe - visited
    {
      WalkOn(edges, start, steps, typeChain, current);
      visited := visited + {current};
      var sig, next, t, more := Advance(edges, current, adj, sigs);
      steps := steps + [Step(current, sig)];
      if !more {
        p := Pipeline(steps, typeChain);
        return;
      }
      WalkOnType(edges, steps, typeChain, t);
      typeChain := typeChain + [t];
      current := next;
    }
    p := Pipeline(steps, typeChain);
  }

  // ----- Detection -----

  ghost predicate Disjoint(chains: seq<Pipeline>) {
    forall i, j :: 0 <= i < j < |chains| ==> Names(chains[i].steps) !! Names(chains[j].steps)
  }

  ghost predicate ChainOf(edges: seq<CallEdge>, p: Pipeline, visited: set<string>) {
    p.steps != [] && IsChain(edges, p.steps[0].fqn, p, visited)
  }

  ghost predicate Visited(chains: seq<Pipeline>, n: string) {
    exists p :: p in chains && n in Names(p.steps)
  }

  /** All chains walked so far: disjoint, and together exactly the visited functions. */
  ghost predicate Walked(edges: seq<CallEdge>, chains: seq<Pipeline>, visited: set<string>) {
    && Disjoint(chains)
    && (forall p :: p in chains ==> ChainOf(edges, p, visited))
    && (forall n :: n in visited <==> Visited(chains, n))
  }

  lemma ChainsGrow(edges: seq<CallEdge>, chains: seq<Pipeline>, visited: set<string>, p: Pipeline,
                   visited1: set<string>)
    requires Walked(edges, chains, visited) && visited <= visited1
    requires ChainOf(edges, p, visited1) && Names(p.steps) !! visited && visited1 == visited + Names(p.steps)
    ensures Walked(edges, chains + [p], visited1)
  {
    var after := chains + [p];
    forall i | 0 <= i < |chains| ensures Names(chains[i].steps) !! Names(p.steps) {
      assert chains[i] in chains;
      forall n | n in Names(chains[i].steps) ensures n in visited {
        assert Visited(chains, n);
      }
    }
    forall q | q in chains ensures ChainOf(edges, q, visited1) {
      assert ChainOf(edges, q, visited);
    }
    forall n ensures Visited(after, n) <==> Visited(chains, n) || n in Names(p.steps) {
      if Visited(chains, n) {
        var q :| q in chains && n in Names(q.steps);
        assert q in after;
      }
      assert p in after;
    }
  }

  /** The chains of at least the minimum length among all that were walked; every caller is in one of those.
      The roots may be taken in any order. */
  method DetectPipelines(edges: seq<CallEdge>, minLength0: int)
    returns (pipelines: seq<Pipeline>, ghost walked: seq<Pipeline>, ghost visited: set<string>)
    ensures Walked(edges, walked, visited)
    ensures forall e :: e in edges && e.kind == "call" ==> e.src in visited
    ensures Disjoint(pipelines)
    ensures forall p :: p in pipelines <==>
      p in walked && |p.steps| >= if minLength0 <= 0 then 3 else minLength0
  {
    pipelines, walked, visited := [], [], {};
    if |edges| == 0 {
      return;
    }
    var minLength := if minLength0 <= 0 then DEFAULT_MIN_LENGTH else minLength0;
    var adj, sigs := Index(edges);
    var roots := adj.Keys;
    var seen: set<string> := {};
    while roots != {}
      invariant visited == seen && Walked(edges, walked, seen)
      invariant roots <= adj.Keys && adj.Keys - roots <= seen
      invariant Kept(walked, pipelines, minLength)
      decreases roots
    {
      var start :| start in roots;
      roots := roots - {start};
      if start !in seen {
        var chain, seen1 := BuildChain(edges, start, adj, sigs, seen);
        ChainsGrow(edges, walked, seen, chain, seen1);
        KeptGrows(walked, pipelines, minLength, chain);
        walked := walked + [chain];
        seen := seen1;
        visited := seen;
        if |chain.steps| >= minLength {
          pipelines := pipelines + [chain];
        }
      }
    }
    forall e | e in edges && e.kind == "call" ensures e.src in visited {
      CallsAreEdges(edges, e.src, e);
      assert CallsAt(edges, adj, e.src);
    }
    KeptDisjoint(walked, pipelines, minLength);
  }

  /** pipelines is the subsequence of the long enough chains. */
  ghost predicate Kept(walked: seq<Pipeline>, pipelines: seq<Pipeline>, minLength: int) {
    pipelines == Long(walked, minLength)
  }

  ghost function Long(walked: seq<Pipeline>, minLength: int): seq<Pipeline> {
    if walked == [] then []
    else
      var p := walked[|walked| - 1];
      Long(walked[..|walked| - 1], minLength) + if |p.steps| >= minLength then [p] else []
  }

  lemma KeptGrows(walked: seq<Pipeline>, pipelines: seq<Pipeline>, minLength: int, p: Pipeline)
    requires Kept(walked, pipelines, minLength)
    ensures Kept(walked + [p], if |p.steps| >= minLength then pipelines + [p] else pipelines, minLength)
  {
    assert (walked + [p])[..|walked|] == walked;
  }

  lemma {:induction false} KeptDisjoint(walked: seq<Pipeline>, pipelines: seq<Pipeline>, minLength: int)
    requires Kept(walked, pipelines, minLength) && Disjoint(walked)
    ensures Disjoint(pipelines)
    ensures forall p :: p in pipelines <==> p in walked && |p.steps| >= minLength
  {
    if walked != [] {
      var rest, p := walked[..|walked| - 1], walked[|walked| - 1];
      assert walked == rest + [p];
      KeptDisjoint(rest, Long(rest, minLength), minLength);
      forall q | q in rest ensures Names(q.steps) !! Names(p.steps) {
        var i :| 0 <= i < |rest| && rest[i] == q;
        assert walked[i] == q;
      }
    }
  }
}
