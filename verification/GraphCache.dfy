/** The shared symbol-graph cache and the per-request overlay (engine/protocol.go). */
module GraphCache {
  import opened Options

  datatype Symbol = Symbol(pkg: string, name: string, file: string, line: int)

  datatype SymbolEdge = SymbolEdge(source: string, target: string, kind: string, file: string, line: int,
                                   paramTypes: seq<string>, returnTypes: seq<string>, args: seq<string>,
                                   weight: real, layer: string)

  datatype CallEdge = CallEdge(callerPkg: string, caller: string, calleePkg: string, callee: string, kind: string,
                               file: string, line: int, paramTypes: seq<string>, returnTypes: seq<string>,
                               args: seq<string>, confidence: real)

  datatype CallGraph = CallGraph(nodes: seq<Symbol>, edges: seq<CallEdge>)

  /** What a reader of a symbol graph sees. */
  datatype View = View(nodes: seq<Symbol>, edges: seq<SymbolEdge>, focusEntry: string, entryScoped: bool,
                       qualityTier: string, cgWinner: string, lspMs: int)

  // ----- The overlay on values -----

  function NodeKey(n: Symbol): string {
    n.pkg + "." + n.name
  }

  function EdgeKey(e: SymbolEdge): string {
    e.source + "\U{2192}" + e.target + "|" + e.kind
  }

  /** The symbol edge of an LSP call edge. */
  function Lifted(e: CallEdge): SymbolEdge {
    SymbolEdge(e.callerPkg + "." + e.caller, e.calleePkg + "." + e.callee, if e.kind == "" then "call" else e.kind,
      e.file, e.line, e.paramTypes, e.returnTypes, e.args, e.confidence, "lsp")
  }

  function LiftedAll(edges: seq<CallEdge>): seq<SymbolEdge> {
    seq(|edges|, i requires 0 <= i < |edges| => Lifted(edges[i]))
  }

  predicate HasKey<T>(items: seq<T>, key: T -> string, k: string) {
    exists i :: 0 <= i < |items| && key(items[i]) == k
  }

  /** items followed by those of extra whose key is new, in order. */
  function Merged<T>(items: seq<T>, extra: seq<T>, key: T -> string): seq<T> {
    if extra == [] then items
    else
      var done, x := Merged(items, extra[..|extra| - 1], key), extra[|extra| - 1];
      if HasKey(done, key, key(x)) then done else done + [x]
  }

  function Overlaid(v: View, cg: CallGraph): View {
    v.(nodes := Merged(v.nodes, cg.nodes, NodeKey), edges := Merged(v.edges, LiftedAll(cg.edges), EdgeKey))
  }

  /** The base is a prefix, every key of extra is covered, and no added item repeats a key. */
  lemma {:induction false} MergedExtends<T>(items: seq<T>, extra: seq<T>, key: T -> string)
    ensures items <= Merged(items, extra, key)
    ensures forall x :: x in extra ==> HasKey(Merged(items, extra, key), key, key(x))
    ensures forall i, j :: 0 <= i < j < |Merged(items, extra, key)| && |items| <= j ==>
              key(Merged(items, extra, key)[i]) != key(Merged(items, extra, key)[j])
  {
    if extra != [] {
      var n := |extra| - 1;
      var done, x := Merged(items, extra[..n], key), extra[n];
      MergedExtends(items, extra[..n], key);
      var all := Merged(items, extra, key);
      forall y | y in extra ensures HasKey(all, key, key(y)) {
        if y in extra[..n] {
          var i :| 0 <= i < |done| && key(done[i]) == key(y);
          assert all[i] == done[i];
        } else if !HasKey(done, key, key(x)) {
          assert all[|done|] == y;
        }
      }
    }
  }

  lemma {:induction false} MergedCovered<T>(items: seq<T>, extra: seq<T>, key: T -> string)
    requires forall x :: x in extra ==> HasKey(items, key, key(x))
    ensures Merged(items, extra, key) == items
  {
    if extra != [] {
      MergedCovered(items, extra[..|extra| - 1], key);
    }
  }

  /** Overlaying keeps the base as a prefix, adds no duplicate key, and a second time changes nothing. */
  lemma OverlayIdempotent(v: View, cg: CallGraph)
    ensures v.nodes <= Overlaid(v, cg).nodes && v.edges <= Overlaid(v, cg).edges
    ensures Overlaid(Overlaid(v, cg), cg) == Overlaid(v, cg)
  {
    MergedExtends(v.nodes, cg.nodes, NodeKey);
    MergedExtends(v.edges, LiftedAll(cg.edges), EdgeKey);
    MergedCovered(Overlaid(v, cg).nodes, cg.nodes, NodeKey);
    MergedCovered(Overlaid(v, cg).edges, LiftedAll(cg.edges), EdgeKey);
  }

  // ----- What an overlay adds, field by field -----

  /** The node's package-qualified name. */
  ghost predicate Named(n: Symbol, name: string) {
    n.pkg + "." + n.name == name
  }

  /** e is a call from the caller of c to its callee, of the same kind. */
  ghost predicate SameCall(e: SymbolEdge, c: CallEdge) {
    && e.source == c.callerPkg + "." + c.caller && e.target == c.calleePkg + "." + c.callee
    && (c.kind != "" ==> e.kind == c.kind) && (c.kind == "" ==> e.kind == "call")
  }

  /** e is what the overlay makes of the language server's call c. */
  ghost predicate OverlaidCall(e: SymbolEdge, c: CallEdge) {
    && SameCall(e, c) && e.file == c.file && e.line == c.line && e.weight == c.confidence && e.layer == "lsp"
    && e.paramTypes == c.paramTypes && e.returnTypes == c.returnTypes && e.args == c.args
  }

  /** The text by which the overlay compares edges. */
  ghost function CallText(source: string, target: string, kind: string): string {
    source + "\U{2192}" + target + "|" + kind
  }

  /** An added item is the first of extra with its key. */
  lemma {:induction false} MergedFrom<T>(items: seq<T>, extra: seq<T>, key: T -> string, k: nat) returns (i: nat)
    requires |items| <= k < |Merged(items, extra, key)|
    ensures i < |extra| && Merged(items, extra, key)[k] == extra[i]
    ensures forall j :: 0 <= j < i ==> key(extra[j]) != key(extra[i])
  {
    var n := |extra| - 1;
    var done := Merged(items, extra[..n], key);
    if k < |done| {
      i := MergedFrom(items, extra[..n], key, k);
      forall j | 0 <= j < i ensures key(extra[j]) != key(extra[i]) {
        assert extra[..n][j] == extra[j];
      }
    } else {
      i := n;
      assert !HasKey(done, key, key(extra[n]));
      MergedExtends(items, extra[..n], key);
      forall j | 0 <= j < n ensures key(extra[j]) != key(extra[n]) {
        assert extra[..n][j] in extra[..n];
        assert HasKey(done, key, key(extra[..n][j]));
      }
    }
  }

  /** The overlay keeps the nodes and adds those of the language server whose package-qualified name is new, the first
      of each name. */
  lemma OverlayNodes(v: View, cg: CallGraph)
    ensures var nodes := Overlaid(v, cg).nodes;
      && v.nodes <= nodes
      && (forall k :: |v.nodes| <= k < |nodes| ==> FromNodes(nodes[k], cg.nodes))
      && (forall j, k :: 0 <= j < k && |v.nodes| <= k < |nodes| ==>
            !Named(nodes[j], nodes[k].pkg + "." + nodes[k].name))
      && (forall n :: n in cg.nodes ==> exists k :: 0 <= k < |nodes| && Named(nodes[k], n.pkg + "." + n.name))
  {
    MergedExtends(v.nodes, cg.nodes, NodeKey);
    var nodes := Overlaid(v, cg).nodes;
    forall k | |v.nodes| <= k < |nodes| ensures FromNodes(nodes[k], cg.nodes) {
      var i := MergedFrom(v.nodes, cg.nodes, NodeKey, k);
      assert FirstNode(nodes[k], cg.nodes, i);
    }
    forall j, k | 0 <= j < k && |v.nodes| <= k < |nodes|
      ensures !Named(nodes[j], nodes[k].pkg + "." + nodes[k].name)
    {
      assert NodeKey(nodes[j]) != NodeKey(nodes[k]);
    }
    forall n | n in cg.nodes ensures exists k :: 0 <= k < |nodes| && Named(nodes[k], n.pkg + "." + n.name) {
      var k :| 0 <= k < |nodes| && NodeKey(nodes[k]) == NodeKey(n);
      assert Named(nodes[k], n.pkg + "." + n.name);
    }
  }

  ghost predicate FirstNode(n: Symbol, nodes: seq<Symbol>, i: int) {
    0 <= i < |nodes| && nodes[i] == n && forall j :: 0 <= j < i ==> !Named(nodes[j], n.pkg + "." + n.name)
  }

  ghost predicate FromNodes(n: Symbol, nodes: seq<Symbol>) {
    exists i :: FirstNode(n, nodes, i)
  }

  /** e is what the overlay makes of the i-th call, the first of its kind between its two ends. */
  ghost predicate FirstCall(e: SymbolEdge, calls: seq<CallEdge>, i: int) {
    0 <= i < |calls| && OverlaidCall(e, calls[i]) && forall j :: 0 <= j < i ==> !SameCall(e, calls[j])
  }

  ghost predicate FromCalls(e: SymbolEdge, calls: seq<CallEdge>) {
    exists i :: FirstCall(e, calls, i)
  }

  lemma LiftedCall(c: CallEdge)
    ensures OverlaidCall(Lifted(c), c)
  {
  }

  lemma SameLifted(e: SymbolEdge, c: CallEdge)
    requires SameCall(e, c)
    ensures EdgeKey(e) == EdgeKey(Lifted(c))
  {
  }

  lemma AddedCall(v: View, cg: CallGraph, k: nat)
    requires |v.edges| <= k < |Overlaid(v, cg).edges|
    ensures FromCalls(Overlaid(v, cg).edges[k], cg.edges)
  {
    var all := LiftedAll(cg.edges);
    var i := MergedFrom(v.edges, all, EdgeKey, k);
    var e := Overlaid(v, cg).edges[k];
    LiftedCall(cg.edges[i]);
    forall j | 0 <= j < i ensures !SameCall(e, cg.edges[j]) {
      assert EdgeKey(all[j]) != EdgeKey(all[i]) && all[j] == Lifted(cg.edges[j]);
      if SameCall(e, cg.edges[j]) { SameLifted(e, cg.edges[j]); }
    }
    assert FirstCall(e, cg.edges, i);
  }

  /** The overlay keeps the edges and adds calls of the language server only, no two for the same call. */
  lemma OverlayEdges(v: View, cg: CallGraph)
    ensures var edges := Overlaid(v, cg).edges;
      && v.edges <= edges
      && (forall k :: |v.edges| <= k < |edges| ==> FromCalls(edges[k], cg.edges))
      && (forall j, k, c :: 0 <= j < k && |v.edges| <= k < |edges| && SameCall(edges[k], c) ==> !SameCall(edges[j], c))
  {
    MergedExtends(v.edges, LiftedAll(cg.edges), EdgeKey);
    var edges := Overlaid(v, cg).edges;
    forall k | |v.edges| <= k < |edges| ensures FromCalls(edges[k], cg.edges) {
      AddedCall(v, cg, k);
    }
    forall j, k, c | 0 <= j < k && |v.edges| <= k < |edges| && SameCall(edges[k], c) ensures !SameCall(edges[j], c) {
      assert EdgeKey(edges[j]) != EdgeKey(edges[k]);
    }
  }

  ghost predicate HasCall(edges: seq<SymbolEdge>, c: CallEdge) {
    exists k :: 0 <= k < |edges| && SameCall(edges[k], c)
  }

  /** No arrow in either name, and no bar in the callee and the kind. */
  ghost predicate PlainCall(c: CallEdge) {
    && '\U{2192}' !in c.callerPkg + "." + c.caller && '\U{2192}' !in c.calleePkg + "." + c.callee
    && '|' !in c.calleePkg + "." + c.callee && '|' !in c.kind
  }

  /** Whatever it is overlaid on and together with, the call is in the result. */
  ghost predicate NeverDropped(c: CallEdge) {
    forall v: View, cg: CallGraph {:trigger Overlaid(v, cg)} :: c in cg.edges ==> HasCall(Overlaid(v, cg).edges, c)
  }

  lemma TextSplits(a: string, b: string, k: string, a1: string, b1: string, k1: string)
    requires '\U{2192}' !in a && '\U{2192}' !in b && '|' !in b && '|' !in k
    requires CallText(a, b, k) == CallText(a1, b1, k1)
    ensures a == a1 && b == b1 && k == k1
  {
    var w := CallText(a, b, k);
    assert w[|a1|] == '\U{2192}' && w[|a1| + 1 + |b1|] == '|';
    assert |w| == |a| + |b| + |k| + 2 == |a1| + |b1| + |k1| + 2;
    TextChars(a, b, k, |a1|);
    TextChars(a, b, k, |a1| + 1 + |b1|);
    assert a == w[..|a|] && a1 == w[..|a1|];
    assert b == w[|a| + 1..|a| + 1 + |b|] && b1 == w[|a1| + 1..|a1| + 1 + |b1|];
    assert k == w[|a| + |b| + 2..] && k1 == w[|a1| + |b1| + 2..];
  }

  lemma TextChars(a: string, b: string, k: string, i: nat)
    requires '\U{2192}' !in a && '\U{2192}' !in b && '|' !in b && '|' !in k
    requires i < |CallText(a, b, k)|
    ensures CallText(a, b, k)[i] == '\U{2192}' ==> i == |a| || i > |a| + 1 + |b|
    ensures CallText(a, b, k)[i] == '|' ==> i < |a| || i == |a| + 1 + |b|
  {
    var w := CallText(a, b, k);
    if i < |a| {
      assert w[i] == a[i];
    } else if |a| < i < |a| + 1 + |b| {
      assert w[i] == b[i - |a| - 1];
    } else if i > |a| + 1 + |b| {
      assert w[i] == k[i - |a| - |b| - 2];
    }
  }

  lemma LiftedText(c: CallEdge)
    ensures EdgeKey(Lifted(c)) ==
            CallText(c.callerPkg + "." + c.caller, c.calleePkg + "." + c.callee,
                     if c.kind == "" then "call" else c.kind)
  {
  }

  lemma PlainIsKept(c: CallEdge, v: View, cg: CallGraph)
    requires PlainCall(c) && c in cg.edges
    ensures HasCall(Overlaid(v, cg).edges, c)
  {
    MergedExtends(v.edges, LiftedAll(cg.edges), EdgeKey);
    var edges := Overlaid(v, cg).edges;
    var i :| 0 <= i < |cg.edges| && cg.edges[i] == c;
    assert LiftedAll(cg.edges)[i] in LiftedAll(cg.edges);
    var k :| 0 <= k < |edges| && EdgeKey(edges[k]) == EdgeKey(Lifted(c));
    LiftedText(c);
    assert EdgeKey(edges[k]) == CallText(edges[k].source, edges[k].target, edges[k].kind);
    TextSplits(c.callerPkg + "." + c.caller, c.calleePkg + "." + c.callee, if c.kind == "" then "call" else c.kind,
      edges[k].source, edges[k].target, edges[k].kind);
    assert SameCall(edges[k], c);
  }

  lemma CutAt(s: string, x: char) returns (front: string, back: string)
    requires x in s
    ensures s == front + [x] + back
  {
    var i :| 0 <= i < |s| && s[i] == x;
    front, back := s[..i], s[i + 1..];
  }

  /** Another edge with the same text. */
  lemma SameText(a: string, b: string, k: string) returns (a1: string, b1: string, k1: string)
    requires '\U{2192}' in a || '\U{2192}' in b || '|' in b || '|' in k
    ensures CallText(a1, b1, k1) == CallText(a, b, k) && (a1 != a || b1 != b)
  {
    if '\U{2192}' in a {
      var x, y := CutAt(a, '\U{2192}');
      a1, b1, k1 := x, y + "\U{2192}" + b, k;
      assert x + ['\U{2192}'] + y == x + "\U{2192}" + y;
      assert CallText(a1, b1, k1) == x + "\U{2192}" + y + "\U{2192}" + b + "|" + k;
    } else if '\U{2192}' in b {
      var x, y := CutAt(b, '\U{2192}');
      a1, b1, k1 := a + "\U{2192}" + x, y, k;
      assert CallText(a1, b1, k1) == a + "\U{2192}" + x + "\U{2192}" + y + "|" + k;
    } else if '|' in b {
      var x, y := CutAt(b, '|');
      a1, b1, k1 := a, x, y + "|" + k;
      assert CallText(a1, b1, k1) == a + "\U{2192}" + x + "|" + y + "|" + k;
    } else {
      var x, y := CutAt(k, '|');
      a1, b1, k1 := a, b + "|" + x, y;
      assert CallText(a1, b1, k1) == a + "\U{2192}" + b + "|" + x + "|" + y;
    }
  }

  lemma DroppedBehind(c: CallEdge, e: SymbolEdge)
    requires EdgeKey(e) == EdgeKey(Lifted(c)) && !SameCall(e, c)
    ensures !NeverDropped(c)
  {
    var v, cg := View([], [e], "", false, "ast", "ast", 0), CallGraph([], [c]);
    var extra := LiftedAll(cg.edges);
    assert extra == [Lifted(c)] && extra[..0] == [];
    assert HasKey([e], EdgeKey, EdgeKey(Lifted(c))) by { assert EdgeKey([e][0]) == EdgeKey(Lifted(c)); }
    assert Merged([e], extra[..0], EdgeKey) == [e];
    assert Merged([e], extra, EdgeKey) == [e];
    assert Overlaid(v, cg).edges == [e];
    assert c in cg.edges && !HasCall(Overlaid(v, cg).edges, c);
  }

  /** A call is always in the result exactly when its text cannot be read as that of another edge. */
  lemma CallsAreKept(c: CallEdge)
    ensures NeverDropped(c) <==> PlainCall(c)
  {
    if PlainCall(c) {
      forall v: View, cg: CallGraph | c in cg.edges ensures HasCall(Overlaid(v, cg).edges, c) {
        PlainIsKept(c, v, cg);
      }
    } else {
      var a, b, k := SameText(c.callerPkg + "." + c.caller, c.calleePkg + "." + c.callee,
                              if c.kind == "" then "call" else c.kind);
      LiftedText(c);
      DroppedBehind(c, SymbolEdge(a, b, k, "", 0, [], [], [], 0.0, ""));
    }
  }

  // ----- Slices: a shared buffer and a length -----

  datatype Slice<T> = Slice(buf: array<T>, len: nat)

  ghost predicate ValidSlice<T>(s: Slice<T>) {
    s.len <= s.buf.Length
  }

  ghost function Items<T>(s: Slice<T>): seq<T>
    requires ValidSlice(s)
    reads s.buf
  {
    s.buf[..s.len]
  }

  /** append: writes into spare capacity in place, or moves to a larger buffer. */
  method Append<T(0)>(s: Slice<T>, x: T) returns (r: Slice<T>)
    requires ValidSlice(s)
    modifies s.buf
    ensures ValidSlice(r) && Items(r) == old(Items(s)) + [x]
    ensures r.buf == s.buf || fresh(r.buf)
  {
    if s.len < s.buf.Length {
      s.buf[s.len] := x;
      r := Slice(s.buf, s.len + 1);
    } else {
      var buf := new T[2 * s.len + 1];
      forall i | 0 <= i < s.len {
        buf[i] := s.buf[i];
      }
      buf[s.len] := x;
      r := Slice(buf, s.len + 1);
      assert buf[..s.len] == s.buf[..s.len];
    }
  }

  method CopySlice<T(0)>(s: Slice<T>) returns (r: Slice<T>)
    requires ValidSlice(s)
    ensures ValidSlice(r) && fresh(r.buf) && Items(r) == Items(s)
  {
    var buf := new T[s.len];
    forall i | 0 <= i < s.len {
      buf[i] := s.buf[i];
    }
    r := Slice(buf, s.len);
    assert buf[..s.len] == s.buf[..s.len];
  }

  class SymbolGraph {
    var nodes: Slice<Symbol>
    var edges: Slice<SymbolEdge>
    var focusEntry: string
    var entryScoped: bool
    var qualityTier: string
    var cgWinner: string
    var lspMs: int

    constructor (nodes: Slice<Symbol>, edges: Slice<SymbolEdge>, focusEntry: string, entryScoped: bool,
                 qualityTier: string, cgWinner: string, lspMs: int)
      requires ValidSlice(nodes) && ValidSlice(edges)
      ensures Valid() && this.nodes == nodes && this.edges == edges
      ensures Value() == View(Items(nodes), Items(edges), focusEntry, entryScoped, qualityTier, cgWinner, lspMs)
    {
      this.nodes, this.edges, this.focusEntry, this.entryScoped := nodes, edges, focusEntry, entryScoped;
      this.qualityTier, this.cgWinner, this.lspMs := qualityTier, cgWinner, lspMs;
    }

    ghost predicate Valid()
      reads this
    {
      ValidSlice(nodes) && ValidSlice(edges)
    }

    /** The object and its storage. */
    ghost function Footprint(): set<object>
      reads this
    {
      {this, nodes.buf, edges.buf}
    }

    ghost function Value(): View
      requires Valid()
      reads this, nodes.buf, edges.buf
    {
      View(Items(nodes), Items(edges), focusEntry, entryScoped, qualityTier, cgWinner, lspMs)
    }
  }

  method CloneSymbolGraph(sg: SymbolGraph) returns (out: SymbolGraph)
    requires sg.Valid()
    ensures out.Valid() && fresh(out.Footprint()) && out.Value() == sg.Value()
  {
    var nodes := CopySlice(sg.nodes);
    var edges := CopySlice(sg.edges);
    out := new SymbolGraph(nodes, edges, sg.focusEntry, sg.entryScoped, sg.qualityTier, sg.cgWinner, sg.lspMs);
  }

  // ----- Phase B on values -----

  /** The graph already carries this focus, so stampFocus hands out the object itself. */
  predicate AlreadyStamped(v: View, entry: string) {
    v.focusEntry == entry && v.entryScoped
  }

  function Stamped(v: View, entry: string): View {
    if entry == "" || AlreadyStamped(v, entry) then v
    else
      v.(focusEntry := entry, entryScoped := true,
         qualityTier := if v.qualityTier == "" then "ast" else v.qualityTier,
         cgWinner := if v.cgWinner == "" then "ast" else v.cgWinner)
  }

  /** allowed: the options, pool, deadline and budget permit the LSP call; lsp is its result, None on error. */
  datatype Request = Request(entry: string, allowed: bool, lsp: Option<CallGraph>, elapsed: int)

  function Enriched(v: View, r: Request): View {
    var out := Stamped(v, r.entry);
    if !r.allowed || r.entry == "" then out
    else
      var timed := out.(lspMs := r.elapsed);
      if r.lsp.None? || r.lsp.value.edges == [] then timed
      else Overlaid(timed, r.lsp.value).(qualityTier := "ast+lsp", cgWinner := "lsp-scoped")
  }

  /** The language server was asked and found calls. */
  ghost predicate FoundCalls(r: Request) {
    r.entry != "" && r.allowed && r.lsp.Some? && |r.lsp.value.edges| > 0
  }

  /** Every field of what a request is answered with. */
  lemma EnrichedFields(v: View, r: Request)
    ensures r.entry == "" ==> Enriched(v, r) == v
    ensures r.entry != "" ==> Enriched(v, r).focusEntry == r.entry && Enriched(v, r).entryScoped
    ensures Enriched(v, r).lspMs == if r.entry != "" && r.allowed then r.elapsed else v.lspMs
    ensures FoundCalls(r) ==> Enriched(v, r).qualityTier == "ast+lsp" && Enriched(v, r).cgWinner == "lsp-scoped"
    ensures FoundCalls(r) ==> Enriched(v, r).nodes == Overlaid(v, r.lsp.value).nodes
    ensures FoundCalls(r) ==> Enriched(v, r).edges == Overlaid(v, r.lsp.value).edges
    ensures !FoundCalls(r) ==> Enriched(v, r).nodes == v.nodes && Enriched(v, r).edges == v.edges
    ensures !FoundCalls(r) && v.qualityTier != "" ==> Enriched(v, r).qualityTier == v.qualityTier
    ensures !FoundCalls(r) && v.cgWinner != "" ==> Enriched(v, r).cgWinner == v.cgWinner
    ensures !FoundCalls(r) && !v.entryScoped && r.entry != "" && v.qualityTier == "" ==>
              Enriched(v, r).qualityTier == "ast"
    ensures !FoundCalls(r) && !v.entryScoped && r.entry != "" && v.cgWinner == "" ==> Enriched(v, r).cgWinner == "ast"
  {
  }

  method StampFocus(sg: SymbolGraph, entry: string) returns (out: SymbolGraph)
    requires sg.Valid()
    ensures out.Valid() && out.Value() == Stamped(sg.Value(), entry)
    ensures if entry == "" || AlreadyStamped(sg.Value(), entry) then out == sg else fresh(out.Footprint())
  {
    if entry == "" {
      return sg;
    }
    if sg.focusEntry == entry && sg.entryScoped {
      return sg;
    }
    out := CloneSymbolGraph(sg);
    out.focusEntry := entry;
    out.entryScoped := true;
    if out.qualityTier == "" {
      out.qualityTier := "ast";
    }
    if out.cgWinner == "" {
      out.cgWinner := "ast";
    }
  }

  ghost predicate KeysOf<T>(items: seq<T>, key: T -> string, seen: set<string>) {
    forall k :: k in seen <==> HasKey(items, key, k)
  }

  lemma KeysSnoc<T>(items: seq<T>, key: T -> string, seen: set<string>, x: T)
    requires KeysOf(items, key, seen)
    ensures KeysOf(items + [x], key, seen + {key(x)})
  {
    forall k ensures k in seen + {key(x)} <==> HasKey(items + [x], key, k) {
      if HasKey(items, key, k) {
        var i :| 0 <= i < |items| && key(items[i]) == k;
        assert key((items + [x])[i]) == k;
      }
      assert key((items + [x])[|items|]) == key(x);
    }
  }

  method CollectKeys<T>(s: Slice<T>, key: T -> string) returns (seen: set<string>)
    requires ValidSlice(s)
    ensures KeysOf(Items(s), key, seen)
  {
    seen := {};
    for i := 0 to s.len
      invariant KeysOf(Items(s)[..i], key, seen)
    {
      KeysSnoc(Items(s)[..i], key, seen, s.buf[i]);
      assert Items(s)[..i + 1] == Items(s)[..i] + [s.buf[i]];
      seen := seen + {key(s.buf[i])};
    }
    assert Items(s)[..s.len] == Items(s);
  }

  /** One of the two loops of overlayCallGraph, over the lifted LSP items. */
  method MergeInto<T(0)>(s: Slice<T>, extra: seq<T>, key: T -> string) returns (r: Slice<T>)
    requires ValidSlice(s)
    modifies s.buf
    ensures ValidSlice(r) && Items(r) == Merged(old(Items(s)), extra, key)
    ensures r.buf == s.buf || fresh(r.buf)
  {
    var seen := CollectKeys(s, key);
    r := s;
    for i := 0 to |extra|
      invariant ValidSlice(r) && (r.buf == s.buf || fresh(r.buf))
      invariant Items(r) == Merged(old(Items(s)), extra[..i], key) && KeysOf(Items(r), key, seen)
    {
      assert extra[..i + 1][..i] == extra[..i];
      if key(extra[i]) !in seen {
        KeysSnoc(Items(r), key, seen, extra[i]);
        seen := seen + {key(extra[i])};
        r := Append(r, extra[i]);
      }
    }
    assert extra[..|extra|] == extra;
  }

  method OverlayCallGraph(sg: SymbolGraph, cg: CallGraph)
    requires sg.Valid()
    modifies sg.Footprint()
    ensures sg.Valid() && sg.Value() == Overlaid(old(sg.Value()), cg)
    ensures fresh(sg.Footprint() - old(sg.Footprint()))
  {
    var nodes := MergeInto(sg.nodes, cg.nodes, NodeKey);
    var edges := MergeInto(sg.edges, LiftedAll(cg.edges), EdgeKey);
    sg.nodes := nodes;
    sg.edges := edges;
  }

  /** enrichScopedLSP: it writes to the base graph only if the base already carries the requested focus. */
  method EnrichScopedLSP(base: SymbolGraph, r: Request) returns (out: SymbolGraph)
    requires base.Valid()
    modifies if r.entry != "" && AlreadyStamped(base.Value(), r.entry) then base.Footprint() else {}
    ensures out.Valid() && out.Value() == Enriched(old(base.Value()), r)
    ensures r.entry == "" || old(AlreadyStamped(base.Value(), r.entry)) ==> out == base
    ensures r.entry != "" && !old(AlreadyStamped(base.Value(), r.entry)) ==> fresh(out.Footprint())
  {
    out := StampFocus(base, r.entry);
    if !r.allowed || r.entry == "" {
      return;
    }
    out.lspMs := r.elapsed;
    if r.lsp.None? || r.lsp.value.edges == [] {
      return;
    }
    OverlayCallGraph(out, r.lsp.value);
    out.qualityTier := "ast+lsp";
    out.cgWinner := "lsp-scoped";
  }

  /** The nodes and edges a completed AST build has merged. */
  datatype Built = Built(nodes: seq<Symbol>, edges: seq<SymbolEdge>)

  function BaseView(built: Built): View {
    View(built.nodes, built.edges, "", false, "ast", "ast", 0)
  }

  method SliceOf<T(0)>(items: seq<T>) returns (r: Slice<T>)
    ensures ValidSlice(r) && fresh(r.buf) && Items(r) == items
  {
    var buf := new T[|items|];
    forall i | 0 <= i < |items| {
      buf[i] := items[i];
    }
    r := Slice(buf, |items|);
  }

  /** The answer from a new build: a graph of the built nodes and edges on the AST tier, unless calls were overlaid. */
  lemma AnswerFromBuild(built: Built, r: Request)
    ensures var v := Enriched(BaseView(built), r);
      && built.nodes <= v.nodes && built.edges <= v.edges
      && (!FoundCalls(r) ==> v.nodes == built.nodes && v.edges == built.edges)
      && (!FoundCalls(r) ==> v.qualityTier == "ast" && v.cgWinner == "ast")
      && v.focusEntry == r.entry && (v.entryScoped <==> r.entry != "")
      && v.lspMs == if r.entry != "" && r.allowed then r.elapsed else 0
  {
    EnrichedFields(BaseView(built), r);
    if FoundCalls(r) {
      OverlayIdempotent(BaseView(built), r.lsp.value);
    }
  }

  method BuildSymbolGraph(built: Built) returns (sg: SymbolGraph)
    ensures sg.Valid() && fresh(sg.Footprint()) && sg.Value() == BaseView(built)
  {
    var nodes := SliceOf(built.nodes);
    var edges := SliceOf(built.edges);
    sg := new SymbolGraph(nodes, edges, "", false, "ast", "ast", 0);
  }

  // ----- The cache -----

  datatype Entry = Entry(sg: SymbolGraph, at: int)

  /** The entries that have not expired. */
  function Unexpired(entries: map<string, Entry>, ttl: int, now: int): map<string, Entry> {
    map k | k in entries && now - entries[k].at <= ttl :: entries[k]
  }

  /** Other than key, after has the unexpired entries of before. */
  ghost predicate Swept(before: map<string, Entry>, after: map<string, Entry>, key: string, ttl: int, now: int) {
    && (forall k :: k != key ==> (k in after <==> k in before && now - before[k].at <= ttl))
    && (forall k :: k != key && k in after ==> after[k] == before[k])
  }

  lemma SweptAnyway(before: map<string, Entry>, loaded: map<string, Entry>, after: map<string, Entry>, key: string,
                    ttl: int, now: int)
    requires loaded == before || loaded == before - {key}
    requires Swept(loaded, after, key, ttl, now)
    ensures Swept(before, after, key, ttl, now)
  {
  }

  class Engine {
    const ttl: int
    var sgEntries: map<string, Entry>
    /** Every graph ever stored, with its storage and its value when it was stored. */
    ghost var stored: map<SymbolGraph, Snapshot>

    constructor (ttl: int)
      ensures Valid() && sgEntries == map[] && stored == map[]
    {
      this.ttl, sgEntries, stored := ttl, map[], map[];
    }

    /** Every stored graph is exactly as it was stored, and carries no focus; the cache holds stored graphs only. */
    ghost predicate Valid()
      reads this, stored.Keys, set g | g in stored.Keys :: g.nodes.buf, set g | g in stored.Keys :: g.edges.buf
    {
      && (forall g :: g in stored.Keys ==> g.Valid() && !g.entryScoped)
      && (forall g :: g in stored.Keys ==> Snapshot(g.Footprint(), g.Value()) == stored[g])
      && (forall k :: k in sgEntries ==> sgEntries[k].sg in stored.Keys)
    }

    /** sgLoad: the unexpired entry, evicting an expired one. */
    method SgLoad(key: string, now: int) returns (sg: SymbolGraph?)
      requires Valid()
      modifies this`sgEntries
      ensures Valid()
      ensures sg == if key in old(sgEntries) && now - old(sgEntries)[key].at <= ttl
              then old(sgEntries)[key].sg else null
      ensures sgEntries == if key in old(sgEntries) && sg == null then old(sgEntries) - {key} else old(sgEntries)
    {
      if key !in sgEntries {
        return null;
      }
      if now - sgEntries[key].at > ttl {
        sgEntries := sgEntries - {key};
        return null;
      }
      sg := sgEntries[key].sg;
    }

    /** sgStore: sweeps expired entries, then stores. */
    method SgStore(key: string, sg: SymbolGraph, now: int)
      requires Valid() && sg.Valid() && !sg.entryScoped && sg !in stored
      modifies this`sgEntries, this`stored
      ensures Valid()
      ensures sgEntries == Unexpired(old(sgEntries), ttl, now)[key := Entry(sg, now)]
      ensures stored == old(stored)[sg := Snapshot(sg.Footprint(), sg.Value())]
    {
      Keep(sg);
      sgEntries := Unexpired(sgEntries, ttl, now)[key := Entry(sg, now)];
    }

    /** One more stored graph, as it is now. */
    ghost method Keep(sg: SymbolGraph)
      requires Valid() && sg.Valid() && !sg.entryScoped && sg !in stored
      modifies this`stored
      ensures Valid() && sg in stored
      ensures stored == old(stored)[sg := Snapshot(sg.Footprint(), sg.Value())]
    {
      stored := stored[sg := Snapshot(sg.Footprint(), sg.Value())];
    }

    method SgCacheFlush() returns (n: nat)
      requires Valid()
      modifies this`sgEntries
      ensures Valid() && sgEntries == map[] && n == |old(sgEntries)|
    {
      n := |sgEntries|;
      sgEntries := map[];
    }

    /** The key has an entry that has not expired. */
    predicate Hit(key: string, now: int)
      reads this
    {
      key in sgEntries && now - sgEntries[key].at <= ttl
    }

    /** GetSymbolGraph for one caller: sha is empty outside version control; built is what a build would produce.
        Only the engine's own fields change: no graph that existed before, and none of its storage, is written. */
    method GetSymbolGraph(path: string, sha: string, now: int, built: Built, r: Request) returns (out: SymbolGraph)
      requires Valid()
      modifies this`sgEntries, this`stored
      ensures Valid() && old(stored).Keys <= stored.Keys
      ensures forall g :: g in old(stored) ==> stored[g] == old(stored)[g]
      ensures out.Valid() && (r.entry != "" ==> fresh(out.Footprint()))
      ensures out.Value() == Enriched(old(BaseFor(path + "@" + sha, sha, now, built)), r)
      ensures if sha == "" || old(Hit(path + "@" + sha, now)) then sgEntries == old(sgEntries)
              else Replaced(old(sgEntries), path + "@" + sha, now, BaseView(built))
    {
      var base := BaseGraph(path + "@" + sha, sha, now, built);
      out := EnrichScopedLSP(base, r);
    }

    /** The graph a request is answered from: the unexpired entry for the key, or else a new build. */
    ghost function BaseFor(key: string, sha: string, now: int, built: Built): View
      requires Valid()
      reads this, stored.Keys, set g | g in stored.Keys :: g.nodes.buf, set g | g in stored.Keys :: g.edges.buf
    {
      if sha != "" && Hit(key, now) then stored[sgEntries[key].sg].view else BaseView(built)
    }

    /** The part of GetSymbolGraph that is shared between callers. */
    method BaseGraph(key: string, sha: string, now: int, built: Built) returns (base: SymbolGraph)
      requires Valid()
      modifies this`sgEntries, this`stored
      ensures Valid() && old(stored).Keys <= stored.Keys
      ensures forall g :: g in old(stored) ==> stored[g] == old(stored)[g]
      ensures base.Valid() && !base.entryScoped && base.Value() == old(BaseFor(key, sha, now, built))
      ensures if sha == "" || old(Hit(key, now)) then sgEntries == old(sgEntries)
              else Replaced(old(sgEntries), key, now, BaseView(built))
    {
      ghost var before := sgEntries;
      if sha != "" {
        var cached := SgLoad(key, now);
        if cached != null {
          assert stored[cached].view == cached.Value();
          return cached;
        }
      }
      ghost var loaded := sgEntries;
      base := BuildAndStore(key, sha, now, built);
      if sha != "" {
        SweptAnyway(before, loaded, sgEntries, key, ttl, now);
      }
    }

    /** The entries after a graph of this value was stored for key at now: of the others the unexpired. */
    ghost predicate Replaced(before: map<string, Entry>, key: string, now: int, view: View)
      reads this
    {
      && key in sgEntries && sgEntries[key].at == now
      && sgEntries[key].sg in stored && stored[sgEntries[key].sg].view == view
      && Swept(before, sgEntries, key, ttl, now)
    }

    /** The part of GetSymbolGraph after a miss. */
    method BuildAndStore(key: string, sha: string, now: int, built: Built) returns (base: SymbolGraph)
      requires Valid()
      modifies this`sgEntries, this`stored
      ensures Valid() && old(stored).Keys <= stored.Keys
      ensures forall g :: g in old(stored) ==> stored[g] == old(stored)[g]
      ensures fresh(base.Footprint()) && base.Valid() && !base.entryScoped && base.Value() == BaseView(built)
      ensures if sha == "" then sgEntries == old(sgEntries) else Replaced(old(sgEntries), key, now, BaseView(built))
    {
      base := BuildSymbolGraph(built);
      if sha != "" {
        SgStore(key, base, now);
      }
    }

    /** Any sequence of requests keeps every stored graph and its storage as it was stored. */
    method Session(calls: seq<(string, string, int, Built, Request)>)
      requires Valid()
      modifies this`sgEntries, this`stored
      ensures Valid() && old(stored).Keys <= stored.Keys
      ensures forall g :: g in old(stored) ==> stored[g] == old(stored)[g]
    {
      for i := 0 to |calls|
        invariant Valid() && old(stored).Keys <= stored.Keys
        invariant forall g :: g in old(stored) ==> stored[g] == old(stored)[g]
      {
        var out := GetSymbolGraph(calls[i].0, calls[i].1, calls[i].2, calls[i].3, calls[i].4);
      }
    }
  }

  datatype Snapshot = Snapshot(footprint: set<object>, view: View)
}
