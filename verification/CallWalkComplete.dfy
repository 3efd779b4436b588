/** What finished call-graph walks have produced, whatever their schedule (symbol_pipeline.go). */
module CallWalkComplete {
  import opened Graphs
  import opened CallWalk

  // ----- Completeness: what every finished, undisturbed walk has produced -----

  ghost predicate Reached(w: World, s: Symbol) {
    exists d: nat :: Hops(w, s, d)
  }

  ghost predicate Universe(w: World, U: set<Symbol>) {
    && (forall r :: r in w.roots ==> r in U)
    && (forall s, rel {:trigger rel in w.children(s)} ::
          s in U && rel in w.children(s) && rel.inWorkspace ==> rel.target in U)
  }

  ghost predicate UniqueNames(U: set<Symbol>) {
    forall s, t :: s in U && t in U && s.name == t.name ==> s == t
  }

  ghost predicate UniqueKeys(U: set<Symbol>) {
    forall s, t :: s in U && t in U && Key(s) == Key(t) ==> s == t
  }

  /** Callees with the same key have the same types. */
  ghost predicate SameHover(w: World, U: set<Symbol>) {
    forall s, t, a, b :: s in U && t in U && a in w.children(s) && b in w.children(t) ==>
      Key(a.target) == Key(b.target) ==> w.hover(a.target) == w.hover(b.target)
  }

  /** U holds the roots and is closed under in-workspace relations; its names and keys are unique,
      equal callee keys mean equal types, and the depth bound is no smaller than U. */
  ghost predicate Unique(w: World, U: set<Symbol>) {
    Universe(w, U) && UniqueNames(U) && UniqueKeys(U) && SameHover(w, U) && |U| <= w.depth
  }

  /** The edges one symbol contributes, in the order of its relations. */
  ghost function EdgesOf(w: World, s: Symbol): seq<CallEdge> {
    seq(|w.children(s)|, i requires 0 <= i < |w.children(s)| =>
      MakeEdge(s, w.children(s)[i], w.hover(w.children(s)[i].target)))
  }

  /** The recorded edges of one caller. */
  ghost function By(edges: seq<CallEdge>, name: Id): seq<CallEdge> {
    if edges == [] then []
    else
      By(edges[..|edges| - 1], name) + if edges[|edges| - 1].caller == name then [edges[|edges| - 1]] else []
  }

  lemma BySnoc(edges: seq<CallEdge>, e: CallEdge, name: Id)
    ensures By(edges + [e], name) == By(edges, name) + if e.caller == name then [e] else []
  {
    assert (edges + [e])[..|edges|] == edges;
  }

  /** Auxiliary history, never read by a step: where a symbol is being expanded, and how many relations are recorded. */
  datatype Slot = Active(t: nat, k: nat) | Expanded
  datatype History = History(log: map<Symbol, Slot>, count: map<Symbol, nat>)

  ghost function Remember(s: State, h: History, t: nat): History
    requires t < |s.threads| && s.threads[t] != []
  {
    var f, k := Top(s.threads[t]), |s.threads[t]| - 1;
    match f.at
    case Enter =>
      if f.sym.name in s.shared.visited then h
      else History(h.log[f.sym := Active(t, k)], h.count[f.sym := 0])
    case Look(i) => if i >= |f.kids| then h.(log := h.log[f.sym := Expanded]) else h
    case Emit(i, _) => if i < |f.kids| then h.(count := h.count[f.sym := i + 1]) else h
    case _ => h
  }

  /** f, the k-th call of goroutine t, agrees with the history. */
  ghost predicate GoodFrame(w: World, U: set<Symbol>, h: History, t: nat, k: nat, f: Frame) {
    && f.sym in U && Reached(w, f.sym) && f.depth == k
    && (!f.at.Enter? ==> f.sym in h.log && h.log[f.sym] == Active(t, k) && f.sym in h.count)
    && match f.at
       case Enter => true
       case Record => h.count[f.sym] == 0
       case Expand => h.count[f.sym] == 0
       case Look(i) => f.kids == w.children(f.sym) && h.count[f.sym] == i <= |f.kids|
       case Fetch(i) => f.kids == w.children(f.sym) && h.count[f.sym] == i < |f.kids|
       case Store(i, found) =>
         f.kids == w.children(f.sym) && h.count[f.sym] == i < |f.kids| && found == w.hover(f.kids[i].target)
       case Emit(i, info) =>
         f.kids == w.children(f.sym) && h.count[f.sym] == i < |f.kids| && info == w.hover(f.kids[i].target)
  }

  ghost predicate GoodStack(w: World, U: set<Symbol>, h: History, t: nat, stack: seq<Frame>) {
    forall k :: 0 <= k < |stack| ==>
      GoodFrame(w, U, h, t, k, stack[k]) && (k < |stack| - 1 ==> stack[k].at.Look?)
  }

  /** The log names the frames that are expanding a symbol, and the visited names. */
  ghost predicate GoodLog(w: World, U: set<Symbol>, s: State, h: History) {
    && h.count.Keys == h.log.Keys
    && (forall x :: x in h.log ==> x in U && Reached(w, x) && x.name in s.shared.visited)
    && (forall x :: x in U && x.name in s.shared.visited ==> x in h.log)
    && (forall x :: x in h.log ==> Holds(s.threads, x, h.log[x]))
    && (forall name :: name in s.shared.visited ==> Named(h.log, name))
  }

  ghost predicate Named(log: map<Symbol, Slot>, name: Id) {
    exists x :: x in log && x.name == name
  }

  /** An active slot points at a call that is expanding x. */
  ghost predicate Holds(threads: seq<seq<Frame>>, x: Symbol, slot: Slot) {
    match slot
    case Expanded => true
    case Active(t, k) =>
      t < |threads| && k < |threads[t]| && threads[t][k].sym == x && !threads[t][k].at.Enter?
  }

  ghost predicate GoodEdges(w: World, U: set<Symbol>, s: State, h: History) {
    && (forall x :: x in h.log && x in h.count ==>
          h.count[x] <= |w.children(x)| && By(s.shared.edges, x.name) == EdgesOf(w, x)[..h.count[x]])
    && (forall x :: x in h.log && x in h.count && h.log[x].Expanded? ==> h.count[x] == |w.children(x)|)
    && (forall name {:trigger By(s.shared.edges, name)} :: name !in s.shared.visited ==> By(s.shared.edges, name) == [])
  }

  /** x has been entered, or some goroutine is about to enter it. */
  ghost predicate Covered(s: State, h: History, x: Symbol) {
    x in h.log || exists t :: 0 <= t < |s.threads| && Entering(s.threads[t], x)
  }

  ghost predicate Entering(stack: seq<Frame>, x: Symbol) {
    stack != [] && Top(stack).at.Enter? && Top(stack).sym == x
  }

  ghost predicate GoodCover(w: World, s: State, h: History) {
    && (forall r :: r in w.roots ==> Covered(s, h, r))
    && (forall x, i :: x in h.log && x in h.count && 0 <= i < h.count[x] && i < |w.children(x)| ==>
          w.children(x)[i].inWorkspace ==> Covered(s, h, w.children(x)[i].target))
  }

  ghost predicate GoodNodes(w: World, U: set<Symbol>, s: State, h: History) {
    && (forall key :: key in s.shared.nodes ==> NodeOf(w, U, key, s.shared.nodes[key]))
    && (forall x :: x in h.log ==> Key(x) in s.shared.nodes || BeingRecorded(s, h.log[x]))
  }

  ghost predicate BeingRecorded(s: State, slot: Slot) {
    slot.Active? && slot.t < |s.threads| && slot.k < |s.threads[slot.t]| && s.threads[slot.t][slot.k].at.Record?
  }

  ghost predicate GoodSigs(w: World, U: set<Symbol>, s: State) {
    forall x, rel :: x in U && rel in w.children(x) && Key(rel.target) in s.shared.sigs ==>
      s.shared.sigs[Key(rel.target)] == w.hover(rel.target)
  }

  ghost predicate Good(w: World, U: set<Symbol>, s: State, h: History) {
    && !s.cancelled
    && (forall t :: 0 <= t < |s.threads| ==> GoodStack(w, U, h, t, s.threads[t]))
    && GoodLog(w, U, s, h)
    && GoodEdges(w, U, s, h)
    && GoodCover(w, s, h)
    && GoodNodes(w, U, s, h)
    && GoodSigs(w, U, s)
  }

  /** Calls on one stack expand different symbols, so the stack is no deeper than U. */
  lemma DepthFits(w: World, U: set<Symbol>, h: History, t: nat, stack: seq<Frame>)
    requires GoodStack(w, U, h, t, stack) && stack != []
    ensures |stack| - 1 <= |U|
    ensures !Top(stack).at.Enter? ==> |stack| <= |U|
  {
    var n := if Top(stack).at.Enter? then |stack| - 1 else |stack|;
    var syms := seq(n, i requires 0 <= i < n => stack[i].sym);
    forall i, j | 0 <= i < j < n ensures syms[i] != syms[j] {
      assert GoodFrame(w, U, h, t, i, stack[i]) && GoodFrame(w, U, h, t, j, stack[j]);
    }
    forall x | x in syms ensures x in U {
      var i :| 0 <= i < n && syms[i] == x;
      assert GoodFrame(w, U, h, t, i, stack[i]);
    }
    DistinctBound(syms, U);
  }

  /** The facts every step case needs about the frame that moves. */
  ghost predicate Moves(w: World, U: set<Symbol>, s: State, h: History, t: nat, k: nat, f: Frame) {
    && t < |s.threads| && |s.threads[t]| == k + 1 && Top(s.threads[t]) == f
    && GoodFrame(w, U, h, t, k, f) && !s.cancelled
    && f.depth <= w.depth && (!f.at.Enter? ==> f.depth < w.depth)
  }

  lemma Moving(w: World, U: set<Symbol>, s: State, h: History, t: nat)
    requires |U| <= w.depth && Good(w, U, s, h) && t < |s.threads| && s.threads[t] != []
    ensures Moves(w, U, s, h, t, |s.threads[t]| - 1, Top(s.threads[t]))
  {
    var stack := s.threads[t];
    assert GoodStack(w, U, h, t, stack);
    assert GoodFrame(w, U, h, t, |stack| - 1, stack[|stack| - 1]);
    DepthFits(w, U, h, t, stack);
  }

  /** y is the only symbol of U with its name. */
  ghost predicate OnlyName(U: set<Symbol>, y: Symbol) {
    forall x :: x in U && x.name == y.name ==> x == y
  }

  lemma NamesAreUnique(U: set<Symbol>, y: Symbol)
    requires UniqueNames(U) && y in U
    ensures OnlyName(U, y)
  {
  }

  /** A frame other than the one that moves keeps its agreement with the history. */
  lemma KeepFrame(w: World, U: set<Symbol>, s: State, h: History, t: nat, k: nat, f: Frame, u: nat, j: nat, g: Frame)
    requires Moves(w, U, s, h, t, k, f) && GoodLog(w, U, s, h) && GoodFrame(w, U, h, u, j, g) && (u != t || j != k)
    ensures GoodFrame(w, U, Remember(s, h, t), u, j, g)
  {
  }

  lemma NewFrames(w: World, U: set<Symbol>, s: State, h: History, t: nat, k: nat, f: Frame)
    requires Universe(w, U) && Moves(w, U, s, h, t, k, f) && GoodSigs(w, U, s)
    ensures var frames := StepFrame(w, s.shared, s.cancelled, f, false).1;
            && |frames| <= 2
            && (frames != [] ==> GoodFrame(w, U, Remember(s, h, t), t, k, frames[0]))
            && (|frames| == 2 ==> frames[0].at.Look? && GoodFrame(w, U, Remember(s, h, t), t, k + 1, frames[1]))
  {
    match f.at
    case Emit(i, _) =>
      if f.kids[i].inWorkspace { CalleeReached(w, U, f, f.kids[i]); }
    case _ =>
  }

  lemma StacksStep(w: World, U: set<Symbol>, s: State, h: History, t: nat, k: nat, f: Frame, u: nat)
    requires Universe(w, U) && Moves(w, U, s, h, t, k, f) && GoodSigs(w, U, s) && GoodLog(w, U, s, h)
    requires u < |s.threads| && GoodStack(w, U, h, u, s.threads[u])
    ensures GoodStack(w, U, Remember(s, h, t), u, StepThread(w, s, t, false).threads[u])
  {
    var stack, stack1 := s.threads[u], StepThread(w, s, t, false).threads[u];
    NewFrames(w, U, s, h, t, k, f);
    forall j | 0 <= j < |stack1|
      ensures GoodFrame(w, U, Remember(s, h, t), u, j, stack1[j]) && (j < |stack1| - 1 ==> stack1[j].at.Look?)
    {
      if u != t || j < k {
        assert stack1[j] == stack[j];
        KeepFrame(w, U, s, h, t, k, f, u, j, stack[j]);
      }
    }
  }

  lemma HoldsStep(w: World, U: set<Symbol>, s: State, h: History, t: nat, k: nat, f: Frame, x: Symbol)
    requires Moves(w, U, s, h, t, k, f)
    requires x in h.log ==> Holds(s.threads, x, h.log[x])
    ensures var s1, h1 := StepThread(w, s, t, false), Remember(s, h, t);
            x in h1.log ==> Holds(s1.threads, x, h1.log[x])
  {
    if x in h.log && h.log[x].Active? && h.log[x] != Active(t, k) {
      assert StepThread(w, s, t, false).threads[h.log[x].t][h.log[x].k] == s.threads[h.log[x].t][h.log[x].k];
    }
  }

  lemma LogStep(w: World, U: set<Symbol>, s: State, h: History, t: nat, k: nat, f: Frame)
    requires OnlyName(U, f.sym) && Moves(w, U, s, h, t, k, f) && GoodLog(w, U, s, h)
    ensures GoodLog(w, U, StepThread(w, s, t, false), Remember(s, h, t))
  {
    var s1, h1 := StepThread(w, s, t, false), Remember(s, h, t);
    forall x | x in h1.log ensures Holds(s1.threads, x, h1.log[x]) { HoldsStep(w, U, s, h, t, k, f, x); }
    forall name | name in s1.shared.visited ensures Named(h1.log, name) { NamedStep(w, U, s, h, t, k, f, name); }
  }

  lemma NamedStep(w: World, U: set<Symbol>, s: State, h: History, t: nat, k: nat, f: Frame, name: Id)
    requires Moves(w, U, s, h, t, k, f) && (name in s.shared.visited ==> Named(h.log, name))
    ensures name in StepThread(w, s, t, false).shared.visited ==> Named(Remember(s, h, t).log, name)
  {
    var h1 := Remember(s, h, t);
    if name in s.shared.visited {
      var x :| x in h.log && x.name == name;
      assert x in h1.log;
    } else if f.at.Enter? && f.sym.name == name {
      assert f.sym in h1.log;
    }
  }

  lemma EmitEdges(w: World, U: set<Symbol>, s: State, h: History, t: nat, k: nat, f: Frame, x: Symbol)
    requires OnlyName(U, f.sym) && Moves(w, U, s, h, t, k, f) && f.at.Emit? && x in U
    requires x in h.count && h.count[x] <= |w.children(x)|
    requires By(s.shared.edges, x.name) == EdgesOf(w, x)[..h.count[x]]
    ensures var s1, h1 := StepThread(w, s, t, false), Remember(s, h, t);
            h1.count[x] <= |w.children(x)| && By(s1.shared.edges, x.name) == EdgesOf(w, x)[..h1.count[x]]
  {
    var i := f.at.i;
    var e := MakeEdge(f.sym, f.kids[i], f.at.info);
    BySnoc(s.shared.edges, e, x.name);
    assert EdgesOf(w, f.sym)[..i + 1] == EdgesOf(w, f.sym)[..i] + [e];
  }

  /** A symbol whose expansion is over is not the one that moves. */
  lemma EmitExpanded(w: World, U: set<Symbol>, s: State, h: History, t: nat, k: nat, f: Frame, x: Symbol)
    requires Moves(w, U, s, h, t, k, f) && f.at.Emit? && x in h.log && x in h.count && h.log[x].Expanded?
    ensures Remember(s, h, t).count[x] == h.count[x]
  {
  }

  lemma EmitUnvisited(w: World, U: set<Symbol>, s: State, h: History, t: nat, k: nat, f: Frame, name: Id)
    requires Moves(w, U, s, h, t, k, f) && f.at.Emit? && name !in s.shared.visited && f.sym.name in s.shared.visited
    requires By(s.shared.edges, name) == []
    ensures By(StepThread(w, s, t, false).shared.edges, name) == []
  {
    BySnoc(s.shared.edges, MakeEdge(f.sym, f.kids[f.at.i], f.at.info), name);
  }

  lemma EmitKeeps(w: World, U: set<Symbol>, s: State, h: History, t: nat, k: nat, f: Frame)
    requires Moves(w, U, s, h, t, k, f) && f.at.Emit?
    ensures Remember(s, h, t).log == h.log && Remember(s, h, t).count.Keys == h.count.Keys
    ensures StepThread(w, s, t, false).shared.visited == s.shared.visited
  {
  }

  lemma EdgesStepEmit(w: World, U: set<Symbol>, s: State, h: History, t: nat, k: nat, f: Frame)
    requires OnlyName(U, f.sym) && GoodLog(w, U, s, h) && Moves(w, U, s, h, t, k, f) && GoodEdges(w, U, s, h)
    requires f.at.Emit?
    ensures GoodEdges(w, U, StepThread(w, s, t, false), Remember(s, h, t))
  {
    var s1, h1 := StepThread(w, s, t, false), Remember(s, h, t);
    EmitKeeps(w, U, s, h, t, k, f);
    forall x | x in h1.log && x in h1.count
      ensures h1.count[x] <= |w.children(x)| && By(s1.shared.edges, x.name) == EdgesOf(w, x)[..h1.count[x]]
      ensures h1.log[x].Expanded? ==> h1.count[x] == |w.children(x)|
    {
      EmitEdges(w, U, s, h, t, k, f, x);
      if h.log[x].Expanded? { EmitExpanded(w, U, s, h, t, k, f, x); }
    }
    forall name | name !in s1.shared.visited ensures By(s1.shared.edges, name) == [] {
      assert By(s.shared.edges, name) == [];
      EmitUnvisited(w, U, s, h, t, k, f, name);
    }
  }

  lemma EdgesStep(w: World, U: set<Symbol>, s: State, h: History, t: nat, k: nat, f: Frame)
    requires OnlyName(U, f.sym) && GoodLog(w, U, s, h) && Moves(w, U, s, h, t, k, f) && GoodEdges(w, U, s, h)
    ensures GoodEdges(w, U, StepThread(w, s, t, false), Remember(s, h, t))
  {
    if f.at.Emit? {
      EdgesStepEmit(w, U, s, h, t, k, f);
    } else {
      EdgesSame(w, U, s, h, t, k, f);
    }
  }

  /** Steps that record nothing: entering a symbol, ending its expansion, and those that leave the history alone. */
  lemma EdgesSame(w: World, U: set<Symbol>, s: State, h: History, t: nat, k: nat, f: Frame)
    requires OnlyName(U, f.sym) && GoodLog(w, U, s, h) && Moves(w, U, s, h, t, k, f) && GoodEdges(w, U, s, h)
    requires !f.at.Emit?
    ensures GoodEdges(w, U, StepThread(w, s, t, false), Remember(s, h, t))
  {
    var s1, h1 := StepThread(w, s, t, false), Remember(s, h, t);
    SameEdgesStep(w, U, s, h, t, k, f);
    if f.at.Enter? && f.sym.name !in s.shared.visited {
      assert By(s.shared.edges, f.sym.name) == [];
      EnteredEdges(w, U, s, h, s1, f.sym, Active(t, k));
    } else if h1 != h {
      ExpandedEdges(w, U, s, h, s1, f.sym);
    }
  }

  lemma SameEdgesStep(w: World, U: set<Symbol>, s: State, h: History, t: nat, k: nat, f: Frame)
    requires Moves(w, U, s, h, t, k, f) && !f.at.Emit?
    ensures var sh1 := StepThread(w, s, t, false).shared;
      && sh1.edges == s.shared.edges
      && sh1.visited == s.shared.visited + if f.at.Enter? then {f.sym.name} else {}
    ensures var h1 := Remember(s, h, t);
      if f.at.Enter? && f.sym.name !in s.shared.visited
      then h1 == History(h.log[f.sym := Active(t, k)], h.count[f.sym := 0])
      else h1 == h || (h1 == h.(log := h.log[f.sym := Expanded]) && h.count[f.sym] == |w.children(f.sym)|)
  {
  }

  lemma EnteredEdges(w: World, U: set<Symbol>, s: State, h: History, s1: State, x: Symbol, slot: Slot)
    requires GoodEdges(w, U, s, h) && s1.shared.edges == s.shared.edges && s.shared.visited <= s1.shared.visited
    requires By(s.shared.edges, x.name) == [] && slot.Active?
    ensures GoodEdges(w, U, s1, History(h.log[x := slot], h.count[x := 0]))
  {
    assert EdgesOf(w, x)[..0] == [];
  }

  lemma ExpandedEdges(w: World, U: set<Symbol>, s: State, h: History, s1: State, x: Symbol)
    requires GoodEdges(w, U, s, h) && s1.shared.edges == s.shared.edges && s.shared.visited <= s1.shared.visited
    requires x in h.log && x in h.count && h.count[x] == |w.children(x)|
    ensures GoodEdges(w, U, s1, h.(log := h.log[x := Expanded]))
  {
  }

  lemma CoverKept(w: World, U: set<Symbol>, s: State, h: History, t: nat, k: nat, f: Frame, x: Symbol)
    requires Moves(w, U, s, h, t, k, f) && GoodLog(w, U, s, h) && Covered(s, h, x)
    ensures Covered(StepThread(w, s, t, false), Remember(s, h, t), x)
  {
    if x !in h.log {
      var u :| 0 <= u < |s.threads| && Entering(s.threads[u], x);
      if u != t { assert Entering(StepThread(w, s, t, false).threads[u], x); }
    }
  }

  /** The callee of a recorded relation is covered after the step. */
  lemma CoverCallee(w: World, U: set<Symbol>, s: State, h: History, t: nat, k: nat, f: Frame, x: Symbol, i: nat)
    requires Moves(w, U, s, h, t, k, f) && GoodLog(w, U, s, h) && GoodCover(w, s, h)
    requires var h1 := Remember(s, h, t);
      x in h1.log && x in h1.count && i < h1.count[x] && i < |w.children(x)| && w.children(x)[i].inWorkspace
    ensures Covered(StepThread(w, s, t, false), Remember(s, h, t), w.children(x)[i].target)
  {
    var callee := w.children(x)[i].target;
    if f.at.Emit? && x == f.sym && i == f.at.i {
      assert Entering(StepThread(w, s, t, false).threads[t], callee);
    } else {
      assert x in h.log && x in h.count && i < h.count[x];
      CoverKept(w, U, s, h, t, k, f, callee);
    }
  }

  lemma CoverStep(w: World, U: set<Symbol>, s: State, h: History, t: nat, k: nat, f: Frame)
    requires Moves(w, U, s, h, t, k, f) && GoodLog(w, U, s, h) && GoodCover(w, s, h)
    ensures GoodCover(w, StepThread(w, s, t, false), Remember(s, h, t))
  {
    var s1, h1 := StepThread(w, s, t, false), Remember(s, h, t);
    forall r | r in w.roots ensures Covered(s1, h1, r) { CoverKept(w, U, s, h, t, k, f, r); }
    forall x, i | x in h1.log && x in h1.count && 0 <= i < h1.count[x] && i < |w.children(x)|
      ensures w.children(x)[i].inWorkspace ==> Covered(s1, h1, w.children(x)[i].target)
    {
      if w.children(x)[i].inWorkspace { CoverCallee(w, U, s, h, t, k, f, x, i); }
    }
  }

  ghost predicate NodeOf(w: World, U: set<Symbol>, key: Id, node: Symbol) {
    exists x :: x in U && Reached(w, x) && Key(x) == key && node == Stored(x)
  }

  lemma CalleeReached(w: World, U: set<Symbol>, f: Frame, rel: Relation)
    requires Universe(w, U) && f.sym in U && Reached(w, f.sym) && rel in w.children(f.sym) && rel.inWorkspace
    ensures rel.target in U && Reached(w, rel.target)
  {
    assert Calls(w, f.sym, rel.target);
    var d: nat :| Hops(w, f.sym, d);
    assert Hops(w, rel.target, d + 1);
  }

  lemma NodesFrom(w: World, U: set<Symbol>, s: State, h: History, t: nat, k: nat, f: Frame, key: Id)
    requires Universe(w, U) && Moves(w, U, s, h, t, k, f)
    requires key in s.shared.nodes ==> NodeOf(w, U, key, s.shared.nodes[key])
    ensures var nodes := StepFrame(w, s.shared, s.cancelled, f, false).0.nodes;
            key in nodes ==> NodeOf(w, U, key, nodes[key])
  {
    if f.at.Emit? && f.kids[f.at.i].inWorkspace {
      CalleeReached(w, U, f, f.kids[f.at.i]);
      assert NodeOf(w, U, Key(f.kids[f.at.i].target), Stored(f.kids[f.at.i].target));
    }
    if f.at.Record? { assert NodeOf(w, U, Key(f.sym), Stored(f.sym)); }
  }

  lemma KeysKept(w: World, s: State, t: nat, key: Id)
    requires t < |s.threads| && s.threads[t] != [] && key in s.shared.nodes
    ensures key in StepThread(w, s, t, false).shared.nodes
  {
  }

  /** A symbol that is being recorded is stored by this step or still being recorded. */
  lemma RecordingKept(w: World, U: set<Symbol>, s: State, h: History, t: nat, k: nat, f: Frame, x: Symbol)
    requires Moves(w, U, s, h, t, k, f) && x in h.log && x.name in s.shared.visited
    requires Holds(s.threads, x, h.log[x]) && BeingRecorded(s, h.log[x])
    ensures var s1, h1 := StepThread(w, s, t, false), Remember(s, h, t);
            x in h1.log && (Key(x) in s1.shared.nodes || BeingRecorded(s1, h1.log[x]))
  {
    if h.log[x] != Active(t, k) {
      assert StepThread(w, s, t, false).threads[h.log[x].t][h.log[x].k] == s.threads[h.log[x].t][h.log[x].k];
    }
  }

  lemma NodesKept(w: World, U: set<Symbol>, s: State, h: History, t: nat, k: nat, f: Frame, x: Symbol)
    requires Moves(w, U, s, h, t, k, f) && GoodLog(w, U, s, h)
    requires x in h.log && (Key(x) in s.shared.nodes || BeingRecorded(s, h.log[x]))
    ensures var s1, h1 := StepThread(w, s, t, false), Remember(s, h, t);
            x in h1.log && (Key(x) in s1.shared.nodes || BeingRecorded(s1, h1.log[x]))
  {
    if Key(x) in s.shared.nodes {
      KeysKept(w, s, t, Key(x));
    } else {
      RecordingKept(w, U, s, h, t, k, f, x);
    }
  }

  /** A symbol entered by this step is being recorded. */
  lemma NewlyLogged(w: World, U: set<Symbol>, s: State, h: History, t: nat, k: nat, f: Frame, x: Symbol)
    requires Moves(w, U, s, h, t, k, f) && x !in h.log && x in Remember(s, h, t).log
    ensures BeingRecorded(StepThread(w, s, t, false), Remember(s, h, t).log[x])
  {
  }

  lemma NodesGoodStep(w: World, U: set<Symbol>, s: State, h: History, t: nat, k: nat, f: Frame)
    requires Universe(w, U) && GoodLog(w, U, s, h) && Moves(w, U, s, h, t, k, f) && GoodNodes(w, U, s, h)
    ensures GoodNodes(w, U, StepThread(w, s, t, false), Remember(s, h, t))
  {
    var s1, h1 := StepThread(w, s, t, false), Remember(s, h, t);
    forall key | key in s1.shared.nodes ensures NodeOf(w, U, key, s1.shared.nodes[key]) {
      NodesFrom(w, U, s, h, t, k, f, key);
    }
    forall x | x in h1.log ensures Key(x) in s1.shared.nodes || BeingRecorded(s1, h1.log[x]) {
      if x in h.log { NodesKept(w, U, s, h, t, k, f, x); } else { NewlyLogged(w, U, s, h, t, k, f, x); }
    }
  }

  lemma SigsStep(w: World, U: set<Symbol>, s: State, h: History, t: nat, k: nat, f: Frame)
    requires SameHover(w, U) && Moves(w, U, s, h, t, k, f) && GoodSigs(w, U, s)
    ensures GoodSigs(w, U, StepThread(w, s, t, false))
  {
    if f.at.Store? {
      var callee := f.kids[f.at.i];
      forall x, rel | x in U && rel in w.children(x) && Key(rel.target) == Key(callee.target)
        ensures w.hover(rel.target) == w.hover(callee.target)
      {
        assert callee in w.children(f.sym);
      }
    }
  }

  lemma GoodStep(w: World, U: set<Symbol>, s: State, h: History, t: nat)
    requires Unique(w, U) && Good(w, U, s, h) && t < |s.threads| && s.threads[t] != []
    ensures Good(w, U, StepThread(w, s, t, false), Remember(s, h, t))
  {
    var k, f := |s.threads[t]| - 1, Top(s.threads[t]);
    Moving(w, U, s, h, t);
    NamesAreUnique(U, f.sym);
    forall u | 0 <= u < |s.threads|
      ensures GoodStack(w, U, Remember(s, h, t), u, StepThread(w, s, t, false).threads[u])
    {
      StacksStep(w, U, s, h, t, k, f, u);
    }
    LogStep(w, U, s, h, t, k, f);
    EdgesStep(w, U, s, h, t, k, f);
    CoverStep(w, U, s, h, t, k, f);
    NodesGoodStep(w, U, s, h, t, k, f);
    SigsStep(w, U, s, h, t, k, f);
  }

  // ----- Whole runs -----

  ghost predicate Undisturbed(schedule: seq<Choice>) {
    forall i :: 0 <= i < |schedule| ==> schedule[i].Go?
  }

  ghost predicate Finished(s: State) {
    forall t :: 0 <= t < |s.threads| ==> s.threads[t] == []
  }

  lemma GoodStart(w: World, U: set<Symbol>)
    requires Unique(w, U)
    ensures Good(w, U, Initial(w), History(map[], map[]))
  {
    var s, h := Initial(w), History(map[], map[]);
    forall t | 0 <= t < |s.threads| ensures GoodStack(w, U, h, t, s.threads[t]) {
      assert Hops(w, w.roots[t], 0);
    }
    forall r | r in w.roots ensures Covered(s, h, r) {
      var t :| 0 <= t < |w.roots| && w.roots[t] == r;
      assert Entering(s.threads[t], r);
    }
  }

  lemma {:induction false} GoodRun(w: World, U: set<Symbol>, schedule: seq<Choice>) returns (h: History)
    requires Unique(w, U) && Undisturbed(schedule)
    ensures Good(w, U, Run(w, schedule), h)
  {
    if schedule == [] {
      GoodStart(w, U);
      h := History(map[], map[]);
    } else {
      var before, c := schedule[..|schedule| - 1], schedule[|schedule| - 1];
      var s := Run(w, before);
      h := GoodRun(w, U, before);
      if c.t < |s.threads| && s.threads[c.t] != [] {
        GoodStep(w, U, s, h, c.t);
        h := Remember(s, h, c.t);
      }
    }
  }

  lemma {:induction false} AllReachedLogged(w: World, U: set<Symbol>, s: State, h: History, x: Symbol, d: nat)
    requires Universe(w, U) && Good(w, U, s, h) && Finished(s) && Hops(w, x, d)
    ensures x in h.log && h.count[x] == |w.children(x)|
    decreases d
  {
    if d > 0 {
      var p :| Hops(w, p, d - 1) && Calls(w, p, x);
      AllReachedLogged(w, U, s, h, p, d - 1);
      var rel :| rel in w.children(p) && rel.inWorkspace && rel.target == x;
      var i :| 0 <= i < |w.children(p)| && w.children(p)[i] == rel;
      assert Covered(s, h, w.children(p)[i].target);
    } else {
      assert Covered(s, h, x);
    }
    assert Holds(s.threads, x, h.log[x]);
  }

  /** es are the calls of x: one for each relation, in order, with the types of its callee. */
  ghost predicate CallsOf(w: World, x: Symbol, es: seq<CallEdge>) {
    && |es| == |w.children(x)|
    && forall i :: 0 <= i < |es| ==>
         EdgeFor(es[i], x, w.children(x)[i]) && es[i].info == w.hover(w.children(x)[i].target)
  }

  /** The result of a finished walk: exactly the reached symbols, each with all its relations once, in order. */
  ghost predicate CompleteResult(w: World, s: State) {
    && (forall key :: key in s.shared.nodes ==> exists x :: Reached(w, x) && NodeFor(key, s.shared.nodes[key], x))
    && (forall x :: Reached(w, x) ==> NodeStored(s.shared.nodes, x))
    && (forall x :: Reached(w, x) ==> CallsOf(w, x, By(s.shared.edges, x.name)))
    && (forall name :: (forall x :: Reached(w, x) ==> x.name != name) ==> By(s.shared.edges, name) == [])
  }

  /** x is stored under its package-qualified name. */
  ghost predicate NodeStored(nodes: map<Id, Symbol>, x: Symbol) {
    var key := Id(x.pkg.text + "." + x.name.text);
    key in nodes && NodeFor(key, nodes[key], x)
  }

  lemma MadeCalls(w: World, x: Symbol)
    ensures CallsOf(w, x, EdgesOf(w, x))
  {
    forall i | 0 <= i < |w.children(x)|
      ensures EdgeFor(EdgesOf(w, x)[i], x, w.children(x)[i])
      ensures EdgesOf(w, x)[i].info == w.hover(w.children(x)[i].target)
    {
      assert EdgesOf(w, x)[i] == MakeEdge(x, w.children(x)[i], w.hover(w.children(x)[i].target));
    }
  }

  lemma StoredReached(w: World, U: set<Symbol>, nodes: map<Id, Symbol>, x: Symbol)
    requires UniqueKeys(U) && x in U && Key(x) in nodes && NodeOf(w, U, Key(x), nodes[Key(x)])
    ensures NodeStored(nodes, x)
  {
  }

  lemma ReachedComplete(w: World, U: set<Symbol>, s: State, h: History, x: Symbol)
    requires Unique(w, U) && Good(w, U, s, h) && Finished(s) && Reached(w, x)
    ensures NodeStored(s.shared.nodes, x) && CallsOf(w, x, By(s.shared.edges, x.name)) && x.name in s.shared.visited
  {
    var d: nat :| Hops(w, x, d);
    AllReachedLogged(w, U, s, h, x, d);
    LoggedCalls(w, U, s, h, x);
    LoggedNode(w, U, s, h, x);
  }

  lemma LoggedCalls(w: World, U: set<Symbol>, s: State, h: History, x: Symbol)
    requires GoodEdges(w, U, s, h) && x in h.log && x in h.count && h.count[x] == |w.children(x)|
    ensures CallsOf(w, x, By(s.shared.edges, x.name))
  {
    assert EdgesOf(w, x)[..|w.children(x)|] == EdgesOf(w, x);
    MadeCalls(w, x);
  }

  lemma LoggedNode(w: World, U: set<Symbol>, s: State, h: History, x: Symbol)
    requires UniqueKeys(U) && GoodNodes(w, U, s, h) && Finished(s) && x in h.log && x in U
    ensures NodeStored(s.shared.nodes, x)
  {
    assert !BeingRecorded(s, h.log[x]);
    StoredReached(w, U, s.shared.nodes, x);
  }

  lemma VisitedReached(w: World, log: map<Symbol, Slot>, name: Id)
    requires Named(log, name) && forall x :: x in log ==> Reached(w, x)
    ensures exists x :: Reached(w, x) && x.name == name
  {
    var x :| x in log && x.name == name;
    assert Reached(w, x);
  }

  /** A finished walk without failures or cancellation produces the complete result, whatever its schedule. */
  lemma WalkComplete(w: World, U: set<Symbol>, schedule: seq<Choice>)
    requires Unique(w, U) && Undisturbed(schedule) && Finished(Run(w, schedule))
    ensures CompleteResult(w, Run(w, schedule))
  {
    var s := Run(w, schedule);
    var h := GoodRun(w, U, schedule);
    forall x | Reached(w, x)
      ensures NodeStored(s.shared.nodes, x) && CallsOf(w, x, By(s.shared.edges, x.name))
    {
      ReachedComplete(w, U, s, h, x);
    }
    forall key | key in s.shared.nodes ensures exists x :: Reached(w, x) && NodeFor(key, s.shared.nodes[key], x) {
      assert NodeOf(w, U, key, s.shared.nodes[key]);
      var x :| x in U && Reached(w, x) && Key(x) == key && s.shared.nodes[key] == Stored(x);
      assert NodeFor(key, s.shared.nodes[key], x);
    }
    forall name | forall x :: Reached(w, x) ==> x.name != name ensures By(s.shared.edges, name) == [] {
      if name in s.shared.visited { VisitedReached(w, h.log, name); }
    }
  }

  lemma {:induction false} MultisetByCaller(edges: seq<CallEdge>, e: CallEdge)
    ensures multiset(edges)[e] == multiset(By(edges, e.caller))[e]
  {
    if edges != [] {
      var i := |edges| - 1;
      MultisetByCaller(edges[..i], e);
      assert edges == edges[..i] + [edges[i]];
    }
  }

  /** Two finished walks agree on the nodes and, as multisets, on the edges. */
  lemma ScheduleIndependent(w: World, U: set<Symbol>, schedule1: seq<Choice>, schedule2: seq<Choice>)
    requires Unique(w, U) && Undisturbed(schedule1) && Undisturbed(schedule2)
    requires Finished(Run(w, schedule1)) && Finished(Run(w, schedule2))
    ensures Run(w, schedule1).shared.nodes == Run(w, schedule2).shared.nodes
    ensures multiset(Run(w, schedule1).shared.edges) == multiset(Run(w, schedule2).shared.edges)
  {
    WalkComplete(w, U, schedule1);
    WalkComplete(w, U, schedule2);
    SameNodes(w, Run(w, schedule1), Run(w, schedule2));
    SameEdges(w, Run(w, schedule1), Run(w, schedule2));
  }

  lemma SameNode(w: World, s1: State, s2: State, key: Id)
    requires CompleteResult(w, s1) && CompleteResult(w, s2) && key in s1.shared.nodes
    ensures key in s2.shared.nodes && s2.shared.nodes[key] == s1.shared.nodes[key]
  {
    var x :| Reached(w, x) && NodeFor(key, s1.shared.nodes[key], x);
    assert NodeStored(s2.shared.nodes, x);
  }

  lemma SameNodes(w: World, s1: State, s2: State)
    requires CompleteResult(w, s1) && CompleteResult(w, s2)
    ensures s1.shared.nodes == s2.shared.nodes
  {
    forall key | key in s1.shared.nodes ensures key in s2.shared.nodes && s2.shared.nodes[key] == s1.shared.nodes[key] {
      SameNode(w, s1, s2, key);
    }
    forall key | key in s2.shared.nodes ensures key in s1.shared.nodes {
      SameNode(w, s2, s1, key);
    }
  }

  lemma SameEdges(w: World, s1: State, s2: State)
    requires CompleteResult(w, s1) && CompleteResult(w, s2)
    ensures multiset(s1.shared.edges) == multiset(s2.shared.edges)
  {
    forall e ensures multiset(s1.shared.edges)[e] == multiset(s2.shared.edges)[e] {
      MultisetByCaller(s1.shared.edges, e);
      MultisetByCaller(s2.shared.edges, e);
      SameByCaller(w, s1, s2, e.caller);
    }
  }

  lemma SameCalls(w: World, x: Symbol, es: seq<CallEdge>, fs: seq<CallEdge>)
    requires CallsOf(w, x, es) && CallsOf(w, x, fs)
    ensures es == fs
  {
    forall i | 0 <= i < |es| ensures es[i] == fs[i] {
      assert EdgeFor(es[i], x, w.children(x)[i]) && EdgeFor(fs[i], x, w.children(x)[i]);
    }
  }

  lemma SameByCaller(w: World, s1: State, s2: State, name: Id)
    requires CompleteResult(w, s1) && CompleteResult(w, s2)
    ensures By(s1.shared.edges, name) == By(s2.shared.edges, name)
  {
    if x :| Reached(w, x) && x.name == name {
      SameCalls(w, x, By(s1.shared.edges, x.name), By(s2.shared.edges, x.name));
    }
  }
}
