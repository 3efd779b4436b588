/** The concurrent call-graph walk (symbol_pipeline.go), one lock section or source call per step. */
module CallWalk {
  import opened Options

  /** A name or key, compared only for equality. */
  datatype Id = Id(text: string)

  datatype Symbol = Symbol(name: Id, pkg: Id, file: string, line: int, endLine: int, kind: string)

  datatype TypeInfo = TypeInfo(paramTypes: seq<string>, returnTypes: seq<string>)

  datatype Relation = Relation(target: Symbol, kind: string, inWorkspace: bool, line: int, confidence: real,
                               args: seq<string>)

  datatype CallEdge = CallEdge(caller: Id, callee: Id, callerPkg: Id, calleePkg: Id, line: int, file: string,
                               crossPkg: bool, info: Option<TypeInfo>, kind: string, confidence: real,
                               args: seq<string>)

  /** The symbol source, the depth bound and the roots of one walk. */
  datatype World = World(children: Symbol -> seq<Relation>, hover: Symbol -> Option<TypeInfo>,
                         depth: nat, roots: seq<Symbol>)

  function Key(s: Symbol): Id {
    Id(s.pkg.text + "." + s.name.text)
  }

  /** The copy of a symbol that is stored in nodeSet. */
  function Stored(s: Symbol): Symbol {
    s.(kind := "")
  }

  function MakeEdge(s: Symbol, rel: Relation, info: Option<TypeInfo>): CallEdge {
    CallEdge(s.name, rel.target.name, s.pkg, rel.target.pkg, if rel.line <= 0 then s.line else rel.line, s.file,
      s.pkg != rel.target.pkg, info, rel.kind, rel.confidence, rel.args)
  }

  /** Where a call of walk stands; kids and i are the relation list and loop index. */
  datatype Pc =
    | Enter
    | Record
    | Expand
    | Look(i: nat)
    | Fetch(i: nat)
    | Store(i: nat, found: Option<TypeInfo>)
    | Emit(i: nat, info: Option<TypeInfo>)

  datatype Frame = Frame(sym: Symbol, depth: nat, kids: seq<Relation>, at: Pc)

  /** The variables guarded by the mutex. */
  datatype Shared = Shared(visited: set<Id>, nodes: map<Id, Symbol>, edges: seq<CallEdge>,
                           sigs: map<Id, Option<TypeInfo>>)

  /** One call stack per root goroutine, innermost call last. */
  datatype State = State(shared: Shared, threads: seq<seq<Frame>>, cancelled: bool)

  /** The scheduler runs one step of a goroutine, fails the source call it is making, or cancels the walk. */
  datatype Choice = Go(t: nat) | Fail(t: nat) | Cancel

  function Initial(w: World): State {
    State(Shared({}, map[], [], map[]),
      seq(|w.roots|, t requires 0 <= t < |w.roots| => [Frame(w.roots[t], 0, [], Enter)]), false)
  }

  /** One step of the innermost call f: the new shared variables and what replaces f on its stack.
      fails says whether the source call it makes returns an error. */
  function StepFrame(w: World, sh: Shared, cancelled: bool, f: Frame, fails: bool): (Shared, seq<Frame>) {
    match f.at
    case Enter =>
      if cancelled || f.depth > w.depth || f.sym.name in sh.visited then (sh, [])
      else (sh.(visited := sh.visited + {f.sym.name}), [f.(at := Record)])
    case Record =>
      (sh.(nodes := sh.nodes[Key(f.sym) := Stored(f.sym)]), [f.(at := Expand)])
    case Expand =>
      if f.depth >= w.depth || fails then (sh, [])
      else (sh, [f.(kids := w.children(f.sym), at := Look(0))])
    case Look(i) =>
      if i >= |f.kids| then (sh, [])
      else
        var key := Key(f.kids[i].target);
        (sh, [f.(at := if key in sh.sigs then Emit(i, sh.sigs[key]) else Fetch(i))])
    case Fetch(i) =>
      if i >= |f.kids| then (sh, [f])
      else (sh, [f.(at := Store(i, if fails then None else w.hover(f.kids[i].target)))])
    case Store(i, found) =>
      if i >= |f.kids| then (sh, [f])
      else (sh.(sigs := sh.sigs[Key(f.kids[i].target) := found]), [f.(at := Emit(i, found))])
    case Emit(i, info) =>
      if i >= |f.kids| then (sh, [f])
      else
        var rel := f.kids[i];
        var sh1 := sh.(edges := sh.edges + [MakeEdge(f.sym, rel, info)]);
        if rel.inWorkspace then
          (sh1.(nodes := sh.nodes[Key(rel.target) := Stored(rel.target)]),
           [f.(at := Look(i + 1)), Frame(rel.target, f.depth + 1, [], Enter)])
        else (sh1, [f.(at := Look(i + 1))])
  }

  function Top(stack: seq<Frame>): Frame
    requires stack != []
  {
    stack[|stack| - 1]
  }

  function StepThread(w: World, s: State, t: nat, fails: bool): State
    requires t < |s.threads| && s.threads[t] != []
  {
    var stack := s.threads[t];
    var (shared, frames) := StepFrame(w, s.shared, s.cancelled, Top(stack), fails);
    State(shared, s.threads[t := stack[..|stack| - 1] + frames], s.cancelled)
  }

  function Step(w: World, s: State, c: Choice): State {
    match c
    case Cancel => s.(cancelled := true)
    case Go(t) => if t < |s.threads| && s.threads[t] != [] then StepThread(w, s, t, false) else s
    case Fail(t) => if t < |s.threads| && s.threads[t] != [] then StepThread(w, s, t, true) else s
  }

  function Run(w: World, schedule: seq<Choice>): State {
    if schedule == [] then Initial(w)
    else Step(w, Run(w, schedule[..|schedule| - 1]), schedule[|schedule| - 1])
  }

  // ----- Soundness at every depth, under every schedule -----

  ghost predicate Calls(w: World, p: Symbol, s: Symbol) {
    exists rel :: rel in w.children(p) && rel.inWorkspace && rel.target == s
  }

  /** s can be reached from a root by d in-workspace relations. */
  ghost predicate Hops(w: World, s: Symbol, d: nat)
    decreases d
  {
    if d == 0 then s in w.roots
    else exists p {:trigger Calls(w, p, s)} :: Hops(w, p, d - 1) && Calls(w, p, s)
  }

  /** The node stored under key is that of symbol s. */
  ghost predicate NodeFor(key: Id, node: Symbol, s: Symbol) {
    && key.text == s.pkg.text + "." + s.name.text
    && node.name == s.name && node.pkg == s.pkg && node.file == s.file
    && node.line == s.line && node.endLine == s.endLine && node.kind == ""
  }

  /** e is the call that relation rel of s stands for, up to its types. */
  ghost predicate EdgeFor(e: CallEdge, s: Symbol, rel: Relation) {
    && e.caller == s.name && e.callerPkg == s.pkg && e.callee == rel.target.name && e.calleePkg == rel.target.pkg
    && e.file == s.file && e.kind == rel.kind && e.confidence == rel.confidence && e.args == rel.args
    && (rel.line > 0 ==> e.line == rel.line) && (rel.line <= 0 ==> e.line == s.line)
    && (e.crossPkg <==> s.pkg != rel.target.pkg)
  }

  /** The types are unknown, or those of a symbol of that package-qualified name. */
  ghost predicate TypesFor(w: World, info: Option<TypeInfo>, name: string) {
    info.None? || exists s: Symbol :: s.pkg.text + "." + s.name.text == name && w.hover(s) == info
  }

  ghost predicate Within(w: World, key: Id, node: Symbol) {
    exists s, d: nat :: Hops(w, s, d) && d <= w.depth && NodeFor(key, node, s)
  }

  /** A node is stored under the package-qualified name. */
  ghost predicate HasNode(names: set<Id>, pkg: Id, name: Id) {
    Id(pkg.text + "." + name.text) in names
  }

  /** e is relation i of s, fewer than depth hops from a root, and both ends are stored, the callee if it is in the
      workspace. */
  ghost predicate RelationOf(w: World, names: set<Id>, e: CallEdge, s: Symbol, d: nat, i: int) {
    && Hops(w, s, d) && d < w.depth && 0 <= i < |w.children(s)| && EdgeFor(e, s, w.children(s)[i])
    && HasNode(names, e.callerPkg, e.caller)
    && (w.children(s)[i].inWorkspace ==> HasNode(names, e.calleePkg, e.callee))
  }

  ghost predicate RecordedCall(w: World, names: set<Id>, e: CallEdge) {
    && (exists s, d: nat, i :: RelationOf(w, names, e, s, d, i))
    && TypesFor(w, e.info, e.calleePkg.text + "." + e.callee.text)
  }

  ghost predicate SoundFrame(w: World, names: set<Id>, f: Frame) {
    && Hops(w, f.sym, f.depth)
    && (!f.at.Enter? ==> f.depth <= w.depth)
    && (!f.at.Enter? && !f.at.Record? ==> Key(f.sym) in names)
    && (f.kids != [] ==> f.depth < w.depth && f.kids == w.children(f.sym))
    && (f.at.Store? && f.at.i < |f.kids| ==> TypesFor(w, f.at.found, Key(f.kids[f.at.i].target).text))
    && (f.at.Emit? && f.at.i < |f.kids| ==> TypesFor(w, f.at.info, Key(f.kids[f.at.i].target).text))
  }

  ghost predicate SoundStack(w: World, names: set<Id>, stack: seq<Frame>) {
    forall f :: f in stack ==> SoundFrame(w, names, f)
  }

  ghost predicate SoundNodes(w: World, nodes: map<Id, Symbol>) {
    forall key :: key in nodes ==> Within(w, key, nodes[key])
  }

  ghost predicate SoundEdges(w: World, names: set<Id>, edges: seq<CallEdge>) {
    forall n :: 0 <= n < |edges| ==> RecordedCall(w, names, edges[n])
  }

  ghost predicate SoundTypes(w: World, sigs: map<Id, Option<TypeInfo>>) {
    forall key :: key in sigs ==> TypesFor(w, sigs[key], key.text)
  }

  ghost predicate SoundShared(w: World, sh: Shared) {
    SoundNodes(w, sh.nodes) && SoundEdges(w, sh.nodes.Keys, sh.edges) && SoundTypes(w, sh.sigs)
  }

  ghost predicate Sound(w: World, s: State) {
    && (forall t :: 0 <= t < |s.threads| ==> SoundStack(w, s.shared.nodes.Keys, s.threads[t]))
    && SoundShared(w, s.shared)
  }

  lemma CalledFrame(w: World, names: set<Id>, f: Frame, rel: Relation)
    requires SoundFrame(w, names, f) && rel in f.kids && rel.inWorkspace
    ensures SoundFrame(w, names, Frame(rel.target, f.depth + 1, [], Enter))
    ensures Within(w, Key(rel.target), Stored(rel.target))
  {
    assert Calls(w, f.sym, rel.target);
    assert Hops(w, rel.target, f.depth + 1);
    StoredWithin(w, rel.target, f.depth + 1);
  }

  lemma StoredWithin(w: World, s: Symbol, d: nat)
    requires Hops(w, s, d) && d <= w.depth
    ensures Within(w, Key(s), Stored(s))
  {
    assert NodeFor(Key(s), Stored(s), s);
  }

  lemma MadeEdge(w: World, names: set<Id>, s: Symbol, d: nat, i: nat, info: Option<TypeInfo>)
    requires Hops(w, s, d) && d < w.depth && i < |w.children(s)| && Key(s) in names
    requires w.children(s)[i].inWorkspace ==> Key(w.children(s)[i].target) in names
    requires TypesFor(w, info, Key(w.children(s)[i].target).text)
    ensures RecordedCall(w, names, MakeEdge(s, w.children(s)[i], info))
  {
    assert RelationOf(w, names, MakeEdge(s, w.children(s)[i], info), s, d, i);
  }

  lemma HoverTypes(w: World, s: Symbol, fails: bool)
    ensures TypesFor(w, if fails then None else w.hover(s), Key(s).text)
  {
    if !fails {
      assert s.pkg.text + "." + s.name.text == Key(s).text;
    }
  }

  /** What is sound stays sound when nodes are added. */
  lemma MoreNames(w: World, names: set<Id>, names1: set<Id>, edges: seq<CallEdge>)
    requires names <= names1 && SoundEdges(w, names, edges)
    ensures SoundEdges(w, names1, edges)
  {
    forall n | 0 <= n < |edges| ensures RecordedCall(w, names1, edges[n]) {
      assert RecordedCall(w, names, edges[n]);
      var s, d: nat, i :| RelationOf(w, names, edges[n], s, d, i);
      assert RelationOf(w, names1, edges[n], s, d, i);
    }
  }

  lemma MoreNamesStack(w: World, names: set<Id>, names1: set<Id>, stack: seq<Frame>)
    requires names <= names1 && SoundStack(w, names, stack)
    ensures SoundStack(w, names1, stack)
  {
    forall f | f in stack ensures SoundFrame(w, names1, f) {
      assert SoundFrame(w, names, f);
    }
  }

  lemma EdgesSnoc(w: World, names: set<Id>, edges: seq<CallEdge>, e: CallEdge)
    requires SoundEdges(w, names, edges) && RecordedCall(w, names, e)
    ensures SoundEdges(w, names, edges + [e])
  {
  }

  lemma SoundEmit(w: World, sh: Shared, f: Frame)
    requires SoundFrame(w, sh.nodes.Keys, f) && SoundShared(w, sh) && f.at.Emit?
    ensures var (sh1, frames) := StepFrame(w, sh, false, f, false);
            sh.nodes.Keys <= sh1.nodes.Keys && SoundStack(w, sh1.nodes.Keys, frames) && SoundShared(w, sh1)
  {
    var i := f.at.i;
    if i < |f.kids| {
      var sh1 := StepFrame(w, sh, false, f, false).0;
      MoreNames(w, sh.nodes.Keys, sh1.nodes.Keys, sh.edges);
      MadeEdge(w, sh1.nodes.Keys, f.sym, f.depth, i, f.at.info);
      EdgesSnoc(w, sh1.nodes.Keys, sh.edges, MakeEdge(f.sym, f.kids[i], f.at.info));
      if f.kids[i].inWorkspace {
        CalledFrame(w, sh.nodes.Keys, f, f.kids[i]);
      }
    }
  }

  lemma SoundRecord(w: World, sh: Shared, f: Frame)
    requires SoundFrame(w, sh.nodes.Keys, f) && SoundShared(w, sh) && f.at.Record?
    ensures var (sh1, frames) := StepFrame(w, sh, false, f, false);
            sh.nodes.Keys <= sh1.nodes.Keys && SoundStack(w, sh1.nodes.Keys, frames) && SoundShared(w, sh1)
  {
    var sh1 := StepFrame(w, sh, false, f, false).0;
    MoreNames(w, sh.nodes.Keys, sh1.nodes.Keys, sh.edges);
    StoredWithin(w, f.sym, f.depth);
  }

  lemma SoundFrameStep(w: World, sh: Shared, cancelled: bool, f: Frame, fails: bool)
    requires SoundFrame(w, sh.nodes.Keys, f) && SoundShared(w, sh)
    ensures var (sh1, frames) := StepFrame(w, sh, cancelled, f, fails);
            sh.nodes.Keys <= sh1.nodes.Keys && SoundStack(w, sh1.nodes.Keys, frames) && SoundShared(w, sh1)
  {
    match f.at
    case Record => SoundRecord(w, sh, f);
    case Fetch(i) => if i < |f.kids| { HoverTypes(w, f.kids[i].target, fails); }
    case Emit(_, _) => SoundEmit(w, sh, f);
    case _ =>
  }

  lemma SoundStep(w: World, s: State, t: nat, fails: bool)
    requires Sound(w, s) && t < |s.threads| && s.threads[t] != []
    ensures Sound(w, StepThread(w, s, t, fails))
  {
    var s1 := StepThread(w, s, t, fails);
    var names, names1 := s.shared.nodes.Keys, s1.shared.nodes.Keys;
    assert SoundStack(w, names, s.threads[t]) && Top(s.threads[t]) in s.threads[t];
    SoundFrameStep(w, s.shared, s.cancelled, Top(s.threads[t]), fails);
    forall u | 0 <= u < |s1.threads| ensures SoundStack(w, names1, s1.threads[u]) {
      MoreNamesStack(w, names, names1, s.threads[u]);
    }
  }

  lemma {:induction false} RunIsSound(w: World, schedule: seq<Choice>)
    ensures Sound(w, Run(w, schedule))
  {
    if schedule != [] {
      RunIsSound(w, schedule[..|schedule| - 1]);
      var s, c := Run(w, schedule[..|schedule| - 1]), schedule[|schedule| - 1];
      if !c.Cancel? && c.t < |s.threads| && s.threads[c.t] != [] {
        SoundStep(w, s, c.t, c.Fail?);
      }
    }
  }

  /** Whatever the schedule, failures and cancellation, every recorded node is within depth hops of a root. */
  lemma NodesWithinDepth(w: World, schedule: seq<Choice>, key: Id)
    requires key in Run(w, schedule).shared.nodes
    ensures exists s, d: nat ::
              Hops(w, s, d) && d <= w.depth && NodeFor(key, Run(w, schedule).shared.nodes[key], s)
  {
    RunIsSound(w, schedule);
    assert Within(w, key, Run(w, schedule).shared.nodes[key]);
  }

  /** And every recorded edge is, field by field, a relation of a symbol fewer than depth hops from a root, with its
      caller among the nodes, and its callee too if that is in the workspace. */
  lemma EdgesWithinDepth(w: World, schedule: seq<Choice>, n: nat)
    requires n < |Run(w, schedule).shared.edges|
    ensures var e, names := Run(w, schedule).shared.edges[n], Run(w, schedule).shared.nodes.Keys;
      && (exists s, d: nat, i :: RelationOf(w, names, e, s, d, i))
      && TypesFor(w, e.info, e.calleePkg.text + "." + e.callee.text)
  {
    RunIsSound(w, schedule);
    assert RecordedCall(w, Run(w, schedule).shared.nodes.Keys, Run(w, schedule).shared.edges[n]);
  }
}
