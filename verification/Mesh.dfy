/** The hierarchical mesh: symbols in files in packages in components (mesh.go). */
module Mesh {

  datatype Symbol = Symbol(pkg: string, name: string, file: string)

  datatype MeshNode = MeshNode(level: nat, parent: string, children: seq<string>)

  const SYMBOL := 0
  const FILE := 1
  const PACKAGE := 2
  const COMPONENT := 3

  type Nodes = map<string, MeshNode>

  // ----- Keys -----

  function FQN(s: Symbol): string {
    if s.pkg == "" then s.name else s.pkg + "." + s.name
  }

  function AfterLastSlash(p: string): string {
    if p == [] then [] else if p[|p| - 1] == '/' then [] else AfterLastSlash(p[..|p| - 1]) + [p[|p| - 1]]
  }

  function TrimSlashes(p: string): string {
    if p != [] && p[|p| - 1] == '/' then TrimSlashes(p[..|p| - 1]) else p
  }

  /** filepath.Base. */
  function Base(p: string): string {
    if p == "" then "."
    else if TrimSlashes(p) == "" then "/"
    else AfterLastSlash(TrimSlashes(p))
  }

  function FileKey(s: Symbol): string {
    if s.file == "" then s.pkg + "/(unknown)" else s.pkg + "/" + Base(s.file)
  }

  // ----- Components -----

  predicate Matches(c: string, pkg: string) {
    pkg == c || c + "/" <= pkg
  }

  /** The first match in the sorted names, the package itself when there is none. */
  function ComponentOf(sorted: seq<string>, pkg: string): string {
    if sorted == [] then (if pkg == "" then "(root)" else pkg)
    else if Matches(sorted[0], pkg) then sorted[0]
    else ComponentOf(sorted[1..], pkg)
  }

  ghost predicate LongestFirst(names: seq<string>) {
    forall i, j :: 0 <= i < j < |names| ==> |names[i]| >= |names[j]|
  }

  lemma {:induction false} FirstIsLongest(sorted: seq<string>, pkg: string)
    requires LongestFirst(sorted)
    ensures forall c :: c in sorted && Matches(c, pkg) ==>
              ComponentOf(sorted, pkg) in sorted && Matches(ComponentOf(sorted, pkg), pkg) &&
              |c| <= |ComponentOf(sorted, pkg)|
    ensures (forall c :: c in sorted ==> !Matches(c, pkg)) ==>
            ComponentOf(sorted, pkg) == if pkg == "" then "(root)" else pkg
  {
    if sorted != [] && !Matches(sorted[0], pkg) {
      FirstIsLongest(sorted[1..], pkg);
      forall c | c in sorted && Matches(c, pkg) ensures c in sorted[1..] {}
    }
  }

  /** pkg is c itself or a path below it. */
  ghost predicate Covers(c: string, pkg: string) {
    c == pkg || (|c| < |pkg| && pkg[..|c|] == c && pkg[|c|] == '/')
  }

  lemma MatchesIs(c: string, pkg: string)
    ensures Matches(c, pkg) <==> Covers(c, pkg)
  {
    if c + "/" <= pkg {
      assert pkg[..|c|] == (c + "/")[..|c|] && pkg[|c|] == (c + "/")[|c|];
    }
    if |c| < |pkg| && pkg[..|c|] == c && pkg[|c|] == '/' {
      assert pkg[..|c| + 1] == c + "/";
    }
  }

  /** The component of a package is a listed name that covers it, and none that does is longer; without any it is the
      package, or the root when that is unnamed. */
  lemma ComponentIs(sorted: seq<string>, pkg: string)
    requires LongestFirst(sorted)
    ensures var r := ComponentOf(sorted, pkg);
      && (forall d :: d in sorted && Covers(d, pkg) ==> |d| <= |r|)
      && ((exists d :: d in sorted && Covers(d, pkg)) ==> r in sorted && Covers(r, pkg))
      && ((forall d :: d in sorted ==> !Covers(d, pkg)) ==> r == if |pkg| == 0 then "(root)" else pkg)
  {
    FirstIsLongest(sorted, pkg);
    forall d ensures Matches(d, pkg) <==> Covers(d, pkg) { MatchesIs(d, pkg); }
  }

  /** The component is the longest matching name, so it does not depend on how equal lengths were sorted. */
  lemma ComponentIsLongest(sorted: seq<string>, pkg: string, c: string)
    requires LongestFirst(sorted) && c in sorted && Covers(c, pkg)
    requires forall d :: d in sorted && Covers(d, pkg) ==> |d| <= |c|
    ensures ComponentOf(sorted, pkg) == c
  {
    ComponentIs(sorted, pkg);
    assert c == pkg[..|c|] == ComponentOf(sorted, pkg);
  }

  lemma ComponentIdempotent(sorted: seq<string>, pkg: string)
    requires LongestFirst(sorted) && pkg != ""
    ensures ComponentOf(sorted, ComponentOf(sorted, pkg)) == ComponentOf(sorted, pkg)
  {
    var c := ComponentOf(sorted, pkg);
    ComponentIs(sorted, pkg);
    if c in sorted && Covers(c, pkg) {
      forall d | d in sorted && Covers(d, c) ensures |d| <= |c| {}
      ComponentIsLongest(sorted, c, c);
    }
  }

  method ResolveComponent(sorted: seq<string>, pkg: string) returns (c: string)
    ensures c == ComponentOf(sorted, pkg)
  {
    for i := 0 to |sorted|
      invariant ComponentOf(sorted, pkg) == ComponentOf(sorted[i..], pkg)
    {
      if Matches(sorted[i], pkg) {
        return sorted[i];
      }
    }
    c := if pkg == "" then "(root)" else pkg;
  }

  // ----- Keys determine their package -----

  lemma {:induction false} AfterLastSlashFree(p: string)
    ensures '/' !in AfterLastSlash(p)
    ensures p != "" && p[|p| - 1] != '/' ==> AfterLastSlash(p) != ""
  {
    if p != [] && p[|p| - 1] != '/' {
      AfterLastSlashFree(p[..|p| - 1]);
    }
  }

  lemma {:induction false} TrimmedEnd(p: string)
    ensures TrimSlashes(p) != "" ==> TrimSlashes(p)[|TrimSlashes(p)| - 1] != '/'
  {
    if p != [] && p[|p| - 1] == '/' {
      TrimmedEnd(p[..|p| - 1]);
    }
  }

  /** A base name has no slash in it, except that the base name of a path of slashes is a slash. */
  lemma BaseShape(p: string)
    ensures Base(p) == "/" || (Base(p) != "" && '/' !in Base(p))
  {
    AfterLastSlashFree(TrimSlashes(p));
    TrimmedEnd(p);
  }

  lemma {:induction false} AfterLastSlashIs(p: string) returns (dir: string)
    ensures p == dir + AfterLastSlash(p) && (dir == "" || dir[|dir| - 1] == '/')
  {
    if p == [] || p[|p| - 1] == '/' {
      dir := p;
    } else {
      var front, c := p[..|p| - 1], p[|p| - 1];
      dir := AfterLastSlashIs(front);
      assert p == front + [c];
      assert dir + (AfterLastSlash(front) + [c]) == (dir + AfterLastSlash(front)) + [c];
    }
  }

  ghost predicate Slashes(p: string) {
    forall i :: 0 <= i < |p| ==> p[i] == '/'
  }

  lemma {:induction false} TrimmedIs(p: string) returns (slashes: string)
    ensures p == TrimSlashes(p) + slashes && Slashes(slashes)
  {
    if p != [] && p[|p| - 1] == '/' {
      var front, c := p[..|p| - 1], p[|p| - 1];
      slashes := TrimmedIs(front);
      assert p == front + [c];
      assert TrimSlashes(front) + (slashes + [c]) == (TrimSlashes(front) + slashes) + [c];
      slashes := slashes + [c];
    } else {
      slashes := "";
    }
  }

  lemma {:induction false} OnlySlashesTrimmed(p: string)
    ensures TrimSlashes(p) == "" <==> Slashes(p)
  {
    if p != [] && p[|p| - 1] == '/' {
      OnlySlashesTrimmed(p[..|p| - 1]);
    }
  }

  /** A path is a directory, its base name, and slashes, unless it is empty or only slashes. */
  lemma BaseIs(p: string) returns (dir: string, slashes: string)
    ensures |p| == 0 ==> Base(p) == "."
    ensures |p| > 0 && Slashes(p) ==> Base(p) == "/"
    ensures !Slashes(p) ==>
              && p == dir + Base(p) + slashes && Base(p) != "" && '/' !in Base(p)
              && (dir == "" || dir[|dir| - 1] == '/') && Slashes(slashes)
  {
    var q := TrimSlashes(p);
    OnlySlashesTrimmed(p);
    slashes := TrimmedIs(p);
    dir := AfterLastSlashIs(q);
    AfterLastSlashFree(q);
    TrimmedEnd(p);
  }

  /** The keys of a symbol and its file. */
  lemma KeysAre(s: Symbol)
    ensures s.pkg == "" ==> FQN(s) == s.name
    ensures s.pkg != "" ==> FQN(s) == s.pkg + "." + s.name
    ensures s.file == "" ==> FileKey(s) == s.pkg + "/(unknown)"
    ensures s.file != "" ==> FileKey(s) == s.pkg + "/" + Base(s.file)
  {
  }

  function LastPart(s: Symbol): string {
    if s.file == "" then "(unknown)" else Base(s.file)
  }

  lemma SlashInside(a: string, x: string, b: string, y: string)
    requires a + "/" + x == b + "/" + y && |b| < |a|
    ensures |y| >= |x| + 1 && '/' in y
  {
    var w := a + "/" + x;
    assert |w| == |a| + 1 + |x| == |b| + 1 + |y|;
    assert w[|a|] == '/';
    assert w[|a|] == y[|a| - |b| - 1];
  }

  lemma SplitsAtLastSlash(a: string, x: string, b: string, y: string)
    requires a + "/" + x == b + "/" + y && x != ""
    requires y == "/" || '/' !in y
    ensures |a| <= |b|
  {
    if |b| < |a| {
      SlashInside(a, x, b, y);
    }
  }

  /** Two symbols with the same file key are in the same package. */
  lemma FileKeyHasOnePackage(s: Symbol, t: Symbol)
    requires FileKey(s) == FileKey(t)
    ensures s.pkg == t.pkg
  {
    BaseShape(s.file);
    BaseShape(t.file);
    var x, y := LastPart(s), LastPart(t);
    assert FileKey(s) == s.pkg + "/" + x && FileKey(t) == t.pkg + "/" + y;
    SplitsAtLastSlash(s.pkg, x, t.pkg, y);
    SplitsAtLastSlash(t.pkg, y, s.pkg, x);
    assert s.pkg == FileKey(s)[..|s.pkg|] == t.pkg;
  }

  // ----- Building -----

  function AppendUnique(slice: seq<string>, s: string): seq<string> {
    if s in slice then slice else slice + [s]
  }

  /** Creates the node at k if it is missing, and adds a child to it. */
  function WithChild(nodes: Nodes, k: string, blank: MeshNode, child: string): Nodes {
    var existing := if k in nodes then nodes[k] else blank;
    nodes[k := existing.(children := AppendUnique(existing.children, child))]
  }

  /** Creates the component, or turns the node of that name into one. */
  function WithComponent(nodes: Nodes, k: string): Nodes {
    if k !in nodes then nodes[k := MeshNode(COMPONENT, "", [])]
    else if nodes[k].level < COMPONENT then nodes[k := nodes[k].(level := COMPONENT)]
    else nodes
  }

  /** The nodes after one more symbol. */
  function Place(sorted: seq<string>, nodes: Nodes, s: Symbol): Nodes {
    var fqn, file, comp := FQN(s), FileKey(s), ComponentOf(sorted, s.pkg);
    var a := nodes[fqn := MeshNode(SYMBOL, file, [])];
    var b := WithChild(a, file, MeshNode(FILE, s.pkg, []), fqn);
    var c := WithChild(b, s.pkg, MeshNode(PACKAGE, comp, []), file);
    var d := WithComponent(c, comp);
    if s.pkg != comp then WithChild(d, comp, MeshNode(COMPONENT, "", []), s.pkg) else d
  }

  function NodesOf(sorted: seq<string>, syms: seq<Symbol>): Nodes {
    if syms == [] then map[]
    else Place(sorted, NodesOf(sorted, syms[..|syms| - 1]), syms[|syms| - 1])
  }

  /** The body of the loop of BuildMesh. */
  method PlaceSymbol(sorted: seq<string>, nodes0: Nodes, sym: Symbol) returns (nodes: Nodes)
    ensures nodes == Place(sorted, nodes0, sym)
  {
    nodes := nodes0;
    var fqn := FQN(sym);
    var fileKey := sym.pkg + "/" + Base(sym.file);
    if sym.file == "" {
      fileKey := sym.pkg + "/(unknown)";
    }
    nodes := nodes[fqn := MeshNode(SYMBOL, fileKey, [])];
    ghost var a := nodes;

    if fileKey !in nodes {
      nodes := nodes[fileKey := MeshNode(FILE, sym.pkg, [])];
    }
    var fn := nodes[fileKey];
    nodes := nodes[fileKey := fn.(children := AppendUnique(fn.children, fqn))];
    assert nodes == WithChild(a, fileKey, MeshNode(FILE, sym.pkg, []), fqn);
    ghost var b := nodes;

    var comp := ResolveComponent(sorted, sym.pkg);
    if sym.pkg !in nodes {
      nodes := nodes[sym.pkg := MeshNode(PACKAGE, comp, [])];
    }
    var pn := nodes[sym.pkg];
    nodes := nodes[sym.pkg := pn.(children := AppendUnique(pn.children, fileKey))];
    assert nodes == WithChild(b, sym.pkg, MeshNode(PACKAGE, comp, []), fileKey);

    if comp !in nodes {
      nodes := nodes[comp := MeshNode(COMPONENT, "", [])];
    } else if nodes[comp].level < COMPONENT {
      nodes := nodes[comp := nodes[comp].(level := COMPONENT)];
    }
    ghost var d := nodes;
    var cn := nodes[comp];
    if sym.pkg != comp {
      cn := cn.(children := AppendUnique(cn.children, sym.pkg));
    }
    nodes := nodes[comp := cn];
    assert nodes == if sym.pkg != comp then WithChild(d, comp, MeshNode(COMPONENT, "", []), sym.pkg) else d;
  }

  method BuildMesh(sorted: seq<string>, syms: seq<Symbol>) returns (nodes: Nodes)
    ensures nodes == NodesOf(sorted, syms)
  {
    nodes := map[];
    for i := 0 to |syms|
      invariant nodes == NodesOf(sorted, syms[..i])
    {
      nodes := PlaceSymbol(sorted, nodes, syms[i]);
      assert syms[..i + 1][..i] == syms[..i];
    }
    assert syms[..|syms|] == syms;
  }

  // ----- Every node keeps the level and parent of its kind -----

  ghost predicate Apart(sorted: seq<string>, s: Symbol, t: Symbol) {
    && FQN(s) != FileKey(t) && FQN(s) != t.pkg && FQN(s) != ComponentOf(sorted, t.pkg)
    && FileKey(s) != t.pkg && FileKey(s) != ComponentOf(sorted, t.pkg)
    && (FQN(s) == FQN(t) ==> s.pkg == t.pkg)
  }

  /** Packages and components are named, and no key is used at two levels, a package that is its own component aside. */
  ghost predicate NoClash(sorted: seq<string>, syms: seq<Symbol>) {
    && LongestFirst(sorted)
    && (forall s :: s in syms ==> s.pkg != "" && ComponentOf(sorted, s.pkg) != "")
    && (forall s, t {:trigger Apart(sorted, s, t)} :: s in syms && t in syms ==> Apart(sorted, s, t))
  }

  /** A node at k with this level and parent is right as far as symbol s is concerned. */
  ghost predicate Right(sorted: seq<string>, k: string, level: nat, parent: string, s: Symbol) {
    var comp := ComponentOf(sorted, s.pkg);
    && (k == FQN(s) ==> level == SYMBOL)
    && (k == FileKey(s) ==> level == FILE && parent == s.pkg)
    && (k == s.pkg && k != comp ==> level == PACKAGE && parent == comp)
    && (k == comp ==> level == COMPONENT && (parent == "" || parent == k))
  }

  ghost predicate RightFor(sorted: seq<string>, k: string, level: nat, parent: string, syms: seq<Symbol>) {
    forall s {:trigger Right(sorted, k, level, parent, s)} :: s in syms ==> Right(sorted, k, level, parent, s)
  }

  ghost predicate AllRight(sorted: seq<string>, nodes: Nodes, syms: seq<Symbol>) {
    forall k :: k in nodes ==> RightFor(sorted, k, nodes[k].level, nodes[k].parent, syms)
  }

  lemma SymbolRight(sorted: seq<string>, syms: seq<Symbol>, t: Symbol, parent: string)
    requires NoClash(sorted, syms) && t in syms
    ensures RightFor(sorted, FQN(t), SYMBOL, parent, syms)
  {
    forall s | s in syms ensures Right(sorted, FQN(t), SYMBOL, parent, s) {
      assert Apart(sorted, t, s);
    }
  }

  lemma FileRight(sorted: seq<string>, syms: seq<Symbol>, t: Symbol)
    requires NoClash(sorted, syms) && t in syms
    ensures RightFor(sorted, FileKey(t), FILE, t.pkg, syms)
  {
    forall s | s in syms ensures Right(sorted, FileKey(t), FILE, t.pkg, s) {
      assert Apart(sorted, t, s) && Apart(sorted, s, t);
      if FileKey(t) == FileKey(s) {
        FileKeyHasOnePackage(s, t);
      }
    }
  }

  lemma PackageRight(sorted: seq<string>, syms: seq<Symbol>, t: Symbol)
    requires NoClash(sorted, syms) && t in syms && ComponentOf(sorted, t.pkg) != t.pkg
    ensures RightFor(sorted, t.pkg, PACKAGE, ComponentOf(sorted, t.pkg), syms)
  {
    forall s | s in syms ensures Right(sorted, t.pkg, PACKAGE, ComponentOf(sorted, t.pkg), s) {
      assert Apart(sorted, s, t);
      ComponentIdempotent(sorted, s.pkg);
    }
  }

  lemma ComponentRight(sorted: seq<string>, syms: seq<Symbol>, t: Symbol, parent: string)
    requires NoClash(sorted, syms) && t in syms && (parent == "" || parent == ComponentOf(sorted, t.pkg))
    ensures RightFor(sorted, ComponentOf(sorted, t.pkg), COMPONENT, parent, syms)
  {
    forall s | s in syms ensures Right(sorted, ComponentOf(sorted, t.pkg), COMPONENT, parent, s) {
      assert Apart(sorted, s, t);
      ComponentIdempotent(sorted, t.pkg);
    }
  }

  lemma WithChildRight(sorted: seq<string>, nodes: Nodes, syms: seq<Symbol>, k: string, blank: MeshNode, child: string)
    requires AllRight(sorted, nodes, syms) && RightFor(sorted, k, blank.level, blank.parent, syms)
    ensures AllRight(sorted, WithChild(nodes, k, blank, child), syms)
  {
    var after := WithChild(nodes, k, blank, child);
    forall j | j in after ensures RightFor(sorted, j, after[j].level, after[j].parent, syms) {
      if j != k {
        assert after[j] == nodes[j];
      }
    }
  }

  /** The last two steps of Place, when the package is its own component: one node plays both parts. */
  lemma OwnComponent(sorted: seq<string>, nodes: Nodes, syms: seq<Symbol>, s: Symbol, child: string)
    requires AllRight(sorted, nodes, syms) && s in syms && ComponentOf(sorted, s.pkg) == s.pkg
    ensures WithComponent(WithChild(nodes, s.pkg, MeshNode(PACKAGE, s.pkg, []), child), s.pkg) ==
            WithChild(nodes, s.pkg, MeshNode(COMPONENT, s.pkg, []), child)
  {
    if s.pkg in nodes {
      assert RightFor(sorted, s.pkg, nodes[s.pkg].level, nodes[s.pkg].parent, syms);
      assert Right(sorted, s.pkg, nodes[s.pkg].level, nodes[s.pkg].parent, s);
    }
  }

  /** The component step, when the package is not its own component. */
  lemma OtherComponent(sorted: seq<string>, nodes: Nodes, syms: seq<Symbol>, s: Symbol, child: string)
    requires AllRight(sorted, nodes, syms) && s in syms
    ensures WithChild(WithComponent(nodes, ComponentOf(sorted, s.pkg)), ComponentOf(sorted, s.pkg),
            MeshNode(COMPONENT, "", []), child)
         == WithChild(nodes, ComponentOf(sorted, s.pkg), MeshNode(COMPONENT, "", []), child)
  {
    var k := ComponentOf(sorted, s.pkg);
    if k in nodes {
      assert RightFor(sorted, k, nodes[k].level, nodes[k].parent, syms);
      assert Right(sorted, k, nodes[k].level, nodes[k].parent, s);
    }
  }

  /** Place in its simplest form: one symbol node, then one new child for each of its ancestors. */
  function Chain(sorted: seq<string>, nodes: Nodes, s: Symbol): Nodes {
    var fqn, file, comp := FQN(s), FileKey(s), ComponentOf(sorted, s.pkg);
    var a := nodes[fqn := MeshNode(SYMBOL, file, [])];
    var b := WithChild(a, file, MeshNode(FILE, s.pkg, []), fqn);
    if s.pkg == comp then WithChild(b, comp, MeshNode(COMPONENT, comp, []), file)
    else WithChild(WithChild(b, s.pkg, MeshNode(PACKAGE, comp, []), file), comp, MeshNode(COMPONENT, "", []), s.pkg)
  }

  lemma PlaceRight(sorted: seq<string>, nodes: Nodes, syms: seq<Symbol>, s: Symbol)
    requires NoClash(sorted, syms) && s in syms && AllRight(sorted, nodes, syms)
    ensures AllRight(sorted, Place(sorted, nodes, s), syms)
    ensures Place(sorted, nodes, s) == Chain(sorted, nodes, s)
  {
    var fqn, file, comp := FQN(s), FileKey(s), ComponentOf(sorted, s.pkg);
    var a := nodes[fqn := MeshNode(SYMBOL, file, [])];
    SymbolRight(sorted, syms, s, file);
    assert AllRight(sorted, a, syms);
    FileRight(sorted, syms, s);
    WithChildRight(sorted, a, syms, file, MeshNode(FILE, s.pkg, []), fqn);
    var b := WithChild(a, file, MeshNode(FILE, s.pkg, []), fqn);
    ComponentRight(sorted, syms, s, comp);
    ComponentRight(sorted, syms, s, "");
    if s.pkg == comp {
      OwnComponent(sorted, b, syms, s, file);
      WithChildRight(sorted, b, syms, comp, MeshNode(COMPONENT, comp, []), file);
    } else {
      PackageRight(sorted, syms, s);
      WithChildRight(sorted, b, syms, s.pkg, MeshNode(PACKAGE, comp, []), file);
      var c := WithChild(b, s.pkg, MeshNode(PACKAGE, comp, []), file);
      OtherComponent(sorted, c, syms, s, s.pkg);
      WithChildRight(sorted, c, syms, comp, MeshNode(COMPONENT, "", []), s.pkg);
    }
  }

  lemma {:induction false} NodesRight(sorted: seq<string>, syms: seq<Symbol>, done: seq<Symbol>)
    requires NoClash(sorted, syms) && forall s :: s in done ==> s in syms
    ensures AllRight(sorted, NodesOf(sorted, done), syms)
  {
    if done != [] {
      NodesRight(sorted, syms, done[..|done| - 1]);
      PlaceRight(sorted, NodesOf(sorted, done[..|done| - 1]), syms, done[|done| - 1]);
    }
  }

  /** The file of the last symbol with this name. */
  ghost function FileOf(syms: seq<Symbol>, fqn: string): string {
    if syms == [] then ""
    else if FQN(syms[|syms| - 1]) == fqn then FileKey(syms[|syms| - 1])
    else FileOf(syms[..|syms| - 1], fqn)
  }

  ghost predicate AllPlaced(sorted: seq<string>, nodes: Nodes, s: Symbol) {
    FQN(s) in nodes && FileKey(s) in nodes && s.pkg in nodes && ComponentOf(sorted, s.pkg) in nodes
  }

  lemma PlaceKeeps(sorted: seq<string>, nodes: Nodes, syms: seq<Symbol>, s: Symbol)
    requires NoClash(sorted, syms) && s in syms && AllRight(sorted, nodes, syms)
    ensures nodes.Keys <= Place(sorted, nodes, s).Keys && AllPlaced(sorted, Place(sorted, nodes, s), s)
    ensures forall t :: t in syms && FQN(t) in nodes && FQN(t) != FQN(s) ==>
            Place(sorted, nodes, s)[FQN(t)] == nodes[FQN(t)]
    ensures Place(sorted, nodes, s)[FQN(s)] == MeshNode(SYMBOL, FileKey(s), [])
  {
    PlaceRight(sorted, nodes, syms, s);
    forall t | t in syms ensures Apart(sorted, t, s) {}
  }

  lemma {:induction false} NodesPlaced(sorted: seq<string>, syms: seq<Symbol>, done: seq<Symbol>, s: Symbol)
    requires NoClash(sorted, syms) && s in done && forall t :: t in done ==> t in syms
    ensures AllPlaced(sorted, NodesOf(sorted, done), s)
    ensures NodesOf(sorted, done)[FQN(s)] == MeshNode(SYMBOL, FileOf(done, FQN(s)), [])
  {
    var rest, last := done[..|done| - 1], done[|done| - 1];
    assert done == rest + [last];
    NodesRight(sorted, syms, rest);
    PlaceKeeps(sorted, NodesOf(sorted, rest), syms, last);
    if s in rest {
      NodesPlaced(sorted, syms, rest, s);
    }
  }

  /** k is the key of a symbol, or of its file, package or component. */
  ghost predicate KeyOf(sorted: seq<string>, s: Symbol, k: string) {
    k == FQN(s) || k == FileKey(s) || k == s.pkg || k == ComponentOf(sorted, s.pkg)
  }

  lemma PlaceAdds(sorted: seq<string>, nodes: Nodes, s: Symbol, k: string)
    ensures k in Place(sorted, nodes, s) <==> k in nodes || KeyOf(sorted, s, k)
  {
  }

  /** The mesh has exactly these nodes, for all symbols and component names. */
  lemma {:induction false} NodesAre(sorted: seq<string>, syms: seq<Symbol>, k: string)
    ensures k in NodesOf(sorted, syms) <==> exists s :: s in syms && KeyOf(sorted, s, k)
  {
    if syms != [] {
      var rest, last := syms[..|syms| - 1], syms[|syms| - 1];
      NodesAre(sorted, rest, k);
      assert syms == rest + [last];
      PlaceAdds(sorted, NodesOf(sorted, rest), last, k);
    }
  }

  ghost predicate NoRepeats(list: seq<string>) {
    forall i, j :: 0 <= i < j < |list| ==> list[i] != list[j]
  }

  /** Every node of before but the one at fqn keeps its children in after, in order, with new ones behind them. */
  ghost predicate ChildrenKept(before: Nodes, after: Nodes, fqn: string) {
    forall k :: k in before && k != fqn ==> k in after && before[k].children <= after[k].children
  }

  ghost predicate ChildrenOnce(nodes: Nodes) {
    forall k :: k in nodes ==> NoRepeats(nodes[k].children)
  }

  /** after has no repeated children and keeps those of before. */
  ghost predicate Grown(before: Nodes, after: Nodes, fqn: string) {
    ChildrenOnce(after) && ChildrenKept(before, after, fqn)
  }

  lemma GrownTwice(a: Nodes, b: Nodes, c: Nodes, fqn: string)
    requires Grown(a, b, fqn) && Grown(b, c, fqn)
    ensures Grown(a, c, fqn)
  {
    forall k | k in a && k != fqn ensures k in c && a[k].children <= c[k].children {
      assert k in b && a[k].children <= b[k].children <= c[k].children;
    }
  }

  lemma WithChildGrows(start: Nodes, nodes: Nodes, k: string, blank: MeshNode, child: string, fqn: string)
    requires Grown(start, nodes, fqn) && blank.children == []
    ensures Grown(start, WithChild(nodes, k, blank, child), fqn)
  {
    assert Grown(nodes, WithChild(nodes, k, blank, child), fqn);
    GrownTwice(start, nodes, WithChild(nodes, k, blank, child), fqn);
  }

  lemma WithComponentGrows(start: Nodes, nodes: Nodes, k: string, fqn: string)
    requires Grown(start, nodes, fqn)
    ensures Grown(start, WithComponent(nodes, k), fqn)
  {
    assert Grown(nodes, WithComponent(nodes, k), fqn);
    GrownTwice(start, nodes, WithComponent(nodes, k), fqn);
  }

  lemma PlaceGrows(sorted: seq<string>, nodes: Nodes, s: Symbol)
    requires ChildrenOnce(nodes)
    ensures Grown(nodes, Place(sorted, nodes, s), FQN(s))
  {
    var fqn, file, comp := FQN(s), FileKey(s), ComponentOf(sorted, s.pkg);
    var a := nodes[fqn := MeshNode(SYMBOL, file, [])];
    assert Grown(nodes, a, fqn);
    WithChildGrows(nodes, a, file, MeshNode(FILE, s.pkg, []), fqn, fqn);
    var b := WithChild(a, file, MeshNode(FILE, s.pkg, []), fqn);
    WithChildGrows(nodes, b, s.pkg, MeshNode(PACKAGE, comp, []), file, fqn);
    var c := WithChild(b, s.pkg, MeshNode(PACKAGE, comp, []), file);
    WithComponentGrows(nodes, c, comp, fqn);
    WithChildGrows(nodes, WithComponent(c, comp), comp, MeshNode(COMPONENT, "", []), s.pkg, fqn);
  }

  /** Children are listed once each, and in the order in which they are first placed. */
  lemma {:induction false} ChildrenListedOnce(sorted: seq<string>, syms: seq<Symbol>)
    ensures ChildrenOnce(NodesOf(sorted, syms))
    ensures syms != [] ==> var n := |syms| - 1;
      ChildrenKept(NodesOf(sorted, syms[..n]), NodesOf(sorted, syms), FQN(syms[n]))
  {
    if syms != [] {
      ChildrenListedOnce(sorted, syms[..|syms| - 1]);
      PlaceGrows(sorted, NodesOf(sorted, syms[..|syms| - 1]), syms[|syms| - 1]);
    }
  }

  // ----- Children are the inverse of parent -----

  ghost predicate Child(nodes: Nodes, x: string, y: string) {
    y in nodes && x in nodes[y].children
  }

  ghost predicate Under(nodes: Nodes, x: string, y: string) {
    x in nodes && nodes[x].parent == y && x != y && y != ""
  }

  ghost predicate LinkedBut(nodes: Nodes, n: string, p: string) {
    forall x, y {:trigger Child(nodes, x, y)} {:trigger Under(nodes, x, y)} ::
      x != n || y != p ==> (Child(nodes, x, y) <==> Under(nodes, x, y))
  }

  ghost predicate Linked(nodes: Nodes) {
    forall x, y {:trigger Child(nodes, x, y)} {:trigger Under(nodes, x, y)} ::
      Child(nodes, x, y) <==> Under(nodes, x, y)
  }

  /** Adding the missing child leaves at most one link open: that of a node just created to its parent. */
  lemma WithChildLinked(nodes: Nodes, n: string, k: string, blank: MeshNode)
    requires LinkedBut(nodes, n, k) && Under(nodes, n, k) && blank.children == []
    ensures LinkedBut(WithChild(nodes, k, blank, n), k, WithChild(nodes, k, blank, n)[k].parent)
    ensures WithChild(nodes, k, blank, n)[k].parent in {"", k} ==> Linked(WithChild(nodes, k, blank, n))
  {
    var after := WithChild(nodes, k, blank, n);
    var q := after[k].parent;
    forall x, y
      ensures Child(after, x, y) <==> Child(nodes, x, y) || (x == n && y == k)
      ensures x != k ==> (Under(after, x, y) <==> Under(nodes, x, y))
      ensures x == k && y != q ==> !Under(after, x, y)
      ensures x == k && (x != n || y != k) && y != q ==> !Child(after, x, y)
    {
      assert Child(nodes, x, y) || !Child(nodes, x, y);
      assert Under(nodes, x, y) || !Under(nodes, x, y);
    }
  }

  /** Symbols of one name are in one file. */
  ghost predicate OneFile(syms: seq<Symbol>) {
    forall s, t :: s in syms && t in syms && FQN(s) == FQN(t) ==> FileKey(s) == FileKey(t)
  }

  lemma SymbolLinked(nodes: Nodes, fqn: string, file: string)
    requires Linked(nodes) && fqn != "" && file != "" && fqn != file
    requires fqn in nodes ==> nodes[fqn] == MeshNode(SYMBOL, file, [])
    ensures LinkedBut(nodes[fqn := MeshNode(SYMBOL, file, [])], fqn, file)
  {
    var a := nodes[fqn := MeshNode(SYMBOL, file, [])];
    if fqn in nodes {
      assert a == nodes;
    } else {
      forall x, y | x != fqn || y != file ensures Child(a, x, y) <==> Under(a, x, y) {
        assert Child(nodes, x, y) <==> Under(nodes, x, y);
      }
    }
  }

  lemma PlaceLinked(sorted: seq<string>, nodes: Nodes, syms: seq<Symbol>, s: Symbol)
    requires NoClash(sorted, syms) && s in syms && AllRight(sorted, nodes, syms) && Linked(nodes)
    requires FQN(s) in nodes ==> nodes[FQN(s)] == MeshNode(SYMBOL, FileKey(s), [])
    ensures Linked(Place(sorted, nodes, s))
  {
    PlaceRight(sorted, nodes, syms, s);
    var fqn, file, comp := FQN(s), FileKey(s), ComponentOf(sorted, s.pkg);
    assert Apart(sorted, s, s);
    var a := nodes[fqn := MeshNode(SYMBOL, file, [])];
    SymbolLinked(nodes, fqn, file);
    SymbolRight(sorted, syms, s, file);
    assert AllRight(sorted, a, syms);
    FileRight(sorted, syms, s);
    WithChildRight(sorted, a, syms, file, MeshNode(FILE, s.pkg, []), fqn);
    WithChildLinked(a, fqn, file, MeshNode(FILE, s.pkg, []));
    var b := WithChild(a, file, MeshNode(FILE, s.pkg, []), fqn);
    NodeIsRight(sorted, b, syms, file, s);
    ComponentRight(sorted, syms, s, comp);
    ComponentRight(sorted, syms, s, "");
    if s.pkg == comp {
      var d := WithChild(b, comp, MeshNode(COMPONENT, comp, []), file);
      WithChildRight(sorted, b, syms, comp, MeshNode(COMPONENT, comp, []), file);
      WithChildLinked(b, file, comp, MeshNode(COMPONENT, comp, []));
      NodeIsRight(sorted, d, syms, comp, s);
    } else {
      PackageRight(sorted, syms, s);
      WithChildRight(sorted, b, syms, s.pkg, MeshNode(PACKAGE, comp, []), file);
      WithChildLinked(b, file, s.pkg, MeshNode(PACKAGE, comp, []));
      var c := WithChild(b, s.pkg, MeshNode(PACKAGE, comp, []), file);
      NodeIsRight(sorted, c, syms, s.pkg, s);
      var d := WithChild(c, comp, MeshNode(COMPONENT, "", []), s.pkg);
      WithChildRight(sorted, c, syms, comp, MeshNode(COMPONENT, "", []), s.pkg);
      WithChildLinked(c, s.pkg, comp, MeshNode(COMPONENT, "", []));
      NodeIsRight(sorted, d, syms, comp, s);
    }
  }

  lemma NodeIsRight(sorted: seq<string>, nodes: Nodes, syms: seq<Symbol>, k: string, s: Symbol)
    requires AllRight(sorted, nodes, syms) && s in syms && k in nodes
    ensures Right(sorted, k, nodes[k].level, nodes[k].parent, s)
  {
    assert RightFor(sorted, k, nodes[k].level, nodes[k].parent, syms);
  }

  /** When a name stands for one file, the children of every node are exactly the nodes whose parent it is. */
  lemma {:induction false} ChildrenInvertParent(sorted: seq<string>, syms: seq<Symbol>, done: seq<Symbol>)
    requires NoClash(sorted, syms) && OneFile(syms) && forall s :: s in done ==> s in syms
    ensures Linked(NodesOf(sorted, done))
  {
    if done != [] {
      var rest, s := done[..|done| - 1], done[|done| - 1];
      ChildrenInvertParent(sorted, syms, rest);
      NodesRight(sorted, syms, rest);
      var nodes := NodesOf(sorted, rest);
      if FQN(s) in nodes {
        NameInNodes(sorted, syms, rest, s);
      }
      PlaceLinked(sorted, nodes, syms, s);
    }
  }

  /** A symbol's key is a node only once a symbol of that name has been placed. */
  lemma {:induction false} NameInNodes(sorted: seq<string>, syms: seq<Symbol>, done: seq<Symbol>, s: Symbol)
    requires NoClash(sorted, syms) && OneFile(syms) && s in syms && forall t :: t in done ==> t in syms
    requires FQN(s) in NodesOf(sorted, done)
    ensures NodesOf(sorted, done)[FQN(s)] == MeshNode(SYMBOL, FileKey(s), [])
  {
    var rest, last := done[..|done| - 1], done[|done| - 1];
    NodesRight(sorted, syms, rest);
    PlaceKeeps(sorted, NodesOf(sorted, rest), syms, last);
    PlaceRight(sorted, NodesOf(sorted, rest), syms, last);
    assert Apart(sorted, s, last);
    if FQN(s) != FQN(last) {
      NameInNodes(sorted, syms, rest, s);
    }
  }

  // ----- Walking up -----

  const MAX_CLIMB := 10

  /** The ancestor of current at the level, or where the climb ends. */
  function Climb(nodes: Nodes, current: string, level: nat, steps: nat): string
    decreases steps
  {
    if steps == 0 || current !in nodes || nodes[current].level == level || nodes[current].parent == "" then current
    else Climb(nodes, nodes[current].parent, level, steps - 1)
  }

  method ResolveToLevel(nodes: Nodes, fqn: string, level: nat) returns (r: string)
    ensures r == Climb(nodes, fqn, level, 10)
  {
    r := fqn;
    for i := 0 to MAX_CLIMB
      invariant Climb(nodes, fqn, level, MAX_CLIMB) == Climb(nodes, r, level, MAX_CLIMB - i)
    {
      if r !in nodes || nodes[r].level == level || nodes[r].parent == "" {
        return;
      }
      r := nodes[r].parent;
    }
  }

  /** k after so many steps to the parent. */
  function Up(nodes: Nodes, k: string, steps: nat): string {
    if steps == 0 then k
    else
      var below := Up(nodes, k, steps - 1);
      if below in nodes then nodes[below].parent else below
  }

  /** A node from which the climb goes on. */
  ghost predicate Passed(nodes: Nodes, k: string, level: nat) {
    k in nodes && nodes[k].level != level && nodes[k].parent != ""
  }

  lemma {:induction false} UpAfterParent(nodes: Nodes, k: string, steps: nat)
    requires k in nodes
    ensures Up(nodes, nodes[k].parent, steps) == Up(nodes, k, steps + 1)
  {
    if steps > 0 {
      UpAfterParent(nodes, k, steps - 1);
    }
  }

  /** The climb ends at the first node that it does not pass, or after the given number of steps. */
  lemma {:induction false} ClimbIs(nodes: Nodes, k: string, level: nat, steps: nat) returns (n: nat)
    ensures n <= steps && Climb(nodes, k, level, steps) == Up(nodes, k, n)
    ensures forall i: nat :: i < n ==> Passed(nodes, Up(nodes, k, i), level)
    ensures n < steps ==> !Passed(nodes, Up(nodes, k, n), level)
    decreases steps
  {
    if steps == 0 || !Passed(nodes, k, level) {
      n := 0;
    } else {
      var m := ClimbIs(nodes, nodes[k].parent, level, steps - 1);
      n := m + 1;
      forall i: nat | i <= m ensures Up(nodes, nodes[k].parent, i) == Up(nodes, k, i + 1) {
        UpAfterParent(nodes, k, i);
      }
      forall i: nat | i < n ensures Passed(nodes, Up(nodes, k, i), level) {
        if i > 0 {
          assert Passed(nodes, Up(nodes, nodes[k].parent, i - 1), level);
        }
      }
    }
  }

  lemma {:induction false} ClimbInPlace(nodes: Nodes, k: string, level: nat, steps: nat)
    requires k in nodes && (nodes[k].parent == "" || nodes[k].parent == k)
    ensures Climb(nodes, k, level, steps) == k
  {
    if steps > 0 && nodes[k].parent == k {
      ClimbInPlace(nodes, k, level, steps - 1);
    }
  }

  ghost predicate At(nodes: Nodes, k: string, level: nat, parent: string) {
    k in nodes && nodes[k].level == level && nodes[k].parent == parent
  }

  lemma ClimbChain(nodes: Nodes, fqn: string, file: string, pkg: string, comp: string, steps: nat)
    requires At(nodes, fqn, SYMBOL, file) && At(nodes, file, FILE, pkg) && file != "" && pkg != "" && steps >= 3
    requires pkg != comp ==> At(nodes, pkg, PACKAGE, comp) && comp != ""
    requires At(nodes, comp, COMPONENT, "") || At(nodes, comp, COMPONENT, comp)
    ensures Climb(nodes, fqn, SYMBOL, steps) == fqn
    ensures Climb(nodes, fqn, FILE, steps) == file
    ensures Climb(nodes, fqn, PACKAGE, steps) == pkg
    ensures Climb(nodes, fqn, COMPONENT, steps) == comp
  {
    ClimbInPlace(nodes, comp, PACKAGE, steps - 2);
    ClimbInPlace(nodes, comp, COMPONENT, steps - 2);
    ClimbInPlace(nodes, comp, COMPONENT, steps - 3);
    assert Climb(nodes, pkg, PACKAGE, steps - 2) == pkg;
    assert Climb(nodes, pkg, COMPONENT, steps - 2) == comp;
    assert Climb(nodes, file, PACKAGE, steps - 1) == Climb(nodes, pkg, PACKAGE, steps - 2);
    assert Climb(nodes, file, COMPONENT, steps - 1) == Climb(nodes, pkg, COMPONENT, steps - 2);
    assert Climb(nodes, file, FILE, steps - 1) == file;
  }

  lemma ChainPlaced(sorted: seq<string>, syms: seq<Symbol>, s: Symbol, nodes: Nodes)
    requires NoClash(sorted, syms) && s in syms && nodes == NodesOf(sorted, syms)
    ensures At(nodes, FQN(s), SYMBOL, FileOf(syms, FQN(s))) && At(nodes, FileOf(syms, FQN(s)), FILE, s.pkg)
    ensures FileOf(syms, FQN(s)) != "" && ComponentOf(sorted, s.pkg) != ""
    ensures ComponentOf(sorted, s.pkg) != s.pkg ==> At(nodes, s.pkg, PACKAGE, ComponentOf(sorted, s.pkg))
    ensures At(nodes, ComponentOf(sorted, s.pkg), COMPONENT, "")
         || At(nodes, ComponentOf(sorted, s.pkg), COMPONENT, ComponentOf(sorted, s.pkg))
  {
    NodesRight(sorted, syms, syms);
    NodesPlaced(sorted, syms, syms, s);
    var t := LatestOf(syms, s);
    NodesPlaced(sorted, syms, syms, t);
    assert Apart(sorted, s, t);
    NodeIsRight(sorted, nodes, syms, FileKey(t), t);
    NodeIsRight(sorted, nodes, syms, s.pkg, t);
    NodeIsRight(sorted, nodes, syms, ComponentOf(sorted, s.pkg), t);
  }

  /** Climbing from a symbol gives itself, its file, its package and its component at the four levels. */
  lemma Hierarchy(sorted: seq<string>, syms: seq<Symbol>, s: Symbol, steps: nat)
    requires NoClash(sorted, syms) && s in syms && steps >= 3
    ensures Climb(NodesOf(sorted, syms), FQN(s), SYMBOL, steps) == FQN(s)
    ensures Climb(NodesOf(sorted, syms), FQN(s), FILE, steps) == FileOf(syms, FQN(s))
    ensures Climb(NodesOf(sorted, syms), FQN(s), PACKAGE, steps) == s.pkg
    ensures Climb(NodesOf(sorted, syms), FQN(s), COMPONENT, steps) == ComponentOf(sorted, s.pkg)
  {
    ChainPlaced(sorted, syms, s, NodesOf(sorted, syms));
    ClimbChain(NodesOf(sorted, syms), FQN(s), FileOf(syms, FQN(s)), s.pkg, ComponentOf(sorted, s.pkg), steps);
  }

  lemma {:induction false} LatestOf(syms: seq<Symbol>, s: Symbol) returns (t: Symbol)
    requires s in syms
    ensures t in syms && FQN(t) == FQN(s) && FileOf(syms, FQN(s)) == FileKey(t)
  {
    t := syms[|syms| - 1];
    if FQN(t) != FQN(s) {
      assert syms == syms[..|syms| - 1] + [t];
      t := LatestOf(syms[..|syms| - 1], s);
    }
  }

  /** The package and the component of a symbol depend neither on the order of the symbols nor on how
      the sort ordered component names of equal length. */
  lemma OrderIndependent(sorted1: seq<string>, sorted2: seq<string>, syms1: seq<Symbol>, syms2: seq<Symbol>, s: Symbol,
                         level: nat)
    requires NoClash(sorted1, syms1) && NoClash(sorted2, syms2) && s in syms1 && s in syms2
    requires forall c :: c in sorted1 <==> c in sorted2
    requires level == PACKAGE || level == COMPONENT
    ensures Climb(NodesOf(sorted1, syms1), FQN(s), level, MAX_CLIMB) ==
            Climb(NodesOf(sorted2, syms2), FQN(s), level, MAX_CLIMB)
  {
    Hierarchy(sorted1, syms1, s, MAX_CLIMB);
    Hierarchy(sorted2, syms2, s, MAX_CLIMB);
    ComponentIs(sorted1, s.pkg);
    ComponentIs(sorted2, s.pkg);
    var c := ComponentOf(sorted1, s.pkg);
    if c in sorted1 && Covers(c, s.pkg) {
      ComponentIsLongest(sorted2, s.pkg, c);
    }
  }
}
