/** Every call-graph walk ends: a bound on its steps, for every schedule (symbol_pipeline.go). */
module CallWalkTermination {
  import opened Graphs
  import opened CallWalk
  import opened CallWalkComplete

  // ----- The steps a call still has to make -----

  /** Steps left at the head of the loop over the relations from i on; each relation costs at most five,
      the last of them the step that enters the callee. */
  function LoopCost(kids: nat, i: nat): int {
    if i < kids then 5 * (kids - i) + 1 else 1
  }

  /** Steps left for the frame itself; a call not yet entered spends the budget of its symbol when it enters. */
  function FrameCost(w: World, f: Frame): int {
    match f.at
    case Enter => 1
    case Record => LoopCost(|w.children(f.sym)|, 0) + 2
    case Expand => LoopCost(|w.children(f.sym)|, 0) + 1
    case Look(i) => LoopCost(|f.kids|, i)
    case Fetch(i) => LoopCost(|f.kids|, i) - 1
    case Store(i, _) => LoopCost(|f.kids|, i) - 2
    case Emit(i, _) => LoopCost(|f.kids|, i) - 3
  }

  /** What entering a symbol for the first time adds. */
  function Budget(w: World, x: Symbol): nat {
    LoopCost(|w.children(x)|, 0) + 2
  }

  /** The budgets of the symbols in L whose names have not been visited. */
  ghost function Unspent(w: World, L: seq<Symbol>, visited: set<Id>): nat {
    if L == [] then 0
    else
      var x := L[|L| - 1];
      Unspent(w, L[..|L| - 1], visited) + if x.name in visited then 0 else Budget(w, x)
  }

  function StackCost(w: World, stack: seq<Frame>): int {
    if stack == [] then 0 else StackCost(w, stack[..|stack| - 1]) + FrameCost(w, stack[|stack| - 1])
  }

  function ThreadsCost(w: World, threads: seq<seq<Frame>>): int {
    if threads == [] then 0 else ThreadsCost(w, threads[..|threads| - 1]) + StackCost(w, threads[|threads| - 1])
  }

  ghost function Measure(w: World, L: seq<Symbol>, s: State): int {
    Unspent(w, L, s.shared.visited) + ThreadsCost(w, s.threads)
  }

  /** A call is about a symbol of L, goes over its relations, and is inside the list between the loop heads. */
  ghost predicate Sane(w: World, L: seq<Symbol>, f: Frame) {
    && f.sym in L
    && match f.at
       case Enter => true
       case Record => true
       case Expand => true
       case Look(i) => f.kids == w.children(f.sym)
       case Fetch(i) => f.kids == w.children(f.sym) && i < |f.kids|
       case Store(i, _) => f.kids == w.children(f.sym) && i < |f.kids|
       case Emit(i, _) => f.kids == w.children(f.sym) && i < |f.kids|
  }

  ghost predicate SaneStack(w: World, L: seq<Symbol>, stack: seq<Frame>) {
    forall k :: 0 <= k < |stack| ==> Sane(w, L, stack[k])
  }

  ghost predicate AllSane(w: World, L: seq<Symbol>, s: State) {
    forall t :: 0 <= t < |s.threads| ==> SaneStack(w, L, s.threads[t])
  }

  // ----- One step -----

  lemma {:induction false} UnspentShrinks(w: World, L: seq<Symbol>, visited: set<Id>, name: Id)
    ensures Unspent(w, L, visited + {name}) <= Unspent(w, L, visited)
  {
    if L != [] {
      UnspentShrinks(w, L[..|L| - 1], visited, name);
    }
  }

  lemma {:induction false} UnspentPays(w: World, L: seq<Symbol>, visited: set<Id>, x: Symbol)
    requires x in L && x.name !in visited
    ensures Unspent(w, L, visited + {x.name}) + Budget(w, x) <= Unspent(w, L, visited)
  {
    var rest, last := L[..|L| - 1], L[|L| - 1];
    assert L == rest + [last];
    if last == x {
      UnspentShrinks(w, rest, visited, x.name);
    } else {
      UnspentPays(w, rest, visited, x);
    }
  }

  lemma StackSnoc(w: World, stack: seq<Frame>, f: Frame)
    ensures StackCost(w, stack + [f]) == StackCost(w, stack) + FrameCost(w, f)
  {
    assert (stack + [f])[..|stack|] == stack;
  }

  /** The cost of what replaces a frame on its stack; there are at most two. */
  function FramesCost(w: World, frames: seq<Frame>): int
    requires |frames| <= 2
  {
    (if |frames| > 0 then FrameCost(w, frames[0]) else 0) + if |frames| > 1 then FrameCost(w, frames[1]) else 0
  }

  lemma StackAppend(w: World, stack: seq<Frame>, frames: seq<Frame>)
    requires |frames| <= 2
    ensures StackCost(w, stack + frames) == StackCost(w, stack) + FramesCost(w, frames)
  {
    if |frames| == 0 {
      assert stack + frames == stack;
    } else if |frames| == 1 {
      assert frames == [frames[0]];
      StackSnoc(w, stack, frames[0]);
    } else {
      assert stack + frames == stack + [frames[0]] + [frames[1]];
      StackSnoc(w, stack, frames[0]);
      StackSnoc(w, stack + [frames[0]], frames[1]);
    }
  }

  lemma {:induction false} ThreadsUpdate(w: World, threads: seq<seq<Frame>>, t: nat, stack: seq<Frame>)
    requires t < |threads|
    ensures ThreadsCost(w, threads[t := stack]) ==
            ThreadsCost(w, threads) - StackCost(w, threads[t]) + StackCost(w, stack)
  {
    var n := |threads| - 1;
    if t < n {
      ThreadsUpdate(w, threads[..n], t, stack);
      assert threads[t := stack][..n] == threads[..n][t := stack];
    } else {
      assert threads[t := stack][..n] == threads[..n];
    }
  }

  /** A step of a call, failing or not, pays for what replaces the call and for what it newly visits. */
  lemma FramePays(w: World, L: seq<Symbol>, sh: Shared, cancelled: bool, f: Frame, fails: bool)
    requires Universe(w, Elems(L)) && Sane(w, L, f)
    ensures var (sh1, frames) := StepFrame(w, sh, cancelled, f, fails);
      && |frames| <= 2 && SaneStack(w, L, frames)
      && FramesCost(w, frames) + Unspent(w, L, sh1.visited) < FrameCost(w, f) + Unspent(w, L, sh.visited)
  {
    if f.at.Enter? && f.sym.name !in sh.visited {
      UnspentPays(w, L, sh.visited, f.sym);
    }
    if f.at.Emit? && f.kids[f.at.i].inWorkspace {
      assert f.sym in Elems(L) && f.kids[f.at.i] in w.children(f.sym);
      assert f.kids[f.at.i].target in Elems(L);
    }
  }

  /** Goroutine t has a call to run. */
  predicate CanMove(s: State, t: nat) {
    t < |s.threads| && s.threads[t] != []
  }

  lemma ThreadPays(w: World, L: seq<Symbol>, s: State, t: nat, fails: bool)
    requires Universe(w, Elems(L)) && AllSane(w, L, s) && CanMove(s, t)
    ensures Measure(w, L, StepThread(w, s, t, fails)) < Measure(w, L, s)
    ensures AllSane(w, L, StepThread(w, s, t, fails))
  {
    var stack := s.threads[t];
    var n, f := |stack| - 1, Top(stack);
    assert SaneStack(w, L, stack);
    FramePays(w, L, s.shared, s.cancelled, f, fails);
    var (sh1, frames) := StepFrame(w, s.shared, s.cancelled, f, fails);
    assert stack == stack[..n] + [f];
    StackSnoc(w, stack[..n], f);
    StackAppend(w, stack[..n], frames);
    ThreadsUpdate(w, s.threads, t, stack[..n] + frames);
    forall u | 0 <= u < |s.threads| ensures SaneStack(w, L, StepThread(w, s, t, fails).threads[u]) {
      assert SaneStack(w, L, s.threads[u]);
    }
  }

  // ----- Whole schedules -----

  /** The choice runs a call: it names a goroutine that is not done. */
  predicate Effective(s: State, c: Choice) {
    !c.Cancel? && CanMove(s, c.t)
  }

  /** How many choices of the schedule ran a call. */
  function Steps(w: World, schedule: seq<Choice>): nat {
    if schedule == [] then 0
    else
      var before := schedule[..|schedule| - 1];
      Steps(w, before) + if Effective(Run(w, before), schedule[|schedule| - 1]) then 1 else 0
  }

  /** A bound that depends on the roots and the relations alone, not on the schedule. */
  ghost function Bound(w: World, L: seq<Symbol>): nat {
    |w.roots| + Unspent(w, L, {})
  }

  lemma {:induction false} RootsCost(w: World, threads: seq<seq<Frame>>)
    requires forall t :: 0 <= t < |threads| ==> |threads[t]| == 1 && threads[t][0].at.Enter?
    ensures ThreadsCost(w, threads) == |threads|
  {
    if threads != [] {
      RootsCost(w, threads[..|threads| - 1]);
      var stack := threads[|threads| - 1];
      assert stack == [stack[0]] && stack[..0] == [] && stack[0].at.Enter?;
      assert StackCost(w, stack) == StackCost(w, []) + FrameCost(w, stack[0]);
    }
  }

  lemma {:induction false} StackNeedsSteps(w: World, L: seq<Symbol>, stack: seq<Frame>)
    requires SaneStack(w, L, stack)
    ensures StackCost(w, stack) >= 0
  {
    if stack != [] {
      StackNeedsSteps(w, L, stack[..|stack| - 1]);
      assert Sane(w, L, stack[|stack| - 1]);
    }
  }

  lemma {:induction false} ThreadsNeedSteps(w: World, L: seq<Symbol>, threads: seq<seq<Frame>>)
    requires forall t :: 0 <= t < |threads| ==> SaneStack(w, L, threads[t])
    ensures ThreadsCost(w, threads) >= 0
  {
    if threads != [] {
      ThreadsNeedSteps(w, L, threads[..|threads| - 1]);
      StackNeedsSteps(w, L, threads[|threads| - 1]);
    }
  }

  lemma {:induction false} StepsPaid(w: World, L: seq<Symbol>, schedule: seq<Choice>)
    requires Universe(w, Elems(L))
    ensures AllSane(w, L, Run(w, schedule))
    ensures Steps(w, schedule) + Measure(w, L, Run(w, schedule)) <= Bound(w, L)
  {
    if schedule == [] {
      RootsCost(w, Initial(w).threads);
      forall t | 0 <= t < |w.roots| ensures SaneStack(w, L, Initial(w).threads[t]) {
        assert w.roots[t] in Elems(L);
      }
    } else {
      var before, c := schedule[..|schedule| - 1], schedule[|schedule| - 1];
      StepsPaid(w, L, before);
      if Effective(Run(w, before), c) {
        ThreadPays(w, L, Run(w, before), c.t, c.Fail?);
      }
    }
  }

  /** Whatever the schedule, the failures and the cancellation, and for every depth bound and any names,
      a walk makes no more than Bound steps; L lists a finite closed world. */
  lemma WalkEnds(w: World, L: seq<Symbol>, schedule: seq<Choice>)
    requires Universe(w, Elems(L))
    ensures Steps(w, schedule) <= Bound(w, L)
  {
    StepsPaid(w, L, schedule);
    ThreadsNeedSteps(w, L, Run(w, schedule).threads);
  }

  /** No walk is stuck: a choice that runs no call is possible for every goroutine only when all are done. */
  lemma NeverStuck(w: World, schedule: seq<Choice>)
    ensures Finished(Run(w, schedule)) <==> forall t: nat :: !Effective(Run(w, schedule), Go(t))
  {
    var s := Run(w, schedule);
    if !Finished(s) {
      var t: nat :| t < |s.threads| && s.threads[t] != [];
      assert Effective(s, Go(t));
    }
  }

  lemma RunSnoc(w: World, schedule: seq<Choice>, c: Choice)
    ensures Run(w, schedule + [c]) == Step(w, Run(w, schedule), c)
    ensures Steps(w, schedule + [c]) == Steps(w, schedule) + if Effective(Run(w, schedule), c) then 1 else 0
  {
    assert (schedule + [c])[..|schedule|] == schedule;
  }

  /** An unfinished walk can make one more step, within the bound. */
  lemma NextStep(w: World, L: seq<Symbol>, schedule: seq<Choice>) returns (t: nat)
    requires Universe(w, Elems(L)) && !Finished(Run(w, schedule))
    ensures Steps(w, schedule + [Go(t)]) == Steps(w, schedule) + 1 <= Bound(w, L)
  {
    var s := Run(w, schedule);
    t :| t < |s.threads| && s.threads[t] != [];
    RunSnoc(w, schedule, Go(t));
    WalkEnds(w, L, schedule + [Go(t)]);
  }

  lemma Regroup(schedule: seq<Choice>, c: Choice, rest: seq<Choice>)
    ensures schedule + [c] + rest == schedule + ([c] + rest)
  {
  }

  /** Every walk can be continued, step by step, until it is finished. */
  lemma {:induction false} WalkFinishes(w: World, L: seq<Symbol>, schedule: seq<Choice>) returns (more: seq<Choice>)
    requires Universe(w, Elems(L))
    ensures Finished(Run(w, schedule + more)) && Undisturbed(more)
    ensures Steps(w, schedule + more) == Steps(w, schedule) + |more|
    decreases Bound(w, L) - Steps(w, schedule)
  {
    if Finished(Run(w, schedule)) {
      more := [];
      assert schedule + more == schedule;
    } else {
      var t := NextStep(w, L, schedule);
      var rest := WalkFinishes(w, L, schedule + [Go(t)]);
      Regroup(schedule, Go(t), rest);
      more := [Go(t)] + rest;
    }
  }

  /** A walk that has made Bound steps is over. */
  lemma BoundReached(w: World, L: seq<Symbol>, schedule: seq<Choice>)
    requires Universe(w, Elems(L)) && Steps(w, schedule) == Bound(w, L)
    ensures Finished(Run(w, schedule))
  {
    if !Finished(Run(w, schedule)) {
      var t := NextStep(w, L, schedule);
    }
  }

  lemma {:induction false} ListOf(U: set<Symbol>) returns (L: seq<Symbol>)
    ensures Elems(L) == U
  {
    if U == {} {
      L := [];
    } else {
      var x :| x in U;
      var rest := ListOf(U - {x});
      L := rest + [x];
      assert Elems(L) == Elems(rest) + {x};
    }
  }

  /** Total correctness: every undisturbed walk can go on until it is finished, cannot go on forever, and has then
      recorded exactly the reached symbols with exactly their relations. */
  lemma WalkCompletes(w: World, U: set<Symbol>, schedule: seq<Choice>) returns (bound: nat, more: seq<Choice>)
    requires Unique(w, U) && Undisturbed(schedule)
    ensures forall other :: Steps(w, other) <= bound
    ensures |more| <= bound && Undisturbed(schedule + more) && Finished(Run(w, schedule + more))
    ensures CompleteResult(w, Run(w, schedule + more))
  {
    var L := ListOf(U);
    bound := Bound(w, L);
    forall other ensures Steps(w, other) <= bound {
      WalkEnds(w, L, other);
    }
    more := WalkFinishes(w, L, schedule);
    WalkComplete(w, U, schedule + more);
  }
}
