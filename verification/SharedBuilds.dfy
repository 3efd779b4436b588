/** Callers that share a running build through its key, whatever flight they joined (engine/protocol.go). */
module SharedBuilds {
  import opened Options
  import opened Flight

  /** One execution of the shared function: the flight of the caller that started it, and the build it registered. */
  datatype Call = Call(key: string, flight: nat, build: Option<nat>, ended: bool)

  /** The flights, the executions so far, the one running for each key, and what each caller waits for. */
  datatype Shared = Shared(base: State, calls: seq<Call>, running: map<string, nat>, waits: seq<Option<nat>>)

  /** A caller moves in its flight, asks for the key, or an execution registers its build or ends. */
  datatype SharedEvent =
    | Flying(e: Event)
    | Ask(c: nat)
    | Begin(k: nat, build: nat)
    | Finish(k: nat)

  predicate Possible(s: Shared, e: SharedEvent) {
    match e
    case Flying(e) =>
      !e.Register? && Enabled(s.base, e) && (e.Release? ==> e.c < |s.waits| && s.waits[e.c].Some?)
    case Ask(c) =>
      c < |s.base.callers| && c < |s.waits| && s.base.callers[c].at.Inside? && s.waits[c].None?
    case Begin(k, _) =>
      k < |s.calls| && !s.calls[k].ended && s.calls[k].build.None? && s.calls[k].flight < |s.base.flights|
    case Finish(k) =>
      k < |s.calls| && !s.calls[k].ended
  }

  /** A caller that asks joins the execution running for its key, or starts one. */
  function StepShared(s: Shared, e: SharedEvent): Shared {
    if !Possible(s, e) then s
    else
      match e
      case Flying(e) =>
        s.(base := Step(s.base, e), waits := if e.Load? then s.waits + [None] else s.waits)
      case Ask(c) =>
        var key := s.base.callers[c].key;
        if key in s.running then s.(waits := s.waits[c := Some(s.running[key])])
        else
          s.(calls := s.calls + [Call(key, s.base.callers[c].flight, None, false)],
             running := s.running[key := |s.calls|], waits := s.waits[c := Some(|s.calls|)])
      case Begin(k, build) =>
        s.(base := Step(s.base, Register(s.calls[k].flight, build)),
           calls := s.calls[k := s.calls[k].(build := Some(build))])
      case Finish(k) =>
        s.(calls := s.calls[k := s.calls[k].(ended := true)], running := s.running - {s.calls[k].key})
  }

  function RunShared(events: seq<SharedEvent>): Shared {
    if events == [] then Shared(Run([]), [], map[], [])
    else StepShared(RunShared(events[..|events| - 1]), events[|events| - 1])
  }

  lemma SharedSnoc(events: seq<SharedEvent>, e: SharedEvent)
    ensures RunShared(events + [e]) == StepShared(RunShared(events), e)
  {
    assert (events + [e])[..|events|] == events;
  }

  // ----- The flights underneath -----

  /** The flight events of a run. */
  ghost function Below(events: seq<SharedEvent>): seq<Event> {
    if events == [] then []
    else
      var before, e := events[..|events| - 1], events[|events| - 1];
      var s := RunShared(before);
      Below(before) +
      if !Possible(s, e) then []
      else if e.Flying? then [e.e]
      else if e.Begin? then [Register(s.calls[e.k].flight, e.build)]
      else []
  }

  lemma {:induction false} BelowRuns(events: seq<SharedEvent>)
    ensures RunShared(events).base == Run(Below(events))
  {
    if events != [] {
      var before, e := events[..|events| - 1], events[|events| - 1];
      BelowRuns(before);
      var s := RunShared(before);
      if Possible(s, e) && e.Flying? {
        RunSnoc(Below(before), e.e);
      } else if Possible(s, e) && e.Begin? {
        RunSnoc(Below(before), Register(s.calls[e.k].flight, e.build));
      } else {
        assert Below(events) == Below(before);
      }
    }
  }

  // ----- What holds in every run -----

  /** Every caller waits for an execution or has not asked, and each key has one execution at most. */
  ghost predicate WellShared(s: Shared) {
    && |s.waits| == |s.base.callers|
    && (forall c :: 0 <= c < |s.waits| && s.base.callers[c].at.Loaded? ==> s.waits[c].None?)
    && (forall c :: 0 <= c < |s.waits| && s.waits[c].Some? ==> s.waits[c].value < |s.calls|)
    && (forall key :: key in s.running ==>
          s.running[key] < |s.calls| && !s.calls[s.running[key]].ended && s.calls[s.running[key]].key == key)
    && (forall k :: 0 <= k < |s.calls| && !s.calls[k].ended ==>
          s.calls[k].key in s.running && s.running[s.calls[k].key] == k)
    && (forall k :: 0 <= k < |s.calls| ==> s.calls[k].flight < |s.base.flights|)
  }

  lemma WellFlying(s: Shared, e: Event)
    requires WellShared(s) && WellFormed(s.base) && Possible(s, Flying(e))
    ensures WellShared(StepShared(s, Flying(e)))
  {
  }

  lemma WellAsk(s: Shared, c: nat)
    requires WellShared(s) && WellFormed(s.base) && Possible(s, Ask(c))
    ensures WellShared(StepShared(s, Ask(c)))
  {
  }

  lemma WellSharedStep(s: Shared, e: SharedEvent)
    requires WellShared(s) && WellFormed(s.base)
    ensures WellShared(StepShared(s, e))
  {
    if Possible(s, e) {
      match e
      case Flying(e) => WellFlying(s, e);
      case Ask(c) => WellAsk(s, c);
      case Begin(_, _) =>
      case Finish(_) =>
    }
  }

  /** A flight serves one key: that of its callers, of its executions and of its table entry. */
  ghost predicate OneKey(s: Shared, f: nat, key: string) {
    && (forall c :: 0 <= c < |s.base.callers| && s.base.callers[c].flight == f ==> s.base.callers[c].key == key)
    && (forall k :: 0 <= k < |s.calls| && s.calls[k].flight == f ==> s.calls[k].key == key)
    && (forall j :: j in s.base.table && s.base.table[j] == f ==> j == key)
  }

  ghost predicate KeyedFlights(s: Shared, keys: seq<string>) {
    |keys| == |s.base.flights| && forall f :: 0 <= f < |keys| ==> OneKey(s, f, keys[f])
  }

  /** The key of a flight is the one it was created for. */
  ghost function KeysAfter(s: Shared, e: SharedEvent, keys: seq<string>): seq<string> {
    if e.Flying? && e.e.Load? && e.e.key !in s.base.table then keys + [e.e.key] else keys
  }

  lemma OneKeyStep(s: Shared, e: SharedEvent, f: nat, key: string)
    requires WellShared(s) && WellFormed(s.base) && f < |s.base.flights| && OneKey(s, f, key)
    ensures OneKey(StepShared(s, e), f, key)
  {
  }

  lemma NewFlightKey(s: Shared, key: string)
    requires WellShared(s) && WellFormed(s.base) && key !in s.base.table
    ensures OneKey(StepShared(s, Flying(Load(key))), |s.base.flights|, key)
  {
  }

  lemma KeyedStep(s: Shared, e: SharedEvent, keys: seq<string>)
    requires WellShared(s) && WellFormed(s.base) && KeyedFlights(s, keys)
    ensures KeyedFlights(StepShared(s, e), KeysAfter(s, e, keys))
  {
    var s1, keys1 := StepShared(s, e), KeysAfter(s, e, keys);
    FlightsGrow(s, e, keys);
    forall f | 0 <= f < |keys1| ensures OneKey(s1, f, keys1[f]) {
      if f < |keys| {
        OneKeyStep(s, e, f, keys[f]);
      } else {
        NewFlightKey(s, e.e.key);
      }
    }
  }

  lemma FlightsGrow(s: Shared, e: SharedEvent, keys: seq<string>)
    requires |keys| == |s.base.flights|
    ensures |KeysAfter(s, e, keys)| == |StepShared(s, e).base.flights|
  {
  }

  /** The build of a running execution is the one registered with the flight that started it. */
  ghost predicate Current(s: Shared) {
    forall k :: 0 <= k < |s.calls| && !s.calls[k].ended && s.calls[k].build.Some? ==>
      s.calls[k].flight < |s.base.flights| && s.base.flights[s.calls[k].flight].cancel == s.calls[k].build
  }

  /** Of the executions of a flight at most one is running. */
  lemma OneRunning(s: Shared, j: nat, k: nat, keys: seq<string>)
    requires WellShared(s) && KeyedFlights(s, keys)
    requires j < |s.calls| && k < |s.calls| && !s.calls[j].ended && !s.calls[k].ended
    requires s.calls[j].flight == s.calls[k].flight
    ensures j == k
  {
    assert OneKey(s, s.calls[j].flight, keys[s.calls[j].flight]);
  }

  lemma CurrentBegin(s: Shared, k: nat, build: nat, keys: seq<string>)
    requires WellShared(s) && WellFormed(s.base) && KeyedFlights(s, keys) && Current(s)
    requires Possible(s, Begin(k, build))
    ensures Current(StepShared(s, Begin(k, build)))
  {
    var s1 := StepShared(s, Begin(k, build));
    forall j: nat | j < |s1.calls| && !s1.calls[j].ended && s1.calls[j].build.Some?
      ensures s1.calls[j].flight < |s1.base.flights| && s1.base.flights[s1.calls[j].flight].cancel == s1.calls[j].build
    {
      if s.calls[j].flight == s.calls[k].flight {
        OneRunning(s, j, k, keys);
      }
    }
  }

  lemma CurrentStep(s: Shared, e: SharedEvent, keys: seq<string>)
    requires WellShared(s) && WellFormed(s.base) && KeyedFlights(s, keys) && Current(s)
    ensures Current(StepShared(s, e))
  {
    if Possible(s, e) {
      match e
      case Flying(e) => CurrentFlying(s, e);
      case Begin(k, build) => CurrentBegin(s, k, build, keys);
      case Ask(_) =>
      case Finish(_) =>
    }
  }

  lemma CurrentFlying(s: Shared, e: Event)
    requires WellShared(s) && WellFormed(s.base) && Current(s) && Possible(s, Flying(e))
    ensures Current(StepShared(s, Flying(e)))
  {
    var s1 := StepShared(s, Flying(e));
    forall f: nat | f < |s.base.flights|
      ensures f < |s1.base.flights| && s1.base.flights[f].cancel == s.base.flights[f].cancel {}
  }

  lemma {:induction false} SharedInvariant(events: seq<SharedEvent>) returns (keys: seq<string>)
    ensures var s := RunShared(events);
      WellShared(s) && WellFormed(s.base) && Counted(s.base) && KeyedFlights(s, keys) && Current(s)
  {
    BelowRuns(events);
    FlightInvariant(Below(events));
    if events == [] {
      keys := [];
    } else {
      var before, e := events[..|events| - 1], events[|events| - 1];
      var known := SharedInvariant(before);
      WellSharedStep(RunShared(before), e);
      KeyedStep(RunShared(before), e, known);
      CurrentStep(RunShared(before), e, known);
      keys := KeysAfter(RunShared(before), e, known);
    }
  }

  // ----- Callers that wait for a cancelled build -----

  /** Caller c is inside and waits for execution k, which is still running. */
  ghost predicate WaitsFor(s: Shared, c: nat, k: nat) {
    && c < |s.base.callers| && c < |s.waits| && s.base.callers[c].at.Inside?
    && s.waits[c] == Some(k) && k < |s.calls| && !s.calls[k].ended
  }

  ghost predicate Doomed(s: Shared, k: nat)
    requires k < |s.calls|
  {
    s.calls[k].build.Some? && s.calls[k].build.value in s.base.cancelled
  }

  /** Caller c waits for a running build that has been cancelled. */
  ghost predicate Stranded(s: Shared, c: nat) {
    exists k: nat :: WaitsFor(s, c, k) && Doomed(s, k)
  }

  /** A leaver of the flight that started the build c waits for saw nobody left there, and cancels the build. */
  ghost predicate CancelsShared(s: Shared, e: SharedEvent, c: nat) {
    && e.Flying? && e.e.Cancel? && Enabled(s.base, e.e) && s.base.callers[e.e.c].at.n <= 0
    && s.base.callers[e.e.c].at.taken.Some?
    && exists k: nat :: WaitsFor(s, c, k) && s.calls[k].build == s.base.callers[e.e.c].at.taken
  }

  /** c asks for its key while a cancelled build is still running for it. */
  ghost predicate AsksCancelled(s: Shared, e: SharedEvent, c: nat) {
    && e == Ask(c) && Possible(s, e) && s.base.callers[c].key in s.running
    && s.running[s.base.callers[c].key] < |s.calls| && Doomed(s, s.running[s.base.callers[c].key])
  }

  /** The build c waits for registers with a flight that everybody has left. */
  ghost predicate RegistersUnwatched(s: Shared, e: SharedEvent, c: nat) {
    && e.Begin? && Possible(s, e) && WaitsFor(s, c, e.k)
    && s.base.flights[s.calls[e.k].flight].waiters == 0
  }

  /** Every execution registers a build of its own. */
  ghost predicate FreshCall(s: Shared, e: SharedEvent) {
    e.Begin? ==>
      && e.build !in s.base.cancelled
      && (forall k :: 0 <= k < |s.calls| ==> s.calls[k].build != Some(e.build))
  }

  /** Exactly which steps leave caller c waiting for a cancelled build, in its own flight or in another one. */
  lemma WhatStrands(s: Shared, e: SharedEvent, c: nat)
    requires WellShared(s) && FreshCall(s, e) && !Stranded(s, c)
    ensures Stranded(StepShared(s, e), c) <==>
            CancelsShared(s, e, c) || AsksCancelled(s, e, c) || RegistersUnwatched(s, e, c)
  {
    var s1 := StepShared(s, e);
    if Possible(s, e) {
      match e
      case Flying(e) => FlyingStrands(s, e, c);
      case Ask(d) => AskStrands(s, d, c);
      case Begin(k, build) => BeginStrands(s, k, build, c);
      case Finish(k) => FinishStrands(s, k, c);
    }
  }

  lemma FlyingStrands(s: Shared, e: Event, c: nat)
    requires WellShared(s) && Possible(s, Flying(e)) && !Stranded(s, c)
    ensures Stranded(StepShared(s, Flying(e)), c) <==> CancelsShared(s, Flying(e), c)
  {
    var s1 := StepShared(s, Flying(e));
    forall k: nat ensures WaitsFor(s1, c, k) ==> WaitsFor(s, c, k) {}
    if CancelsShared(s, Flying(e), c) {
      var k: nat :| WaitsFor(s, c, k) && s.calls[k].build == s.base.callers[e.c].at.taken;
      assert WaitsFor(s1, c, k) && Doomed(s1, k);
    }
    if Stranded(s1, c) {
      var k: nat :| WaitsFor(s1, c, k) && Doomed(s1, k);
      assert WaitsFor(s, c, k) && !Doomed(s, k);
    }
  }

  lemma AskStrands(s: Shared, d: nat, c: nat)
    requires WellShared(s) && Possible(s, Ask(d)) && !Stranded(s, c)
    ensures Stranded(StepShared(s, Ask(d)), c) <==> AsksCancelled(s, Ask(d), c)
  {
    var s1 := StepShared(s, Ask(d));
    if AsksCancelled(s, Ask(d), c) {
      var k := s.running[s.base.callers[c].key];
      assert WaitsFor(s1, c, k) && Doomed(s1, k);
    }
    if Stranded(s1, c) {
      var k: nat :| WaitsFor(s1, c, k) && Doomed(s1, k);
      if c != d {
        assert WaitsFor(s, c, k) && Doomed(s, k);
      }
    }
  }

  lemma BeginStrands(s: Shared, k: nat, build: nat, c: nat)
    requires WellShared(s) && Possible(s, Begin(k, build)) && FreshCall(s, Begin(k, build)) && !Stranded(s, c)
    ensures Stranded(StepShared(s, Begin(k, build)), c) <==> RegistersUnwatched(s, Begin(k, build), c)
  {
    var s1 := StepShared(s, Begin(k, build));
    if RegistersUnwatched(s, Begin(k, build), c) {
      assert WaitsFor(s1, c, k) && Doomed(s1, k);
    }
    if Stranded(s1, c) {
      var j: nat :| WaitsFor(s1, c, j) && Doomed(s1, j);
      assert WaitsFor(s, c, j);
      if j != k {
        assert Doomed(s, j);
      }
    }
  }

  lemma FinishStrands(s: Shared, k: nat, c: nat)
    requires WellShared(s) && Possible(s, Finish(k)) && !Stranded(s, c)
    ensures !Stranded(StepShared(s, Finish(k)), c)
  {
    var s1 := StepShared(s, Finish(k));
    if Stranded(s1, c) {
      var j: nat :| WaitsFor(s1, c, j) && Doomed(s1, j);
      assert WaitsFor(s, c, j) && Doomed(s, j);
    }
  }

  // ----- Whole runs -----

  ghost predicate Strands(s: Shared, e: SharedEvent) {
    exists c: nat :: CancelsShared(s, e, c) || AsksCancelled(s, e, c) || RegistersUnwatched(s, e, c)
  }

  ghost predicate FreshCalls(events: seq<SharedEvent>) {
    events != [] ==>
      var before := events[..|events| - 1];
      FreshCalls(before) && FreshCall(RunShared(before), events[|events| - 1])
  }

  /** No event of the run is of the three kinds. */
  ghost predicate Smooth(events: seq<SharedEvent>) {
    events != [] ==>
      var before := events[..|events| - 1];
      Smooth(before) && !Strands(RunShared(before), events[|events| - 1])
  }

  ghost predicate NobodyStranded(s: Shared) {
    forall c: nat :: !Stranded(s, c)
  }

  /** At no moment of the run does a caller wait for a cancelled build. */
  ghost predicate NeverStranded(events: seq<SharedEvent>) {
    NobodyStranded(RunShared(events)) && (events != [] ==> NeverStranded(events[..|events| - 1]))
  }

  /** No caller ever waits for a cancelled build if and only if no event of the run is of the three kinds. */
  lemma {:induction false} SmoothRuns(events: seq<SharedEvent>)
    requires FreshCalls(events)
    ensures Smooth(events) <==> NeverStranded(events)
  {
    if events == [] {
      forall c: nat ensures !Stranded(RunShared([]), c) {}
    } else {
      var before, e := events[..|events| - 1], events[|events| - 1];
      SmoothRuns(before);
      var keys := SharedInvariant(before);
      if NobodyStranded(RunShared(before)) {
        SmoothStep(RunShared(before), e);
      }
    }
  }

  lemma SmoothStep(s: Shared, e: SharedEvent)
    requires WellShared(s) && FreshCall(s, e) && NobodyStranded(s)
    ensures NobodyStranded(StepShared(s, e)) <==> !Strands(s, e)
  {
    forall c: nat
      ensures Stranded(StepShared(s, e), c) <==>
              CancelsShared(s, e, c) || AsksCancelled(s, e, c) || RegistersUnwatched(s, e, c)
    {
      WhatStrands(s, e, c);
    }
  }

  // ----- A caller's own flight -----

  /** A caller that waits for an execution started from its own flight is stranded exactly when the execution has
      registered its build and the flight is lost; the build never registers unwatched. */
  lemma OwnFlight(events: seq<SharedEvent>, e: SharedEvent, c: nat, k: nat)
    requires var s := RunShared(events); WaitsFor(s, c, k) && s.calls[k].flight == s.base.callers[c].flight
    ensures var s := RunShared(events); var f := s.calls[k].flight;
      && f < |s.base.flights| && !RegistersUnwatched(s, e, c)
      && (Stranded(s, c) <==> s.calls[k].build.Some? && Lost(s.base, f))
  {
    var s := RunShared(events);
    var keys := SharedInvariant(events);
    var f := s.calls[k].flight;
    assert s.base.flights[f].waiters == InsideCount(s.base.callers, f);
    InsideIsCounted(s.base.callers, c, f);
    if Lost(s.base, f) && s.calls[k].build.Some? {
      assert Doomed(s, k);
    }
  }

  lemma {:induction false} InsideIsCounted(callers: seq<Caller>, c: nat, f: nat)
    requires c < |callers| && callers[c].flight == f && callers[c].at.Inside?
    ensures InsideCount(callers, f) >= 1
  {
    if c < |callers| - 1 {
      InsideIsCounted(callers[..|callers| - 1], c, f);
    } else {
      InsideCountIsNatural(callers[..|callers| - 1], f);
    }
  }

  // ----- Two runs that strand a caller of the next flight while no flight is lost -----

  lemma SharedTwo(events: seq<SharedEvent>, e: SharedEvent, f: SharedEvent)
    ensures RunShared(events + [e, f]) == StepShared(StepShared(RunShared(events), e), f)
  {
    assert events + [e, f] == events + [e] + [f];
    SharedSnoc(events, e);
    SharedSnoc(events + [e], f);
  }

  function Started(key: string): Shared {
    Shared(State(map[key := 0], [Flight(1, None)], [Caller(key, 0, Inside)], {}),
           [Call(key, 0, None, false)], map[key := 0], [Some(0)])
  }

  lemma StartedRun(key: string)
    ensures RunShared([Flying(Load(key)), Flying(Join(0)), Ask(0)]) == Started(key)
  {
    SharedTwo([], Flying(Load(key)), Flying(Join(0)));
    SharedSnoc([Flying(Load(key)), Flying(Join(0))], Ask(0));
    assert [] + [Flying(Load(key)), Flying(Join(0))] == [Flying(Load(key)), Flying(Join(0))];
    assert [Flying(Load(key)), Flying(Join(0))] + [Ask(0)] == [Flying(Load(key)), Flying(Join(0)), Ask(0)];
  }

  /** The only caller has left flight 0 with this cancel function, at zero. */
  function Deserted(key: string, taken: Option<nat>): Shared {
    Shared(State(map[key := 0], [Flight(0, taken)], [Caller(key, 0, Left(0, taken))], {}),
           [Call(key, 0, taken, false)], map[key := 0], [Some(0)])
  }

  /** It has cancelled what it took and removed the flight, and another caller has joined a new one. */
  function Returned(key: string, taken: Option<nat>, asked: Option<nat>): Shared {
    Shared(State(map[key := 1], [Flight(0, taken), Flight(1, None)],
                 [Caller(key, 0, Done), Caller(key, 1, Inside)], if taken.Some? then {taken.value} else {}),
           [Call(key, 0, taken, false)], map[key := 0], [Some(0), asked])
  }

  lemma Abandoned(key: string, taken: Option<nat>)
    ensures StepShared(StepShared(Deserted(key, taken), Flying(Cancel(0))), Flying(Remove(0))) ==
            Shared(State(map[], [Flight(0, taken)], [Caller(key, 0, Done)], if taken.Some? then {taken.value} else {}),
                   [Call(key, 0, taken, false)], map[key := 0], [Some(0)])
  {
    assert map[key := 0] - {key} == map[];
  }

  lemma JoinedAnew(key: string, taken: Option<nat>, cancelled: set<nat>)
    ensures var s := Shared(State(map[], [Flight(0, taken)], [Caller(key, 0, Done)], cancelled),
                            [Call(key, 0, taken, false)], map[key := 0], [Some(0)]);
      StepShared(StepShared(s, Flying(Load(key))), Flying(Join(1))) ==
      Shared(State(map[key := 1], [Flight(0, taken), Flight(1, None)],
                   [Caller(key, 0, Done), Caller(key, 1, Inside)], cancelled),
             [Call(key, 0, taken, false)], map[key := 0], [Some(0), None])
  {
  }

  lemma ReturnedRun(key: string, taken: Option<nat>, events: seq<SharedEvent>)
    requires RunShared(events) == Deserted(key, taken)
    ensures RunShared(events + [Flying(Cancel(0)), Flying(Remove(0))] + [Flying(Load(key)), Flying(Join(1))]) ==
            Returned(key, taken, None)
  {
    SharedTwo(events, Flying(Cancel(0)), Flying(Remove(0)));
    Abandoned(key, taken);
    SharedTwo(events + [Flying(Cancel(0)), Flying(Remove(0))], Flying(Load(key)), Flying(Join(1)));
    JoinedAnew(key, taken, if taken.Some? then {taken.value} else {});
  }

  lemma RegisteredRun(key: string, build: nat)
    ensures RunShared([Flying(Load(key)), Flying(Join(0)), Ask(0)] + [Begin(0, build), Flying(Release(0))]) ==
            Deserted(key, Some(build))
  {
    StartedRun(key);
    SharedTwo([Flying(Load(key)), Flying(Join(0)), Ask(0)], Begin(0, build), Flying(Release(0)));
  }

  lemma UnregisteredRun(key: string)
    ensures RunShared([Flying(Load(key)), Flying(Join(0)), Ask(0)] + [Flying(Release(0))]) == Deserted(key, None)
  {
    StartedRun(key);
    SharedSnoc([Flying(Load(key)), Flying(Join(0)), Ask(0)], Flying(Release(0)));
  }

  lemma WaitingNow(s: Shared, c: nat, k: nat)
    requires WaitsFor(s, c, k) && Doomed(s, k)
    ensures Stranded(s, c)
  {
  }

  lemma AsksInVain(key: string, build: nat)
    ensures var s := Returned(key, Some(build), None);
      AsksCancelled(s, Ask(1), 1) && StepShared(s, Ask(1)) == Returned(key, Some(build), Some(0))
  {
  }

  lemma AskedInVain(key: string, build: nat)
    ensures var s := Returned(key, Some(build), Some(0)); Stranded(s, 1) && LostNowhere(s.base)
  {
    WaitingNow(Returned(key, Some(build), Some(0)), 1, 0);
  }

  /** The build registers, its only caller leaves, cancels and removes the flight; the next caller of the key joins a
      flight of its own and then asks while the cancelled build is still running. */
  lemma AskerAfterCancel(key: string, build: nat, events: seq<SharedEvent>)
    requires events == [Flying(Load(key)), Flying(Join(0)), Ask(0), Begin(0, build), Flying(Release(0)),
                        Flying(Cancel(0)), Flying(Remove(0)), Flying(Load(key)), Flying(Join(1))]
    ensures RunShared(events) == Returned(key, Some(build), None)
    ensures var s := RunShared(events + [Ask(1)]);
      AsksCancelled(RunShared(events), Ask(1), 1) && Stranded(s, 1) && LostNowhere(s.base)
  {
    assert events == [Flying(Load(key)), Flying(Join(0)), Ask(0)] + [Begin(0, build), Flying(Release(0))] +
                     [Flying(Cancel(0)), Flying(Remove(0))] + [Flying(Load(key)), Flying(Join(1))];
    RegisteredRun(key, build);
    ReturnedRun(key, Some(build),
      [Flying(Load(key)), Flying(Join(0)), Ask(0)] + [Begin(0, build), Flying(Release(0))]);
    SharedSnoc(events, Ask(1));
    AsksInVain(key, build);
    AskedInVain(key, build);
  }

  lemma Unwatched(key: string, build: nat)
    ensures var s := Returned(key, None, Some(0));
      && RegistersUnwatched(s, Begin(0, build), 1)
      && StepShared(s, Begin(0, build)) == Returned(key, Some(build), Some(0))
  {
  }

  lemma AsksEarly(key: string)
    ensures StepShared(Returned(key, None, None), Ask(1)) == Returned(key, None, Some(0))
  {
  }

  /** The only caller leaves, cancels nothing and removes the flight before the build registers; the next caller of the
      key shares the execution from a flight of its own, and the build then registers with the empty flight. */
  lemma RegistersForOthers(key: string, build: nat, events: seq<SharedEvent>)
    requires events == [Flying(Load(key)), Flying(Join(0)), Ask(0), Flying(Release(0)), Flying(Cancel(0)),
                        Flying(Remove(0)), Flying(Load(key)), Flying(Join(1)), Ask(1)]
    ensures RunShared(events) == Returned(key, None, Some(0))
    ensures var s := RunShared(events + [Begin(0, build)]);
      RegistersUnwatched(RunShared(events), Begin(0, build), 1) && Stranded(s, 1) && LostNowhere(s.base)
  {
    var front := [Flying(Load(key)), Flying(Join(0)), Ask(0)] + [Flying(Release(0))] +
                 [Flying(Cancel(0)), Flying(Remove(0))] + [Flying(Load(key)), Flying(Join(1))];
    assert events == front + [Ask(1)];
    UnregisteredRun(key);
    ReturnedRun(key, None, [Flying(Load(key)), Flying(Join(0)), Ask(0)] + [Flying(Release(0))]);
    SharedSnoc(front, Ask(1));
    AsksEarly(key);
    SharedSnoc(events, Begin(0, build));
    Unwatched(key, build);
    AskedInVain(key, build);
  }
}
