/** Waiter counting on a shared symbol-graph build (engine/protocol.go). */
module Flight {
  import opened Options

  /** The fields of an sgFlight; a cancel function is named by the build it cancels. */
  datatype Flight = Flight(waiters: int, cancel: Option<nat>)

  function Joined(f: Flight): Flight {
    f.(waiters := f.waiters + 1)
  }

  function Released(f: Flight): Flight {
    f.(waiters := f.waiters - 1)
  }

  function Registered(f: Flight, build: nat): Flight {
    f.(cancel := Some(build))
  }

  /** The flight object; each method body is one section under its mutex. */
  class SgFlight {
    var waiters: int
    var cancel: Option<nat>

    constructor ()
      ensures View() == Flight(0, None)
    {
      waiters, cancel := 0, None;
    }

    function View(): Flight
      reads this
    {
      Flight(waiters, cancel)
    }

    /** The locked part of sgFlightJoin. */
    method Join()
      modifies this
      ensures View() == Joined(old(View()))
    {
      waiters := waiters + 1;
    }

    /** The locked part of sgFlightLeave: the count and cancel function it takes out of the lock. */
    method Release() returns (n: int, taken: Option<nat>)
      modifies this
      ensures View() == Released(old(View())) && n == View().waiters && taken == View().cancel
    {
      waiters := waiters - 1;
      n, taken := waiters, cancel;
    }

    /** setCancel: cancelNow says that the build is cancelled under the lock. */
    method SetCancel(build: nat) returns (cancelNow: bool)
      modifies this
      ensures View() == Registered(old(View()), build) && cancelNow == (View().waiters == 0)
    {
      cancel := Some(build);
      cancelNow := waiters == 0;
    }
  }

  // ----- All interleavings -----

  /** Where a caller of GetSymbolGraph stands with its flight. */
  datatype Pc = Loaded | Inside | Left(n: int, taken: Option<nat>) | Removing | Done

  datatype Caller = Caller(key: string, flight: nat, at: Pc)

  datatype State = State(table: map<string, nat>, flights: seq<Flight>, callers: seq<Caller>, cancelled: set<nat>)

  datatype Event =
    | Load(key: string)
    | Join(c: nat)
    | Release(c: nat)
    | Cancel(c: nat)
    | Remove(c: nat)
    | Register(f: nat, build: nat)

  function Move(s: State, c: nat, at: Pc): State
    requires c < |s.callers|
  {
    s.(callers := s.callers[c := s.callers[c].(at := at)])
  }

  /** Enabled(s, e): the caller is at the point where event e happens next. */
  predicate Enabled(s: State, e: Event) {
    match e
    case Load(_) => true
    case Register(f, _) => f < |s.flights|
    case Join(c) => c < |s.callers| && s.callers[c].at.Loaded? && s.callers[c].flight < |s.flights|
    case Release(c) => c < |s.callers| && s.callers[c].at.Inside? && s.callers[c].flight < |s.flights|
    case Cancel(c) => c < |s.callers| && s.callers[c].at.Left?
    case Remove(c) => c < |s.callers| && s.callers[c].at.Removing?
  }

  function Step(s: State, e: Event): State {
    if !Enabled(s, e) then s
    else
      match e
      case Load(key) =>
        if key in s.table then s.(callers := s.callers + [Caller(key, s.table[key], Loaded)])
        else
          s.(table := s.table[key := |s.flights|], flights := s.flights + [Flight(0, None)],
             callers := s.callers + [Caller(key, |s.flights|, Loaded)])
      case Join(c) =>
        var f := s.callers[c].flight;
        Move(s, c, Inside).(flights := s.flights[f := Joined(s.flights[f])])
      case Release(c) =>
        var f := s.callers[c].flight;
        var after := Released(s.flights[f]);
        Move(s, c, Left(after.waiters, after.cancel)).(flights := s.flights[f := after])
      case Cancel(c) =>
        var left := s.callers[c].at;
        if left.n > 0 then Move(s, c, Done)
        else Move(s, c, Removing).(cancelled := s.cancelled + if left.taken.Some? then {left.taken.value} else {})
      case Remove(c) =>
        var key := s.callers[c].key;
        var table := if key in s.table && s.table[key] == s.callers[c].flight then s.table - {key} else s.table;
        Move(s, c, Done).(table := table)
      case Register(f, build) =>
        var after := Registered(s.flights[f], build);
        s.(flights := s.flights[f := after], cancelled := s.cancelled + if after.waiters == 0 then {build} else {})
  }

  function Run(events: seq<Event>): State {
    if events == [] then State(map[], [], [], {}) else Step(Run(events[..|events| - 1]), events[|events| - 1])
  }

  /** The callers that have joined flight f and not left it: joins minus leaves. */
  ghost function InsideCount(callers: seq<Caller>, f: nat): nat {
    if callers == [] then 0
    else
      var c := callers[|callers| - 1];
      InsideCount(callers[..|callers| - 1], f) + if c.flight == f && c.at.Inside? then 1 else 0
  }

  function One(c: Caller, f: nat): int {
    if c.flight == f && c.at.Inside? then 1 else 0
  }

  lemma {:induction false} CountUpdate(callers: seq<Caller>, c: nat, x: Caller, f: nat)
    requires c < |callers|
    ensures InsideCount(callers[c := x], f) == InsideCount(callers, f) - One(callers[c], f) + One(x, f)
  {
    var n := |callers| - 1;
    if c == n {
      assert callers[c := x][..n] == callers[..n];
    } else {
      CountUpdate(callers[..n], c, x, f);
      assert callers[c := x][..n] == callers[..n][c := x];
    }
  }

  lemma CountSnoc(callers: seq<Caller>, x: Caller, f: nat)
    ensures InsideCount(callers + [x], f) == InsideCount(callers, f) + One(x, f)
  {
    assert (callers + [x])[..|callers|] == callers;
  }

  ghost predicate WellFormed(s: State) {
    && (forall key :: key in s.table ==> s.table[key] < |s.flights|)
    && (forall c :: 0 <= c < |s.callers| ==> s.callers[c].flight < |s.flights|)
  }

  ghost predicate Counted(s: State) {
    forall f {:trigger s.flights[f]} :: 0 <= f < |s.flights| ==> s.flights[f].waiters == InsideCount(s.callers, f)
  }

  /** Some caller of flight f is between its unlock with count zero and its call of the cancel function it took. */
  ghost predicate Leaving(s: State, f: nat, build: nat) {
    exists c :: 0 <= c < |s.callers| && LeavesWith(s.callers[c], f, build)
  }

  predicate LeavesWith(c: Caller, f: nat, build: nat) {
    c.flight == f && c.at.Left? && c.at.n <= 0 && c.at.taken == Some(build)
  }

  ghost predicate NoLeak(s: State) {
    forall f {:trigger s.flights[f]} ::
      0 <= f < |s.flights| && s.flights[f].cancel.Some? && s.flights[f].waiters == 0 ==>
        s.flights[f].cancel.value in s.cancelled || Leaving(s, f, s.flights[f].cancel.value)
  }

  lemma CountedStep(s: State, e: Event)
    requires WellFormed(s) && Counted(s)
    ensures Counted(Step(s, e))
  {
    var s1 := Step(s, e);
    forall f: nat | f < |s1.flights| ensures s1.flights[f].waiters == InsideCount(s1.callers, f) {
      if Enabled(s, e) {
        match e
        case Load(key) =>
          CountSnoc(s.callers, s1.callers[|s.callers|], f);
          if f == |s.flights| { NoneInside(s.callers, f); }
        case Register(_, _) =>
        case _ => CountUpdate(s.callers, e.c, s1.callers[e.c], f);
      }
    }
  }

  lemma {:induction false} NoneInside(callers: seq<Caller>, f: nat)
    requires forall c :: 0 <= c < |callers| ==> callers[c].flight < f
    ensures InsideCount(callers, f) == 0
  {
    if callers != [] { NoneInside(callers[..|callers| - 1], f); }
  }

  lemma NoLeakStep(s: State, e: Event)
    requires WellFormed(s) && Counted(s) && NoLeak(s)
    ensures NoLeak(Step(s, e))
  {
    var s1 := Step(s, e);
    forall f: nat | f < |s1.flights| && s1.flights[f].cancel.Some? && s1.flights[f].waiters == 0
      ensures s1.flights[f].cancel.value in s1.cancelled || Leaving(s1, f, s1.flights[f].cancel.value)
    {
      var build := s1.flights[f].cancel.value;
      if e.Release? && Enabled(s, e) && s.callers[e.c].flight == f {
        assert LeavesWith(s1.callers[e.c], f, build);
      } else if f < |s.flights| && s1.flights[f] == s.flights[f] && build !in s1.cancelled {
        var c :| 0 <= c < |s.callers| && LeavesWith(s.callers[c], f, build);
        assert LeavesWith(s1.callers[c], f, build);
      }
    }
  }

  /** Over every interleaving: waiters is joins minus leaves, and a registered cancel function of a flight
      without waiters has been called or is about to be called by its last leaver. */
  lemma {:induction false} FlightInvariant(events: seq<Event>)
    ensures WellFormed(Run(events)) && Counted(Run(events)) && NoLeak(Run(events))
  {
    if events != [] {
      FlightInvariant(events[..|events| - 1]);
      CountedStep(Run(events[..|events| - 1]), events[|events| - 1]);
      NoLeakStep(Run(events[..|events| - 1]), events[|events| - 1]);
    }
  }

  /** No leaver is between its unlock and its cancel call. */
  ghost predicate Quiet(s: State) {
    forall c :: 0 <= c < |s.callers| ==> !s.callers[c].at.Left?
  }

  /** No leaked build: in a quiet state every flight without waiters has had its build cancelled,
      whether the build registered before or after the last caller left. */
  lemma NoLeakedBuild(events: seq<Event>, f: nat)
    requires Quiet(Run(events)) && f < |Run(events).flights|
    requires InsideCount(Run(events).callers, f) == 0 && Run(events).flights[f].cancel.Some?
    ensures Run(events).flights[f].cancel.value in Run(events).cancelled
  {
    FlightInvariant(events);
    assert Run(events).flights[f].waiters == 0;
  }

  // ----- The table -----

  /** A key loses its flight exactly by the removal of a caller that left this very flight, and then has none. */
  lemma WhatUnlists(s: State, e: Event, key: string)
    requires key in s.table
    ensures key in Step(s, e).table ==> Step(s, e).table[key] == s.table[key]
    ensures key !in Step(s, e).table <==>
            && e.Remove? && e.c < |s.callers| && s.callers[e.c].at.Removing?
            && s.callers[e.c].key == key && s.callers[e.c].flight == s.table[key]
  {
  }

  /** A key gets a flight exactly when it is loaded without one: a new flight, nobody inside and nothing registered. */
  lemma WhatLists(s: State, e: Event, key: string)
    requires key !in s.table
    ensures key in Step(s, e).table <==> e == Load(key)
    ensures e == Load(key) ==>
              && Step(s, e).table[key] == |s.flights| && Step(s, e).flights == s.flights + [Flight(0, None)]
              && Step(s, e).callers == s.callers + [Caller(key, |s.flights|, Loaded)]
  {
  }

  // ----- Callers inside a flight whose own build is cancelled -----
  // Only the build registered with the flight is meant here; SharedBuilds has the callers that share another one.

  /** Flight f has somebody inside, and the build registered with it has been cancelled. */
  ghost predicate Lost(s: State, f: nat)
    requires f < |s.flights|
  {
    s.flights[f].waiters > 0 && s.flights[f].cancel.Some? && s.flights[f].cancel.value in s.cancelled
  }

  /** Every build registers a cancel function of its own. */
  ghost predicate FreshBuild(s: State, e: Event) {
    e.Register? ==> e.build !in s.cancelled && forall f :: 0 <= f < |s.flights| ==> s.flights[f].cancel != Some(e.build)
  }

  /** The cancel call of a leaver who took the function of f and saw nobody left, while somebody has joined since. */
  ghost predicate CancelsOccupied(s: State, e: Event, f: nat)
    requires f < |s.flights|
  {
    && e.Cancel? && Enabled(s, e) && s.callers[e.c].at.n <= 0
    && s.flights[f].cancel.Some? && s.callers[e.c].at.taken == s.flights[f].cancel && s.flights[f].waiters > 0
  }

  /** A join to a flight whose build has been cancelled already. */
  ghost predicate JoinsCancelled(s: State, e: Event, f: nat)
    requires f < |s.flights|
  {
    && e.Join? && Enabled(s, e) && s.callers[e.c].flight == f
    && s.flights[f].cancel.Some? && s.flights[f].cancel.value in s.cancelled
  }

  lemma {:induction false} InsideCountIsNatural(callers: seq<Caller>, f: nat)
    ensures InsideCount(callers, f) >= 0
  {
    if callers != [] {
      InsideCountIsNatural(callers[..|callers| - 1], f);
    }
  }

  /** Exactly which steps leave a caller inside a flight whose registered build is cancelled: a cancel call after a
      later join, and a join after the cancel call. */
  lemma WhatLosesBuilds(s: State, e: Event, f: nat)
    requires Counted(s) && FreshBuild(s, e) && f < |s.flights| && !Lost(s, f)
    ensures Lost(Step(s, e), f) <==> CancelsOccupied(s, e, f) || JoinsCancelled(s, e, f)
  {
    InsideCountIsNatural(s.callers, f);
    assert s.flights[f].waiters == InsideCount(s.callers, f);
  }

  ghost predicate HarmlessEvent(s: State, e: Event) {
    forall f :: 0 <= f < |s.flights| ==> !CancelsOccupied(s, e, f) && !JoinsCancelled(s, e, f)
  }

  /** No event of the run is of the two kinds. */
  ghost predicate Harmless(events: seq<Event>) {
    events != [] ==>
      var before := events[..|events| - 1];
      Harmless(before) && HarmlessEvent(Run(before), events[|events| - 1])
  }

  ghost predicate FreshBuilds(events: seq<Event>) {
    events != [] ==>
      var before := events[..|events| - 1];
      FreshBuilds(before) && FreshBuild(Run(before), events[|events| - 1])
  }

  lemma NewFlightsAreFine(s: State, e: Event, f: nat)
    requires |s.flights| <= f < |Step(s, e).flights|
    ensures !Lost(Step(s, e), f)
  {
  }

  ghost predicate LostNowhere(s: State) {
    forall f :: 0 <= f < |s.flights| ==> !Lost(s, f)
  }

  /** At no moment of the run is a caller inside a flight whose registered build is cancelled. */
  ghost predicate NeverLost(events: seq<Event>) {
    LostNowhere(Run(events)) && (events != [] ==> NeverLost(events[..|events| - 1]))
  }

  /** A run never loses a build if and only if it has no such event. */
  lemma {:induction false} HarmlessRuns(events: seq<Event>)
    requires FreshBuilds(events)
    ensures Harmless(events) <==> NeverLost(events)
  {
    if events != [] {
      var before := events[..|events| - 1];
      HarmlessRuns(before);
      FlightInvariant(before);
      if LostNowhere(Run(before)) {
        HarmlessStep(Run(before), events[|events| - 1]);
      }
    }
  }

  lemma HarmlessStep(s: State, e: Event)
    requires Counted(s) && FreshBuild(s, e) && LostNowhere(s)
    ensures LostNowhere(Step(s, e)) <==> HarmlessEvent(s, e)
  {
    forall f | 0 <= f < |s.flights|
      ensures Lost(Step(s, e), f) <==> CancelsOccupied(s, e, f) || JoinsCancelled(s, e, f)
    {
      WhatLosesBuilds(s, e, f);
    }
    forall f | |s.flights| <= f < |Step(s, e).flights| ensures !Lost(Step(s, e), f) {
      NewFlightsAreFine(s, e, f);
    }
  }

  /** Both kinds happen. First: a caller joins between a leaver's unlock and its cancel call. */
  lemma LateJoinerLosesBuild(key: string, build: nat, events: seq<Event>)
    requires events == [Load(key), Join(0), Register(0, build), Release(0), Load(key), Join(1)]
    ensures var s := Run(events);
      && s.table == map[key := 0] && s.flights == [Flight(1, Some(build))] && !Lost(s, 0)
      && CancelsOccupied(s, Cancel(0), 0) && Run(events + [Cancel(0)]).flights == s.flights
      && Lost(Run(events + [Cancel(0)]), 0)
  {
    var gone := Caller(key, 0, Left(0, Some(build)));
    assert events == [Load(key)] + [Join(0)] + [Register(0, build)] + [Release(0)] + [Load(key)] + [Join(1)];
    LeftRun(key, build);
    RunTwo([Load(key)] + [Join(0)] + [Register(0, build)] + [Release(0)], Load(key), Join(1));
    JoinedLate(key, build);
    assert Run(events) == State(map[key := 0], [Flight(1, Some(build))], [gone, Caller(key, 0, Inside)], {});
    RunSnoc(events, Cancel(0));
  }

  /** Second: the cancel call follows the unlock at once, and a caller joins before the flight is removed. */
  lemma JoinerAfterCancel(key: string, build: nat, events: seq<Event>)
    requires events == [Load(key), Join(0), Register(0, build), Release(0), Cancel(0), Load(key)]
    ensures var s := Run(events);
      && s.table == map[key := 0] && s.flights == [Flight(0, Some(build))] && !Lost(s, 0)
      && JoinsCancelled(s, Join(1), 0) && Run(events + [Join(1)]).flights == [Flight(1, Some(build))]
      && Lost(Run(events + [Join(1)]), 0)
  {
    var e4 := [Load(key)] + [Join(0)] + [Register(0, build)] + [Release(0)];
    assert events == e4 + [Cancel(0)] + [Load(key)];
    LeftRun(key, build);
    RunTwo(e4, Cancel(0), Load(key));
    CancelledThenLoaded(key, build);
    RunSnoc(events, Join(1));
  }

  lemma LeftRun(key: string, build: nat)
    ensures Run([Load(key)] + [Join(0)] + [Register(0, build)] + [Release(0)]) ==
            State(map[key := 0], [Flight(0, Some(build))], [Caller(key, 0, Left(0, Some(build)))], {})
  {
    RunTwo([], Load(key), Join(0));
    assert [] + [Load(key)] + [Join(0)] == [Load(key)] + [Join(0)];
    RunTwo([Load(key)] + [Join(0)], Register(0, build), Release(0));
    RegisteredAndLeft(key, build);
  }

  lemma CancelledThenLoaded(key: string, build: nat)
    ensures var s := State(map[key := 0], [Flight(0, Some(build))], [Caller(key, 0, Left(0, Some(build)))], {});
      Step(Step(s, Cancel(0)), Load(key)) ==
      State(map[key := 0], [Flight(0, Some(build))],
            [Caller(key, 0, Removing), Caller(key, 0, Loaded)], {build})
  {
  }

  /** What cancels a build: its registration when nobody is inside any more, or the cancel call of a leaver who
      took it and saw the count reach zero. */
  lemma WhatCancels(s: State, e: Event, build: nat)
    ensures build in Step(s, e).cancelled && build !in s.cancelled <==>
            build !in s.cancelled && Enabled(s, e) &&
            ((e.Register? && e.build == build && s.flights[e.f].waiters == 0) ||
             (e.Cancel? && s.callers[e.c].at.n <= 0 && s.callers[e.c].at.taken == Some(build)))
  {
  }

  /** A cancel call that comes right after the unlock finds nobody inside; a later join can still enter the
      cancelled flight, see JoinerAfterCancel. */
  lemma PromptCancelIsUnoccupied(events: seq<Event>, c: nat)
    requires Enabled(Run(events), Release(c))
    ensures var s := Run(events + [Release(c)]);
      Enabled(s, Cancel(c)) && (s.callers[c].at.n <= 0 <==> InsideCount(s.callers, s.callers[c].flight) == 0)
  {
    RunSnoc(events, Release(c));
    FlightInvariant(events);
    FlightInvariant(events + [Release(c)]);
    var f := Run(events).callers[c].flight;
    assert Run(events + [Release(c)]).flights[f].waiters == InsideCount(Run(events + [Release(c)]).callers, f);
  }

  lemma RegisteredAndLeft(key: string, build: nat)
    ensures var s := State(map[key := 0], [Flight(1, None)], [Caller(key, 0, Inside)], {});
      Step(Step(s, Register(0, build)), Release(0)) ==
      State(map[key := 0], [Flight(0, Some(build))], [Caller(key, 0, Left(0, Some(build)))], {})
  {
  }

  lemma JoinedLate(key: string, build: nat)
    ensures var gone := Caller(key, 0, Left(0, Some(build)));
      Step(Step(State(map[key := 0], [Flight(0, Some(build))], [gone], {}), Load(key)), Join(1)) ==
      State(map[key := 0], [Flight(1, Some(build))], [gone, Caller(key, 0, Inside)], {})
  {
  }

  lemma RunTwo(events: seq<Event>, e: Event, f: Event)
    ensures Run(events + [e] + [f]) == Step(Step(Run(events), e), f)
  {
    RunSnoc(events, e);
    RunSnoc(events + [e], f);
  }

  lemma RunSnoc(events: seq<Event>, e: Event)
    ensures Run(events + [e]) == Step(Run(events), e)
  {
    assert (events + [e])[..|events|] == events;
  }
}
