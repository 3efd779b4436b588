/** Racing analyzers: the first qualified result wins, the rest may upgrade the cache (analyzer/racer.go). */
module Racer {
  import opened Options

  /** What one attempt delivers; empty is the emptiness check applied to its value. */
  datatype Arrival<T> = Arrival(value: T, name: string, quality: int, failed: bool, empty: bool)

  datatype Result<T> = Result(value: T, winner: string, quality: int, cached: bool, degraded: bool)

  datatype Outcome<T> =
    | Return(result: Result<T>)
    | NoQualifiedResult
    | Nothing
    | Cancelled

  predicate Usable<T>(a: Arrival<T>) {
    !a.failed && !a.empty
  }

  predicate Qualified<T>(a: Arrival<T>, minQuality: int) {
    Usable(a) && a.quality >= minQuality
  }

  function Fresh<T>(a: Arrival<T>): Result<T> {
    Result(a.value, a.name, a.quality, false, false)
  }

  function Degraded<T>(a: Arrival<T>): Result<T> {
    Fresh(a).(degraded := true)
  }

  /** The first usable arrival of the highest quality is at position i. */
  ghost predicate BestAt<T>(arrivals: seq<Arrival<T>>, i: int) {
    && 0 <= i < |arrivals| && Usable(arrivals[i])
    && (forall j :: 0 <= j < |arrivals| && Usable(arrivals[j]) ==> arrivals[j].quality <= arrivals[i].quality)
    && (forall j :: 0 <= j < i && Usable(arrivals[j]) ==> arrivals[j].quality < arrivals[i].quality)
  }

  ghost predicate NoneUsable<T>(arrivals: seq<Arrival<T>>) {
    forall j :: 0 <= j < |arrivals| ==> !Usable(arrivals[j])
  }

  /** The first qualified arrival is at position i. */
  ghost predicate FirstQualified<T>(arrivals: seq<Arrival<T>>, minQuality: int, i: int) {
    && 0 <= i < |arrivals| && Qualified(arrivals[i], minQuality)
    && forall j :: 0 <= j < i ==> !Qualified(arrivals[j], minQuality)
  }

  /** best is the fallback collected from the arrivals seen so far. */
  ghost predicate Fallback<T>(seen: seq<Arrival<T>>, best: Option<Result<T>>) {
    match best
    case None => NoneUsable(seen)
    case Some(r) => exists i :: BestAt(seen, i) && r == Degraded(seen[i])
  }

  /** The fallback after one more rejected arrival. */
  function Keep<T>(best: Option<Result<T>>, a: Arrival<T>): Option<Result<T>> {
    if Usable(a) && (best.None? || a.quality > best.value.quality) then Some(Degraded(a)) else best
  }

  lemma KeepIsFallback<T>(seen: seq<Arrival<T>>, best: Option<Result<T>>, a: Arrival<T>)
    requires Fallback(seen, best)
    ensures Fallback(seen + [a], Keep(best, a))
  {
    var all := seen + [a];
    if best.Some? {
      var i :| BestAt(seen, i) && best.value == Degraded(seen[i]);
      if Keep(best, a) == best { assert BestAt(all, i); } else { assert BestAt(all, |seen|); }
    } else if Usable(a) {
      assert BestAt(all, |seen|);
    }
  }

  /** What a cache-missing race returns once every attempt has arrived without a winner. */
  function Exhausted<T>(best: Option<Result<T>>, minQuality: int): Outcome<T> {
    if best.Some? then Return(best.value)
    else if minQuality > 0 then NoQualifiedResult
    else Nothing
  }

  /** r carries what attempt a delivered, neither failed nor empty. */
  ghost predicate Carries<T>(r: Result<T>, a: Arrival<T>) {
    && !a.failed && !a.empty && r.value == a.value && r.winner == a.name && r.quality == a.quality
  }

  /** A cache-missing race may answer r: the first attempt that meets the minimum, and else, marked as degraded,
      the first of the best attempts. */
  ghost predicate Answers<T>(arrivals: seq<Arrival<T>>, minQuality: int, r: Result<T>, i: int) {
    && 0 <= i < |arrivals| && Carries(r, arrivals[i]) && !r.cached
    && (r.degraded <==> r.quality < minQuality)
    && (forall j :: 0 <= j < i && !arrivals[j].failed && !arrivals[j].empty ==>
          arrivals[j].quality < if r.degraded then r.quality else minQuality)
    && (r.degraded ==> forall j :: 0 <= j < |arrivals| && !arrivals[j].failed && !arrivals[j].empty ==>
          arrivals[j].quality <= r.quality)
  }

  lemma FallbackAnswers<T>(arrivals: seq<Arrival<T>>, minQuality: int, r: Result<T>)
    requires Fallback(arrivals, Some(r)) && forall i :: 0 <= i < |arrivals| ==> !Qualified(arrivals[i], minQuality)
    ensures exists i :: Answers(arrivals, minQuality, r, i)
  {
    var i :| BestAt(arrivals, i) && r == Degraded(arrivals[i]);
    assert Answers(arrivals, minQuality, r, i);
  }

  lemma WinnerAnswers<T>(arrivals: seq<Arrival<T>>, minQuality: int, i: int)
    requires FirstQualified(arrivals, minQuality, i)
    ensures Answers(arrivals, minQuality, Fresh(arrivals[i]), i)
  {
  }

  class Racer<T> {
    const minQuality: int
    const interactive: bool
    var cache: Option<Result<T>>

    constructor (minQuality: int, interactive: bool)
      ensures cache == None && this.minQuality == minQuality && this.interactive == interactive
    {
      this.minQuality, this.interactive, cache := minQuality, interactive, None;
    }

    /** Race, for attempts that finish in the given order and a context that is cancelled after
        cancelAfter of them; rest is what the background drain still receives. */
    method Race(arrivals: seq<Arrival<T>>, cancelAfter: nat) returns (outcome: Outcome<T>, rest: seq<Arrival<T>>)
      modifies this`cache
      ensures old(cache).Some? ==>
                outcome == Return(old(cache).value.(cached := true)) && rest == [] && cache == old(cache)
      ensures old(cache).None? && cache.Some? ==>
                exists i :: FirstQualified(arrivals, minQuality, i) && i < cancelAfter &&
                  outcome == Return(Fresh(arrivals[i])) && cache == Some(Fresh(arrivals[i])) &&
                  rest == if interactive then [] else arrivals[i + 1..]
      ensures old(cache).None? && cache.None? ==> rest == []
      ensures old(cache).None? && cache.None? ==>
                forall i :: 0 <= i < |arrivals| && i < cancelAfter ==> !Qualified(arrivals[i], minQuality)
      ensures old(cache).None? && cache.None? && cancelAfter < |arrivals| ==> outcome == Cancelled
      ensures old(cache).None? && cache.None? && cancelAfter >= |arrivals| ==>
                exists best :: Fallback(arrivals, best) && outcome == Exhausted(best, minQuality)
      ensures old(cache).None? && outcome.Return? ==>
                exists i :: Answers(arrivals, minQuality, outcome.result, i)
      ensures old(cache).None? && !outcome.Return? && !outcome.Cancelled? ==>
                && (forall j :: 0 <= j < |arrivals| ==> arrivals[j].failed || arrivals[j].empty)
                && outcome == if minQuality > 0 then NoQualifiedResult else Nothing
      ensures outcome.Cancelled? <==>
                && old(cache).None? && cancelAfter < |arrivals|
                && forall j :: 0 <= j < cancelAfter && !arrivals[j].failed && !arrivals[j].empty ==>
                     arrivals[j].quality < minQuality
    {
      rest := [];
      if cache.Some? {
        return Return(cache.value.(cached := true)), [];
      }
      var bestDegraded: Option<Result<T>> := None;
      var received := 0;
      while received < |arrivals|
        invariant received <= |arrivals| && received <= cancelAfter
        invariant Fallback(arrivals[..received], bestDegraded)
        invariant forall i :: 0 <= i < received ==> !Qualified(arrivals[i], minQuality)
        invariant cache == None
      {
        if received == cancelAfter {
          return Cancelled, [];
        }
        var res := arrivals[received];
        received := received + 1;
        assert arrivals[..received] == arrivals[..received - 1] + [res];
        KeepIsFallback(arrivals[..received - 1], bestDegraded, res);
        if res.failed {
          continue;
        }
        if res.empty || res.quality < minQuality {
          if !res.empty {
            if bestDegraded.None? || res.quality > bestDegraded.value.quality {
              bestDegraded := Some(Degraded(res));
            }
          }
          continue;
        }
        cache := Some(Fresh(res));
        assert FirstQualified(arrivals, minQuality, received - 1);
        WinnerAnswers(arrivals, minQuality, received - 1);
        return Return(Fresh(res)), if interactive then [] else arrivals[received..];
      }
      assert arrivals[..received] == arrivals;
      if bestDegraded.Some? {
        FallbackAnswers(arrivals, minQuality, bestDegraded.value);
        return Return(bestDegraded.value), [];
      }
      if minQuality > 0 {
        return NoQualifiedResult, [];
      }
      return Nothing, [];
    }

    /** One receive of the background drain. */
    method Upgrade(bg: Arrival<T>)
      modifies this`cache
      ensures cache == Upgraded(old(cache), bg)
      ensures if bg.failed || bg.empty || (old(cache).Some? && bg.quality <= old(cache).value.quality)
              then cache == old(cache)
              else cache.Some? && Carries(cache.value, bg) && !cache.value.cached && !cache.value.degraded
    {
      if bg.failed || bg.empty {
        return;
      }
      if cache.None? || bg.quality > cache.value.quality {
        cache := Some(Fresh(bg));
      }
    }

    /** The background drain of an uncancelled race. */
    method Drain(rest: seq<Arrival<T>>)
      modifies this`cache
      ensures cache == Drained(old(cache), rest)
    {
      for i := 0 to |rest|
        invariant cache == Drained(old(cache), rest[..i])
      {
        assert rest[..i + 1][..i] == rest[..i];
        Upgrade(rest[i]);
      }
      assert rest[..|rest|] == rest;
    }

    method Invalidate()
      modifies this`cache
      ensures cache == None
    {
      cache := None;
    }

    method CachedQuality() returns (q: int)
      ensures q == if cache.None? then 0 else cache.value.quality
    {
      q := if cache.None? then 0 else cache.value.quality;
    }
  }

  function Upgraded<T>(cache: Option<Result<T>>, bg: Arrival<T>): Option<Result<T>> {
    if Usable(bg) && (cache.None? || bg.quality > cache.value.quality) then Some(Fresh(bg)) else cache
  }

  function Drained<T>(cache: Option<Result<T>>, rest: seq<Arrival<T>>): Option<Result<T>> {
    if rest == [] then cache else Upgraded(Drained(cache, rest[..|rest| - 1]), rest[|rest| - 1])
  }

  /** q is the highest quality among the usable arrivals. */
  ghost predicate MaxQuality<T>(arrivals: seq<Arrival<T>>, q: int) {
    && (forall j :: 0 <= j < |arrivals| && Usable(arrivals[j]) ==> arrivals[j].quality <= q)
    && (exists j :: 0 <= j < |arrivals| && Usable(arrivals[j]) && arrivals[j].quality == q)
  }

  /** Of the first m arrivals, j is the first of the best ones from i on. */
  ghost predicate FirstBest<T>(arrivals: seq<Arrival<T>>, i: nat, j: nat, m: nat) {
    && i <= j < m <= |arrivals| && !arrivals[j].failed && !arrivals[j].empty
    && (forall k :: 0 <= k < m && !arrivals[k].failed && !arrivals[k].empty ==>
          arrivals[k].quality <= arrivals[j].quality)
    && (forall k :: i <= k < j && !arrivals[k].failed && !arrivals[k].empty ==>
          arrivals[k].quality < arrivals[j].quality)
  }

  lemma {:induction false} DrainedBest<T>(arrivals: seq<Arrival<T>>, minQuality: int, i: nat, m: nat) returns (j: nat)
    requires FirstQualified(arrivals, minQuality, i) && i < m <= |arrivals|
    ensures FirstBest(arrivals, i, j, m)
    ensures Drained(Some(Fresh(arrivals[i])), arrivals[i + 1..m]) == Some(Fresh(arrivals[j]))
    decreases m
  {
    if m == i + 1 {
      j := i;
    } else {
      j := DrainedBest(arrivals, minQuality, i, m - 1);
      assert arrivals[i + 1..m][..m - i - 2] == arrivals[i + 1..m - 1];
      if Usable(arrivals[m - 1]) && arrivals[m - 1].quality > arrivals[j].quality {
        j := m - 1;
      }
    }
  }

  /** After an uncancelled, non-interactive race with winner i has drained, the cache holds the first of the best
      results from the winner on, and none of all attempts is better. */
  lemma DrainedRaceIsBest<T>(arrivals: seq<Arrival<T>>, minQuality: int, i: nat)
    requires FirstQualified(arrivals, minQuality, i)
    ensures var final := Drained(Some(Fresh(arrivals[i])), arrivals[i + 1..]);
      && final.Some? && MaxQuality(arrivals, final.value.quality) && final.value.quality >= minQuality
      && !final.value.cached && !final.value.degraded
      && exists j: nat :: FirstBest(arrivals, i, j, |arrivals|) && Carries(final.value, arrivals[j])
  {
    var j := DrainedBest(arrivals, minQuality, i, |arrivals|);
    assert arrivals[i + 1..|arrivals|] == arrivals[i + 1..];
    assert Carries(Fresh(arrivals[j]), arrivals[j]);
  }

  // ----- Concurrent callers: every lock section and channel receive is one step -----

  /** A cache-missing race either still waits for its first winner, drains in the background, or is over. */
  datatype RaceState<T> =
    | Waiting(pending: seq<Arrival<T>>)
    | Draining(pending: seq<Arrival<T>>)
    | Over

  datatype State<T> = State(cache: Option<Result<T>>, races: seq<RaceState<T>>)

  /** A caller starts a race whose attempts arrive in the given order, race i receives, is cancelled,
      or the cache is invalidated. */
  datatype Event<T> =
    | Call(arrivals: seq<Arrival<T>>)
    | Receive(i: nat)
    | Abandon(i: nat)
    | Clear

  function Step<T>(s: State<T>, minQuality: int, interactive: bool, e: Event<T>): State<T> {
    match e
    case Call(arrivals) =>
      if s.cache.Some? then s
      else s.(races := s.races + [if arrivals == [] then Over else Waiting(arrivals)])
    case Receive(i) =>
      if i >= |s.races| || s.races[i].Over? || s.races[i].pending == [] then s
      else
        var a, rest := s.races[i].pending[0], s.races[i].pending[1..];
        if s.races[i].Draining? then State(Upgraded(s.cache, a), s.races[i := Draining(rest)])
        else if Qualified(a, minQuality) then
          State(Some(Fresh(a)), s.races[i := if interactive then Over else Draining(rest)])
        else s.(races := s.races[i := if rest == [] then Over else Waiting(rest)])
    case Abandon(i) =>
      if i >= |s.races| then s else s.(races := s.races[i := Over])
    case Clear => s.(cache := None)
  }

  function Run<T>(minQuality: int, interactive: bool, events: seq<Event<T>>): State<T> {
    if events == [] then State(None, [])
    else Step(Run(minQuality, interactive, events[..|events| - 1]), minQuality, interactive, events[|events| - 1])
  }

  ghost predicate NeverCleared<T>(events: seq<Event<T>>) {
    forall k :: 0 <= k < |events| ==> !events[k].Clear?
  }

  /** At most one race is between its cache miss and its first winner. */
  ghost predicate OneWaiting<T>(s: State<T>) {
    forall i, j :: 0 <= i < |s.races| && 0 <= j < |s.races| && s.races[i].Waiting? && s.races[j].Waiting? ==> i == j
  }

  /** At most one such race at every moment of the run. */
  ghost predicate Sequential<T>(minQuality: int, interactive: bool, events: seq<Event<T>>) {
    forall k :: 0 <= k <= |events| ==> OneWaiting(Run(minQuality, interactive, events[..k]))
  }

  ghost predicate NoneWaiting<T>(s: State<T>) {
    forall i :: 0 <= i < |s.races| ==> !s.races[i].Waiting?
  }

  /** A drain only runs behind a cached result. */
  ghost predicate Backed<T>(s: State<T>, minQuality: int) {
    && (s.cache.Some? ==> s.cache.value.quality >= minQuality)
    && (s.cache.None? ==> forall i :: 0 <= i < |s.races| ==> !s.races[i].Draining?)
  }

  /** Without Invalidate the cached quality never falls below the threshold, however races interleave. */
  lemma {:induction false} CacheQualified<T>(minQuality: int, interactive: bool, events: seq<Event<T>>)
    requires NeverCleared(events)
    ensures Backed(Run(minQuality, interactive, events), minQuality)
  {
    if events != [] {
      CacheQualified(minQuality, interactive, events[..|events| - 1]);
    }
  }

  lemma {:induction false} CachedMeansNoneWaiting<T>(minQuality: int, interactive: bool, events: seq<Event<T>>)
    requires NeverCleared(events) && Sequential(minQuality, interactive, events)
    ensures Run(minQuality, interactive, events).cache.Some? ==> NoneWaiting(Run(minQuality, interactive, events))
  {
    if events != [] {
      var k := |events| - 1;
      SequentialPrefix(minQuality, interactive, events, k);
      CachedMeansNoneWaiting(minQuality, interactive, events[..k]);
      CacheQualified(minQuality, interactive, events[..k]);
      assert OneWaiting(Run(minQuality, interactive, events[..k]));
    }
  }

  lemma SequentialPrefix<T>(minQuality: int, interactive: bool, events: seq<Event<T>>, k: nat)
    requires k <= |events| && Sequential(minQuality, interactive, events)
    ensures Sequential(minQuality, interactive, events[..k])
  {
    forall j | 0 <= j <= k ensures OneWaiting(Run(minQuality, interactive, events[..k][..j])) {
      assert events[..k][..j] == events[..j];
    }
  }

  ghost predicate AtLeast<T>(later: Option<Result<T>>, earlier: Option<Result<T>>) {
    earlier.Some? ==> later.Some? && later.value.quality >= earlier.value.quality
  }

  /** Without Invalidate and with one cache-missing race at a time, the cached quality never drops. */
  lemma {:induction false} QualityNeverDrops<T>(minQuality: int, interactive: bool, events: seq<Event<T>>, k: nat)
    requires NeverCleared(events) && Sequential(minQuality, interactive, events) && k <= |events|
    ensures AtLeast(Run(minQuality, interactive, events).cache, Run(minQuality, interactive, events[..k]).cache)
    decreases |events|
  {
    if k == |events| {
      assert events[..k] == events;
    } else {
      var n := |events| - 1;
      SequentialPrefix(minQuality, interactive, events, n);
      QualityNeverDrops(minQuality, interactive, events[..n], k);
      assert events[..n][..k] == events[..k];
      CachedMeansNoneWaiting(minQuality, interactive, events[..n]);
    }
  }

  ghost predicate NoneQualified<T>(arrivals: seq<Arrival<T>>, m: nat, minQuality: int)
    requires m <= |arrivals|
  {
    forall j :: 0 <= j < m ==> !Qualified(arrivals[j], minQuality)
  }

  ghost predicate NoneBetter<T>(arrivals: seq<Arrival<T>>, m: nat, q: int)
    requires m <= |arrivals|
  {
    forall j :: 0 <= j < m && Usable(arrivals[j]) ==> arrivals[j].quality <= q
  }

  /** A race that has received m of the arrivals: while it waits it has seen nothing qualified, and while it drains
      the cache is at least as good as every usable arrival it has seen. */
  ghost predicate Progress<T>(race: RaceState<T>, cache: Option<Result<T>>, minQuality: int, arrivals: seq<Arrival<T>>,
                              m: nat) {
    && m <= |arrivals|
    && match race
       case Waiting(rest) => rest == arrivals[m..] && NoneQualified(arrivals, m, minQuality)
       case Draining(rest) => rest == arrivals[m..] && cache.Some? && NoneBetter(arrivals, m, cache.value.quality)
       case Over => true
  }

  /** A step that leaves the race alone keeps its progress, the cache being no worse. */
  lemma ProgressKept<T>(race: RaceState<T>, cache: Option<Result<T>>, cache1: Option<Result<T>>, minQuality: int,
                        arrivals: seq<Arrival<T>>, m: nat)
    requires Progress(race, cache, minQuality, arrivals, m) && AtLeast(cache1, cache)
    ensures Progress(race, cache1, minQuality, arrivals, m)
  {
  }

  /** The race receives its next arrival. */
  lemma ProgressReceives<T>(race: RaceState<T>, cache: Option<Result<T>>, minQuality: int, interactive: bool,
                            arrivals: seq<Arrival<T>>, m: nat)
    requires Progress(race, cache, minQuality, arrivals, m) && !race.Over? && race.pending != []
    ensures var s := Step(State(cache, [race]), minQuality, interactive, Receive(0));
      m < |arrivals| && Progress(s.races[0], s.cache, minQuality, arrivals, m + 1)
  {
    assert race.pending[0] == arrivals[m] && race.pending[1..] == arrivals[m + 1..];
  }

  lemma ProgressStep<T>(s: State<T>, minQuality: int, interactive: bool, e: Event<T>, i: nat, arrivals: seq<Arrival<T>>,
                        m: nat)
    returns (m1: nat)
    requires i < |s.races| && Progress(s.races[i], s.cache, minQuality, arrivals, m)
    requires !e.Clear? && (s.cache.Some? ==> NoneWaiting(s))
    ensures var s1 := Step(s, minQuality, interactive, e);
      i < |s1.races| && Progress(s1.races[i], s1.cache, minQuality, arrivals, m1)
  {
    m1 := m;
    if e == Receive(i) && !s.races[i].Over? && s.races[i].pending != [] {
      ProgressReceives(s.races[i], s.cache, minQuality, interactive, arrivals, m);
      m1 := m + 1;
    } else {
      var s1 := Step(s, minQuality, interactive, e);
      assert AtLeast(s1.cache, s.cache) by { WhatLowersQuality(s, minQuality, interactive, e); }
      ProgressKept(s.races[i], s.cache, s1.cache, minQuality, arrivals, m);
    }
  }

  lemma {:induction false} ProgressRun<T>(minQuality: int, interactive: bool, events: seq<Event<T>>, k: nat,
                                          arrivals: seq<Arrival<T>>, i: nat) returns (m: nat)
    requires NeverCleared(events) && Sequential(minQuality, interactive, events)
    requires k < |events| && events[k] == Call(arrivals) && Run(minQuality, interactive, events[..k]).cache.None?
    requires i == |Run(minQuality, interactive, events[..k]).races|
    ensures var s := Run(minQuality, interactive, events);
      i < |s.races| && Progress(s.races[i], s.cache, minQuality, arrivals, m)
    decreases |events|
  {
    var n := |events| - 1;
    if k < n {
      SequentialPrefix(minQuality, interactive, events, n);
      assert events[..n][..k] == events[..k];
      m := ProgressRun(minQuality, interactive, events[..n], k, arrivals, i);
      CachedMeansNoneWaiting(minQuality, interactive, events[..n]);
      m := ProgressStep(Run(minQuality, interactive, events[..n]), minQuality, interactive, events[n], i, arrivals, m);
    } else {
      m := 0;
      assert arrivals[0..] == arrivals;
    }
  }

  /** In a whole run without Invalidate and with one cache-missing race at a time: once a race has drained, the cached
      quality is at least the minimum and at least that of each of its usable arrivals, from then on. */
  lemma DrainedRunIsBest<T>(minQuality: int, interactive: bool, events: seq<Event<T>>, k: nat,
                            arrivals: seq<Arrival<T>>, j: nat)
    requires NeverCleared(events) && Sequential(minQuality, interactive, events)
    requires k < |events| && events[k] == Call(arrivals) && Run(minQuality, interactive, events[..k]).cache.None?
    requires var i := |Run(minQuality, interactive, events[..k]).races|;
      i < |Run(minQuality, interactive, events).races| && Run(minQuality, interactive, events).races[i] == Draining([])
    requires j < |arrivals| && Usable(arrivals[j])
    ensures var cache := Run(minQuality, interactive, events).cache;
      cache.Some? && cache.value.quality >= arrivals[j].quality && cache.value.quality >= minQuality
  {
    var i := |Run(minQuality, interactive, events[..k]).races|;
    var m := ProgressRun(minQuality, interactive, events, k, arrivals, i);
    CacheQualified(minQuality, interactive, events);
  }

  /** Exactly which steps lower the cached quality: clearing, and a winner that finds a better result cached. */
  lemma WhatLowersQuality<T>(s: State<T>, minQuality: int, interactive: bool, e: Event<T>)
    ensures !AtLeast(Step(s, minQuality, interactive, e).cache, s.cache) <==>
            s.cache.Some? &&
            (e.Clear? ||
             (e.Receive? && e.i < |s.races| && s.races[e.i].Waiting? && s.races[e.i].pending != [] &&
              Qualified(s.races[e.i].pending[0], minQuality) &&
              s.races[e.i].pending[0].quality < s.cache.value.quality))
  {
  }

  lemma RunSnoc<T>(minQuality: int, interactive: bool, events: seq<Event<T>>, e: Event<T>)
    ensures Run(minQuality, interactive, events + [e]) ==
            Step(Run(minQuality, interactive, events), minQuality, interactive, e)
  {
    assert (events + [e])[..|events|] == events;
  }

  /** Two races that both missed the cache can replace a better result by a worse one, for any two qualities. */
  lemma OverlappingRacesDrop<T>(better: Arrival<T>, worse: Arrival<T>, minQuality: int, events: seq<Event<T>>)
    requires Qualified(better, minQuality) && Qualified(worse, minQuality) && worse.quality < better.quality
    requires events == [Call([better]), Call([worse]), Receive(0)]
    ensures Run(minQuality, false, events).cache == Some(Fresh(better))
    ensures Run(minQuality, false, events + [Receive(1)]).cache == Some(Fresh(worse))
  {
    var one, two := [Call([better])], [Call([better]), Call([worse])];
    assert one == [] + [Call([better])] && two == one + [Call([worse])] && events == two + [Receive(0)];
    RunSnoc(minQuality, false, [], Call([better]));
    RunSnoc(minQuality, false, one, Call([worse]));
    assert Run(minQuality, false, two) == State(None, [Waiting([better]), Waiting([worse])]);
    RunSnoc(minQuality, false, two, Receive(0));
    assert Run(minQuality, false, events).races[1] == Waiting([worse]);
    RunSnoc(minQuality, false, events, Receive(1));
  }

  /** After Invalidate, a drain still running can cache a result below the threshold, for any such pair of arrivals. */
  lemma ClearedDrainCachesUnqualified<T>(good: Arrival<T>, bad: Arrival<T>, minQuality: int, events: seq<Event<T>>)
    requires Qualified(good, minQuality) && Usable(bad) && bad.quality < minQuality
    requires events == [Call([good, bad]), Receive(0), Clear]
    ensures Run(minQuality, false, events).cache.None?
    ensures Run(minQuality, false, events + [Receive(0)]).cache == Some(Fresh(bad))
  {
    var one, two := [Call([good, bad])], [Call([good, bad]), Receive(0)];
    assert one == [] + [Call([good, bad])] && two == one + [Receive(0)] && events == two + [Clear];
    RunSnoc(minQuality, false, [], Call([good, bad]));
    assert Run(minQuality, false, one) == State(None, [Waiting([good, bad])]);
    RunSnoc(minQuality, false, one, Receive(0));
    assert Run(minQuality, false, two) == State(Some(Fresh(good)), [Draining([bad])]);
    RunSnoc(minQuality, false, two, Clear);
    assert Run(minQuality, false, events) == State(None, [Draining([bad])]);
    RunSnoc(minQuality, false, events, Receive(0));
  }

  /** Exactly which steps make the cache unqualified: a drain receiving a usable low-quality result into an empty
      cache. */
  lemma WhatCachesUnqualified<T>(s: State<T>, minQuality: int, interactive: bool, e: Event<T>)
    requires s.cache.Some? ==> s.cache.value.quality >= minQuality
    ensures var cache := Step(s, minQuality, interactive, e).cache;
            (cache.Some? && cache.value.quality < minQuality) <==>
            s.cache.None? && e.Receive? && e.i < |s.races| && s.races[e.i].Draining? && s.races[e.i].pending != [] &&
            Usable(s.races[e.i].pending[0]) && s.races[e.i].pending[0].quality < minQuality
  {
  }

  // ----- Where cached results come from -----

  /** Some race of the run was started with attempt a among its arrivals. */
  ghost predicate Delivered<T>(events: seq<Event<T>>, a: Arrival<T>) {
    exists k, j :: DeliveredAt(events, k, j) && events[k].arrivals[j] == a
  }

  ghost predicate DeliveredAt<T>(events: seq<Event<T>>, k: int, j: int) {
    0 <= k < |events| && events[k].Call? && 0 <= j < |events[k].arrivals|
  }

  ghost predicate PendingDelivered<T>(events: seq<Event<T>>, race: RaceState<T>) {
    race.Over? || forall j :: 0 <= j < |race.pending| ==> Delivered(events, race.pending[j])
  }

  ghost predicate CacheDelivered<T>(events: seq<Event<T>>, cache: Option<Result<T>>) {
    cache.Some? ==>
      && !cache.value.cached && !cache.value.degraded
      && exists k, j :: DeliveredAt(events, k, j) && Carries(cache.value, events[k].arrivals[j])
  }

  lemma DeliveredLater<T>(events: seq<Event<T>>, e: Event<T>, a: Arrival<T>)
    requires Delivered(events, a)
    ensures Delivered(events + [e], a)
  {
    var k, j :| DeliveredAt(events, k, j) && events[k].arrivals[j] == a;
    assert (events + [e])[k] == events[k] && DeliveredAt(events + [e], k, j);
  }

  lemma PendingLater<T>(events: seq<Event<T>>, e: Event<T>, race: RaceState<T>)
    requires PendingDelivered(events, race)
    ensures PendingDelivered(events + [e], race)
  {
    if !race.Over? {
      forall j | 0 <= j < |race.pending| ensures Delivered(events + [e], race.pending[j]) {
        DeliveredLater(events, e, race.pending[j]);
      }
    }
  }

  lemma CalledNow<T>(events: seq<Event<T>>, e: Event<T>)
    requires e.Call?
    ensures PendingDelivered(events + [e], Waiting(e.arrivals))
  {
    forall j | 0 <= j < |e.arrivals| ensures Delivered(events + [e], e.arrivals[j]) {
      assert (events + [e])[|events|] == e && DeliveredAt(events + [e], |events|, j);
    }
  }

  lemma CacheLater<T>(events: seq<Event<T>>, e: Event<T>, cache: Option<Result<T>>)
    requires CacheDelivered(events, cache)
    ensures CacheDelivered(events + [e], cache)
  {
    if cache.Some? {
      var k, j :| DeliveredAt(events, k, j) && Carries(cache.value, events[k].arrivals[j]);
      assert (events + [e])[k] == events[k] && DeliveredAt(events + [e], k, j);
    }
  }

  lemma CachedNow<T>(events: seq<Event<T>>, a: Arrival<T>)
    requires Delivered(events, a) && Usable(a)
    ensures CacheDelivered(events, Some(Fresh(a)))
  {
    var k, j :| DeliveredAt(events, k, j) && events[k].arrivals[j] == a;
    assert Carries(Fresh(a), events[k].arrivals[j]);
  }

  lemma ReceivedStep<T>(s: State<T>, minQuality: int, interactive: bool, events: seq<Event<T>>, i: nat)
    requires CacheDelivered(events, s.cache)
    requires i < |s.races| && PendingDelivered(events, s.races[i])
    ensures var s1 := Step(s, minQuality, interactive, Receive(i));
      CacheDelivered(events, s1.cache) && PendingDelivered(events, s1.races[i])
  {
    if !s.races[i].Over? && s.races[i].pending != [] && Usable(s.races[i].pending[0]) {
      CachedNow(events, s.races[i].pending[0]);
    }
  }

  lemma DeliveredStep<T>(s: State<T>, minQuality: int, interactive: bool, events: seq<Event<T>>, e: Event<T>)
    requires CacheDelivered(events, s.cache)
    requires forall i :: 0 <= i < |s.races| ==> PendingDelivered(events, s.races[i])
    ensures var s1 := Step(s, minQuality, interactive, e);
      && CacheDelivered(events + [e], s1.cache)
      && forall i :: 0 <= i < |s1.races| ==> PendingDelivered(events + [e], s1.races[i])
  {
    var s1 := Step(s, minQuality, interactive, e);
    if e.Receive? && e.i < |s.races| {
      ReceivedStep(s, minQuality, interactive, events, e.i);
    }
    CacheLater(events, e, s1.cache);
    forall i | 0 <= i < |s1.races| ensures PendingDelivered(events + [e], s1.races[i]) {
      if i < |s.races| {
        PendingLater(events, e, s1.races[i]);
      } else {
        CalledNow(events, e);
      }
    }
  }

  /** Over every run, with invalidation and cancellation, the cache holds what some attempt of a started race delivered,
      neither failed nor empty, unmarked. */
  lemma {:induction false} CacheIsDelivered<T>(minQuality: int, interactive: bool, events: seq<Event<T>>)
    ensures var s := Run(minQuality, interactive, events);
      && CacheDelivered(events, s.cache)
      && forall i :: 0 <= i < |s.races| ==> PendingDelivered(events, s.races[i])
  {
    if events != [] {
      var before, e := events[..|events| - 1], events[|events| - 1];
      CacheIsDelivered(minQuality, interactive, before);
      DeliveredStep(Run(minQuality, interactive, before), minQuality, interactive, before, e);
      assert before + [e] == events;
    }
  }

  // ----- One caller alone -----

  /** The steps of one race that receives its first m arrivals. */
  ghost function Alone<T>(arrivals: seq<Arrival<T>>, m: nat): seq<Event<T>> {
    if m == 0 then [Call(arrivals)] else Alone(arrivals, m - 1) + [Receive(0)]
  }

  /** It waits until its first qualified arrival i, caches it, and then stops when interactive, or drains as the
      method does. */
  ghost function AloneState<T>(arrivals: seq<Arrival<T>>, interactive: bool, i: nat, m: nat): State<T>
    requires i < |arrivals| && m <= |arrivals|
  {
    if m <= i then State(None, [Waiting(arrivals[m..])])
    else if interactive then State(Some(Fresh(arrivals[i])), [Over])
    else State(Drained(Some(Fresh(arrivals[i])), arrivals[i + 1..m]), [Draining(arrivals[m..])])
  }

  lemma AloneWaits<T>(arrivals: seq<Arrival<T>>, minQuality: int, interactive: bool, i: nat, m: nat)
    requires FirstQualified(arrivals, minQuality, i) && m < i
    ensures Step(State(None, [Waiting(arrivals[m..])]), minQuality, interactive, Receive(0)) ==
            State(None, [Waiting(arrivals[m + 1..])])
  {
    assert arrivals[m..][0] == arrivals[m] && arrivals[m..][1..] == arrivals[m + 1..];
  }

  lemma AloneWins<T>(arrivals: seq<Arrival<T>>, minQuality: int, interactive: bool, i: nat)
    requires FirstQualified(arrivals, minQuality, i)
    ensures Step(State(None, [Waiting(arrivals[i..])]), minQuality, interactive, Receive(0)) ==
            State(Some(Fresh(arrivals[i])), [if interactive then Over else Draining(arrivals[i + 1..])])
  {
    assert arrivals[i..][0] == arrivals[i] && arrivals[i..][1..] == arrivals[i + 1..];
  }

  lemma AloneDrains<T>(arrivals: seq<Arrival<T>>, minQuality: int, cache: Option<Result<T>>, i: nat, m: nat)
    requires i < m < |arrivals|
    ensures Step(State(Drained(cache, arrivals[i + 1..m]), [Draining(arrivals[m..])]), minQuality, false, Receive(0)) ==
            State(Drained(cache, arrivals[i + 1..m + 1]), [Draining(arrivals[m + 1..])])
  {
    assert arrivals[m..][0] == arrivals[m] && arrivals[m..][1..] == arrivals[m + 1..];
    assert arrivals[i + 1..m + 1] == arrivals[i + 1..m] + [arrivals[m]];
    var all := arrivals[i + 1..m + 1];
    assert all[..|all| - 1] == arrivals[i + 1..m];
  }

  lemma AloneStep<T>(arrivals: seq<Arrival<T>>, minQuality: int, interactive: bool, i: nat, m: nat)
    requires FirstQualified(arrivals, minQuality, i) && m < |arrivals|
    ensures Step(AloneState(arrivals, interactive, i, m), minQuality, interactive, Receive(0)) ==
            AloneState(arrivals, interactive, i, m + 1)
  {
    if m < i {
      AloneWaits(arrivals, minQuality, interactive, i, m);
    } else if m == i {
      AloneWins(arrivals, minQuality, interactive, i);
      assert arrivals[i + 1..m + 1] == [];
    } else if !interactive {
      AloneDrains(arrivals, minQuality, Some(Fresh(arrivals[i])), i, m);
    }
  }

  /** The states of a race on its own, which ties the steps to the methods. */
  lemma {:induction false} AloneIsRace<T>(arrivals: seq<Arrival<T>>, minQuality: int, interactive: bool, i: nat, m: nat)
    requires FirstQualified(arrivals, minQuality, i) && m <= |arrivals|
    ensures Run(minQuality, interactive, Alone(arrivals, m)) == AloneState(arrivals, interactive, i, m)
    decreases m
  {
    if m == 0 {
      RunSnoc(minQuality, interactive, [], Call(arrivals));
      assert [] + [Call(arrivals)] == Alone(arrivals, 0);
      assert arrivals[0..] == arrivals;
    } else {
      AloneIsRace(arrivals, minQuality, interactive, i, m - 1);
      RunSnoc(minQuality, interactive, Alone(arrivals, m - 1), Receive(0));
      AloneStep(arrivals, minQuality, interactive, i, m - 1);
    }
  }
}
