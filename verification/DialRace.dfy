/**
 * The racing dialers, in the manner of section 5 of RFC 8305: primary racers start at once, fallback racers when a
 * timer fires or a primary fails early, results arrive over an unbuffered channel, and whoever comes too late
 * closes its own connection. Racers below `primaries` are primary.
 */
module DialRace {
  import opened Prelude

  /** `eager` is the fast-fallback variant: every racer starts at once and there is no timer. */
  datatype Setup = Setup(primaries: nat, fallbacks: nat, eager: bool)

  datatype Racer =
    | Unlaunched
    | Dialing
    | Ready(ok: bool)        // selecting between sending its result and the closed `returned` channel
    | Delivered(ok: bool)
    | Dropped(ok: bool)      // came too late; a connection was closed

  datatype Timer = NoTimer | Armed | Fired | Drained

  datatype Main = Looping | ReturnedConn(racer: nat) | ReturnedError

  /** `made`, `closed` and `launches` are history. */
  datatype State = State(
    racers: seq<Racer>, timer: Timer, main: Main, failed: set<nat>, made: set<nat>, closed: set<nat>, launches: nat)

  /** `stopped` is what Stop reports for a timer that has fired but not been received: both answers occur. */
  datatype Event =
    | DialEnds(r: nat, ok: bool)
    | TimerFires
    | TakeTimer
    | Deliver(r: nat, stopped: bool)
    | Drop(r: nat)

  function Total(c: Setup): nat { c.primaries + c.fallbacks }

  function Init(c: Setup): State {
    State(seq(Total(c), i => if i < c.primaries || c.eager then Dialing else Unlaunched),
          if c.eager || c.fallbacks == 0 then NoTimer else Armed,
          Looping, {}, {}, {}, if c.eager then 1 else 0)
  }

  predicate Enabled(s: State, e: Event) {
    match e
    case DialEnds(r, _) => r < |s.racers| && s.racers[r].Dialing?
    case TimerFires => s.timer.Armed?
    case TakeTimer => s.main.Looping? && s.timer.Fired?
    case Deliver(r, _) => s.main.Looping? && r < |s.racers| && s.racers[r].Ready?
    case Drop(r) => !s.main.Looping? && r < |s.racers| && s.racers[r].Ready?
  }

  function Launched(racers: seq<Racer>): seq<Racer> {
    seq(|racers|, i requires 0 <= i < |racers| => if racers[i].Unlaunched? then Dialing else racers[i])
  }

  /** After a primary failure: Stop, and Reset(0) when Stop reports that the timer was pending. */
  function Hurried(t: Timer, stopped: bool): Timer { if t.Fired? && stopped then Armed else t }

  function Apply(c: Setup, s: State, e: Event): State
    requires Enabled(s, e)
  {
    match e
    case DialEnds(r, ok) =>
      s.(racers := s.racers[r := Ready(ok)], made := if ok then s.made + {r} else s.made)
    case TimerFires => s.(timer := Fired)
    case TakeTimer => s.(racers := Launched(s.racers), timer := Drained, launches := s.launches + 1)
    case Deliver(r, stopped) =>
      if s.racers[r].ok then s.(racers := s.racers[r := Delivered(true)], main := ReturnedConn(r))
      else
        var failed := s.failed + {r};
        s.(racers := s.racers[r := Delivered(false)], failed := failed,
           main := if |failed| == Total(c) then ReturnedError else Looping,
           timer := if |failed| != Total(c) && r < c.primaries then Hurried(s.timer, stopped) else s.timer)
    case Drop(r) =>
      s.(racers := s.racers[r := Dropped(s.racers[r].ok)],
         closed := if s.racers[r].ok then s.closed + {r} else s.closed)
  }

  predicate Legal(c: Setup, events: seq<Event>)
    decreases |events|, 0
  {
    events != [] ==> Legal(c, events[..|events| - 1]) && Enabled(After(c, events[..|events| - 1]), events[|events| - 1])
  }

  function After(c: Setup, events: seq<Event>): State
    requires Legal(c, events)
    decreases |events|, 1
  {
    if events == [] then Init(c) else Apply(c, After(c, events[..|events| - 1]), events[|events| - 1])
  }

  // ----- the invariant -----

  /** What is known of one racer. */
  ghost predicate RacerSound(s: State, r: nat)
    requires r < |s.racers|
  {
    match s.racers[r]
    case Unlaunched => r !in s.made && r !in s.closed && r !in s.failed
    case Dialing => r !in s.made && r !in s.closed && r !in s.failed
    case Ready(ok) => (r in s.made <==> ok) && r !in s.closed && r !in s.failed
    case Delivered(ok) =>
      (r in s.made <==> ok) && r !in s.closed && (r in s.failed <==> !ok) && (ok ==> s.main == ReturnedConn(r))
    case Dropped(ok) => (r in s.made <==> ok) && (r in s.closed <==> ok) && r !in s.failed && !s.main.Looping?
  }

  ghost predicate AllBelow(x: set<nat>, n: nat) { forall r :: r in x ==> r < n }

  ghost predicate RacersSound(c: Setup, s: State) {
    && |s.racers| == Total(c) && AllBelow(s.failed, Total(c)) && AllBelow(s.made, Total(c))
    && (forall r :: 0 <= r < |s.racers| ==> RacerSound(s, r))
  }

  ghost predicate MainSound(c: Setup, s: State) {
    match s.main
    case Looping => |s.failed| != Total(c) || Total(c) == 0
    case ReturnedConn(r) => r < |s.racers| && s.racers[r] == Delivered(true)
    case ReturnedError => |s.failed| == Total(c)
  }

  ghost predicate TimerSound(c: Setup, s: State) {
    && s.launches <= 1
    && (s.launches == 0 <==> s.timer.Armed? || s.timer.Fired? || (s.timer.NoTimer? && !c.eager))
    && (s.timer.NoTimer? <==> c.eager || c.fallbacks == 0)
    && (s.launches == 1 || c.fallbacks == 0 ==> forall r :: 0 <= r < |s.racers| ==> !s.racers[r].Unlaunched?)
    && (s.launches == 0 ==> forall r :: c.primaries <= r < |s.racers| ==> s.racers[r].Unlaunched?)
  }

  ghost predicate Inv(c: Setup, s: State) { RacersSound(c, s) && MainSound(c, s) && TimerSound(c, s) }

  lemma StepKeepsRacers(c: Setup, s: State, e: Event)
    requires Inv(c, s) && Enabled(s, e)
    ensures RacersSound(c, Apply(c, s, e))
  {
    var s' := Apply(c, s, e);
    forall r | 0 <= r < |s'.racers| ensures RacerSound(s', r) {
      assert RacerSound(s, r);
    }
  }

  lemma StepKeepsMainAndTimer(c: Setup, s: State, e: Event)
    requires Inv(c, s) && Enabled(s, e)
    ensures MainSound(c, Apply(c, s, e)) && TimerSound(c, Apply(c, s, e))
  {
  }

  ghost predicate LaunchSound(c: Setup, s: State) {
    && |s.racers| == c.primaries + c.fallbacks && (c.eager ==> 0 < s.launches)
    && forall r :: 0 <= r < |s.racers| ==> (s.racers[r].Unlaunched? <==> c.primaries <= r && s.launches == 0)
  }

  lemma StepKeepsLaunches(c: Setup, s: State, e: Event)
    requires LaunchSound(c, s) && Enabled(s, e)
    ensures LaunchSound(c, Apply(c, s, e))
  {
    var s' := Apply(c, s, e);
    if !e.TakeTimer? && !e.TimerFires? {
      assert s'.racers == s.racers[e.r := s'.racers[e.r]] && s'.launches == s.launches;
      assert !s'.racers[e.r].Unlaunched? && !s.racers[e.r].Unlaunched?;
    }
  }

  /** In every schedule: primaries dial from the start; fallbacks wait for the launch, which a fast dial makes first. */
  lemma {:induction false} UnlaunchedIff(c: Setup, events: seq<Event>)
    requires Legal(c, events)
    ensures LaunchSound(c, After(c, events))
    decreases |events|
  {
    if events != [] {
      UnlaunchedIff(c, events[..|events| - 1]);
      StepKeepsLaunches(c, After(c, events[..|events| - 1]), events[|events| - 1]);
    }
  }

  /**
   * A primary that fails stops the timer. When Stop finds it pending, what had fired is gone and the reset timer must
   * fire again before it is taken; otherwise, and for a fallback, the timer is as it was.
   */
  lemma HurriedMustFireAgain(c: Setup, s: State, r: nat, stopped: bool)
    requires Enabled(s, Deliver(r, stopped)) && !s.racers[r].ok
    ensures
      var s' := Apply(c, s, Deliver(r, stopped));
      if s'.main.Looping? && r < c.primaries && s.timer.Fired? && stopped
      then !Enabled(s', TakeTimer) && Enabled(s', TimerFires)
      else s'.timer == s.timer
  {
  }

  /** At first every primary is dialing, and a timer runs exactly when there are fallbacks to hold back. */
  lemma AllDialAtFirst(c: Setup)
    ensures
      var s := Init(c);
      && s.main == Looping && s.made == {} && s.closed == {} && s.failed == {}
      && (forall r :: 0 <= r < c.primaries ==> s.racers[r] == Dialing)
      && (forall r :: c.primaries <= r < c.primaries + c.fallbacks ==>
            s.racers[r] == if c.eager then Dialing else Unlaunched)
      && (s.timer == Armed <==> !c.eager && 0 < c.fallbacks)
  {
  }

  lemma {:induction false} ReachableInv(c: Setup, events: seq<Event>)
    requires Legal(c, events)
    ensures Inv(c, After(c, events))
    decreases |events|
  {
    if events != [] {
      var p, e := events[..|events| - 1], events[|events| - 1];
      ReachableInv(c, p);
      StepKeepsRacers(c, After(c, p), e);
      StepKeepsMainAndTimer(c, After(c, p), e);
    }
  }

  // ----- in every schedule -----

  /** The connection handed to the caller, if any. */
  function Given(s: State): set<nat> { if s.main.ReturnedConn? then {s.main.racer} else {} }

  /** Still on the way: the racer holds a connection it has neither delivered nor closed. */
  ghost predicate Pending(s: State, r: nat) { r < |s.racers| && s.racers[r] == Ready(true) }

  /** Every opened connection is the one returned, or closed, or held by a racer, and only one of these. */
  lemma ConnectionsAreConserved(c: Setup, events: seq<Event>, r: nat)
    requires Legal(c, events) && r in After(c, events).made
    ensures
      var s := After(c, events);
      && (r in Given(s) || r in s.closed || Pending(s, r))
      && !(r in Given(s) && r in s.closed) && !(r in Given(s) && Pending(s, r)) && !(r in s.closed && Pending(s, r))
  {
    ReachableInv(c, events);
    assert RacerSound(After(c, events), r);
  }

  /** Every launched racer has delivered its result or given it up. */
  ghost predicate AllThrough(s: State) {
    forall r :: 0 <= r < |s.racers| ==> !s.racers[r].Ready? && !s.racers[r].Dialing?
  }

  /** Once the dial has returned and its racers are through, what was opened is closed, except for what was returned. */
  lemma NothingLeaks(c: Setup, events: seq<Event>)
    requires Legal(c, events) && !After(c, events).main.Looping?
    requires AllThrough(After(c, events))
    ensures
      var s := After(c, events);
      s.made == s.closed + Given(s) && s.closed !! Given(s)
  {
    ReachableInv(c, events);
    var s := After(c, events);
    forall r | r in s.made ensures r in s.closed + Given(s) {
      ConnectionsAreConserved(c, events, r);
    }
    if s.main.ReturnedConn? {
      assert RacerSound(s, s.main.racer);
    }
    ClosedWereOpened(c, events);
  }

  lemma {:induction false} ClosedWereOpened(c: Setup, events: seq<Event>)
    requires Legal(c, events)
    ensures After(c, events).closed <= After(c, events).made
    decreases |events|
  {
    if events != [] {
      var p := events[..|events| - 1];
      ClosedWereOpened(c, p);
      ReachableInv(c, p);
      var e := events[|events| - 1];
      if e.Drop? {
        assert RacerSound(After(c, p), e.r);
      }
    }
  }

  /** Fallback racers are launched at most once. */
  lemma FallbackLaunchedOnce(c: Setup, events: seq<Event>)
    requires Legal(c, events)
    ensures After(c, events).launches <= 1
    ensures After(c, events).launches == 1 ==>
      !Enabled(After(c, events), TakeTimer) && !Enabled(After(c, events), TimerFires)
  {
    ReachableInv(c, events);
  }

  function Below(n: nat): set<nat> { if n == 0 then {} else Below(n - 1) + {n - 1} }

  lemma {:induction false} BelowFacts(n: nat)
    ensures |Below(n)| == n && forall r: nat :: r in Below(n) <==> r < n
  {
    if 0 < n {
      BelowFacts(n - 1);
    }
  }

  lemma FullSet(x: set<nat>, n: nat)
    requires AllBelow(x, n) && |x| == n
    ensures forall r: nat :: r < n ==> r in x
  {
    BelowFacts(n);
    forall r: nat | r < n ensures r in x {
      if r !in x {
        SubsetSize(x, Below(n) - {r});
      }
    }
  }

  /** An error is returned only after every racer, primary and fallback, was launched and failed. */
  lemma ErrorMeansAllFailed(c: Setup, events: seq<Event>)
    requires Legal(c, events) && After(c, events).main.ReturnedError?
    ensures
      var s := After(c, events);
      |s.racers| == Total(c) && s.made == {} && forall r :: 0 <= r < Total(c) ==> s.racers[r] == Delivered(false)
  {
    ReachableInv(c, events);
    var s := After(c, events);
    FullSet(s.failed, Total(c));
    forall r | 0 <= r < Total(c) ensures s.racers[r] == Delivered(false) && r !in s.made {
      assert RacerSound(s, r);
    }
  }

  /** A racer whose failure has not arrived is on its way, or will be launched by a timer that is armed or has fired. */
  ghost predicate OnItsWay(s: State, r: nat)
    requires r < |s.racers|
  {
    || s.racers[r].Dialing? || s.racers[r].Ready?
    || (s.racers[r].Unlaunched? && (Enabled(s, TimerFires) || Enabled(s, TakeTimer)))
  }

  /** While it loops, the dial always has something to wait for, and no racer is ever given up. */
  lemma LoopIsNeverStuck(c: Setup, events: seq<Event>)
    requires Legal(c, events) && 0 < Total(c) && After(c, events).main.Looping?
    ensures
      var s := After(c, events);
      && (forall r :: 0 <= r < |s.racers| && r !in s.failed ==> OnItsWay(s, r))
      && exists r :: 0 <= r < |s.racers| && OnItsWay(s, r)
  {
    ReachableInv(c, events);
    var s := After(c, events);
    forall r | 0 <= r < |s.racers| && r !in s.failed ensures OnItsWay(s, r) {
      assert RacerSound(s, r);
    }
    var r := Missing(s.failed, Total(c));
    assert OnItsWay(s, r);
  }

  lemma Missing(x: set<nat>, n: nat) returns (r: nat)
    requires AllBelow(x, n) && |x| != n
    ensures r < n && r !in x
  {
    BelowFacts(n);
    assert x != Below(n);
    r :| r in Below(n) && r !in x;
  }

  // ----- every schedule ends -----

  function RacerWork(r: Racer): nat {
    match r
    case Unlaunched => 3
    case Dialing => 3
    case Ready(_) => 2
    case Delivered(_) => 0
    case Dropped(_) => 0
  }

  function Work(racers: seq<Racer>): nat { if racers == [] then 0 else RacerWork(racers[0]) + Work(racers[1..]) }

  function TimerWork(t: Timer): nat { if t.Armed? then 2 else if t.Fired? then 1 else 0 }

  lemma {:induction false} WorkUpdate(racers: seq<Racer>, r: nat, x: Racer)
    requires r < |racers|
    ensures Work(racers[r := x]) == Work(racers) - RacerWork(racers[r]) + RacerWork(x)
  {
    if r == 0 {
      assert racers[r := x][1..] == racers[1..];
    } else {
      WorkUpdate(racers[1..], r - 1, x);
      assert racers[r := x][1..] == racers[1..][r - 1 := x];
    }
  }

  lemma {:induction false} WorkLaunched(racers: seq<Racer>)
    ensures Work(Launched(racers)) == Work(racers)
  {
    if racers != [] {
      WorkLaunched(racers[1..]);
      assert Launched(racers)[1..] == Launched(racers[1..]);
    }
  }

  lemma {:induction false} WorkBound(racers: seq<Racer>)
    ensures Work(racers) <= 3 * |racers|
  {
    if racers != [] {
      WorkBound(racers[1..]);
    }
  }

  lemma StepWorks(c: Setup, s: State, e: Event)
    requires Enabled(s, e)
    ensures
      var s' := Apply(c, s, e);
      Work(s'.racers) + TimerWork(s'.timer) < Work(s.racers) + TimerWork(s.timer)
  {
    match e
    case DialEnds(r, ok) => WorkUpdate(s.racers, r, Ready(ok));
    case TimerFires =>
    case TakeTimer => WorkLaunched(s.racers);
    case Deliver(r, _) => WorkUpdate(s.racers, r, Delivered(s.racers[r].ok));
    case Drop(r) => WorkUpdate(s.racers, r, Dropped(s.racers[r].ok));
  }

  lemma {:induction false} WorkLeft(c: Setup, events: seq<Event>)
    requires Legal(c, events)
    ensures |events| + Work(After(c, events).racers) + TimerWork(After(c, events).timer) <= 3 * Total(c) + 2
    decreases |events|
  {
    if events == [] {
      WorkBound(Init(c).racers);
    } else {
      WorkLeft(c, events[..|events| - 1]);
      StepWorks(c, After(c, events[..|events| - 1]), events[|events| - 1]);
    }
  }

  /** No schedule goes on for ever: the number of steps is bounded by the number of racers. */
  lemma SchedulesAreBounded(c: Setup, events: seq<Event>)
    requires Legal(c, events)
    ensures |events| <= 3 * Total(c) + 2
  {
    WorkLeft(c, events);
  }

  /** A schedule that cannot go on has returned, no racer is left blocked, and only the returned connection is open. */
  lemma EveryScheduleEndsClean(c: Setup, events: seq<Event>)
    requires Legal(c, events) && 0 < Total(c)
    requires forall e :: !Enabled(After(c, events), e)
    ensures
      var s := After(c, events);
      !s.main.Looping? && AllThrough(s) && s.made == s.closed + Given(s) && s.closed !! Given(s)
  {
    var s := After(c, events);
    forall r | 0 <= r < |s.racers| ensures !s.racers[r].Dialing? && !s.racers[r].Ready? {
      assert !Enabled(s, DialEnds(r, true)) && !Enabled(s, Deliver(r, true)) && !Enabled(s, Drop(r));
    }
    assert !Enabled(s, TimerFires) && !Enabled(s, TakeTimer);
    if s.main.Looping? {
      LoopIsNeverStuck(c, events);
    }
    NothingLeaks(c, events);
  }
}
