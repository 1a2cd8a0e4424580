/**
 * The daemon's start/reload/close protocol. StartOrReloadService drops the lock twice: to close the old
 * instance and to start the new one. Every step between two lock operations is its own event, so any number
 * of calls may interleave wherever the lock is free.
 */
module ServiceLifecycle {
  import opened Prelude

  datatype Status = Idle | Starting | Started | Stopping | Fatal

  datatype Phase =
    // StartOrReloadService
    | StartWaits                          // wants the lock
    | StartChecks                         // holds it, before the status switch
    | ClosesOld(prev: nat)                // lock dropped, closing the old instance
    | StartWaitsAgain                     // wants the lock after that
    | SetsStarting                        // holds it, before the status update
    | Builds                              // holds it, status STARTING, before newInstance
    | RunsStart(mine: nat)                // lock dropped, running instance.Start
    | MarkWaits(mine: nat, ok: bool)      // wants the lock with the result
    | Marks(mine: nat, ok: bool)          // holds it, before the last status check
    // CloseService
    | CloseWaits
    | CloseChecks
    | Detaches                            // holds it, status STOPPING, before taking the instance
    | ClosesCurrent(current: Option<nat>) // holds it, instance cleared, before instance.Close
    // SetError
    | ErrorWaits
    | SetsError
    | Ended

  predicate Holds(ph: Phase) {
    ph.StartChecks? || ph.SetsStarting? || ph.Builds? || ph.Marks? || ph.CloseChecks? || ph.Detaches?
    || ph.ClosesCurrent? || ph.SetsError?
  }

  /** A call, with how often it has locked and unlocked. */
  datatype Call = Call(phase: Phase, locks: nat, unlocks: nat)

  /** `made`, `closed` and `ran` are history: instances built, closed, and whose Start returned without error. */
  datatype State = State(
    status: Status, instance: Option<nat>, lock: Option<nat>, calls: map<nat, Call>,
    made: set<nat>, closed: set<nat>, ran: set<nat>)

  /** `ok` and `id` are what the outside does: whether the call in progress fails, and the new instance. */
  datatype Event = Arrive(pid: nat, first: Phase) | Acquire(pid: nat) | Step(pid: nat, ok: bool, id: nat)

  predicate Wants(ph: Phase) {
    ph.StartWaits? || ph.StartWaitsAgain? || ph.MarkWaits? || ph.CloseWaits? || ph.ErrorWaits?
  }

  function Entered(ph: Phase): Phase
    requires Wants(ph)
  {
    match ph
    case StartWaits => StartChecks
    case StartWaitsAgain => SetsStarting
    case MarkWaits(mine, ok) => Marks(mine, ok)
    case CloseWaits => CloseChecks
    case ErrorWaits => SetsError
  }

  predicate Enabled(s: State, e: Event) {
    match e
    case Arrive(pid, first) => pid !in s.calls && (first.StartWaits? || first.CloseWaits? || first.ErrorWaits?)
    case Acquire(pid) => pid in s.calls && Wants(s.calls[pid].phase) && s.lock.None?
    case Step(pid, _, id) =>
      && pid in s.calls && !Wants(s.calls[pid].phase) && !s.calls[pid].phase.Ended?
      && (s.calls[pid].phase.Builds? ==> id !in s.made)
  }

  /** The call goes on without touching the lock. */
  function Goes(s: State, pid: nat, ph: Phase): State
    requires pid in s.calls
  {
    s.(calls := s.calls[pid := s.calls[pid].(phase := ph)])
  }

  /** The call unlocks, whoever holds the lock. */
  function Unlocks(s: State, pid: nat, ph: Phase): State
    requires pid in s.calls
  {
    s.(lock := None, calls := s.calls[pid := Call(ph, s.calls[pid].locks, s.calls[pid].unlocks + 1)])
  }

  function Apply(s: State, e: Event): State
    requires Enabled(s, e)
  {
    match e
    case Arrive(pid, first) => s.(calls := s.calls[pid := Call(first, 0, 0)])
    case Acquire(pid) =>
      var c := s.calls[pid];
      s.(lock := Some(pid), calls := s.calls[pid := Call(Entered(c.phase), c.locks + 1, c.unlocks)])
    case Step(pid, ok, id) => Stepped(s, pid, s.calls[pid].phase, ok, id)
  }

  function Stepped(s: State, pid: nat, ph: Phase, ok: bool, id: nat): State
    requires pid in s.calls
  {
    match ph
    case StartChecks =>
      if s.status == Stopping then Unlocks(s, pid, Ended)
      else if s.instance.Some? then Unlocks(s.(status := Stopping), pid, ClosesOld(s.instance.value))
      else Goes(s, pid, SetsStarting)
    case ClosesOld(prev) => Goes(s.(closed := s.closed + {prev}), pid, StartWaitsAgain)
    case SetsStarting => Goes(s.(status := Starting), pid, Builds)
    case Builds =>
      if !ok then Unlocks(s.(status := Fatal), pid, Ended)
      else Unlocks(s.(instance := Some(id), made := s.made + {id}), pid, RunsStart(id))
    case RunsStart(mine) => Goes(s.(ran := if ok then s.ran + {mine} else s.ran), pid, MarkWaits(mine, ok))
    case Marks(mine, started) =>
      if s.status != Starting then Unlocks(s, pid, Ended)
      else if !started then Unlocks(s.(status := Fatal), pid, Ended)
      else Unlocks(s.(status := Status.Started), pid, Ended)
    case CloseChecks =>
      if s.status != Starting && s.status != Status.Started then Unlocks(s, pid, Ended)
      else Goes(s.(status := Stopping), pid, Detaches)
    case Detaches => Goes(s.(instance := None), pid, ClosesCurrent(s.instance))
    case ClosesCurrent(current) =>
      var s' := if current.Some? then s.(closed := s.closed + {current.value}) else s;
      Unlocks(s'.(status := if current.Some? && !ok then Fatal else Idle), pid, Ended)
    case SetsError => Unlocks(s.(status := Fatal), pid, Ended)
    case _ => s
  }

  /**
   * The step reports a failure: an error from outside, an instance that could not be built, a start that failed while
   * nobody overtook it, or a current instance that did not close.
   */
  predicate Fails(s: State, e: Event) {
    e.Step? && e.pid in s.calls && (
      match s.calls[e.pid].phase
      case SetsError => true
      case Builds => !e.ok
      case Marks(_, started) => !started && s.status == Starting
      case ClosesCurrent(current) => current.Some? && !e.ok
      case _ => false)
  }

  /** A failure always makes the status FATAL, and nothing else does. */
  lemma FatalIff(s: State, e: Event)
    requires Enabled(s, e)
    ensures Fails(s, e) ==> Apply(s, e).status == Fatal
    ensures s.status != Fatal && Apply(s, e).status == Fatal ==> Fails(s, e)
  {
  }

  function Init(): State { State(Idle, None, None, map[], {}, {}, {}) }

  predicate Legal(events: seq<Event>)
    decreases |events|, 0
  {
    events != [] ==> Legal(events[..|events| - 1]) && Enabled(After(events[..|events| - 1]), events[|events| - 1])
  }

  function After(events: seq<Event>): State
    requires Legal(events)
    decreases |events|, 1
  {
    if events == [] then Init() else Apply(After(events[..|events| - 1]), events[|events| - 1])
  }

  lemma Extend(events: seq<Event>, e: Event)
    requires Legal(events) && Enabled(After(events), e)
    ensures Legal(events + [e]) && After(events + [e]) == Apply(After(events), e)
  {
    assert (events + [e])[..|events|] == events;
  }

  /** A service is FATAL only after a step of the run that failed, and no status was set since. */
  lemma {:induction false} FatalMeansFailed(events: seq<Event>)
    requires Legal(events) && After(events).status == Fatal
    ensures exists n: nat :: FailedAt(events, n)
    decreases |events|
  {
    var p, e := events[..|events| - 1], events[|events| - 1];
    if After(p).status == Fatal && !Fails(After(p), e) {
      FatalMeansFailed(p);
      var n: nat :| FailedAt(p, n);
      LegalPrefix(events, n);
      assert events[..n] == p[..n];
      forall i | n < i <= |events| ensures Legal(events[..i]) && After(events[..i]).status == Fatal {
        LegalPrefix(events, i);
        if i < |events| {
          assert events[..i] == p[..i];
        } else {
          assert events[..i] == events;
        }
      }
      assert FailedAt(events, n);
    } else {
      FatalIff(After(p), e);
      assert events[..|events|] == events;
      assert FailedAt(events, |p|);
    }
  }

  ghost predicate FailedAt(events: seq<Event>, n: nat) {
    && n < |events| && Legal(events[..n]) && Fails(After(events[..n]), events[n])
    && forall i :: n < i <= |events| ==> Legal(events[..i]) && After(events[..i]).status == Fatal
  }

  lemma {:induction false} LegalPrefix(events: seq<Event>, n: nat)
    requires Legal(events) && n <= |events|
    ensures Legal(events[..n])
    decreases |events|
  {
    if n < |events| {
      LegalPrefix(events[..|events| - 1], n);
      assert events[..|events| - 1][..n] == events[..n];
    } else {
      assert events[..n] == events;
    }
  }

  // ----- the lock -----

  ghost predicate LockSound(s: State) {
    && (forall p :: p in s.calls ==>
          s.calls[p].locks == s.calls[p].unlocks + (if Holds(s.calls[p].phase) then 1 else 0))
    && (forall p :: p in s.calls && Holds(s.calls[p].phase) ==> s.lock == Some(p))
    && (s.lock.Some? ==> s.lock.value in s.calls && Holds(s.calls[s.lock.value].phase))
  }

  lemma GoesKeepsLock(s: State, pid: nat, ph: Phase)
    requires LockSound(s) && pid in s.calls && Holds(ph) == Holds(s.calls[pid].phase)
    ensures LockSound(Goes(s, pid, ph))
  {
  }

  lemma UnlocksKeepsLock(s: State, pid: nat, ph: Phase)
    requires LockSound(s) && pid in s.calls && Holds(s.calls[pid].phase) && !Holds(ph)
    ensures LockSound(Unlocks(s, pid, ph))
  {
  }

  /** A step either keeps the lock as it is or gives up the lock its call holds. */
  lemma StepShape(s: State, pid: nat, ok: bool, id: nat)
    requires Enabled(s, Step(pid, ok, id))
    ensures
      var s' := Stepped(s, pid, s.calls[pid].phase, ok, id);
      var ph := s'.calls[pid].phase;
      if Holds(s.calls[pid].phase) && !Holds(ph)
      then s'.calls == Unlocks(s, pid, ph).calls && s'.lock.None?
      else s'.calls == Goes(s, pid, ph).calls && s'.lock == s.lock && Holds(ph) == Holds(s.calls[pid].phase)
  {
  }

  lemma StepKeepsLock(s: State, e: Event)
    requires LockSound(s) && Enabled(s, e)
    ensures LockSound(Apply(s, e))
  {
    if e.Step? {
      StepShape(s, e.pid, e.ok, e.id);
      var ph := Apply(s, e).calls[e.pid].phase;
      if Holds(s.calls[e.pid].phase) && !Holds(ph) {
        UnlocksKeepsLock(s, e.pid, ph);
      } else {
        GoesKeepsLock(s, e.pid, ph);
      }
    }
  }

  // ----- the instance -----

  /** While the lock is free, a starting or started service has an instance. */
  ghost predicate InstanceSound(s: State) {
    && (s.status == Starting || s.status == Status.Started ==>
          s.instance.Some? || (s.lock.Some? && s.lock.value in s.calls && s.calls[s.lock.value].phase.Builds?))
    && (forall p :: p in s.calls && s.calls[p].phase.Builds? ==> s.status == Starting)
    && (forall p :: p in s.calls && (s.calls[p].phase.Detaches? || s.calls[p].phase.ClosesCurrent?) ==>
          s.status == Stopping)
  }

  lemma StepKeepsInstance(s: State, e: Event)
    requires LockSound(s) && InstanceSound(s) && Enabled(s, e)
    ensures InstanceSound(Apply(s, e))
  {
    StepKeepsLock(s, e);
  }

  lemma {:induction false} ReachableSound(events: seq<Event>)
    requires Legal(events)
    ensures LockSound(After(events)) && InstanceSound(After(events))
    decreases |events|
  {
    if events != [] {
      var p, e := events[..|events| - 1], events[|events| - 1];
      ReachableSound(p);
      StepKeepsLock(After(p), e);
      StepKeepsInstance(After(p), e);
    }
  }

  /** In every interleaving: lock free and STARTING or STARTED means there is an instance to dereference. */
  lemma RunningHasInstance(events: seq<Event>)
    requires Legal(events) && After(events).lock.None?
    requires After(events).status == Starting || After(events).status == Status.Started
    ensures After(events).instance.Some?
  {
    ReachableSound(events);
  }

  // ----- the running instance is open -----

  /** Whatever is closed, current or about to be closed was once built. */
  ghost predicate OnlyMade(s: State) {
    && s.closed <= s.made && (s.instance.Some? ==> s.instance.value in s.made)
    && (forall p :: p in s.calls && s.calls[p].phase.ClosesOld? ==> s.calls[p].phase.prev in s.made)
    && (forall p :: p in s.calls && s.calls[p].phase.ClosesCurrent? && s.calls[p].phase.current.Some? ==>
          s.calls[p].phase.current.value in s.made)
  }

  /** Nobody has closed the instance, and no reload is closing it. */
  ghost predicate Untouched(s: State, id: nat) {
    id !in s.closed && forall p :: p in s.calls ==> s.calls[p].phase != ClosesOld(id)
  }

  predicate Running(s: State) { s.status == Starting || s.status == Status.Started }

  ghost predicate NoneBuilds(s: State) { forall p :: p in s.calls ==> !s.calls[p].phase.Builds? }

  ghost predicate RunningOpen(s: State) {
    Running(s) && s.instance.Some? && NoneBuilds(s) ==> Untouched(s, s.instance.value)
  }

  lemma StepKeepsOnlyMade(s: State, e: Event)
    requires OnlyMade(s) && Enabled(s, e)
    ensures OnlyMade(Apply(s, e))
  {
  }

  /** A step that builds puts a new instance in place, which nobody knows yet. */
  lemma BuildsOpen(s: State, e: Event)
    requires OnlyMade(s) && Enabled(s, e) && e.Step? && s.calls[e.pid].phase.Builds? && Running(Apply(s, e)) && e.ok
    ensures Apply(s, e).instance == Some(e.id) && Untouched(Apply(s, e), e.id)
  {
  }

  /** Any other step that leaves the service running leaves its instance in place and open. */
  lemma StaysOpen(s: State, e: Event)
    requires LockSound(s) && InstanceSound(s) && Enabled(s, e) && !(e.Step? && s.calls[e.pid].phase.Builds?)
    requires Running(Apply(s, e)) && NoneBuilds(Apply(s, e)) && Apply(s, e).instance.Some?
    ensures Running(s) && NoneBuilds(s) && s.instance == Apply(s, e).instance
    ensures Untouched(s, s.instance.value) ==> Untouched(Apply(s, e), s.instance.value)
  {
    var s' := Apply(s, e);
    assert e.pid in s'.calls && !s'.calls[e.pid].phase.Builds?;
    forall p | p in s.calls ensures !s.calls[p].phase.Builds? {
      assert p != e.pid ==> s'.calls[p] == s.calls[p];
    }
  }

  lemma StepKeepsRunningOpen(s: State, e: Event)
    requires LockSound(s) && InstanceSound(s) && OnlyMade(s) && RunningOpen(s) && Enabled(s, e)
    ensures RunningOpen(Apply(s, e))
  {
    var s' := Apply(s, e);
    if Running(s') && NoneBuilds(s') && s'.instance.Some? {
      if e.Step? && s.calls[e.pid].phase.Builds? {
        BuildsOpen(s, e);
      } else {
        StaysOpen(s, e);
      }
    }
  }

  lemma {:induction false} ReachableOpen(events: seq<Event>)
    requires Legal(events)
    ensures OnlyMade(After(events)) && RunningOpen(After(events))
    decreases |events|
  {
    if events != [] {
      var p, e := events[..|events| - 1], events[|events| - 1];
      ReachableOpen(p);
      ReachableSound(p);
      StepKeepsOnlyMade(After(p), e);
      StepKeepsRunningOpen(After(p), e);
    }
  }

  /** In every interleaving: STARTING or STARTED with the lock free, nobody has closed or is closing the instance. */
  lemma RunningIsOpen(events: seq<Event>)
    requires Legal(events) && After(events).lock.None? && Running(After(events))
    ensures After(events).instance.Some? && Untouched(After(events), After(events).instance.value)
  {
    ReachableSound(events);
    ReachableOpen(events);
  }

  /** Every call that has returned has unlocked as often as it locked, and never unlocked what it did not hold. */
  lemma LockIsBalanced(events: seq<Event>, pid: nat)
    requires Legal(events) && pid in After(events).calls
    ensures
      var c := After(events).calls[pid];
      && c.unlocks <= c.locks <= c.unlocks + 1
      && (c.phase.Ended? ==> c.locks == c.unlocks)
      && (c.locks == c.unlocks + 1 <==> After(events).lock == Some(pid))
  {
    ReachableSound(events);
  }

  // ----- instances that nobody closes -----

  /** A built instance is closed, current, or in the hands of the CloseService that took it. */
  ghost predicate Accounted(s: State, id: nat) {
    id in s.closed || s.instance == Some(id) || exists p :: p in s.calls && s.calls[p].phase == ClosesCurrent(Some(id))
  }

  ghost predicate NoLeak(s: State) { forall id :: id in s.made ==> Accounted(s, id) }

  /** A start is about to put its instance over one that is still open. */
  predicate OverwritesOpen(s: State, e: Event) {
    && e.Step? && e.ok && e.pid in s.calls && s.calls[e.pid].phase.Builds?
    && s.instance.Some? && s.instance.value !in s.closed && s.instance.value in s.made
  }

  /** An instance gets lost exactly at a step that overwrites an open one. */
  lemma LeakIff(s: State, e: Event)
    requires LockSound(s) && NoLeak(s) && Enabled(s, e)
    ensures NoLeak(Apply(s, e)) <==> !OverwritesOpen(s, e)
  {
    var s' := Apply(s, e);
    if OverwritesOpen(s, e) {
      var id := s.instance.value;
      assert !Accounted(s', id) by {
        forall p | p in s'.calls ensures s'.calls[p].phase != ClosesCurrent(Some(id)) {
          assert p != e.pid ==> !Holds(s.calls[p].phase);
        }
      }
    } else {
      forall id | id in s'.made ensures Accounted(s', id) {
        if id in s.made {
          assert Accounted(s, id);
          if id !in s.closed && s.instance != Some(id) {
            var p :| p in s.calls && s.calls[p].phase == ClosesCurrent(Some(id));
            assert p in s'.calls;
            assert e.pid == p || s'.calls[p].phase == ClosesCurrent(Some(id));
          } else if id !in s'.closed && s'.instance != Some(id) {
            assert s'.calls[e.pid].phase == ClosesCurrent(Some(id));
          }
        }
      }
    }
  }

  /** After every step of the run, every instance built was accounted for. */
  ghost predicate NeverLeaks(events: seq<Event>)
    requires Legal(events)
    decreases |events|
  {
    NoLeak(After(events)) && (events != [] ==> NeverLeaks(events[..|events| - 1]))
  }

  ghost predicate NeverOverwrites(events: seq<Event>)
    requires Legal(events)
    decreases |events|
  {
    events != [] ==>
      var p, e := events[..|events| - 1], events[|events| - 1];
      NeverOverwrites(p) && !OverwritesOpen(After(p), e)
  }

  /** Over whole runs: nothing is lost exactly when no start ever puts its instance over an open one. */
  lemma {:induction false} NeverLeaksIff(events: seq<Event>)
    requires Legal(events)
    ensures NeverLeaks(events) <==> NeverOverwrites(events)
    decreases |events|
  {
    if events != [] {
      var p, e := events[..|events| - 1], events[|events| - 1];
      NeverLeaksIff(p);
      ReachableSound(p);
      if NeverLeaks(p) {
        LeakIff(After(p), e);
      }
    }
  }

  /** No SetError takes effect while an instance is being stopped. */
  ghost predicate QuietStops(events: seq<Event>)
    requires Legal(events)
    decreases |events|
  {
    events != [] ==>
      var p, e := events[..|events| - 1], events[|events| - 1];
      && QuietStops(p)
      && (e.Step? && After(p).calls[e.pid].phase.SetsError? ==> After(p).status != Stopping)
  }

  /** Calls that have begun to replace or drop the instance and are not through with it. */
  predicate Replaces(ph: Phase) {
    ph.ClosesOld? || ph.StartWaitsAgain? || ph.SetsStarting? || ph.Builds? || ph.Detaches? || ph.ClosesCurrent?
  }

  /** What a call may count on at each place between its locks. */
  ghost predicate PlaceSound(s: State, ph: Phase) {
    && (ph.ClosesOld? ==> s.status == Stopping && s.instance == Some(ph.prev))
    && (ph.StartWaitsAgain? ==> s.status == Stopping && s.instance.Some? && s.instance.value in s.closed)
    && (ph.SetsStarting? || ph.Builds? ==> s.instance.Some? ==> s.instance.value in s.closed)
  }

  ghost predicate PlacesSound(s: State) { forall p :: p in s.calls ==> PlaceSound(s, s.calls[p].phase) }

  ghost predicate OneReplaces(s: State) {
    forall p, r :: p in s.calls && r in s.calls && Replaces(s.calls[p].phase) && Replaces(s.calls[r].phase) ==> p == r
  }

  ghost predicate WindowSound(s: State) { PlacesSound(s) && OneReplaces(s) }

  lemma QuietStepKeepsPlaces(s: State, pid: nat, ok: bool, id: nat)
    requires LockSound(s) && InstanceSound(s) && WindowSound(s) && Enabled(s, Step(pid, ok, id))
    requires s.calls[pid].phase.SetsError? ==> s.status != Stopping
    ensures PlacesSound(Apply(s, Step(pid, ok, id)))
  {
    StepShape(s, pid, ok, id);
  }

  lemma QuietStepKeepsOne(s: State, pid: nat, ok: bool, id: nat)
    requires LockSound(s) && InstanceSound(s) && WindowSound(s) && Enabled(s, Step(pid, ok, id))
    ensures OneReplaces(Apply(s, Step(pid, ok, id)))
  {
    StepShape(s, pid, ok, id);
  }

  lemma StepKeepsWindow(s: State, e: Event)
    requires LockSound(s) && InstanceSound(s) && WindowSound(s) && Enabled(s, e)
    requires e.Step? && s.calls[e.pid].phase.SetsError? ==> s.status != Stopping
    ensures WindowSound(Apply(s, e))
  {
    if e.Step? {
      QuietStepKeepsPlaces(s, e.pid, e.ok, e.id);
      QuietStepKeepsOne(s, e.pid, e.ok, e.id);
    }
  }

  lemma {:induction false} QuietRunsSound(events: seq<Event>)
    requires Legal(events) && QuietStops(events)
    ensures WindowSound(After(events)) && NoLeak(After(events))
    decreases |events|
  {
    if events != [] {
      var p, e := events[..|events| - 1], events[|events| - 1];
      QuietRunsSound(p);
      ReachableSound(p);
      StepKeepsWindow(After(p), e);
      LeakIff(After(p), e);
    }
  }

  /** Unless an error is reported while a reload is closing the old instance, no instance is ever lost. */
  lemma QuietRunsLoseNothing(events: seq<Event>)
    requires Legal(events) && QuietStops(events)
    ensures forall id :: id in After(events).made ==> Accounted(After(events), id)
  {
    QuietRunsSound(events);
  }

  // ----- undisturbed stretches of calls, to build runs from -----

  lemma Enters(ev: seq<Event>, pid: nat, first: Phase) returns (ev': seq<Event>)
    requires Legal(ev) && Enabled(After(ev), Arrive(pid, first)) && After(ev).lock.None?
    ensures Legal(ev')
    ensures After(ev') == After(ev).(
      lock := Some(pid), calls := After(ev).calls[pid := Call(Entered(first), 1, 0)])
  {
    Extend(ev, Arrive(pid, first));
    ev' := ev + [Arrive(pid, first)];
    Extend(ev', Acquire(pid));
    ev' := ev' + [Acquire(pid)];
    assert After(ev').calls == After(ev).calls[pid := Call(Entered(first), 1, 0)];
  }

  lemma StartFresh(ev: seq<Event>, pid: nat, id: nat) returns (ev': seq<Event>)
    requires Legal(ev) && pid !in After(ev).calls && id !in After(ev).made
    requires After(ev).lock.None? && After(ev).instance.None? && After(ev).status != Stopping
    ensures Legal(ev')
    ensures After(ev') == After(ev).(
      status := Starting, instance := Some(id), calls := After(ev).calls[pid := Call(RunsStart(id), 1, 1)],
      made := After(ev).made + {id})
  {
    ev' := Enters(ev, pid, StartWaits);
    Extend(ev', Step(pid, true, id));
    ev' := ev' + [Step(pid, true, id)];
    ev' := BuildsNew(ev', pid, id);
    assert After(ev').calls == After(ev).calls[pid := Call(RunsStart(id), 1, 1)];
  }

  /** From holding the lock before the status update, through newInstance, to running its Start. */
  lemma BuildsNew(ev: seq<Event>, pid: nat, id: nat) returns (ev': seq<Event>)
    requires Legal(ev) && pid in After(ev).calls && After(ev).calls[pid].phase == SetsStarting
    requires id !in After(ev).made && After(ev).lock == Some(pid)
    ensures Legal(ev')
    ensures
      var s, c := After(ev), After(ev).calls[pid];
      After(ev') == s.(
        status := Starting, instance := Some(id), lock := None,
        calls := s.calls[pid := Call(RunsStart(id), c.locks, c.unlocks + 1)], made := s.made + {id})
  {
    Extend(ev, Step(pid, true, id));
    ev' := ev + [Step(pid, true, id)];
    Extend(ev', Step(pid, true, id));
    ev' := ev' + [Step(pid, true, id)];
    var s, c := After(ev), After(ev).calls[pid];
    assert After(ev').calls == s.calls[pid := Call(RunsStart(id), c.locks, c.unlocks + 1)];
  }

  lemma BeginReload(ev: seq<Event>, pid: nat) returns (ev': seq<Event>)
    requires Legal(ev) && pid !in After(ev).calls
    requires After(ev).lock.None? && After(ev).instance.Some? && After(ev).status != Stopping
    ensures Legal(ev')
    ensures
      var s := After(ev);
      After(ev') == s.(status := Stopping, calls := s.calls[pid := Call(ClosesOld(s.instance.value), 1, 1)])
  {
    ev' := Enters(ev, pid, StartWaits);
    Extend(ev', Step(pid, true, 0));
    ev' := ev' + [Step(pid, true, 0)];
    var s := After(ev);
    assert After(ev').calls == s.calls[pid := Call(ClosesOld(s.instance.value), 1, 1)];
  }

  lemma FinishReload(ev: seq<Event>, pid: nat, id: nat) returns (ev': seq<Event>)
    requires Legal(ev) && pid in After(ev).calls && After(ev).calls[pid].phase.ClosesOld?
    requires After(ev).lock.None? && id !in After(ev).made
    ensures Legal(ev')
    ensures
      var s, c := After(ev), After(ev).calls[pid];
      After(ev') == s.(
        status := Starting, instance := Some(id), closed := s.closed + {c.phase.prev},
        calls := s.calls[pid := Call(RunsStart(id), c.locks + 1, c.unlocks + 1)], made := s.made + {id})
  {
    var s, c := After(ev), After(ev).calls[pid];
    Extend(ev, Step(pid, true, 0));
    ev' := ev + [Step(pid, true, 0)];
    Extend(ev', Acquire(pid));
    ev' := ev' + [Acquire(pid)];
    ev' := BuildsNew(ev', pid, id);
    assert After(ev').calls == s.calls[pid := Call(RunsStart(id), c.locks + 1, c.unlocks + 1)];
  }

  lemma ReportError(ev: seq<Event>, pid: nat) returns (ev': seq<Event>)
    requires Legal(ev) && pid !in After(ev).calls && After(ev).lock.None?
    ensures Legal(ev')
    ensures After(ev') == After(ev).(status := Fatal, calls := After(ev).calls[pid := Call(Ended, 1, 1)])
  {
    ev' := Enters(ev, pid, ErrorWaits);
    Extend(ev', Step(pid, true, 0));
    ev' := ev' + [Step(pid, true, 0)];
    assert After(ev').calls == After(ev).calls[pid := Call(Ended, 1, 1)];
  }

  lemma TakesDown(ev: seq<Event>, pid: nat) returns (ev': seq<Event>)
    requires Legal(ev) && pid in After(ev).calls && After(ev).calls[pid] == Call(Detaches, 1, 0)
    requires After(ev).lock == Some(pid) && After(ev).instance.Some?
    ensures Legal(ev')
    ensures
      var s := After(ev);
      After(ev') == s.(
        status := Idle, instance := None, lock := None, closed := s.closed + {s.instance.value},
        calls := s.calls[pid := Call(Ended, 1, 1)])
  {
    Extend(ev, Step(pid, true, 0));
    ev' := ev + [Step(pid, true, 0)];
    Extend(ev', Step(pid, true, 0));
    ev' := ev' + [Step(pid, true, 0)];
    assert After(ev').calls == After(ev).calls[pid := Call(Ended, 1, 1)];
  }

  lemma CloseRunning(ev: seq<Event>, pid: nat) returns (ev': seq<Event>)
    requires Legal(ev) && pid !in After(ev).calls && After(ev).lock.None?
    requires After(ev).instance.Some? && After(ev).status == Starting
    ensures Legal(ev')
    ensures
      var s := After(ev);
      After(ev') == s.(
        status := Idle, instance := None, closed := s.closed + {s.instance.value},
        calls := s.calls[pid := Call(Ended, 1, 1)])
  {
    ev' := Enters(ev, pid, CloseWaits);
    Extend(ev', Step(pid, true, 0));
    ev' := ev' + [Step(pid, true, 0)];
    ev' := TakesDown(ev', pid);
    assert After(ev').calls == After(ev).calls[pid := Call(Ended, 1, 1)];
  }

  /** The end of a successful start: its Start returns, and it marks the service STARTED. */
  lemma FinishStart(ev: seq<Event>, pid: nat) returns (ev': seq<Event>)
    requires Legal(ev) && pid in After(ev).calls && After(ev).calls[pid].phase.RunsStart?
    requires After(ev).lock.None? && After(ev).status == Starting
    ensures Legal(ev')
    ensures
      var s, c := After(ev), After(ev).calls[pid];
      After(ev') == s.(
        status := Status.Started, ran := s.ran + {c.phase.mine},
        calls := s.calls[pid := Call(Ended, c.locks + 1, c.unlocks + 1)])
  {
    var s, c := After(ev), After(ev).calls[pid];
    Extend(ev, Step(pid, true, 0));
    ev' := ev + [Step(pid, true, 0)];
    Extend(ev', Acquire(pid));
    ev' := ev' + [Acquire(pid)];
    Extend(ev', Step(pid, true, 0));
    ev' := ev' + [Step(pid, true, 0)];
    assert After(ev').calls == s.calls[pid := Call(Ended, c.locks + 1, c.unlocks + 1)];
  }

  /** An error reported while a reload closes the old instance lets a second reload in. */
  lemma TwoReloadsAtOnce() returns (ev: seq<Event>)
    ensures Legal(ev)
    ensures
      var s := After(ev);
      && s.lock.None? && s.made == {10} && s.closed == {}
      && 2 in s.calls && s.calls[2].phase == ClosesOld(10) && 4 in s.calls && s.calls[4].phase == ClosesOld(10)
  {
    ev := StartFresh([], 1, 10);
    ev := BeginReload(ev, 2);
    ev := ReportError(ev, 3);
    ev := BeginReload(ev, 4);
  }

  /** Both then build an instance, and the first one built is overwritten without ever being closed. */
  lemma ErrorDuringReloadLeaks() returns (ev: seq<Event>)
    ensures Legal(ev) && !NoLeak(After(ev))
  {
    ev := TwoReloadsAtOnce();
    ev := FinishReload(ev, 2, 11);
    ev := FinishReload(ev, 4, 12);
    ReachableSound(ev);
    LostForGood(After(ev), 11);
  }

  lemma LostForGood(s: State, id: nat)
    requires id in s.made && id !in s.closed && s.instance != Some(id)
    requires LockSound(s) && s.lock.None?
    ensures !NoLeak(s)
  {
    assert !Accounted(s, id);
  }

  // ----- what STARTED means -----

  /** A started service runs an instance whose Start has returned without error. */
  ghost predicate Honest(s: State) { s.status == Status.Started ==> s.instance.Some? && s.instance.value in s.ran }

  /** A start that was overtaken by a close and a second start marks the second one's instance as started. */
  lemma OvertakenStartMarksAnother() returns (ev: seq<Event>)
    ensures Legal(ev) && !Honest(After(ev))
  {
    ev := StartFresh([], 1, 10);
    ev := CloseRunning(ev, 2);
    ev := StartFresh(ev, 3, 11);
    ev := FinishStart(ev, 1);
  }

  /** No step but a mark can make STARTED a lie. */
  lemma OnlyMarksCanLie(s: State, e: Event)
    requires LockSound(s) && InstanceSound(s) && Honest(s) && Enabled(s, e)
    requires !(e.Step? && s.calls[e.pid].phase.Marks?)
    ensures Honest(Apply(s, e))
  {
    StepKeepsInstance(s, e);
  }

  // ----- who starts which instance -----

  /** The instance a call has built and is not through with. */
  function Mine(ph: Phase): Option<nat> {
    match ph
    case RunsStart(mine) => Some(mine)
    case MarkWaits(mine, _) => Some(mine)
    case Marks(mine, _) => Some(mine)
    case _ => None
  }

  /** The call that built the instance has yet to run its Start, or to report that it failed. */
  predicate StillStarts(ph: Phase, id: nat) {
    ph == RunsStart(id) || ph == MarkWaits(id, false) || ph == Marks(id, false)
  }

  ghost predicate OwnersMade(s: State) {
    && s.ran <= s.made
    && (forall p :: p in s.calls && Mine(s.calls[p].phase).Some? ==> Mine(s.calls[p].phase).value in s.made)
  }

  predicate SharesInstance(a: Phase, b: Phase) { Mine(a).Some? && Mine(a) == Mine(b) }

  ghost predicate OneOwner(s: State) {
    forall p, r :: p in s.calls && r in s.calls && SharesInstance(s.calls[p].phase, s.calls[r].phase) ==> p == r
  }

  ghost predicate StartersHaveNotRun(s: State) {
    forall p, id :: p in s.calls && StillStarts(s.calls[p].phase, id) ==> id !in s.ran
  }

  ghost predicate OwnersSound(s: State) { OwnersMade(s) && OneOwner(s) && StartersHaveNotRun(s) }

  /** What a step does to the instance its call is responsible for. */
  lemma MineSteps(s: State, e: Event)
    requires Enabled(s, e)
    ensures
      var s' := Apply(s, e);
      && (forall p :: p in s'.calls && p != e.pid ==> p in s.calls && s'.calls[p] == s.calls[p])
      && e.pid in s'.calls
      && var after := Mine(s'.calls[e.pid].phase);
         && (s'.made == s.made ==> after.None? || (e.pid in s.calls && after == Mine(s.calls[e.pid].phase)))
         && (s'.made != s.made ==> e.Step? && e.id !in s.made && s'.made == s.made + {e.id} && after == Some(e.id))
  {
    if e.Step? {
      StepShape(s, e.pid, e.ok, e.id);
    }
  }

  /** A Start returns without error for the instance its call is responsible for. */
  lemma RanSteps(s: State, e: Event)
    requires Enabled(s, e)
    ensures
      var s' := Apply(s, e);
      s'.ran == s.ran || (
        && e.Step? && s.calls[e.pid].phase.RunsStart? && s'.ran == s.ran + {s.calls[e.pid].phase.mine}
        && s'.calls[e.pid].phase == MarkWaits(s.calls[e.pid].phase.mine, true) && s'.made == s.made)
  {
  }

  lemma StarterSteps(s: State, e: Event, id: nat)
    requires Enabled(s, e) && e.pid in Apply(s, e).calls && StillStarts(Apply(s, e).calls[e.pid].phase, id)
    ensures (e.Step? && e.id == id && id !in s.made) || (e.pid in s.calls && StillStarts(s.calls[e.pid].phase, id))
    ensures Apply(s, e).ran == s.ran
  {
  }

  lemma StepKeepsOwners(s: State, e: Event)
    requires OwnersSound(s) && Enabled(s, e)
    ensures OwnersSound(Apply(s, e))
  {
    MineSteps(s, e);
    RanSteps(s, e);
    StepKeepsMade(s, e);
    StepKeepsOneOwner(s, e);
    StepKeepsNotRun(s, e);
  }

  lemma StepKeepsMade(s: State, e: Event)
    requires OwnersMade(s) && Enabled(s, e)
    ensures OwnersMade(Apply(s, e))
  {
    MineSteps(s, e);
    RanSteps(s, e);
    if e.Step? && s.calls[e.pid].phase.RunsStart? {
      assert Mine(s.calls[e.pid].phase).value in s.made;
    }
  }

  lemma StepKeepsOneOwner(s: State, e: Event)
    requires OwnersMade(s) && OneOwner(s) && Enabled(s, e)
    ensures OneOwner(Apply(s, e))
  {
    MineSteps(s, e);
  }

  lemma StepKeepsNotRun(s: State, e: Event)
    requires OwnersSound(s) && Enabled(s, e)
    ensures StartersHaveNotRun(Apply(s, e))
  {
    var s' := Apply(s, e);
    MineSteps(s, e);
    RanSteps(s, e);
    forall p, id | p in s'.calls && StillStarts(s'.calls[p].phase, id) ensures id !in s'.ran {
      if p == e.pid {
        StarterSteps(s, e, id);
      } else {
        assert StillStarts(s.calls[p].phase, id) && Mine(s.calls[p].phase) == Some(id);
        if s'.ran != s.ran {
          assert Mine(s.calls[e.pid].phase) == Some(s.calls[e.pid].phase.mine);
        }
      }
    }
  }

  /** While the service is STARTING, somebody starts its instance, or it has run, or the next one is being built. */
  ghost predicate Watched(s: State) {
    s.status == Starting && s.instance.Some? ==>
      || s.instance.value in s.ran
      || (exists p :: p in s.calls && StillStarts(s.calls[p].phase, s.instance.value))
      || (exists p :: p in s.calls && s.calls[p].phase.Builds?)
  }

  /** Who enters or leaves the state of being STARTING with an instance. */
  lemma StartingSteps(s: State, e: Event)
    requires LockSound(s) && InstanceSound(s) && Enabled(s, e)
    requires Apply(s, e).status == Starting && Apply(s, e).instance.Some?
    ensures
      var s' := Apply(s, e);
      || s'.calls[e.pid].phase.Builds?
      || StillStarts(s'.calls[e.pid].phase, s'.instance.value)
      || (s.status == Starting && s.instance == s'.instance && !(e.Step? && s.calls[e.pid].phase.Builds?))
  {
  }

  lemma StillStartsSteps(s: State, e: Event, id: nat)
    requires Enabled(s, e) && e.pid in s.calls && StillStarts(s.calls[e.pid].phase, id)
    requires Apply(s, e).status == Starting
    ensures id in Apply(s, e).ran || StillStarts(Apply(s, e).calls[e.pid].phase, id)
  {
  }

  lemma StepKeepsWatched(s: State, e: Event)
    requires LockSound(s) && InstanceSound(s) && Watched(s) && Enabled(s, e)
    ensures Watched(Apply(s, e))
  {
    var s' := Apply(s, e);
    if s'.status == Starting && s'.instance.Some? {
      StartingSteps(s, e);
      MineSteps(s, e);
      RanSteps(s, e);
      if s.status == Starting && s.instance == s'.instance && !(e.Step? && s.calls[e.pid].phase.Builds?) {
        var id := s.instance.value;
        if exists p :: p in s.calls && StillStarts(s.calls[p].phase, id) {
          var p :| p in s.calls && StillStarts(s.calls[p].phase, id);
          if p == e.pid {
            StillStartsSteps(s, e, id);
          }
          assert p in s'.calls && (id in s'.ran || StillStarts(s'.calls[p].phase, id));
        } else if exists p :: p in s.calls && s.calls[p].phase.Builds? {
          var p :| p in s.calls && s.calls[p].phase.Builds?;
          assert p in s'.calls && s'.calls[p].phase.Builds?;
        }
      }
    }
  }

  lemma {:induction false} ReachableWatched(events: seq<Event>)
    requires Legal(events)
    ensures OwnersSound(After(events)) && Watched(After(events))
    decreases |events|
  {
    if events != [] {
      var p, e := events[..|events| - 1], events[|events| - 1];
      ReachableWatched(p);
      ReachableSound(p);
      StepKeepsOwners(After(p), e);
      StepKeepsWatched(After(p), e);
    }
  }

  /** The step marks the service as STARTED. */
  predicate MarksStarted(s: State, e: Event) {
    && e.Step? && e.pid in s.calls && s.calls[e.pid].phase.Marks? && s.calls[e.pid].phase.ok && s.status == Starting
  }

  /** A call still has to start the current instance. */
  predicate StartPending(s: State) {
    s.instance.Some? && exists p :: p in s.calls && StillStarts(s.calls[p].phase, s.instance.value)
  }

  /** In every reachable state, marking STARTED is right exactly when no call still has to start the instance. */
  lemma MarkIsHonestIff(events: seq<Event>, e: Event)
    requires Legal(events) && Enabled(After(events), e) && MarksStarted(After(events), e)
    ensures Honest(Apply(After(events), e)) <==> !StartPending(After(events))
  {
    ReachableSound(events);
    ReachableWatched(events);
    var s := After(events);
    forall p | p in s.calls ensures !s.calls[p].phase.Builds? {
      assert s.lock == Some(e.pid);
    }
  }

  /** STARTED was true after every step of the run. */
  ghost predicate AlwaysHonest(events: seq<Event>)
    requires Legal(events)
    decreases |events|
  {
    Honest(After(events)) && (events != [] ==> AlwaysHonest(events[..|events| - 1]))
  }

  /** No call marked the service while another still had to start the current instance. */
  ghost predicate MarksInTurn(events: seq<Event>)
    requires Legal(events)
    decreases |events|
  {
    events != [] ==>
      var p, e := events[..|events| - 1], events[|events| - 1];
      MarksInTurn(p) && (MarksStarted(After(p), e) ==> !StartPending(After(p)))
  }

  /** Over whole runs: STARTED is true all along exactly when every mark comes in its turn. */
  lemma {:induction false} AlwaysHonestIff(events: seq<Event>)
    requires Legal(events)
    ensures AlwaysHonest(events) <==> MarksInTurn(events)
    decreases |events|
  {
    if events != [] {
      var p, e := events[..|events| - 1], events[|events| - 1];
      AlwaysHonestIff(p);
      ReachableSound(p);
      if MarksStarted(After(p), e) {
        MarkIsHonestIff(p, e);
      } else if Honest(After(p)) {
        if !(e.Step? && After(p).calls[e.pid].phase.Marks?) {
          OnlyMarksCanLie(After(p), e);
        }
      }
    }
  }
}
