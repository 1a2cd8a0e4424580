/**
 * The sleep/wake protocol between the callers of the expiring map and its one background goroutine, as a
 * state machine whose events are the locked sections and the unlocked steps between them. A caller reads the
 * clock before it takes the lock, so a store carries both the time it read and the time it took effect.
 */
module WakeProtocol {
  import opened Prelude
  import T = TimedMap

  /** A queued expiry; its value is its lag, the time the caller waited from reading the clock to holding the lock. */
  type Due = T.Item<nat>

  datatype Runner =
    | AtLock                                // about to lock
    | Blocked                               // receiving from the wake channel
    | Arming(head: int, readAt: int)        // unlocked, timer not yet created; the wait was computed at `readAt`
    | Sleeping(head: int, readAt: int, armedAt: int, deadline: int) // selecting on the timer and the wake channel
    | Done

  /** `storers` and `closers` are the callers between their unlock and their notify. */
  datatype State<K(==)> = State(
    now: int, queue: map<K, Due>, closed: bool, token: bool, storers: nat, closers: nat, runner: Runner)

  datatype Event<K(==)> =
    | Tick(span: nat)
    | Store(key: K, readAt: int, accepted: bool)
    | Load(key: K, readAt: int)
    | Refresh(key: K, readAt: int)
    | Close
    | StorerNotifies
    | CloserNotifies
    | RunnerLocks(sweptAt: int, earliest: int, waitReadAt: int)
    | RunnerArms
    | TimerFires
    | RunnerWoken

  predicate Earliest<K>(q: map<K, Due>, t: int) {
    && (exists k :: k in q && q[k].expiresAt == t)
    && (forall k :: k in q ==> t <= q[k].expiresAt)
  }

  predicate Enabled<K>(s: State<K>, e: Event<K>) {
    match e
    case Tick(_) => true
    case Store(_, readAt, _) => readAt <= s.now
    case Load(_, readAt) => readAt <= s.now
    case Refresh(_, readAt) => readAt <= s.now
    case Close => true
    case StorerNotifies => 0 < s.storers
    case CloserNotifies => 0 < s.closers
    case RunnerLocks(sweptAt, earliest, waitReadAt) =>
      && s.runner.AtLock? && sweptAt <= waitReadAt <= s.now
      && (s.closed || T.Swept(s.queue, sweptAt) == map[] || Earliest(T.Swept(s.queue, sweptAt), earliest))
    case RunnerArms => s.runner.Arming?
    case TimerFires => s.runner.Sleeping? && s.runner.deadline <= s.now
    case RunnerWoken => (s.runner.Blocked? || s.runner.Sleeping?) && s.token
  }

  function Apply<K>(s: State<K>, e: Event<K>, life: nat): State<K>
    requires Enabled(s, e)
  {
    match e
    case Tick(span) => s.(now := s.now + span)
    case Store(k, readAt, accepted) =>
      if s.closed then s else
      var q := T.Touch(s.queue, k, readAt);
      if !accepted then s.(queue := q)
      else
        // the notify is due only when a new entry goes into an empty queue
        s.(queue := q[k := T.Item(s.now - readAt, readAt + life)],
           storers := if q == map[] then s.storers + 1 else s.storers)
    case Load(k, readAt) => if s.closed then s else s.(queue := T.Touch(s.queue, k, readAt))
    case Refresh(k, readAt) =>
      if s.closed then s else
      var q := T.Touch(s.queue, k, readAt);
      s.(queue := if k in q then q[k := T.Item(s.now - readAt, readAt + life)] else q)
    case Close => s.(closed := true, queue := map[], closers := s.closers + 1)
    case StorerNotifies => s.(token := true, storers := s.storers - 1)
    case CloserNotifies => s.(token := true, closers := s.closers - 1)
    case RunnerLocks(sweptAt, earliest, waitReadAt) =>
      if s.closed then s.(runner := Done)
      else
        var q := T.Swept(s.queue, sweptAt);
        s.(queue := q, runner := if q == map[] then Blocked else Arming(earliest, waitReadAt))
    case RunnerArms =>
      s.(runner := Sleeping(
        s.runner.head, s.runner.readAt, s.now, s.now + Max(s.runner.head - s.runner.readAt, 0)))
    case TimerFires => s.(runner := AtLock)
    case RunnerWoken => s.(token := false, runner := AtLock)
  }

  function Init<K>(now: int): State<K> { State(now, map[], false, false, 0, 0, AtLock) }

  predicate Legal<K>(start: int, events: seq<Event<K>>, life: nat)
    decreases |events|, 0
  {
    events != [] ==>
      && Legal(start, events[..|events| - 1], life)
      && Enabled(After(start, events[..|events| - 1], life), events[|events| - 1])
  }

  /** The state that a legal sequence of events leads to. */
  function After<K>(start: int, events: seq<Event<K>>, life: nat): State<K>
    requires Legal(start, events, life)
    decreases |events|, 1
  {
    if events == [] then Init(start)
    else Apply(After(start, events[..|events| - 1], life), events[|events| - 1], life)
  }

  lemma Extend<K>(start: int, events: seq<Event<K>>, e: Event<K>, life: nat)
    requires Legal(start, events, life) && Enabled(After(start, events, life), e)
    ensures Legal(start, events + [e], life)
    ensures After(start, events + [e], life) == Apply(After(start, events, life), e, life)
  {
    assert (events + [e])[..|events|] == events;
  }

  // ----- the invariant -----

  ghost predicate WakeOwed<K>(s: State<K>) { s.token || 0 < s.storers || 0 < s.closers }

  ghost predicate Inv<K>(s: State<K>, life: nat) {
    && (s.closed ==> s.queue == map[])
    && (forall k :: k in s.queue ==> s.queue[k].expiresAt <= s.now + life)
    && (s.runner.Blocked? ==> s.queue == map[] || WakeOwed(s))
    && (s.closed && !s.runner.AtLock? && !s.runner.Done? ==> s.token || 0 < s.closers)
    && (s.runner.Done? ==> s.closed)
    && (s.runner.Arming? || s.runner.Sleeping? ==>
          && s.runner.head <= s.now + life
          && forall k :: k in s.queue ==> s.runner.head <= s.queue[k].expiresAt + s.queue[k].value)
    && (s.runner.Arming? ==> s.runner.readAt <= s.now)
    && (s.runner.Sleeping? ==>
          && s.runner.readAt <= s.runner.armedAt <= s.now
          && s.runner.deadline == s.runner.armedAt + Max(s.runner.head - s.runner.readAt, 0))
  }

  lemma StepKeepsInv<K>(s: State<K>, e: Event<K>, life: nat)
    requires Inv(s, life) && Enabled(s, e)
    ensures Inv(Apply(s, e, life), life)
  {
    var s' := Apply(s, e, life);
    match e
    case RunnerLocks(sweptAt, earliest, waitReadAt) =>
      if s'.runner.Arming? {
        var k :| k in s'.queue && s'.queue[k].expiresAt == earliest;
        assert s.queue[k].expiresAt <= s.now + life;
      }
    case _ =>
  }

  lemma {:induction false} ReachableInv<K>(start: int, events: seq<Event<K>>, life: nat)
    requires Legal(start, events, life)
    ensures Inv(After(start, events, life), life)
    decreases |events|
  {
    if events != [] {
      ReachableInv(start, events[..|events| - 1], life);
      StepKeepsInv(After(start, events[..|events| - 1], life), events[|events| - 1], life);
    }
  }

  // ----- what callers may rely on, in every interleaving -----

  /** A runner blocked with no wake on its way has nothing to do: the queue is empty and the map open. */
  lemma NoLostWakeUp<K>(start: int, events: seq<Event<K>>, life: nat)
    requires Legal(start, events, life)
    ensures
      var s := After(start, events, life);
      s.runner.Blocked? && !WakeOwed(s) ==> s.queue == map[] && !s.closed
  {
    ReachableInv(start, events, life);
  }

  /**
   * A sleeping runner wakes no later than any queued expiry, or the moment the wait was computed if that was later,
   * up to the two delays the code leaves open: the storing caller's wait for the lock, and the time from computing the
   * wait to starting the timer.
   */
  lemma SleepsNoLongerThanDue<K>(start: int, events: seq<Event<K>>, life: nat, k: K)
    requires Legal(start, events, life)
    requires
      var s := After(start, events, life);
      s.runner.Sleeping? && k in s.queue
    ensures
      var s := After(start, events, life);
      && s.runner.readAt <= s.runner.armedAt <= s.now
      && s.runner.deadline <=
           Max(s.queue[k].expiresAt + s.queue[k].value, s.runner.readAt) + (s.runner.armedAt - s.runner.readAt)
  {
    ReachableInv(start, events, life);
  }

  // ----- exactly when the runner oversleeps -----

  /** A sleeping runner will be awake for every queued expiry. */
  ghost predicate InTime<K>(s: State<K>) {
    s.runner.Sleeping? ==> forall k :: k in s.queue ==> s.runner.deadline <= s.queue[k].expiresAt
  }

  /** The call puts a new expiry into the queue. */
  predicate Writes<K>(s: State<K>, e: Event<K>) {
    !s.closed && ((e.Store? && e.accepted) || (e.Refresh? && e.key in T.Touch(s.queue, e.key, e.readAt)))
  }

  /** A new expiry is not before the sleeper's deadline, and a timer does not start later than it still may. */
  ghost predicate Timely<K>(s: State<K>, e: Event<K>, life: nat) {
    && (s.runner.Sleeping? && Writes(s, e) ==> s.runner.deadline <= e.readAt + life)
    && (e.RunnerArms? && s.runner.Arming? ==>
          forall k :: k in s.queue ==> s.now + Max(s.runner.head - s.runner.readAt, 0) <= s.queue[k].expiresAt)
  }

  lemma InTimeStepIff<K>(s: State<K>, e: Event<K>, life: nat)
    requires InTime(s) && Enabled(s, e)
    ensures InTime(Apply(s, e, life)) <==> Timely(s, e, life)
  {
    var s' := Apply(s, e, life);
    if s.runner.Sleeping? && Writes(s, e) {
      assert s'.queue[e.key].expiresAt == e.readAt + life;
    }
  }

  ghost predicate AlwaysInTime<K>(start: int, events: seq<Event<K>>, life: nat)
    requires Legal(start, events, life)
    decreases |events|
  {
    InTime(After(start, events, life)) && (events != [] ==> AlwaysInTime(start, events[..|events| - 1], life))
  }

  ghost predicate AllTimely<K>(start: int, events: seq<Event<K>>, life: nat)
    requires Legal(start, events, life)
    decreases |events|
  {
    events != [] ==>
      var p, e := events[..|events| - 1], events[|events| - 1];
      AllTimely(start, p, life) && Timely(After(start, p, life), e, life)
  }

  /**
   * Over every run: the runner never sleeps past a queued expiry exactly when no store or refresh comes in with a
   * clock that makes it expire before the deadline, and no timer is started too late.
   */
  lemma {:induction false} AlwaysInTimeIff<K>(start: int, events: seq<Event<K>>, life: nat)
    requires Legal(start, events, life)
    ensures AlwaysInTime(start, events, life) <==> AllTimely(start, events, life)
    decreases |events|
  {
    if events != [] {
      var p := events[..|events| - 1];
      AlwaysInTimeIff(start, p, life);
      if AlwaysInTime(start, p, life) {
        InTimeStepIff(After(start, p, life), events[|events| - 1], life);
      }
    }
  }

  /** Every clock read is atomic with its locked section, and no time passes before the timer starts. */
  ghost predicate AtomicClocks<K>(start: int, events: seq<Event<K>>, life: nat)
    requires Legal(start, events, life)
    decreases |events|
  {
    events != [] ==>
      var p, e := events[..|events| - 1], events[|events| - 1];
      var s := After(start, p, life);
      && AtomicClocks(start, p, life)
      && (e.Store? || e.Load? || e.Refresh? ==> e.readAt == s.now)
      && (e.RunnerLocks? ==> e.sweptAt == e.waitReadAt == s.now)
      && (e.RunnerArms? ==> s.runner.readAt == s.now)
  }

  lemma {:induction false} AtomicFacts<K>(start: int, events: seq<Event<K>>, life: nat)
    requires Legal(start, events, life) && AtomicClocks(start, events, life)
    ensures
      var s := After(start, events, life);
      && (forall k :: k in s.queue ==> s.queue[k].value == 0)
      && (s.runner.Arming? ==> s.runner.readAt < s.runner.head)
      && (s.runner.Sleeping? ==> s.runner.deadline == s.runner.head)
    decreases |events|
  {
    if events != [] {
      AtomicFacts(start, events[..|events| - 1], life);
    }
  }

  /** With atomic clock reads the deadline is no later than every queued expiry. */
  lemma AtomicDeadline<K>(start: int, events: seq<Event<K>>, life: nat, k: K)
    requires Legal(start, events, life) && AtomicClocks(start, events, life)
    requires
      var s := After(start, events, life);
      s.runner.Sleeping? && k in s.queue
    ensures
      var s := After(start, events, life);
      s.runner.deadline <= s.queue[k].expiresAt
  {
    ReachableInv(start, events, life);
    AtomicFacts(start, events, life);
  }

  lemma OneStored(ev: seq<Event<int>>) returns (ev': seq<Event<int>>)
    requires Legal(0, ev, 100) && After(0, ev, 100) == Init(0)
    ensures Legal(0, ev', 100)
    ensures After(0, ev', 100) == Init<int>(10).(queue := map[1 := T.Item(0, 110)], storers := 1)
  {
    Extend(0, ev, Tick(10), 100);
    ev' := ev + [Tick(10)];
    Extend(0, ev', Store(1, 10, true), 100);
    ev' := ev' + [Store(1, 10, true)];
  }

  lemma AsleepUntil110(ev: seq<Event<int>>) returns (ev': seq<Event<int>>)
    requires Legal(0, ev, 100)
    requires After(0, ev, 100) == Init<int>(10).(queue := map[1 := T.Item(0, 110)], storers := 1)
    ensures Legal(0, ev', 100)
    ensures After(0, ev', 100) == After(0, ev, 100).(runner := Sleeping(110, 10, 10, 110))
  {
    var q := After(0, ev, 100).queue;
    assert T.Swept(q, 10) == q && 1 in q && Earliest(q, 110);
    Extend(0, ev, RunnerLocks(10, 110, 10), 100);
    ev' := ev + [RunnerLocks(10, 110, 10)];
    Extend(0, ev', RunnerArms, 100);
    ev' := ev' + [RunnerArms];
  }

  /**
   * Without them it can be later. A store at 10 puts the runner to sleep until 110; then a store that read its clock
   * at 0 gets the lock, and expires at 100.
   */
  lemma LateStoreOversleeps() returns (ev: seq<Event<int>>)
    ensures Legal(0, ev, 100) && !InTime(After(0, ev, 100))
  {
    ev := OneStored([]);
    ev := AsleepUntil110(ev);
    InTimeStepIff(After(0, ev, 100), Store(2, 0, true), 100);
    Extend(0, ev, Store(2, 0, true), 100);
    ev := ev + [Store(2, 0, true)];
  }

  // ----- the queue is the timed map's table -----

  /** The queue without the lags, and whether the map is closed. */
  function Plain<K>(s: State<K>): T.State<K, ()> {
    T.State(map k | k in s.queue :: T.Item((), s.queue[k].expiresAt), s.closed)
  }

  /** The call of the timed map that an event makes, if any. */
  function CallOf<K>(e: Event<K>): seq<T.Op<K, ()>> {
    match e
    case Store(k, readAt, accepted) => [T.Store(k, (), _ => accepted, readAt)]
    case Load(k, readAt) => [T.Load(k, readAt)]
    case Refresh(k, readAt) => [T.Refresh(k, readAt)]
    case Close => [T.Close(0)]
    case RunnerLocks(sweptAt, _, _) => [T.Sweep(sweptAt)]
    case _ => []
  }

  function Calls<K>(events: seq<Event<K>>): seq<T.Op<K, ()>>
    decreases |events|
  {
    if events == [] then [] else Calls(events[..|events| - 1]) + CallOf(events[|events| - 1])
  }

  lemma StepRefines<K>(s: State<K>, e: Event<K>, life: nat)
    requires Enabled(s, e) && Inv(s, life)
    ensures
      var c := CallOf(e);
      Plain(Apply(s, e, life)) == if c == [] then Plain(s) else T.Step(Plain(s), c[0], life).0
  {
    var s', c := Apply(s, e, life), CallOf(e);
    if c != [] {
      var t := T.Step(Plain(s), c[0], life).0;
      assert t.closed == s'.closed;
      assert t.table == Plain(s').table;
    }
  }

  /** In every interleaving the queue is what the timed map makes of the same calls in the same order. */
  lemma {:induction false} RunRefines<K>(start: int, events: seq<Event<K>>, life: nat)
    requires Legal(start, events, life)
    ensures Plain(After(start, events, life)) == T.Run(Calls(events), life)
    decreases |events|
  {
    if events != [] {
      var p, e := events[..|events| - 1], events[|events| - 1];
      RunRefines(start, p, life);
      ReachableInv(start, p, life);
      StepRefines(After(start, p, life), e, life);
      if CallOf(e) == [] {
        assert Calls(events) == Calls(p);
      } else {
        assert Calls(events)[..|Calls(p)|] == Calls(p) && Calls(events)[|Calls(p)|] == CallOf(e)[0];
      }
    }
  }

  /** A store owes a notify exactly when its entry is new and then the only one. */
  lemma NotifyOwedIff<K>(s: State<K>, e: Event<K>, life: nat)
    requires Enabled(s, e) && !e.StorerNotifies?
    ensures
      var s' := Apply(s, e, life);
      if && e.Store? && e.accepted && !s.closed
         && (forall k :: k in s.queue ==> k == e.key && s.queue[k].expiresAt <= e.readAt)
      then s'.storers == s.storers + 1
      else s'.storers == s.storers
  {
    if e.Store? {
      var q := T.Touch(s.queue, e.key, e.readAt);
      if k :| k in s.queue && (k != e.key || e.readAt < s.queue[k].expiresAt) {
        assert k in q;
      }
    }
  }

  // ----- a due entry is swept -----

  predicate RunnerEvent<K>(e: Event<K>) {
    e.RunnerLocks? || e.RunnerArms? || e.TimerFires? || e.RunnerWoken?
  }

  /** The runner need not wait: it is running, its timer has run out, or a wake is there for it. */
  ghost predicate CanStep<K>(s: State<K>) {
    || s.runner.AtLock? || s.runner.Arming?
    || (s.runner.Sleeping? && s.runner.deadline <= s.now)
    || ((s.runner.Sleeping? || s.runner.Blocked?) && s.token)
  }

  lemma {:induction false} HasEarliest<K>(q: map<K, Due>) returns (t: int)
    requires q != map[]
    ensures Earliest(q, t)
    decreases |q|
  {
    var k :| k in q;
    var rest := q - {k};
    if rest == map[] {
      t := q[k].expiresAt;
      assert forall j :: j in q ==> j == k by {
        assert forall j :: j in q && j != k ==> j in rest;
      }
    } else {
      t := HasEarliest(rest);
      t := Min(t, q[k].expiresAt);
      assert forall j :: j in q ==> j == k || (j in rest && rest[j] == q[j]);
    }
  }

  /** The lock can be taken whatever is queued. */
  lemma LockIsEnabled<K>(s: State<K>) returns (e: Event<K>)
    requires s.runner.AtLock?
    ensures Enabled(s, e) && e.RunnerLocks? && e.sweptAt == s.now
  {
    var q, earliest := T.Swept(s.queue, s.now), s.now;
    if q != map[] {
      earliest := HasEarliest(q);
    }
    e := RunnerLocks(s.now, earliest, s.now);
  }

  /** The runner can step exactly when one of its events is enabled, and no caller takes that away from it. */
  lemma CanStepIff<K>(s: State<K>, e: Event<K>, life: nat)
    ensures CanStep(s) <==> exists r :: RunnerEvent(r) && Enabled(s, r)
    ensures CanStep(s) && Enabled(s, e) && !RunnerEvent(e) ==> CanStep(Apply(s, e, life))
  {
    if s.runner.AtLock? {
      var lock := LockIsEnabled(s);
      assert RunnerEvent(lock);
    } else if s.runner.Arming? {
      assert Enabled(s, RunnerArms);
    } else if s.runner.Sleeping? && s.runner.deadline <= s.now {
      assert Enabled(s, TimerFires);
    } else if CanStep(s) {
      assert Enabled(s, RunnerWoken);
    }
  }

  /**
   * In every run: while anything is queued, the runner can step, or can after a notify that is on its way, unless it
   * sleeps, nobody wakes it and its deadline is still ahead.
   */
  lemma QueuedMeansWork<K>(start: int, events: seq<Event<K>>, life: nat, k: K)
    requires Legal(start, events, life)
    requires
      var s := After(start, events, life);
      k in s.queue && (s.runner.Sleeping? ==> s.runner.deadline <= s.now || WakeOwed(s))
    ensures
      var s := After(start, events, life);
      || CanStep(s)
      || (0 < s.storers && CanStep(Apply(s, StorerNotifies, life)))
      || (0 < s.closers && CanStep(Apply(s, CloserNotifies, life)))
  {
    ReachableInv(start, events, life);
  }

  /** A sweep takes exactly what is due by its clock and keeps everything else as it is. */
  lemma LockSweeps<K>(s: State<K>, e: Event<K>, life: nat)
    requires Enabled(s, e) && e.RunnerLocks? && !s.closed
    ensures
      var s' := Apply(s, e, life);
      && (forall k :: k in s'.queue <==> k in s.queue && e.sweptAt < s.queue[k].expiresAt)
      && (forall k :: k in s'.queue ==> s'.queue[k] == s.queue[k])
      && s' == s.(queue := s'.queue, runner := s'.runner)
  {
  }

  /** Runner steps left before its next lock. */
  function StepsToLock(r: Runner): nat {
    match r
    case AtLock => 0
    case Blocked => 1
    case Sleeping(_, _, _, _) => 1
    case Arming(_, _) => 2
    case Done => 0
  }

  /** Every runner step but the lock itself brings the lock nearer; no caller takes it further away. */
  lemma StepsShrink<K>(s: State<K>, e: Event<K>, life: nat)
    requires Enabled(s, e) && !e.RunnerLocks?
    ensures StepsToLock(Apply(s, e, life).runner) + (if RunnerEvent(e) then 1 else 0) <= StepsToLock(s.runner)
  {
  }

  function RunnerSteps<K>(events: seq<Event<K>>): nat
    decreases |events|
  {
    if events == [] then 0
    else RunnerSteps(events[..|events| - 1]) + if RunnerEvent(events[|events| - 1]) then 1 else 0
  }

  /** The key is not written again, and every sweep reads its clock at `due` or later. */
  predicate LeftAlone<K>(events: seq<Event<K>>, k: K, due: int)
    decreases |events|
  {
    events != [] ==>
      var p, e := events[..|events| - 1], events[|events| - 1];
      && LeftAlone(p, k, due) && (e.Store? || e.Refresh? ==> e.key != k)
      && (e.RunnerLocks? ==> due <= e.sweptAt)
  }

  /** While the entry is there it is unchanged, and the runner has used up steps on its way to the lock. */
  ghost predicate OnTheWay<K>(before: State<K>, s: State<K>, k: K, steps: nat) {
    k in s.queue ==>
      k in before.queue && s.queue[k] == before.queue[k] && steps + StepsToLock(s.runner) <= StepsToLock(before.runner)
  }

  lemma OnTheWayStep<K>(before: State<K>, s: State<K>, e: Event<K>, life: nat, k: K, steps: nat)
    requires k in before.queue && OnTheWay(before, s, k, steps) && Enabled(s, e) && Inv(s, life)
    requires e.Store? || e.Refresh? ==> e.key != k
    requires e.RunnerLocks? ==> before.queue[k].expiresAt <= e.sweptAt
    ensures OnTheWay(before, Apply(s, e, life), k, steps + if RunnerEvent(e) then 1 else 0)
  {
    if e.RunnerLocks? {
      if !s.closed {
        LockSweeps(s, e, life);
      }
    } else {
      StepsShrink(s, e, life);
    }
  }

  lemma {:induction false} RunIsOnTheWay<K>(
    start: int, events: seq<Event<K>>, more: seq<Event<K>>, life: nat, k: K)
    requires Legal(start, events, life) && Legal(start, events + more, life) && k in After(start, events, life).queue
    requires LeftAlone(more, k, After(start, events, life).queue[k].expiresAt)
    ensures OnTheWay(After(start, events, life), After(start, events + more, life), k, RunnerSteps(more))
    decreases |more|
  {
    if more == [] {
      assert events + more == events;
    } else {
      var p, e := more[..|more| - 1], more[|more| - 1];
      assert (events + more)[..|events + more| - 1] == events + p;
      RunIsOnTheWay(start, events, p, life, k);
      ReachableInv(start, events + p, life);
      OnTheWayStep(
        After(start, events, life), After(start, events + p, life), e, life, k, RunnerSteps(p));
    }
  }

  /**
   * In every run, from any state: once the runner has taken three steps whose sweeps read their clocks at the entry's
   * expiry or later, the entry is gone, whatever the callers did meanwhile but write that key again.
   */
  lemma ThreeStepsSweep<K>(start: int, events: seq<Event<K>>, more: seq<Event<K>>, life: nat, k: K)
    requires Legal(start, events, life) && Legal(start, events + more, life) && k in After(start, events, life).queue
    requires LeftAlone(more, k, After(start, events, life).queue[k].expiresAt)
    requires 3 <= RunnerSteps(more)
    ensures k !in After(start, events + more, life).queue
  {
    RunIsOnTheWay(start, events, more, life, k);
  }

  // ----- closing -----

  /** Runner steps left before a closed map's goroutine ends. */
  function StepsToEnd<K>(s: State<K>): nat {
    match s.runner
    case Done => 0
    case AtLock => 1
    case Blocked => 2
    case Sleeping(_, _, _, _) => 2
    case Arming(_, _) => 3
  }

  /**
   * Close cannot hang: once its notify is done, the goroutine always has a step to take without waiting for
   * the timer, every step it takes brings it closer to its end, and no other event takes it further away.
   */
  lemma CloseReachesEnd<K>(start: int, events: seq<Event<K>>, life: nat, e: Event<K>)
    requires Legal(start, events, life)
    requires After(start, events, life).closed && After(start, events, life).closers == 0
    ensures
      var s := After(start, events, life);
      && (!s.runner.Done? ==>
            Enabled(s, if s.runner.AtLock? then RunnerLocks(s.now, s.now, s.now)
                       else if s.runner.Arming? then RunnerArms else RunnerWoken))
      && (Enabled(s, e) && RunnerEvent(e) ==> StepsToEnd(Apply(s, e, life)) < StepsToEnd(s))
      && (Enabled(s, e) ==> StepsToEnd(Apply(s, e, life)) <= StepsToEnd(s) && Apply(s, e, life).closed)
  {
    ReachableInv(start, events, life);
  }
}
