/**
 * The per-key locks of the DNS client. An Exchange that may write the cache either creates the key's channel
 * and owns it, or waits on the channel it finds; the owner's deferred function deletes the key and then closes
 * the channel, as two steps. A background refresh instead enters its key into the updating set.
 */
module InFlight {
  /** Where one Exchange is. */
  datatype Phase<K(==)> =
    | Entering(key: K)                 // about to look its key up in the lock map
    | Waiting(key: K, chan: nat)       // selecting on the channel and its context
    | Holding(key: K, chan: nat)       // owner: cache lookup and upstream query
    | Closing(chan: nat)               // owner: key deleted, channel not yet closed
    | Unlocked(key: K)                 // woken, or not cacheable: runs without owning anything
    | RefreshEntering(key: K)          // a refresh about to look at the updating set
    | Refreshing(key: K)               // a refresh whose key is in the updating set
    | Done

  /** `owner` is history: who created each channel. */
  datatype State<K(==)> = State(
    locks: map<K, nat>, closed: set<nat>, owner: map<nat, nat>, updating: set<K>, procs: map<nat, Phase<K>>)

  datatype Event<K(==)> =
    | Arrive(pid: nat, start: Phase<K>)
    | LoadOrStore(pid: nat, made: nat)
    | Woken(pid: nat)
    | Cancelled(pid: nat)
    | Delete(pid: nat)
    | CloseChannel(pid: nat)
    | Return(pid: nat)
    | BeginRefresh(pid: nat)
    | EndRefresh(pid: nat)

  predicate Enabled<K>(s: State<K>, e: Event<K>) {
    match e
    case Arrive(pid, start) =>
      pid !in s.procs && (start.Entering? || start.Unlocked? || start.RefreshEntering?)
    case LoadOrStore(pid, made) => pid in s.procs && s.procs[pid].Entering? && made !in s.owner
    case Woken(pid) => pid in s.procs && s.procs[pid].Waiting? && s.procs[pid].chan in s.closed
    case Cancelled(pid) => pid in s.procs && s.procs[pid].Waiting?
    case Delete(pid) => pid in s.procs && s.procs[pid].Holding?
    case CloseChannel(pid) => pid in s.procs && s.procs[pid].Closing?
    case Return(pid) => pid in s.procs && s.procs[pid].Unlocked?
    case BeginRefresh(pid) => pid in s.procs && s.procs[pid].RefreshEntering?
    case EndRefresh(pid) => pid in s.procs && s.procs[pid].Refreshing?
  }

  function Apply<K>(s: State<K>, e: Event<K>): State<K>
    requires Enabled(s, e)
  {
    match e
    case Arrive(pid, start) => s.(procs := s.procs[pid := start])
    case LoadOrStore(pid, made) =>
      var k := s.procs[pid].key;
      if k in s.locks then s.(procs := s.procs[pid := Waiting(k, s.locks[k])])
      else s.(locks := s.locks[k := made], owner := s.owner[made := pid], procs := s.procs[pid := Holding(k, made)])
    case Woken(pid) => s.(procs := s.procs[pid := Unlocked(s.procs[pid].key)])
    case Cancelled(pid) => s.(procs := s.procs[pid := Done])
    case Delete(pid) =>
      s.(locks := s.locks - {s.procs[pid].key}, procs := s.procs[pid := Closing(s.procs[pid].chan)])
    case CloseChannel(pid) => s.(closed := s.closed + {s.procs[pid].chan}, procs := s.procs[pid := Done])
    case Return(pid) => s.(procs := s.procs[pid := Done])
    case BeginRefresh(pid) =>
      var k := s.procs[pid].key;
      if k in s.updating then s.(procs := s.procs[pid := Done])
      else s.(updating := s.updating + {k}, procs := s.procs[pid := Refreshing(k)])
    case EndRefresh(pid) =>
      s.(updating := s.updating - {s.procs[pid].key}, procs := s.procs[pid := Done])
  }

  function Init<K>(): State<K> { State(map[], {}, map[], {}, map[]) }

  predicate Legal<K>(events: seq<Event<K>>)
    decreases |events|, 0
  {
    events != [] ==> Legal(events[..|events| - 1]) && Enabled(After(events[..|events| - 1]), events[|events| - 1])
  }

  function After<K>(events: seq<Event<K>>): State<K>
    requires Legal(events)
    decreases |events|, 1
  {
    if events == [] then Init() else Apply(After(events[..|events| - 1]), events[|events| - 1])
  }

  // ----- the invariant -----

  predicate HasChan<K>(ph: Phase<K>) { ph.Holding? || ph.Closing? }

  /** The process is the one that will close this channel. */
  ghost predicate Owns<K>(s: State<K>, pid: nat, c: nat) {
    pid in s.procs && HasChan(s.procs[pid]) && s.procs[pid].chan == c
  }

  /** Every channel ever created is closed, or its creator is still on the way to closing it. */
  ghost predicate ChannelsOwned<K>(s: State<K>) {
    s.closed <= s.owner.Keys && forall c :: c in s.owner ==> c in s.closed || Owns(s, s.owner[c], c)
  }

  ghost predicate OwnersSound<K>(s: State<K>) {
    forall p :: p in s.procs && HasChan(s.procs[p]) ==>
      s.procs[p].chan in s.owner && s.owner[s.procs[p].chan] == p && s.procs[p].chan !in s.closed
  }

  ghost predicate HoldersLocked<K>(s: State<K>) {
    forall p :: p in s.procs && s.procs[p].Holding? ==>
      s.procs[p].key in s.locks && s.locks[s.procs[p].key] == s.procs[p].chan
  }

  ghost predicate LocksHeld<K>(s: State<K>) {
    forall k :: k in s.locks ==>
      && s.locks[k] in s.owner && s.owner[s.locks[k]] in s.procs
      && s.procs[s.owner[s.locks[k]]] == Holding(k, s.locks[k])
  }

  ghost predicate WaitersSound<K>(s: State<K>) {
    forall p :: p in s.procs && s.procs[p].Waiting? ==> s.procs[p].chan in s.owner
  }

  ghost predicate RefreshesSound<K>(s: State<K>) {
    && (forall p :: p in s.procs && s.procs[p].Refreshing? ==> s.procs[p].key in s.updating)
    && (forall p, r :: p in s.procs && r in s.procs && SameRefresh(s.procs[p], s.procs[r]) ==> p == r)
    && (forall k :: k in s.updating ==> exists p :: p in s.procs && s.procs[p] == Refreshing(k))
  }

  predicate SameRefresh<K(==)>(a: Phase<K>, b: Phase<K>) { a.Refreshing? && b.Refreshing? && a.key == b.key }

  ghost predicate Inv<K>(s: State<K>) {
    ChannelsOwned(s) && OwnersSound(s) && HoldersLocked(s) && LocksHeld(s) && WaitersSound(s)
  }

  lemma StepKeepsChannels<K>(s: State<K>, e: Event<K>)
    requires Inv(s) && Enabled(s, e)
    ensures ChannelsOwned(Apply(s, e))
  {
    var s' := Apply(s, e);
    forall c | c in s'.owner ensures c in s'.closed || Owns(s', s'.owner[c], c) {
      if c in s.owner && c !in s.closed {
        assert Owns(s, s.owner[c], c);
      }
    }
  }

  lemma StepKeepsLocks<K>(s: State<K>, e: Event<K>)
    requires Inv(s) && Enabled(s, e)
    ensures HoldersLocked(Apply(s, e)) && LocksHeld(Apply(s, e))
  {
  }

  lemma StepKeepsInv<K>(s: State<K>, e: Event<K>)
    requires Inv(s) && Enabled(s, e)
    ensures Inv(Apply(s, e))
  {
    StepKeepsChannels(s, e);
    StepKeepsLocks(s, e);
  }

  lemma StepKeepsRefreshes<K>(s: State<K>, e: Event<K>)
    requires RefreshesSound(s) && Enabled(s, e)
    ensures RefreshesSound(Apply(s, e))
  {
    var s' := Apply(s, e);
    forall k | k in s'.updating ensures exists p :: p in s'.procs && s'.procs[p] == Refreshing(k) {
      if k in s.updating {
        var p :| p in s.procs && s.procs[p] == Refreshing(k);
        assert p in s'.procs;
      } else {
        assert e.pid in s'.procs && s'.procs[e.pid] == Refreshing(k);
      }
    }
  }

  lemma {:induction false} ReachableInv<K>(events: seq<Event<K>>)
    requires Legal(events)
    ensures Inv(After(events)) && RefreshesSound(After(events))
    decreases |events|
  {
    if events != [] {
      ReachableInv(events[..|events| - 1]);
      StepKeepsInv(After(events[..|events| - 1]), events[|events| - 1]);
      StepKeepsRefreshes(After(events[..|events| - 1]), events[|events| - 1]);
    }
  }

  // ----- in every interleaving -----

  /** Per key at most one Exchange owns the lock. */
  lemma OneOwnerPerKey<K>(events: seq<Event<K>>, p: nat, r: nat)
    requires Legal(events)
    requires
      var s := After(events);
      p in s.procs && r in s.procs && s.procs[p].Holding? && s.procs[r].Holding? && s.procs[p].key == s.procs[r].key
    ensures p == r
  {
    ReachableInv(events);
    var s := After(events);
    assert s.owner[s.procs[p].chan] == p && s.owner[s.procs[r].chan] == r;
  }

  /** No channel is closed twice: a second close would panic. */
  lemma ClosedOnce<K>(events: seq<Event<K>>, pid: nat)
    requires Legal(events) && Enabled(After(events), CloseChannel(pid))
    ensures After(events).procs[pid].chan !in After(events).closed
  {
    ReachableInv(events);
    assert Owns(After(events), pid, After(events).procs[pid].chan);
  }

  /** Whoever waits, waits on a channel that is closed or whose owner is still running and will close it. */
  lemma WaitersAreWoken<K>(events: seq<Event<K>>, pid: nat)
    requires Legal(events)
    requires pid in After(events).procs && After(events).procs[pid].Waiting?
    ensures
      var s := After(events);
      var c := s.procs[pid].chan;
      Enabled(s, Woken(pid)) || (
        c in s.owner && Owns(s, s.owner[c], c)
        && (Enabled(s, Delete(s.owner[c])) || Enabled(s, CloseChannel(s.owner[c]))))
  {
    ReachableInv(events);
    WaiterIsWoken(After(events), pid);
  }

  lemma WaiterIsWoken<K>(s: State<K>, pid: nat)
    requires ChannelsOwned(s) && WaitersSound(s) && pid in s.procs && s.procs[pid].Waiting?
    ensures
      var c := s.procs[pid].chan;
      Enabled(s, Woken(pid)) || (
        c in s.owner && Owns(s, s.owner[c], c)
        && (Enabled(s, Delete(s.owner[c])) || Enabled(s, CloseChannel(s.owner[c]))))
  {
    if !Enabled(s, Woken(pid)) {
      ChannelHasOwner(s, s.procs[pid].chan);
    }
  }

  lemma ChannelHasOwner<K>(s: State<K>, c: nat)
    requires ChannelsOwned(s) && c in s.owner && c !in s.closed
    ensures Owns(s, s.owner[c], c) && (Enabled(s, Delete(s.owner[c])) || Enabled(s, CloseChannel(s.owner[c])))
  {
    assert Owns(s, s.owner[c], c);
  }

  /** And nobody is woken before that: when a wake comes, no exchange holds or is about to close that channel. */
  lemma WokenAfterOwner<K>(events: seq<Event<K>>, pid: nat, r: nat)
    requires Legal(events) && Enabled(After(events), Woken(pid))
    ensures !Owns(After(events), r, After(events).procs[pid].chan)
  {
    ReachableInv(events);
  }

  /** At most one refresh per key runs, and its key is in the updating set exactly while it does. */
  lemma OneRefreshPerKey<K>(events: seq<Event<K>>, k: K)
    requires Legal(events)
    ensures
      var s := After(events);
      && (k in s.updating <==> exists p :: p in s.procs && s.procs[p] == Refreshing(k))
      && (forall p, r ::
            p in s.procs && r in s.procs && s.procs[p] == Refreshing(k) && s.procs[r] == Refreshing(k) ==> p == r)
  {
    ReachableInv(events);
  }

  // ----- what becomes of one exchange -----

  /** How many of its own events an exchange has left at most. */
  function StepsLeft<K>(ph: Phase<K>): nat {
    match ph
    case Entering(_) => 3
    case Waiting(_, _) => 2
    case Holding(_, _) => 2
    case Closing(_) => 1
    case Unlocked(_) => 1
    case RefreshEntering(_) => 2
    case Refreshing(_) => 1
    case Done => 0
  }

  /** An event moves its own exchange on and touches no other, so none takes more than three. */
  lemma EveryStepMovesOn<K>(s: State<K>, e: Event<K>, p: nat)
    requires Enabled(s, e) && p in s.procs
    ensures p in Apply(s, e).procs
    ensures e.pid == p ==> StepsLeft(Apply(s, e).procs[p]) < StepsLeft(s.procs[p]) <= 3
    ensures e.pid != p ==> Apply(s, e).procs[p] == s.procs[p]
  {
  }

  /** An exchange ends by giving up its wait, by returning from its own query, or after closing its channel. */
  lemma EndsIff<K>(s: State<K>, e: Event<K>, p: nat)
    requires Enabled(s, e) && p in s.procs && !s.procs[p].Done? && !e.Arrive?
    ensures Apply(s, e).procs[p].Done? <==>
      && e.pid == p
      && (e.Cancelled? || e.Return? || e.CloseChannel? || e.EndRefresh?
          || (e.BeginRefresh? && s.procs[p].key in s.updating))
  {
  }

  /**
   * In every interleaving, an exchange that enters waits for whoever holds its key, on that very channel, and otherwise
   * holds the key itself.
   */
  lemma EntersBehindHolder<K>(events: seq<Event<K>>, p: nat, made: nat)
    requires Legal(events) && Enabled(After(events), LoadOrStore(p, made))
    ensures
      var s := After(events);
      var k, ph := s.procs[p].key, Apply(s, LoadOrStore(p, made)).procs[p];
      && (forall r :: r in s.procs && s.procs[r].Holding? && s.procs[r].key == k ==> ph == Waiting(k, s.procs[r].chan))
      && ((forall r :: r in s.procs && s.procs[r].Holding? ==> s.procs[r].key != k) ==> ph == Holding(k, made))
  {
    ReachableInv(events);
  }

  lemma LockHasHolder<K>(s: State<K>, k: K)
    requires Inv(s) && k in s.locks
    ensures exists p :: p in s.procs && !s.procs[p].Done?
  {
    assert s.procs[s.owner[s.locks[k]]] == Holding(k, s.locks[k]);
  }

  lemma MarkHasRefresh<K>(s: State<K>, k: K)
    requires RefreshesSound(s) && k in s.updating
    ensures exists p :: p in s.procs && !s.procs[p].Done?
  {
    var p :| p in s.procs && s.procs[p] == Refreshing(k);
    assert !s.procs[p].Done?;
  }

  /** When every Exchange has returned, no lock, no open channel and no updating mark is left behind. */
  lemma NothingLeftBehind<K>(events: seq<Event<K>>)
    requires Legal(events)
    ensures
      var s := After(events);
      (forall p :: p in s.procs ==> s.procs[p].Done?) ==>
        s.locks == map[] && s.updating == {} && forall c :: c in s.owner ==> c in s.closed
  {
    ReachableInv(events);
    var s := After(events);
    if s.locks != map[] {
      var k :| k in s.locks;
      LockHasHolder(s, k);
    }
    if s.updating != {} {
      var k :| k in s.updating;
      MarkHasRefresh(s, k);
    }
  }
}
