/**
 * The connection event stream: per subscriber, a snapshot of every connection it knows, from which events are
 * derived. A client that replays the events must end up with the same connections and the same counters.
 */
module ConnectionStream {
  import opened Prelude

  datatype Counters = Counters(up: int, down: int)

  function Plus(a: Counters, b: Counters): Counters { Counters(a.up + b.up, a.down + b.down) }
  function Minus(a: Counters, b: Counters): Counters { Counters(a.up - b.up, a.down - b.down) }
  const ZERO := Counters(0, 0)

  /** A live connection as read: the counters are loaded once for the snapshot and once more for the message. */
  datatype Conn = Conn(id: nat, now: Counters, shown: Counters)

  datatype Snapshot = Snapshot(seen: Counters, hadTraffic: bool)

  /** `base` is what the snapshot starts from; the client only sees `shown`. */
  datatype Event =
    | New(id: nat, base: Counters, shown: Counters)
    | ListedClosed(id: nat)                      // a NEW that already carries its closing time
    | Update(id: nat, delta: Counters)
    | Closed(id: nat)

  type Snapshots = map<nat, Snapshot>

  // ----- one connection, one tick -----

  function Observed(snap: Option<Snapshot>, c: Conn): (Snapshot, seq<Event>) {
    if snap.None? then (Snapshot(c.now, false), [New(c.id, c.now, c.shown)])
    else
      var delta := Minus(c.now, snap.value.seen);
      if delta.up < 0 || delta.down < 0 then
        (Snapshot(c.now, false), if snap.value.hadTraffic then [Update(c.id, ZERO)] else [])
      else if 0 < delta.up || 0 < delta.down then (Snapshot(c.now, true), [Update(c.id, delta)])
      else if snap.value.hadTraffic then (Snapshot(c.now, false), [Update(c.id, ZERO)])
      else (snap.value, [])
  }

  function Look(snaps: Snapshots, id: nat): Option<Snapshot> { if id in snaps then Some(snaps[id]) else None }

  // ----- the client -----

  /** The connections a client holds, with the counters it would show if it started from `base`. */
  function Client(sent: seq<Event>): map<nat, Counters> {
    if sent == [] then map[]
    else
      var m, e := Client(sent[..|sent| - 1]), sent[|sent| - 1];
      match e
      case New(id, base, _) => m[id := base]
      case ListedClosed(_) => m
      case Update(id, delta) => if id in m then m[id := Plus(m[id], delta)] else m
      case Closed(id) => m - {id}
  }

  /** By how much the totals a client was shown at NEW differ from where the deltas start. */
  function Drift(sent: seq<Event>, id: nat): Counters {
    if sent == [] then ZERO
    else
      var e := sent[|sent| - 1];
      if e.New? && e.id == id then Minus(e.shown, e.base) else Drift(sent[..|sent| - 1], id)
  }

  /** The totals a client really shows. */
  function Shown(sent: seq<Event>): map<nat, Counters> {
    if sent == [] then map[]
    else
      var m, e := Shown(sent[..|sent| - 1]), sent[|sent| - 1];
      match e
      case New(id, _, shown) => m[id := shown]
      case ListedClosed(_) => m
      case Update(id, delta) => if id in m then m[id := Plus(m[id], delta)] else m
      case Closed(id) => m - {id}
  }

  /** What the client shows is off by the drift at NEW, and by nothing else. */
  lemma {:induction false} ShownIsClientPlusDrift(sent: seq<Event>, id: nat)
    ensures id in Shown(sent) <==> id in Client(sent)
    ensures id in Client(sent) ==> Shown(sent)[id] == Plus(Client(sent)[id], Drift(sent, id))
  {
    if sent != [] {
      ShownIsClientPlusDrift(sent[..|sent| - 1], id);
    }
  }

  // ----- zero updates -----

  predicate IsZero(e: Event) { e.Update? && e.delta == ZERO }
  predicate IsPositive(e: Event) { e.Update? && e.delta != ZERO && 0 <= e.delta.up && 0 <= e.delta.down }

  /** The last word about the connection was that it moved data. */
  ghost predicate Moving(sent: seq<Event>, id: nat) {
    sent != [] && (
      var e := sent[|sent| - 1];
      if e.id == id && !e.ListedClosed? then IsPositive(e) else Moving(sent[..|sent| - 1], id))
  }

  lemma {:induction false} MovingHasPositive(sent: seq<Event>, id: nat, i: nat)
    requires Moving(sent, id) && i < |sent| && IsZero(sent[i]) && sent[i].id == id
    ensures exists k :: i < k < |sent| && IsPositive(sent[k]) && sent[k].id == id
  {
    var last := |sent| - 1;
    var e := sent[last];
    if e.id == id && !e.ListedClosed? {
      assert IsPositive(sent[last]);
    } else {
      MovingHasPositive(sent[..last], id, i);
      var k :| i < k < last && IsPositive(sent[..last][k]) && sent[..last][k].id == id;
      assert IsPositive(sent[k]);
    }
  }

  /** Between two zero updates of a connection there is one that moved data. */
  ghost predicate ZerosSeparated(sent: seq<Event>) {
    forall i, j :: 0 <= i < j < |sent| && IsZero(sent[i]) && IsZero(sent[j]) && sent[i].id == sent[j].id ==>
      exists k :: i < k < j && IsPositive(sent[k]) && sent[k].id == sent[i].id
  }

  lemma ZerosStaySeparated(sent: seq<Event>, e: Event)
    requires ZerosSeparated(sent) && (IsZero(e) ==> Moving(sent, e.id))
    ensures ZerosSeparated(sent + [e])
  {
    var all := sent + [e];
    forall i, j | 0 <= i < j < |all| && IsZero(all[i]) && IsZero(all[j]) && all[i].id == all[j].id
      ensures exists k :: i < k < j && IsPositive(all[k]) && all[k].id == all[i].id
    {
      if j == |sent| {
        MovingHasPositive(sent, e.id, i);
        var k :| i < k < |sent| && IsPositive(sent[k]) && sent[k].id == e.id;
        assert IsPositive(all[k]) && all[k].id == all[i].id;
      } else {
        assert IsZero(sent[i]) && IsZero(sent[j]) && sent[i].id == sent[j].id;
        var k :| i < k < j && IsPositive(sent[k]) && sent[k].id == sent[i].id;
        assert IsPositive(all[k]) && all[k].id == all[i].id;
      }
    }
  }

  /** Every zero update answers one that moved data. */
  ghost predicate ZerosAnswered(sent: seq<Event>) {
    sent != [] ==>
      var before, e := sent[..|sent| - 1], sent[|sent| - 1];
      ZerosAnswered(before) && (IsZero(e) ==> Moving(before, e.id))
  }

  /** So between two of them there is always one that moved data. */
  lemma {:induction false} AnsweredAreSeparated(sent: seq<Event>)
    requires ZerosAnswered(sent)
    ensures ZerosSeparated(sent)
  {
    if sent != [] {
      AnsweredAreSeparated(sent[..|sent| - 1]);
      ZerosStaySeparated(sent[..|sent| - 1], sent[|sent| - 1]);
      assert sent == sent[..|sent| - 1] + [sent[|sent| - 1]];
    }
  }

  // ----- server and client -----

  /** The client holds the snapshot's connections, and the traffic flag is what the client was last told. */
  ghost predicate InStep(snaps: Snapshots, sent: seq<Event>) {
    && Client(sent).Keys == snaps.Keys
    && (forall id :: id in snaps ==> snaps[id].hadTraffic == Moving(sent, id))
    && ZerosAnswered(sent)
  }

  /** The client's counters for one connection are the snapshot's. */
  ghost predicate ExactAt(snaps: Snapshots, sent: seq<Event>, id: nat) {
    id in snaps && id in Client(sent) && Client(sent)[id] == snaps[id].seen
  }

  lemma Appended(sent: seq<Event>, e: Event)
    ensures (sent + [e])[..|sent|] == sent && (sent + [e])[|sent|] == e
  {
  }

  function AfterObserve(snaps: Snapshots, c: Conn): Snapshots { snaps[c.id := Observed(Look(snaps, c.id), c).0] }

  /** Counters never go back. */
  predicate NotLess(snap: Option<Snapshot>, c: Conn) {
    snap.Some? ==> snap.value.seen.up <= c.now.up && snap.value.seen.down <= c.now.down
  }

  lemma ObserveStaysInStep(snaps: Snapshots, sent: seq<Event>, c: Conn)
    requires InStep(snaps, sent)
    ensures InStep(AfterObserve(snaps, c), sent + Observed(Look(snaps, c.id), c).1)
  {
    var ev := Observed(Look(snaps, c.id), c).1;
    if ev == [] {
      assert sent + ev == sent;
    } else {
      assert ev == [ev[0]];
      Appended(sent, ev[0]);
    }
  }

  /**
   * What a tick says of a connection the client holds: what it moved, when it moved forward; else a zero update, when
   * the last word was that it moved; else nothing. Afterwards it counts as moving exactly when it moved forward.
   */
  lemma ObserveSays(snaps: Snapshots, sent: seq<Event>, c: Conn)
    requires InStep(snaps, sent) && c.id in snaps
    ensures
      var up, down := c.now.up - snaps[c.id].seen.up, c.now.down - snaps[c.id].seen.down;
      var ev := Observed(Look(snaps, c.id), c).1;
      var forward := 0 <= up && 0 <= down && 0 < up + down;
      && (forward ==> ev == [Update(c.id, Counters(up, down))])
      && (!forward && Moving(sent, c.id) ==> ev == [Update(c.id, Counters(0, 0))])
      && (!forward && !Moving(sent, c.id) ==> ev == [])
      && (Moving(sent + ev, c.id) <==> forward)
  {
    var ev := Observed(Look(snaps, c.id), c).1;
    if ev == [] {
      assert sent + ev == sent;
    } else {
      Appended(sent, ev[0]);
    }
  }

  /** A tick keeps a connection's client counters right exactly when they did not go back; others are untouched. */
  lemma ObserveExactIff(snaps: Snapshots, sent: seq<Event>, c: Conn, id: nat)
    requires InStep(snaps, sent) && (id in snaps ==> ExactAt(snaps, sent, id))
    ensures
      var snaps', sent' := AfterObserve(snaps, c), sent + Observed(Look(snaps, c.id), c).1;
      ExactAt(snaps', sent', id) <==> if id == c.id then NotLess(Look(snaps, id), c) else id in snaps
  {
    var ev := Observed(Look(snaps, c.id), c).1;
    if ev == [] {
      assert sent + ev == sent;
    } else {
      assert ev == [ev[0]];
      Appended(sent, ev[0]);
    }
    assert AfterObserve(snaps, c)[c.id].seen == c.now;
  }

  /** An observation of another connection changes nothing about this one. */
  lemma ObserveOther(snaps: Snapshots, sent: seq<Event>, c: Conn, id: nat)
    requires id != c.id
    ensures
      var snaps', sent' := AfterObserve(snaps, c), sent + Observed(Look(snaps, c.id), c).1;
      (ExactAt(snaps', sent', id) <==> ExactAt(snaps, sent, id)) && Look(snaps', id) == Look(snaps, id)
  {
    var ev := Observed(Look(snaps, c.id), c).1;
    if ev == [] {
      assert sent + ev == sent;
    } else {
      assert ev == [ev[0]];
      Appended(sent, ev[0]);
    }
  }

  lemma DropStaysInStep(snaps: Snapshots, sent: seq<Event>, id: nat)
    requires InStep(snaps, sent)
    ensures InStep(snaps - {id}, sent + [Closed(id)])
    ensures forall k :: k != id ==> (ExactAt(snaps - {id}, sent + [Closed(id)], k) <==> ExactAt(snaps, sent, k))
  {
    Appended(sent, Closed(id));
  }

  lemma ListStaysInStep(snaps: Snapshots, sent: seq<Event>, id: nat)
    requires InStep(snaps, sent)
    ensures InStep(snaps, sent + [ListedClosed(id)])
    ensures forall k :: ExactAt(snaps, sent + [ListedClosed(id)], k) <==> ExactAt(snaps, sent, k)
  {
    Appended(sent, ListedClosed(id));
  }

  /** A first snapshot of a connection, also when it replaces an earlier one. */
  lemma NewStaysInStep(snaps: Snapshots, sent: seq<Event>, c: Conn)
    requires InStep(snaps, sent)
    ensures
      var snaps', sent' := snaps[c.id := Snapshot(c.now, false)], sent + [New(c.id, c.now, c.shown)];
      InStep(snaps', sent') && forall k :: ExactAt(snaps', sent', k) <==> k == c.id || ExactAt(snaps, sent, k)
  {
    Appended(sent, New(c.id, c.now, c.shown));
  }

  // ----- the subscriber -----

  /** What the traffic manager announces. */
  datatype Notice = Opened(conn: Conn) | Ended(id: nat) | Unrelated

  function AfterNotice(snaps: Snapshots, n: Notice): Snapshots {
    match n
    case Opened(c) => if c.id in snaps then snaps else snaps[c.id := Snapshot(c.now, false)]
    case Ended(id) => snaps - {id}
    case Unrelated => snaps
  }

  function NoticeEvents(snaps: Snapshots, n: Notice): seq<Event> {
    match n
    case Opened(c) => if c.id in snaps then [] else [New(c.id, c.now, c.shown)]
    case Ended(id) => [Closed(id)]
    case Unrelated => []
  }

  /** A notice keeps the client in step, and keeps right every connection that was right, or is new. */
  lemma NoticeStaysInStep(snaps: Snapshots, sent: seq<Event>, n: Notice)
    requires InStep(snaps, sent)
    ensures
      var snaps', sent' := AfterNotice(snaps, n), sent + NoticeEvents(snaps, n);
      && InStep(snaps', sent')
      && (forall id :: id in snaps' && (id in snaps ==> ExactAt(snaps, sent, id)) ==> ExactAt(snaps', sent', id))
  {
    match n {
      case Opened(c) => NewStaysInStep(snaps, sent, c);
      case Ended(id) => DropStaysInStep(snaps, sent, id);
      case Unrelated =>
    }
    assert sent + [] == sent;
  }

  /** A notice of a connection gives the client that one, one of an end takes it away, and no notice touches another. */
  lemma NoticeSays(snaps: Snapshots, sent: seq<Event>, n: Notice, id: nat)
    requires InStep(snaps, sent)
    ensures
      var before, after := Client(sent), Client(sent + NoticeEvents(snaps, n));
      && (n.Opened? && n.conn.id == id ==> id in after && (id !in before ==> after[id] == n.conn.now))
      && (n.Ended? && n.id == id ==> id !in after)
      && ((n.Opened? && n.conn.id == id && id !in before) || (n.Ended? && n.id == id)
          || ((id in after <==> id in before) && (id in before ==> after[id] == before[id])))
  {
    var ev := NoticeEvents(snaps, n);
    if ev == [] {
      assert sent + ev == sent;
    } else {
      Appended(sent, ev[0]);
    }
  }

  function Ids(conns: seq<Conn>): set<nat> { set c | c in conns :: c.id }

  lemma IdsNext(conns: seq<Conn>, i: nat)
    requires i < |conns|
    ensures Ids(conns[..i + 1]) == Ids(conns[..i]) + {conns[i].id}
  {
    assert conns[..i + 1] == conns[..i] + [conns[i]];
  }

  ghost predicate DistinctIds(conns: seq<Conn>) {
    forall i, j :: 0 <= i < j < |conns| ==> conns[i].id != conns[j].id
  }

  ghost predicate AllExact(snaps: Snapshots, sent: seq<Event>) { forall id :: id in snaps ==> ExactAt(snaps, sent, id) }

  /** The counters a snapshot holds. */
  function Remembered(snaps: Snapshots): map<nat, Counters> { map id | id in snaps :: snaps[id].seen }

  /** The counters of a listing. */
  function Readings(conns: seq<Conn>): map<nat, Counters> {
    if conns == [] then map[] else Readings(conns[..|conns| - 1])[conns[|conns| - 1].id := conns[|conns| - 1].now]
  }

  lemma {:induction false} ReadingsKeys(conns: seq<Conn>)
    ensures Readings(conns).Keys == Ids(conns)
  {
    if conns != [] {
      ReadingsKeys(conns[..|conns| - 1]);
      IdsNext(conns, |conns| - 1);
      assert conns[..|conns|] == conns;
    }
  }

  lemma {:induction false} ReadingsOfDistinct(conns: seq<Conn>, j: nat)
    requires DistinctIds(conns) && j < |conns|
    ensures conns[j].id in Readings(conns) && Readings(conns)[conns[j].id] == conns[j].now
  {
    if j < |conns| - 1 {
      ReadingsOfDistinct(conns[..|conns| - 1], j);
    }
  }

  /** The snapshots are those of the connections listed so far. */
  ghost predicate Listed(snaps: Snapshots, sent: seq<Event>, conns: seq<Conn>) {
    InStep(snaps, sent) && AllExact(snaps, sent) && Remembered(snaps) == Readings(conns)
  }

  lemma ListedNext(snaps: Snapshots, sent: seq<Event>, active: seq<Conn>, i: nat)
    requires i < |active| && Listed(snaps, sent, active[..i])
    ensures
      var c := active[i];
      Listed(snaps[c.id := Snapshot(c.now, false)], sent + [New(c.id, c.now, c.shown)], active[..i + 1])
  {
    var c := active[i];
    NewStaysInStep(snaps, sent, c);
    assert active[..i + 1][..i] == active[..i];
    assert Remembered(snaps[c.id := Snapshot(c.now, false)]) == Remembered(snaps)[c.id := c.now];
  }

  lemma OpenEventsNext(active: seq<Conn>, i: nat)
    requires i < |active|
    ensures OpenEvents(active[..i + 1]) == OpenEvents(active[..i]) + [New(active[i].id, active[i].now, active[i].shown)]
  {
  }

  class Subscriber {
    var snapshots: Snapshots

    /** Everything sent to the client so far. */
    ghost var sent: seq<Event>

    ghost predicate Valid()
      reads this
    {
      InStep(snapshots, sent)
    }

    constructor ()
      ensures Valid() && snapshots == map[] && sent == []
    {
      snapshots, sent := map[], [];
    }

    method ListOpen(active: seq<Conn>) returns (events: seq<Event>)
      requires Valid() && snapshots == map[]
      modifies this
      ensures Valid() && sent == old(sent) + events && events == OpenEvents(active)
      ensures Remembered(snapshots) == Readings(active) && AllExact(snapshots, sent)
    {
      events := [];
      for i := 0 to |active|
        invariant sent == old(sent) + events && events == OpenEvents(active[..i])
        invariant Listed(snapshots, sent, active[..i])
      {
        var c := active[i];
        ListedNext(snapshots, sent, active, i);
        events := events + [New(c.id, c.now, c.shown)];
        snapshots := snapshots[c.id := Snapshot(c.now, false)];
        sent := sent + [New(c.id, c.now, c.shown)];
        OpenEventsNext(active, i);
      }
      assert active[..|active|] == active;
    }

    method ListClosed(closed: seq<nat>) returns (events: seq<Event>)
      requires Valid()
      modifies this`sent
      ensures Valid() && sent == old(sent) + events && events == ClosedEvents(closed)
      ensures forall id :: id in snapshots && old(ExactAt(snapshots, sent, id)) ==> ExactAt(snapshots, sent, id)
    {
      events := [];
      for i := 0 to |closed|
        invariant Valid() && sent == old(sent) + events && events == ClosedEvents(closed[..i])
        invariant forall id :: id in snapshots && old(ExactAt(snapshots, sent, id)) ==> ExactAt(snapshots, sent, id)
      {
        ListStaysInStep(snapshots, sent, closed[i]);
        assert closed[..i + 1] == closed[..i] + [closed[i]];
        events := events + [ListedClosed(closed[i])];
        sent := sent + [ListedClosed(closed[i])];
      }
      assert closed[..|closed|] == closed;
    }

    method BuildInitialState(active: seq<Conn>, closed: seq<nat>) returns (events: seq<Event>)
      requires Valid() && snapshots == map[]
      modifies this
      ensures Valid() && sent == old(sent) + events && events == OpenEvents(active) + ClosedEvents(closed)
      ensures Remembered(snapshots) == Readings(active) && AllExact(snapshots, sent)
    {
      var first := ListOpen(active);
      var second := ListClosed(closed);
      Assoc(old(sent), first, second);
      events := first + second;
    }

    method ApplyNotice(n: Notice) returns (events: seq<Event>)
      requires Valid()
      modifies this
      ensures Valid() && snapshots == AfterNotice(old(snapshots), n)
      ensures events == NoticeEvents(old(snapshots), n) && sent == old(sent) + events
      ensures old(AllExact(snapshots, sent)) ==> AllExact(snapshots, sent)
    {
      NoticeStaysInStep(snapshots, sent, n);
      events := [];
      match n {
        case Opened(c) =>
          if c.id !in snapshots {
            snapshots := snapshots[c.id := Snapshot(c.now, false)];
            events := [New(c.id, c.now, c.shown)];
          }
        case Ended(id) =>
          snapshots := snapshots - {id};
          events := [Closed(id)];
        case Unrelated =>
      }
      sent := sent + events;
    }

    method ObserveOne(c: Conn) returns (events: seq<Event>)
      requires Valid()
      modifies this
      ensures Valid() && snapshots == AfterObserve(old(snapshots), c)
      ensures events == Observed(Look(old(snapshots), c.id), c).1 && sent == old(sent) + events && NoListing(events)
    {
      ObserveStaysInStep(snapshots, sent, c);
      events := [];
      if c.id !in snapshots {
        snapshots := snapshots[c.id := Snapshot(c.now, false)];
        events := [New(c.id, c.now, c.shown)];
      } else {
        var snap := snapshots[c.id];
        var up, down := c.now.up - snap.seen.up, c.now.down - snap.seen.down;
        if up < 0 || down < 0 {
          if snap.hadTraffic {
            events := [Update(c.id, ZERO)];
          }
          snapshots := snapshots[c.id := Snapshot(c.now, false)];
        } else if 0 < up || 0 < down {
          snapshots := snapshots[c.id := Snapshot(c.now, true)];
          events := [Update(c.id, Counters(up, down))];
        } else if snap.hadTraffic {
          snapshots := snapshots[c.id := Snapshot(c.now, false)];
          events := [Update(c.id, ZERO)];
        }
      }
      sent := sent + events;
      assert snapshots == AfterObserve(old(snapshots), c);
    }

    method ObserveAll(active: seq<Conn>) returns (events: seq<Event>)
      requires Valid() && DistinctIds(active)
      modifies this
      ensures Valid() && sent == old(sent) + events
      ensures Watched(old(snapshots), old(sent), snapshots, sent, active, |active|) && NoListing(events)
    {
      events := [];
      WatchedAtFirst(snapshots, sent, active);
      for i := 0 to |active|
        invariant Valid() && sent == old(sent) + events && NoListing(events)
        invariant Watched(old(snapshots), old(sent), snapshots, sent, active, i)
      {
        WatchedNext(old(snapshots), old(sent), snapshots, sent, active, i);
        var more := ObserveOne(active[i]);
        Assoc(old(sent), events, more);
        NoListingAppends(events, more);
        events := events + more;
      }
    }

    method DropGone(live: set<nat>) returns (events: seq<Event>)
      requires Valid() && live <= snapshots.Keys
      modifies this
      ensures Valid() && sent == old(sent) + events && NoListing(events)
      ensures snapshots.Keys == live
      ensures forall id :: id in live ==> Untouched(old(snapshots), old(sent), snapshots, sent, id)
    {
      events := [];
      var gone := snapshots.Keys - live;
      while gone != {}
        invariant Valid() && sent == old(sent) + events && NoListing(events)
        invariant gone == snapshots.Keys - live && live <= snapshots.Keys
        invariant forall id :: id in live ==> Untouched(old(snapshots), old(sent), snapshots, sent, id)
        decreases gone
      {
        var id :| id in gone;
        DropStaysInStep(snapshots, sent, id);
        snapshots := snapshots - {id};
        events := events + [Closed(id)];
        sent := sent + [Closed(id)];
        gone := gone - {id};
      }
      forall id | id in snapshots.Keys ensures id in live {
        assert id !in live ==> id in gone;
      }
    }

    /** One tick: after it the client holds exactly the live connections. */
    method BuildTrafficUpdates(active: seq<Conn>) returns (events: seq<Event>)
      requires Valid() && DistinctIds(active)
      modifies this
      ensures Valid() && sent == old(sent) + events && NoListing(events)
      ensures Remembered(snapshots) == Readings(active) && Client(sent).Keys == Ids(active)
      ensures forall j :: 0 <= j < |active| ==> KeptIff(old(snapshots), old(sent), snapshots, sent, active[j])
    {
      var updates := ObserveAll(active);
      ghost var mid, said := snapshots, sent;
      WatchesAll(old(snapshots), old(sent), mid, said, active);
      var closings := DropGone(Ids(active));
      events := updates + closings;
      Assoc(old(sent), updates, closings);
      KeptThroughDrops(old(snapshots), old(sent), mid, said, snapshots, sent, active);
      TickReads(old(snapshots), old(sent), snapshots, sent, active);
    }

    method Take(input: Input)
      requires Valid() && (input.Ticked? ==> DistinctIds(input.active))
      modifies this
      ensures Valid()
      ensures input.Ticked? ==> Remembered(snapshots) == Readings(input.active)
      ensures input.Told? ==> snapshots == AfterNotice(old(snapshots), input.notice)
      ensures old(AllExact(snapshots, sent)) && (input.Ticked? ==> NoneWentBack(old(snapshots), input.active)) ==>
        AllExact(snapshots, sent)
      ensures ListedIds(sent) == old(ListedIds(sent))
    {
      match input
      case Told(n) =>
        var events := ApplyNotice(n);
        NothingListed(old(sent), events);
      case Ticked(active) =>
        var events := BuildTrafficUpdates(active);
        NothingListed(old(sent), events);
        if old(AllExact(snapshots, sent)) && NoneWentBack(old(snapshots), active) {
          TickKeepsExact(old(snapshots), old(sent), snapshots, sent, active);
        }
    }

    /**
     * A whole subscription: after the first message and any notices and ticks, the client holds exactly the live
     * connections, and unless a counter went back its counters are the last ones read. A client that takes a NEW with
     * a closing time for a closing holds them too, once none of them is one first listed as closed.
     */
    method Serve(active: seq<Conn>, closed: seq<nat>, inputs: seq<Input>)
      requires Valid() && snapshots == map[] && DistinctTicks(inputs)
      modifies this
      ensures Valid() && Client(sent).Keys == Latest(active, inputs).Keys
      ensures Monotone(active, inputs) ==> Client(sent) == Latest(active, inputs)
      ensures old(sent) == [] && Latest(active, inputs).Keys !! Elems(closed) ==>
        StrictClient(sent) == Latest(active, inputs).Keys
    {
      var first := BuildInitialState(active, closed);
      ListedByFirst(active, closed);
      assert [] + first == first;
      for i := 0 to |inputs|
        invariant Valid() && Remembered(snapshots) == Latest(active, inputs[..i])
        invariant old(sent) == [] ==> ListedIds(sent) == Elems(closed)
        invariant Monotone(active, inputs[..i]) ==> AllExact(snapshots, sent)
      {
        assert inputs[..i + 1][..i] == inputs[..i];
        ghost var before := snapshots;
        Take(inputs[i]);
        if inputs[i].Told? {
          NoticeRemembers(before, inputs[i].notice);
        }
      }
      assert inputs[..|inputs|] == inputs;
      assert Remembered(snapshots).Keys == snapshots.Keys;
      if Monotone(active, inputs) {
        ExactMeansEqual(snapshots, sent);
      }
      if ListedIds(sent) !! Client(sent).Keys {
        StrictAgrees(sent);
      }
    }
  }

  /**
   * The snapshot holds the connection's counters. If the client's counters were right, or the connection is new, they
   * are right now exactly if they did not go back.
   */
  ghost predicate KeptIff(
    snaps: Snapshots, sent: seq<Event>, snaps': Snapshots, sent': seq<Event>, c: Conn)
  {
    && c.id in snaps' && snaps'[c.id].seen == c.now
    && ((c.id in snaps ==> ExactAt(snaps, sent, c.id)) ==>
          (ExactAt(snaps', sent', c.id) <==> NotLess(Look(snaps, c.id), c)))
  }

  lemma TickReads(snaps: Snapshots, sent: seq<Event>, snaps': Snapshots, sent': seq<Event>, active: seq<Conn>)
    requires DistinctIds(active) && snaps'.Keys == Ids(active)
    requires forall j :: 0 <= j < |active| ==> KeptIff(snaps, sent, snaps', sent', active[j])
    ensures Remembered(snaps') == Readings(active)
  {
    ReadingsKeys(active);
    forall id | id in snaps' ensures snaps'[id].seen == Readings(active)[id] {
      var j :| 0 <= j < |active| && active[j].id == id;
      ReadingsOfDistinct(active, j);
    }
  }

  ghost predicate Untouched(snaps: Snapshots, sent: seq<Event>, snaps': Snapshots, sent': seq<Event>, id: nat) {
    Look(snaps', id) == Look(snaps, id) && (ExactAt(snaps', sent', id) <==> ExactAt(snaps, sent, id))
  }

  /** The first `n` connections are observed, the others are as they were. */
  ghost predicate Progress(
    snaps: Snapshots, sent: seq<Event>, snaps': Snapshots, sent': seq<Event>, active: seq<Conn>, n: nat)
  {
    && (forall j :: n <= j < |active| ==> Untouched(snaps, sent, snaps', sent', active[j].id))
    && (forall j :: 0 <= j < n && j < |active| ==> KeptIff(snaps, sent, snaps', sent', active[j]))
  }

  /** And the snapshots are those there were and those of the first `n` connections. */
  ghost predicate Watched(
    snaps: Snapshots, sent: seq<Event>, snaps': Snapshots, sent': seq<Event>, active: seq<Conn>, n: nat)
  {
    && n <= |active| && snaps'.Keys == snaps.Keys + Ids(active[..n])
    && Progress(snaps, sent, snaps', sent', active, n)
  }

  lemma WatchesAll(snaps: Snapshots, sent: seq<Event>, snaps': Snapshots, sent': seq<Event>, active: seq<Conn>)
    requires Watched(snaps, sent, snaps', sent', active, |active|)
    ensures Ids(active) <= snaps'.Keys
  {
    assert active[..|active|] == active;
  }

  lemma KeptThroughDrops(
    snaps: Snapshots, sent: seq<Event>, mid: Snapshots, said: seq<Event>, snaps': Snapshots, sent': seq<Event>,
    active: seq<Conn>)
    requires Watched(snaps, sent, mid, said, active, |active|)
    requires forall id :: id in Ids(active) ==> Untouched(mid, said, snaps', sent', id)
    ensures forall j :: 0 <= j < |active| ==> KeptIff(snaps, sent, snaps', sent', active[j])
  {
    forall j | 0 <= j < |active| ensures KeptIff(snaps, sent, snaps', sent', active[j]) {
      assert active[j].id in Ids(active);
      assert KeptIff(snaps, sent, mid, said, active[j]) && Untouched(mid, said, snaps', sent', active[j].id);
    }
  }

  lemma WatchedAtFirst(snaps: Snapshots, sent: seq<Event>, active: seq<Conn>)
    ensures Watched(snaps, sent, snaps, sent, active, 0)
  {
    assert Ids(active[..0]) == {};
  }

  lemma WatchedNext(
    snaps0: Snapshots, sent0: seq<Event>, snaps: Snapshots, sent: seq<Event>, active: seq<Conn>, i: nat)
    requires i < |active| && DistinctIds(active) && InStep(snaps, sent)
    requires Watched(snaps0, sent0, snaps, sent, active, i)
    ensures
      var c := active[i];
      Watched(snaps0, sent0, AfterObserve(snaps, c), sent + Observed(Look(snaps, c.id), c).1, active, i + 1)
  {
    ProgressStep(snaps0, sent0, snaps, sent, active, i);
    IdsNext(active, i);
  }

  lemma ProgressStep(
    snaps0: Snapshots, sent0: seq<Event>, snaps: Snapshots, sent: seq<Event>, active: seq<Conn>, i: nat)
    requires i < |active| && DistinctIds(active) && InStep(snaps, sent)
    requires Progress(snaps0, sent0, snaps, sent, active, i)
    ensures
      var c := active[i];
      Progress(snaps0, sent0, AfterObserve(snaps, c), sent + Observed(Look(snaps, c.id), c).1, active, i + 1)
  {
    var c := active[i];
    assert Untouched(snaps0, sent0, snaps, sent, c.id);
    assert AfterObserve(snaps, c)[c.id].seen == c.now;
    if c.id in snaps ==> ExactAt(snaps, sent, c.id) {
      ObserveExactIff(snaps, sent, c, c.id);
    }
    forall j | 0 <= j < |active| && j != i
      ensures j < i ==>
        KeptIff(snaps0, sent0, AfterObserve(snaps, c), sent + Observed(Look(snaps, c.id), c).1, active[j])
      ensures i < j ==>
        Untouched(snaps0, sent0, AfterObserve(snaps, c), sent + Observed(Look(snaps, c.id), c).1, active[j].id)
    {
      ObserveOther(snaps, sent, c, active[j].id);
    }
  }

  // ----- a whole subscription -----

  datatype Input = Told(notice: Notice) | Ticked(active: seq<Conn>)

  /** The last counters read of every live connection, after the first message and the inputs. */
  function Latest(first: seq<Conn>, inputs: seq<Input>): map<nat, Counters> {
    if inputs == [] then Readings(first)
    else
      var m := Latest(first, inputs[..|inputs| - 1]);
      match inputs[|inputs| - 1]
      case Told(Opened(c)) => if c.id in m then m else m[c.id := c.now]
      case Told(Ended(id)) => m - {id}
      case Told(Unrelated) => m
      case Ticked(active) => Readings(active)
  }

  /** No tick reads less than was last read. */
  ghost predicate Monotone(first: seq<Conn>, inputs: seq<Input>) {
    inputs != [] ==>
      var before, i := inputs[..|inputs| - 1], inputs[|inputs| - 1];
      var m := Latest(first, before);
      && Monotone(first, before)
      && (i.Ticked? ==>
            forall c :: c in i.active && c.id in m ==> m[c.id].up <= c.now.up && m[c.id].down <= c.now.down)
  }

  ghost predicate DistinctTicks(inputs: seq<Input>) {
    forall i :: 0 <= i < |inputs| && inputs[i].Ticked? ==> DistinctIds(inputs[i].active)
  }

  ghost predicate NoneWentBack(snaps: Snapshots, active: seq<Conn>) {
    forall c :: c in active && c.id in snaps ==> NotLess(Some(snaps[c.id]), c)
  }

  lemma NoticeRemembers(snaps: Snapshots, n: Notice)
    ensures Remembered(AfterNotice(snaps, n)) ==
      match n
      case Opened(c) => if c.id in snaps then Remembered(snaps) else Remembered(snaps)[c.id := c.now]
      case Ended(id) => Remembered(snaps) - {id}
      case Unrelated => Remembered(snaps)
  {
    match n
    case Opened(c) =>
      if c.id !in snaps {
        assert Remembered(AfterNotice(snaps, n)) == Remembered(snaps)[c.id := c.now];
      }
    case Ended(id) => assert Remembered(AfterNotice(snaps, n)) == Remembered(snaps) - {id};
    case Unrelated =>
  }

  lemma TickKeepsExact(snaps: Snapshots, sent: seq<Event>, snaps': Snapshots, sent': seq<Event>, active: seq<Conn>)
    requires AllExact(snaps, sent) && Remembered(snaps') == Readings(active)
    requires forall j :: 0 <= j < |active| ==> KeptIff(snaps, sent, snaps', sent', active[j])
    requires NoneWentBack(snaps, active)
    ensures AllExact(snaps', sent')
  {
    ReadingsKeys(active);
    forall id | id in snaps' ensures ExactAt(snaps', sent', id) {
      assert id in Remembered(snaps');
      var j :| 0 <= j < |active| && active[j].id == id;
      assert KeptIff(snaps, sent, snaps', sent', active[j]);
    }
  }

  lemma ExactMeansEqual(snaps: Snapshots, sent: seq<Event>)
    requires InStep(snaps, sent) && AllExact(snaps, sent)
    ensures Client(sent) == Remembered(snaps)
  {
  }

  // ----- the first message -----

  function OpenEvents(active: seq<Conn>): seq<Event> {
    seq(|active|, i requires 0 <= i < |active| => New(active[i].id, active[i].now, active[i].shown))
  }

  /** A NEW, at a tick or by notice, shows its own reading; the drift is what moved since the snapshot's. */
  lemma NewShowsItsReading(snaps: Snapshots, sent: seq<Event>, c: Conn)
    requires c.id !in snaps
    ensures
      var tick, notice := sent + Observed(None, c).1, sent + NoticeEvents(snaps, Opened(c));
      && c.id in Shown(tick) && Shown(tick)[c.id] == c.shown && Drift(tick, c.id) == Minus(c.shown, c.now)
      && c.id in Shown(notice) && Shown(notice)[c.id] == c.shown && Drift(notice, c.id) == Minus(c.shown, c.now)
  {
    assert (sent + [New(c.id, c.now, c.shown)])[..|sent|] == sent;
  }

  /** And so does every NEW of the first message. */
  lemma {:induction false} OpenShowsReadings(active: seq<Conn>, j: nat)
    requires DistinctIds(active) && j < |active|
    ensures
      var c, sent := active[j], OpenEvents(active);
      c.id in Shown(sent) && Shown(sent)[c.id] == c.shown && Drift(sent, c.id) == Minus(c.shown, c.now)
    decreases |active|
  {
    var n := |active| - 1;
    OpenEventsNext(active, n);
    assert active[..n + 1] == active;
    var sent := OpenEvents(active);
    assert sent[..n] == OpenEvents(active[..n]);
    if j < n {
      OpenShowsReadings(active[..n], j);
    }
  }

  function ClosedEvents(closed: seq<nat>): seq<Event> {
    seq(|closed|, i requires 0 <= i < |closed| => ListedClosed(closed[i]))
  }

  /** The live connections of a client that takes a NEW with a closing time for a closing. */
  function StrictClient(sent: seq<Event>): set<nat> {
    if sent == [] then {}
    else
      var m, e := StrictClient(sent[..|sent| - 1]), sent[|sent| - 1];
      match e
      case New(id, _, _) => m + {id}
      case ListedClosed(id) => m - {id}
      case Update(_, _) => m
      case Closed(id) => m - {id}
  }

  lemma {:induction false} StrictAfterOpen(active: seq<Conn>)
    ensures StrictClient(OpenEvents(active)) == Ids(active)
  {
    if active != [] {
      var p, c := active[..|active| - 1], active[|active| - 1];
      StrictAfterOpen(p);
      assert OpenEvents(active)[..|active| - 1] == OpenEvents(p);
      assert active == p + [c];
    }
  }

  lemma {:induction false} StrictAfterFirst(active: seq<Conn>, closed: seq<nat>)
    ensures StrictClient(OpenEvents(active) + ClosedEvents(closed)) == Ids(active) - (set id | id in closed)
  {
    StrictAfterOpen(active);
    if closed == [] {
      assert OpenEvents(active) + ClosedEvents(closed) == OpenEvents(active);
    } else {
      var p, id := closed[..|closed| - 1], closed[|closed| - 1];
      StrictAfterFirst(active, p);
      var all := OpenEvents(active) + ClosedEvents(closed);
      assert all[..|all| - 1] == OpenEvents(active) + ClosedEvents(p);
      assert (set x | x in closed) == (set x | x in p) + {id} by {
        assert closed == p + [id];
      }
    }
  }

  /**
   * A connection that closes between the two listings of the first message is sent both as open and as closed.
   * A client that takes the second for a closing agrees with the server exactly when no connection is in both.
   */
  lemma StrictClientAgreesIff(active: seq<Conn>, closed: seq<nat>)
    ensures StrictClient(OpenEvents(active) + ClosedEvents(closed)) == Ids(active) <==>
      forall c :: c in active ==> c.id !in closed
  {
    StrictAfterFirst(active, closed);
    if exists c :: c in active && c.id in closed {
      var c :| c in active && c.id in closed;
      assert c.id in Ids(active);
    } else {
      assert forall id :: id in Ids(active) ==> id !in closed;
    }
  }

  // ----- and later -----

  ghost predicate NoListing(events: seq<Event>) { forall e :: e in events ==> !e.ListedClosed? }

  lemma NoListingAppends(a: seq<Event>, b: seq<Event>)
    requires NoListing(a) && NoListing(b)
    ensures NoListing(a + b)
  {
  }

  /** The connections that were sent with a closing time. */
  function ListedIds(sent: seq<Event>): set<nat> {
    if sent == [] then {}
    else ListedIds(sent[..|sent| - 1]) + (if sent[|sent| - 1].ListedClosed? then {sent[|sent| - 1].id} else {})
  }

  lemma {:induction false} NothingListed(sent: seq<Event>, events: seq<Event>)
    requires NoListing(events)
    ensures ListedIds(sent + events) == ListedIds(sent)
  {
    if events == [] {
      assert sent + events == sent;
    } else {
      var p := events[..|events| - 1];
      NothingListed(sent, p);
      assert (sent + events)[..|sent + events| - 1] == sent + p;
      assert events[|events| - 1] in events;
    }
  }

  lemma {:induction false} ListedByFirst(active: seq<Conn>, closed: seq<nat>)
    ensures ListedIds(OpenEvents(active) + ClosedEvents(closed)) == Elems(closed)
  {
    var all := OpenEvents(active) + ClosedEvents(closed);
    if closed == [] {
      NothingListed([], OpenEvents(active));
      assert [] + OpenEvents(active) == all;
    } else {
      var p, id := closed[..|closed| - 1], closed[|closed| - 1];
      ListedByFirst(active, p);
      assert all[..|all| - 1] == OpenEvents(active) + ClosedEvents(p);
      assert closed == p + [id];
      assert Elems(closed) == Elems(p) + {id};
    }
  }

  /** The strict client never holds more, and what it lacks was listed as closed. */
  lemma {:induction false} StrictLacksOnlyListed(sent: seq<Event>)
    ensures StrictClient(sent) <= Client(sent).Keys <= StrictClient(sent) + ListedIds(sent)
  {
    if sent != [] {
      StrictLacksOnlyListed(sent[..|sent| - 1]);
    }
  }

  lemma StrictAgrees(sent: seq<Event>)
    requires ListedIds(sent) !! Client(sent).Keys
    ensures StrictClient(sent) == Client(sent).Keys
  {
    StrictLacksOnlyListed(sent);
  }

  /** A connection that closed in between: the server holds it and the client does not. */
  lemma ListedTwiceDisagrees()
    ensures
      var c := Conn(1, ZERO, ZERO);
      StrictClient(OpenEvents([c]) + ClosedEvents([1])) == {} && Ids([c]) == {1}
  {
    var c := Conn(1, ZERO, ZERO);
    StrictAfterFirst([c], [1]);
    assert c in [c] && 1 in [1];
    assert Ids([c]) == {1};
  }
}
