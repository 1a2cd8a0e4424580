/**
 * What the expiring map means: a table of values with expiry times, one atomic step per locked
 * section, and a reference that answers every call from the history of calls alone.
 */
module TimedMap {
  import opened Prelude

  datatype Item<V> = Item(value: V, expiresAt: int)

  datatype State<K(==), V> = State(table: map<K, Item<V>>, closed: bool)

  /** One call, with the clock value it read. `Sweep` is the background removal of expired entries. */
  datatype Op<K(==), !V> =
    | Store(key: K, val: V, allow: Option<V> -> bool, at: int)
    | Load(key: K, at: int)
    | Refresh(key: K, at: int)
    | Sweep(at: int)
    | Close(at: int)

  datatype Output<V> = Stored(accepted: bool) | Loaded(found: Option<V>) | Silent

  // ----- the table -----

  function Current<K, V>(table: map<K, Item<V>>, k: K, now: int): Option<V> {
    if k in table && now < table[k].expiresAt then Some(table[k].value) else None
  }

  /** Any call that finds `k` expired removes it. */
  function Touch<K, V>(table: map<K, Item<V>>, k: K, now: int): map<K, Item<V>> {
    if k in table && table[k].expiresAt <= now then table - {k} else table
  }

  function Swept<K, V>(table: map<K, Item<V>>, now: int): map<K, Item<V>> {
    map k | k in table && now < table[k].expiresAt :: table[k]
  }

  function Step<K, V>(s: State<K, V>, op: Op<K, V>, life: int): (State<K, V>, Output<V>) {
    if op.Close? then (State(map[], true), Silent)
    else if s.closed then
      (s, if op.Store? then Stored(false) else if op.Sweep? then Silent else Loaded(None))
    else
      match op
      case Store(k, v, allow, now) =>
        var t := Touch(s.table, k, now);
        if allow(Current(s.table, k, now)) then
          (s.(table := t[k := Item(v, now + life)]), Stored(true))
        else
          (s.(table := t), Stored(false))
      case Load(k, now) =>
        (s.(table := Touch(s.table, k, now)), Loaded(Current(s.table, k, now)))
      case Refresh(k, now) =>
        var found := Current(s.table, k, now);
        var t := Touch(s.table, k, now);
        (s.(table := if found.Some? then t[k := Item(found.value, now + life)] else t), Loaded(found))
      case Sweep(now) => (s.(table := Swept(s.table, now)), Silent)
  }

  /** The state after a run that starts from the empty open map. */
  function Run<K, V>(h: seq<Op<K, V>>, life: int): State<K, V> {
    if h == [] then State(map[], false)
    else Step(Run(h[..|h| - 1], life), h[|h| - 1], life).0
  }

  /** What the `i`-th call of a run returns. */
  function OutputAt<K, V>(h: seq<Op<K, V>>, i: nat, life: int): Output<V>
    requires i < |h|
  {
    Step(Run(h[..i], life), h[i], life).1
  }

  // ----- the reference: answers from the history, with no table -----

  /** The last accepted store or refresh of a key, and the latest clock that looked at it since. */
  datatype Mark<V> = Mark(value: V, expiresAt: int, seen: int)

  ghost predicate Closed<K, V>(h: seq<Op<K, V>>) {
    exists i :: 0 <= i < |h| && h[i].Close?
  }

  ghost predicate About<K, V>(op: Op<K, V>, k: K) {
    op.Sweep? || ((op.Store? || op.Load? || op.Refresh?) && op.key == k)
  }

  ghost function LiveMark<V>(m: Option<Mark<V>>, now: int): Option<V> {
    if m.Some? && Max(m.value.seen, now) < m.value.expiresAt then Some(m.value.value) else None
  }

  ghost function LastMark<K, V>(h: seq<Op<K, V>>, k: K, life: int): Option<Mark<V>> {
    if h == [] then None else
    var op, before := h[|h| - 1], LastMark(h[..|h| - 1], k, life);
    if !About(op, k) then before
    else if op.Store? && op.allow(LiveMark(before, op.at)) then Some(Mark(op.val, op.at + life, op.at))
    else if op.Refresh? && LiveMark(before, op.at).Some? then
      Some(Mark(before.value.value, op.at + life, op.at))
    else if before.Some? then Some(before.value.(seen := Max(before.value.seen, op.at)))
    else None
  }

  /** The plain reading, which ignores who looked when: the last accepted write, and whether it is still live. */
  ghost function LastWrite<K, V>(h: seq<Op<K, V>>, k: K, life: int): Option<Item<V>> {
    if h == [] then None else
    var op, before := h[|h| - 1], LastWrite(h[..|h| - 1], k, life);
    if op.Store? && op.key == k && op.allow(LiveItem(before, op.at)) then Some(Item(op.val, op.at + life))
    else if op.Refresh? && op.key == k && LiveItem(before, op.at).Some? then
      Some(Item(before.value.value, op.at + life))
    else before
  }

  ghost function LiveItem<V>(m: Option<Item<V>>, now: int): Option<V> {
    if m.Some? && now < m.value.expiresAt then Some(m.value.value) else None
  }

  /** What a call returns when `current` is the live value of its key. */
  ghost function Answer<K, V>(op: Op<K, V>, closed: bool, current: Option<V>): Output<V> {
    match op
    case Store(_, _, allow, _) => Stored(!closed && allow(current))
    case Load(_, _) => Loaded(if closed then None else current)
    case Refresh(_, _) => Loaded(if closed then None else current)
    case Sweep(_) => Silent
    case Close(_) => Silent
  }

  ghost function ExactAnswer<K, V>(h: seq<Op<K, V>>, op: Op<K, V>, life: int): Output<V> {
    if op.Sweep? || op.Close? then Silent
    else Answer(op, Closed(h), LiveMark(LastMark(h, op.key, life), op.at))
  }

  ghost function PlainAnswer<K, V>(h: seq<Op<K, V>>, op: Op<K, V>, life: int): Output<V> {
    if op.Sweep? || op.Close? then Silent
    else Answer(op, Closed(h), LiveItem(LastWrite(h, op.key, life), op.at))
  }

  ghost predicate MonotoneClock<K, V>(h: seq<Op<K, V>>) {
    forall i, j :: 0 <= i < j < |h| ==> h[i].at <= h[j].at
  }

  // ----- theorems -----

  ghost predicate Tracks<K(!new), V>(s: State<K, V>, h: seq<Op<K, V>>, life: int) {
    && s.closed == Closed(h)
    && (!s.closed ==> forall k :: TracksKey(s.table, h, k, life))
  }

  ghost predicate TracksKey<K, V>(table: map<K, Item<V>>, h: seq<Op<K, V>>, k: K, life: int) {
    var m := LastMark(h, k, life);
    if m.Some? && m.value.seen < m.value.expiresAt
    then k in table && table[k] == Item(m.value.value, m.value.expiresAt)
    else k !in table
  }

  lemma ClosedStep<K, V>(h: seq<Op<K, V>>)
    requires h != []
    ensures Closed(h) == (Closed(h[..|h| - 1]) || h[|h| - 1].Close?)
  {
    var p := h[..|h| - 1];
    if Closed(h) && !h[|h| - 1].Close? {
      var i :| 0 <= i < |h| && h[i].Close?;
      assert p[i].Close?;
    }
    if Closed(p) {
      var i :| 0 <= i < |p| && p[i].Close?;
      assert h[i].Close?;
    }
  }

  /** The table holds exactly the last accepted writes that nobody has yet looked at too late. */
  lemma {:induction false} RunTracks<K(!new), V>(h: seq<Op<K, V>>, life: int)
    requires 0 < life
    ensures Tracks(Run(h, life), h, life)
  {
    if h != [] {
      var p, op := h[..|h| - 1], h[|h| - 1];
      RunTracks(p, life);
      ClosedStep(h);
      var s := Run(p, life);
      var s' := Run(h, life);
      if !s'.closed {
        forall k ensures TracksKey(s'.table, h, k, life) {
          assert TracksKey(s.table, p, k, life);
        }
      }
    }
  }

  /** Every output of every run, with clocks in any order, is the one the history dictates. */
  lemma OutputsAreExact<K(!new), V>(h: seq<Op<K, V>>, i: nat, life: int)
    requires 0 < life && i < |h|
    ensures OutputAt(h, i, life) == ExactAnswer(h[..i], h[i], life)
  {
    RunTracks(h[..i], life);
    var op := h[i];
    if !op.Sweep? && !op.Close? && !Run(h[..i], life).closed {
      assert TracksKey(Run(h[..i], life).table, h[..i], op.key, life);
    }
  }

  // ----- exactly when the plain reading holds -----

  /**
   * The call read its clock before the last write of its key expired, but somebody with a later clock was served
   * first and found that write expired. For a conditional store this matters only if the condition tells.
   */
  ghost predicate Late<K, V>(h: seq<Op<K, V>>, op: Op<K, V>, life: int) {
    && (op.Store? || op.Load? || op.Refresh?) && !Closed(h)
    && var m := LastMark(h, op.key, life);
       && m.Some? && op.at < m.value.expiresAt <= m.value.seen
       && (op.Store? ==> op.allow(Some(m.value.value)) != op.allow(None))
  }

  ghost predicate Punctual<K, V>(h: seq<Op<K, V>>, life: int) {
    forall i :: 0 <= i < |h| ==> !Late(h[..i], h[i], life)
  }

  /** A mark and a write that tell the same. */
  ghost predicate SameWrite<V>(m: Option<Mark<V>>, w: Option<Item<V>>) {
    m.Some? == w.Some? && (m.Some? ==> w.value == Item(m.value.value, m.value.expiresAt))
  }

  lemma PunctualBefore<K, V>(h: seq<Op<K, V>>, i: nat, life: int)
    requires Punctual(h, life) && i <= |h|
    ensures Punctual(h[..i], life)
  {
    forall j | 0 <= j < i ensures !Late(h[..i][..j], h[..i][j], life) {
      assert h[..i][..j] == h[..j];
    }
  }

  lemma {:induction false} PunctualAgrees<K, V>(h: seq<Op<K, V>>, k: K, life: int)
    requires Punctual(h, life) && !Closed(h)
    ensures SameWrite(LastMark(h, k, life), LastWrite(h, k, life))
  {
    if h != [] {
      var p := h[..|h| - 1];
      PunctualBefore(h, |h| - 1, life);
      ClosedStep(h);
      PunctualAgrees(p, k, life);
      assert !Late(p, h[|h| - 1], life);
    }
  }

  /** After a punctual run, the next call gets the plain answer exactly if it is not late. */
  lemma PlainAnswerIff<K(!new), V>(h: seq<Op<K, V>>, i: nat, life: int)
    requires 0 < life && i < |h| && Punctual(h[..i], life)
    ensures OutputAt(h, i, life) == PlainAnswer(h[..i], h[i], life) <==> !Late(h[..i], h[i], life)
  {
    OutputsAreExact(h, i, life);
    var p, op := h[..i], h[i];
    if !op.Sweep? && !op.Close? && !Closed(p) {
      PunctualAgrees(p, op.key, life);
    }
  }

  lemma {:induction false} FirstLate<K, V>(h: seq<Op<K, V>>, life: int) returns (i: nat)
    requires !Punctual(h, life)
    ensures i < |h| && Punctual(h[..i], life) && Late(h[..i], h[i], life)
    decreases |h|
  {
    var p := h[..|h| - 1];
    assert forall j :: 0 <= j < |p| ==> p[..j] == h[..j] && p[j] == h[j];
    if Punctual(p, life) {
      i := |h| - 1;
    } else {
      i := FirstLate(p, life);
      assert p[..i] == h[..i];
    }
  }

  /**
   * The map is a plain timed map exactly in the runs without a late call: a load at `t` then finds a value exactly when
   * the last accepted store or refresh of its key expires after `t`, and a store sees an expired value as absent.
   */
  lemma PlainTimedMapIff<K(!new), V>(h: seq<Op<K, V>>, life: int)
    requires 0 < life
    ensures
      (forall i :: 0 <= i < |h| ==> OutputAt(h, i, life) == PlainAnswer(h[..i], h[i], life)) <==> Punctual(h, life)
  {
    if Punctual(h, life) {
      forall i | 0 <= i < |h| ensures OutputAt(h, i, life) == PlainAnswer(h[..i], h[i], life) {
        PunctualBefore(h, i, life);
        PlainAnswerIff(h, i, life);
      }
    } else {
      var i := FirstLate(h, life);
      PlainAnswerIff(h, i, life);
    }
  }

  lemma {:induction false} MarksInThePast<K, V>(h: seq<Op<K, V>>, k: K, life: int)
    requires MonotoneClock(h)
    ensures
      var m := LastMark(h, k, life);
      m.Some? ==> h != [] && m.value.seen <= h[|h| - 1].at
  {
    if h != [] {
      var p := h[..|h| - 1];
      MarksInThePast(p, k, life);
      if p != [] {
        assert p[|p| - 1] == h[|h| - 2];
      }
    }
  }

  /** Clocks that do not go back are punctual. */
  lemma MonotoneIsPunctual<K, V>(h: seq<Op<K, V>>, life: int)
    requires MonotoneClock(h)
    ensures Punctual(h, life)
  {
    forall i | 0 <= i < |h| ensures !Late(h[..i], h[i], life) {
      var op := h[i];
      if op.Store? || op.Load? || op.Refresh? {
        MarksInThePast(h[..i], op.key, life);
        if i > 0 {
          assert h[..i][i - 1] == h[i - 1];
        }
      }
    }
  }

  // ----- background expiry cannot be observed -----

  ghost function NoSweeps<K, V>(h: seq<Op<K, V>>): seq<Op<K, V>> {
    if h == [] then []
    else NoSweeps(h[..|h| - 1]) + (if h[|h| - 1].Sweep? then [] else [h[|h| - 1]])
  }

  /** The outputs of a run, without the silent ones of the sweeps. */
  ghost function Visible<K, V>(h: seq<Op<K, V>>, life: int): seq<Output<V>> {
    if h == [] then []
    else Visible(h[..|h| - 1], life) +
         (if h[|h| - 1].Sweep? then [] else [OutputAt(h, |h| - 1, life)])
  }

  lemma {:induction false} NoSweepsClosed<K, V>(h: seq<Op<K, V>>)
    ensures Closed(NoSweeps(h)) == Closed(h)
  {
    if h != [] {
      var p, op, n := h[..|h| - 1], h[|h| - 1], NoSweeps(h);
      NoSweepsClosed(p);
      ClosedStep(h);
      if !op.Sweep? {
        assert n[..|n| - 1] == NoSweeps(p);
        ClosedStep(n);
      } else {
        assert n == NoSweeps(p);
      }
    }
  }

  /** The call is late, and would not be if there were no sweeps. */
  ghost predicate LateBySweep<K, V>(h: seq<Op<K, V>>, op: Op<K, V>, life: int) {
    Late(h, op, life) && !Late(NoSweeps(h), op, life)
  }

  ghost predicate NoneLateBySweep<K, V>(h: seq<Op<K, V>>, life: int) {
    forall i :: 0 <= i < |h| ==> !LateBySweep(h[..i], h[i], life)
  }

  /** The same write, looked at no later. */
  ghost predicate SameMark<V>(with: Option<Mark<V>>, without: Option<Mark<V>>) {
    && with.Some? == without.Some?
    && (with.Some? ==>
          && with.value.value == without.value.value && with.value.expiresAt == without.value.expiresAt
          && without.value.seen <= with.value.seen)
  }

  lemma NoSweepsStep<K, V>(h: seq<Op<K, V>>)
    requires h != [] && !h[|h| - 1].Sweep?
    ensures
      var n := NoSweeps(h);
      n != [] && n[..|n| - 1] == NoSweeps(h[..|h| - 1]) && n[|n| - 1] == h[|h| - 1]
  {
  }

  lemma NoneLateBefore<K, V>(h: seq<Op<K, V>>, life: int)
    requires h != []
    ensures NoneLateBySweep(h, life) <==>
      NoneLateBySweep(h[..|h| - 1], life) && !LateBySweep(h[..|h| - 1], h[|h| - 1], life)
  {
    var p := h[..|h| - 1];
    assert forall j :: 0 <= j < |p| ==> p[..j] == h[..j] && p[j] == h[j];
  }

  lemma {:induction false} SweepsOnlyLook<K, V>(h: seq<Op<K, V>>, k: K, life: int)
    requires NoneLateBySweep(h, life) && !Closed(h)
    ensures SameMark(LastMark(h, k, life), LastMark(NoSweeps(h), k, life))
  {
    if h != [] {
      var p, op := h[..|h| - 1], h[|h| - 1];
      NoneLateBefore(h, life);
      ClosedStep(h);
      NoSweepsClosed(p);
      SweepsOnlyLook(p, k, life);
      if !op.Sweep? {
        NoSweepsStep(h);
      } else {
        assert NoSweeps(h) == NoSweeps(p);
      }
    }
  }

  lemma {:induction false} VisibleCount<K, V>(h: seq<Op<K, V>>, life: int)
    ensures |Visible(h, life)| == |NoSweeps(h)| && NoSweeps(NoSweeps(h)) == NoSweeps(h)
  {
    if h != [] {
      VisibleCount(h[..|h| - 1], life);
      if h[|h| - 1].Sweep? {
        assert NoSweeps(h) == NoSweeps(h[..|h| - 1]);
      } else {
        NoSweepsStep(h);
      }
    }
  }

  /** One more call gets the same answer with and without the sweeps before it exactly if none of them makes it late. */
  lemma SameAnswerIff<K(!new), V>(h: seq<Op<K, V>>, life: int)
    requires 0 < life && h != [] && !h[|h| - 1].Sweep? && NoneLateBySweep(h[..|h| - 1], life)
    ensures
      var p, op, n := h[..|h| - 1], h[|h| - 1], NoSweeps(h);
      n != [] && (OutputAt(h, |h| - 1, life) == OutputAt(n, |n| - 1, life) <==> !LateBySweep(p, op, life))
  {
    var p, op, n := h[..|h| - 1], h[|h| - 1], NoSweeps(h);
    NoSweepsStep(h);
    NoSweepsClosed(p);
    OutputsAreExact(h, |h| - 1, life);
    OutputsAreExact(n, |n| - 1, life);
    if !op.Close? && !Closed(p) {
      SweepsOnlyLook(p, op.key, life);
    }
  }

  /** Background sweeps change no caller's result exactly when no call is late on account of a sweep alone. */
  lemma {:induction false} SweepsAreInvisibleIff<K(!new), V>(h: seq<Op<K, V>>, life: int)
    requires 0 < life
    ensures Visible(h, life) == Visible(NoSweeps(h), life) <==> NoneLateBySweep(h, life)
  {
    if h != [] {
      var p, op, n := h[..|h| - 1], h[|h| - 1], NoSweeps(h);
      SweepsAreInvisibleIff(p, life);
      NoneLateBefore(h, life);
      if op.Sweep? {
        assert n == NoSweeps(p);
      } else {
        NoSweepsStep(h);
        VisibleCount(p, life);
        VisibleCount(NoSweeps(p), life);
        SnocEqual(Visible(p, life), OutputAt(h, |h| - 1, life), Visible(NoSweeps(p), life), OutputAt(n, |n| - 1, life));
        if NoneLateBySweep(p, life) {
          SameAnswerIff(h, life);
        }
      }
    }
  }

  /** In particular in every punctual run. */
  lemma SweepsAreInvisible<K(!new), V>(h: seq<Op<K, V>>, life: int)
    requires 0 < life && Punctual(h, life)
    ensures Visible(h, life) == Visible(NoSweeps(h), life)
  {
    SweepsAreInvisibleIff(h, life);
  }

  /** A sweep with a later clock that is served first takes a value from a call with an earlier one. */
  lemma EarlySweepIsVisible()
    ensures
      var h: seq<Op<int, int>> := [Store(1, 7, _ => true, 0), Sweep(20), Load(1, 5)];
      OutputAt(h, 2, 10) == Loaded(None) && Visible(h, 10) != Visible(NoSweeps(h), 10)
  {
    var h: seq<Op<int, int>> := [Store(1, 7, _ => true, 0), Sweep(20), Load(1, 5)];
    var s0: State<int, int> := State(map[], false);
    assert h[..2][..1] == h[..1] && h[..1][..0] == [];
    assert Run(h[..1], 10) == Step(s0, h[0], 10).0;
    assert Run(h[..2], 10) == Step(Run(h[..1], 10), h[1], 10).0;
    assert LastMark(h[..1], 1, 10) == Some(Mark(7, 10, 0));
    assert LastMark(h[..2], 1, 10) == Some(Mark(7, 10, 20));
    assert NoSweeps(h[..1]) == h[..1];
    assert NoSweeps(h[..2]) == h[..1];
    assert !Closed(h[..2]);
    LateIsVisible(h, 2, 10);
  }

  lemma LateIsVisible<K(!new), V>(h: seq<Op<K, V>>, i: nat, life: int)
    requires 0 < life && i < |h| && LateBySweep(h[..i], h[i], life)
    ensures Visible(h, life) != Visible(NoSweeps(h), life)
  {
    SweepsAreInvisibleIff(h, life);
  }

  /**
   * The clock is read before the lock is taken, so two calls may be served in the other order. The plain
   * reading then fails: a loader with the later clock removes a value that the earlier clock should still find.
   */
  lemma OutOfOrderClocksLoseAValue()
    ensures
      var h: seq<Op<int, int>> := [Store(1, 7, _ => true, 0), Load(1, 20), Load(1, 5)];
      && PlainAnswer(h[..2], h[2], 10) == Loaded(Some(7))
      && OutputAt(h, 2, 10) == Loaded(None)
  {
    var h: seq<Op<int, int>> := [Store(1, 7, _ => true, 0), Load(1, 20), Load(1, 5)];
    var s0: State<int, int> := State(map[], false);
    assert h[..2][..1] == h[..1] && h[..1][..0] == [];
    assert Run(h[..1], 10) == Step(s0, h[0], 10).0;
    assert Run(h[..2], 10) == Step(Run(h[..1], 10), h[1], 10).0;
    assert LastWrite(h[..1], 1, 10) == Some(Item(7, 10));
    assert LastWrite(h[..2], 1, 10) == Some(Item(7, 10));
    assert !Closed(h[..2]);
  }
}
