/**
 * TTLs through the DNS client: how Exchange picks one TTL for a response, how storeCache turns it into a
 * lifetime, and how loadResponse counts it down with 32-bit arithmetic. Times are nanoseconds.
 */
module CacheTtl {
  import opened Prelude
  import opened DnsRecords
  import opened RoundRobin

  const SECOND: int := 1_000_000_000
  const STALE_TTL := 5

  // ----- choosing the TTL -----

  /** The records whose TTL counts, in the order the code visits them. */
  function Counted(m: Msg): seq<RR> { Where(m.answer + m.ns + m.extra, NotOPT) }

  predicate NotOPT(r: RR) { r.rrtype != TYPE_OPT }

  function Lower(acc: nat, ttl: nat): nat { if acc == 0 || (0 < ttl < acc) then ttl else acc }

  function LowestFrom(records: seq<RR>, acc: nat): nat {
    if records == [] then acc else LowestFrom(records[1..], Lower(acc, records[0].ttl))
  }

  /** The least positive TTL, or zero when there is none. */
  ghost predicate IsLeastPositive(records: seq<RR>, t: nat) {
    if t == 0 then forall r :: r in records ==> r.ttl == 0
    else (exists r :: r in records && r.ttl == t) && forall r :: r in records && 0 < r.ttl ==> t <= r.ttl
  }

  lemma {:induction false} LowestFromSpec(records: seq<RR>, acc: nat)
    ensures
      var t := LowestFrom(records, acc);
      && (t == 0 <==> acc == 0 && forall r :: r in records ==> r.ttl == 0)
      && (0 < acc ==> t <= acc)
      && (forall r :: r in records && 0 < r.ttl ==> t <= r.ttl)
      && (t != acc ==> exists r :: r in records && r.ttl == t)
  {
    if records != [] {
      var next := Lower(acc, records[0].ttl);
      LowestFromSpec(records[1..], next);
      assert forall r :: r in records <==> r == records[0] || r in records[1..];
    }
  }

  lemma LowestIsLeastPositive(records: seq<RR>)
    ensures IsLeastPositive(records, LowestFrom(records, 0))
  {
    LowestFromSpec(records, 0);
  }

  method Lowest(records: seq<RR>) returns (ttl: nat)
    ensures ttl == LowestFrom(Where(records, NotOPT), 0)
  {
    ttl := 0;
    for i := 0 to |records|
      invariant LowestFrom(Where(records, NotOPT), 0) == LowestFrom(Where(records[i..], NotOPT), ttl)
    {
      ghost var rest := Where(records[i..], NotOPT);
      assert records[i..][1..] == records[i + 1..];
      if records[i].rrtype != TYPE_OPT {
        assert rest[1..] == Where(records[i + 1..], NotOPT);
        if ttl == 0 || (0 < records[i].ttl < ttl) {
          ttl := records[i].ttl;
        }
      } else {
        assert rest == Where(records[i + 1..], NotOPT);
      }
    }
  }

  /** The SOA's own limit on caching that a name does not exist. */
  function NegativeTTL(ns: seq<RR>): Option<nat> {
    if ns == [] then None
    else if ns[0].kind.SOA? then Some(Min(ns[0].ttl, ns[0].kind.minimum))
    else NegativeTTL(ns[1..])
  }

  /** The first SOA record of the authority section. */
  ghost predicate FirstSOA(ns: seq<RR>, i: nat) {
    i < |ns| && ns[i].kind.SOA? && forall j :: 0 <= j < i ==> !ns[j].kind.SOA?
  }

  /** The first SOA gives the smaller of its own TTL and its minimum field. */
  lemma {:induction false} NegativeIsSmaller(ns: seq<RR>, i: nat)
    requires FirstSOA(ns, i)
    ensures
      var t := NegativeTTL(ns);
      && t.Some? && t.value <= ns[i].ttl && t.value <= ns[i].kind.minimum
      && (t.value == ns[i].ttl || t.value == ns[i].kind.minimum)
  {
    if 0 < i {
      assert forall j :: 0 <= j < |ns| - 1 ==> ns[1..][j] == ns[j + 1];
      NegativeIsSmaller(ns[1..], i - 1);
    }
  }

  lemma {:induction false} NegativeNeedsSOA(ns: seq<RR>)
    ensures NegativeTTL(ns).Some? <==> exists r :: r in ns && r.kind.SOA?
  {
    if ns != [] {
      NegativeNeedsSOA(ns[1..]);
      assert forall r :: r in ns <==> r == ns[0] || r in ns[1..];
    }
  }

  function UpstreamTTL(m: Msg): nat {
    var negative := if m.answer == [] then NegativeTTL(m.ns) else None;
    if negative.Some? && negative.value != 0 then negative.value else LowestFrom(Counted(m), 0)
  }

  /**
   * The TTL of the response itself. An empty answer with a positive negative-caching limit takes that limit; any other
   * takes the least positive TTL of all records that are not OPT, or zero.
   */
  lemma UpstreamIsRight(m: Msg)
    ensures
      var negative := NegativeTTL(m.ns);
      if m.answer == [] && negative.Some? && 0 < negative.value then UpstreamTTL(m) == negative.value
      else
        && (forall r :: r in m.answer + m.ns + m.extra && r.rrtype != 41 && 0 < r.ttl ==> 0 < UpstreamTTL(m) <= r.ttl)
        && (UpstreamTTL(m) != 0 ==>
              exists r :: r in m.answer + m.ns + m.extra && r.rrtype != 41 && r.ttl == UpstreamTTL(m))
  {
    WhereMembers(m.answer + m.ns + m.extra, NotOPT);
    LowestFromSpec(Counted(m), 0);
  }

  function Clamped(ttl: nat, lo: nat, hi: nat): nat {
    var raised := if ttl < lo then lo else ttl;
    if hi < raised then hi else raised
  }

  function ChosenTTL(m: Msg, lo: nat, hi: nat, rewrite: Option<nat>): nat {
    if rewrite.Some? then rewrite.value else Clamped(UpstreamTTL(m), lo, hi)
  }

  method ChooseTTL(m: Msg, lo: nat, hi: nat, rewrite: Option<nat>) returns (ttl: nat)
    ensures ttl == ChosenTTL(m, lo, hi, rewrite)
    ensures rewrite.Some? ==> ttl == rewrite.value
    ensures rewrite.None? && lo <= hi ==> lo <= ttl <= hi
    ensures rewrite.None? && lo <= UpstreamTTL(m) <= hi ==> ttl == UpstreamTTL(m)
    ensures rewrite.None? && UpstreamTTL(m) < lo <= hi ==> ttl == lo
    ensures rewrite.None? && hi < UpstreamTTL(m) ==> ttl == hi
  {
    ttl := 0;
    if m.answer == [] {
      var negative := NegativeTTL(m.ns);
      if negative.Some? {
        ttl := negative.value;
      }
    }
    if ttl == 0 {
      ttl := Lowest(m.answer + m.ns + m.extra);
    }
    if ttl < lo {
      ttl := lo;
    }
    if hi < ttl {
      ttl := hi;
    }
    if rewrite.Some? {
      ttl := rewrite.value;
    }
  }

  // ----- what a copy keeps -----

  /** Record by record the same, whatever the TTLs. */
  ghost predicate SameRecords(a: seq<RR>, b: seq<RR>) {
    && |a| == |b|
    && forall i :: 0 <= i < |a| ==>
         a[i].kind == b[i].kind && a[i].name == b[i].name && a[i].rrtype == b[i].rrtype && a[i].data == b[i].data
  }

  ghost predicate OptKept(a: seq<RR>, b: seq<RR>) {
    |a| == |b| && forall i :: 0 <= i < |a| && a[i].rrtype == 41 ==> b[i] == a[i]
  }

  /** Only TTLs differ, and not those of OPT records. */
  ghost predicate Retimed(m: Msg, out: Msg) {
    && out.rcode == m.rcode
    && SameRecords(m.answer, out.answer) && SameRecords(m.ns, out.ns) && SameRecords(m.extra, out.extra)
    && OptKept(m.answer, out.answer) && OptKept(m.ns, out.ns) && OptKept(m.extra, out.extra)
  }

  ghost predicate AllFive(records: seq<RR>) {
    forall i :: 0 <= i < |records| ==> records[i].ttl == 5
  }

  /** All TTLs are five seconds; an OPT record is added at the end when there was none. */
  ghost predicate MadeStale(m: Msg, out: Msg) {
    && out.rcode == m.rcode && |m.extra| <= |out.extra|
    && SameRecords(m.answer, out.answer) && SameRecords(m.ns, out.ns) && SameRecords(m.extra, out.extra[..|m.extra|])
    && AllFive(out.answer) && AllFive(out.ns) && AllFive(out.extra[..|m.extra|])
    && out.extra[|m.extra|..] ==
         if exists i :: 0 <= i < |m.extra| && m.extra[i].rrtype == 41 then [] else [RR(OPT, ".", 41, 0, 0)]
  }

  /** The stored message with the answers in the order they are shown. */
  ghost function Shown(stored: Msg, roundRobin: bool, i4: nat, i6: nat): Msg {
    Msg(stored.rcode, if roundRobin then Rotation(stored.answer, i4, i6) else stored.answer, stored.ns, stored.extra)
  }

  /** The index a hit shows: one further, round and round, when round robin is on. */
  ghost function TurnedIndex(roundRobin: bool, index: nat, m: Msg, family: RR -> bool): nat {
    if roundRobin then NextIndex(index, |Where(m.answer, family)|) else index
  }

  lemma StampedIsRetimed(m: Msg, ttl: nat)
    ensures Retimed(m, StampedMsg(m, ttl))
  {
  }

  lemma DownIsRetimed(m: Msg, origin: nat, left: nat)
    ensures Retimed(m, DownMsg(m, origin, left))
  {
  }

  lemma StaleIsMadeStale(m: Msg)
    ensures MadeStale(m, StaleMsg(m))
  {
    var extra := AllStale(m.extra);
    if i :| 0 <= i < |m.extra| && m.extra[i].rrtype == 41 {
      assert extra[i] in extra;
    }
    assert (extra + [NEW_OPT])[..|m.extra|] == extra;
  }

  // ----- writing TTLs -----

  function Stamp(r: RR, ttl: nat): RR { if r.rrtype == TYPE_OPT then r else r.(ttl := ttl) }

  function Stamped(records: seq<RR>, ttl: nat): seq<RR> {
    seq(|records|, i requires 0 <= i < |records| => Stamp(records[i], ttl))
  }

  function StampedMsg(m: Msg, ttl: nat): Msg {
    m.(answer := Stamped(m.answer, ttl), ns := Stamped(m.ns, ttl), extra := Stamped(m.extra, ttl))
  }

  method StampRecords(records: seq<RR>, ttl: nat) returns (out: seq<RR>)
    ensures out == Stamped(records, ttl)
  {
    out := records;
    for i := 0 to |records|
      invariant |out| == |records|
      invariant forall j :: 0 <= j < |records| ==> out[j] == if j < i then Stamp(records[j], ttl) else records[j]
    {
      if out[i].rrtype != TYPE_OPT {
        out := out[i := out[i].(ttl := ttl)];
      }
    }
  }

  /** Every record that counts carries the same TTL. */
  ghost predicate Uniform(records: seq<RR>, ttl: nat) {
    forall r :: r in records && r.rrtype != TYPE_OPT ==> r.ttl == ttl
  }

  ghost predicate UniformMsg(m: Msg, ttl: nat) {
    Uniform(m.answer, ttl) && Uniform(m.ns, ttl) && Uniform(m.extra, ttl)
  }

  lemma StampedIsUniform(m: Msg, ttl: nat)
    ensures UniformMsg(StampedMsg(m, ttl), ttl)
  {
  }

  // ----- counting down, in uint32 -----

  function U32Of(x: int): nat { x % U32 }

  /** The new TTL of a record, given the message's own lowest TTL and the whole seconds left. */
  function CountedDown(ttl: nat, origin: nat, left: nat): nat {
    if 0 < origin then U32Of(ttl - U32Of(origin - left)) else U32Of(left)
  }

  lemma ModAdd(x: int, k: int)
    ensures (x + k * U32) % U32 == x % U32
  {
    var q := x / U32;
    assert x == q * U32 + x % U32;
    assert x + k * U32 == (q + k) * U32 + x % U32;
    DivUnique(x + k * U32, q + k, x % U32);
  }

  lemma DivUnique(x: int, q: int, r: int)
    requires x == q * U32 + r && 0 <= r < U32
    ensures x % U32 == r
  {
  }

  /** The wrapped subtraction restores the seconds left, whether they are fewer or more than the stored TTL. */
  lemma WrappedCountdown(origin: nat, left: nat)
    requires 0 < origin
    ensures CountedDown(origin, origin, left) == U32Of(left)
  {
    var d := origin - left;
    assert U32Of(d) == d - (d / U32) * U32;
    ModAdd(left, d / U32);
    assert origin - U32Of(d) == left + (d / U32) * U32;
  }

  function Down(records: seq<RR>, origin: nat, left: nat): seq<RR> {
    seq(|records|, i requires 0 <= i < |records| =>
      if records[i].rrtype == TYPE_OPT then records[i]
      else records[i].(ttl := CountedDown(records[i].ttl, origin, left)))
  }

  method CountDown(records: seq<RR>, origin: nat, left: nat) returns (out: seq<RR>)
    ensures out == Down(records, origin, left)
  {
    out := records;
    for i := 0 to |records|
      invariant |out| == |records|
      invariant forall j :: 0 <= j < |records| ==>
        out[j] == if j < i then Down(records, origin, left)[j] else records[j]
    {
      if out[i].rrtype != TYPE_OPT {
        var duration := U32Of(origin - left);
        out := out[i := out[i].(ttl := if 0 < origin then U32Of(out[i].ttl - duration) else U32Of(left))];
      }
    }
  }

  function DownMsg(m: Msg, origin: nat, left: nat): Msg {
    m.(answer := Down(m.answer, origin, left), ns := Down(m.ns, origin, left), extra := Down(m.extra, origin, left))
  }

  lemma DownUniform(records: seq<RR>, ttl: nat, origin: nat, left: nat)
    requires Uniform(records, ttl) && 0 < ttl && (origin == ttl || origin == 0)
    ensures Uniform(Down(records, origin, left), U32Of(left))
  {
    WrappedCountdown(ttl, left);
  }

  /** When all counted records carry one positive TTL, that TTL is the lowest; with none it is zero. */
  lemma UniformLowest(m: Msg, ttl: nat)
    requires UniformMsg(m, ttl) && 0 < ttl
    ensures LowestFrom(Counted(m), 0) == ttl || LowestFrom(Counted(m), 0) == 0
  {
    var all := m.answer + m.ns + m.extra;
    WhereMembers(all, NotOPT);
    forall r | r in Counted(m) ensures r.ttl == ttl {
      assert r in all;
    }
    LowestFromSpec(Counted(m), 0);
  }

  lemma DownMsgUniform(m: Msg, ttl: nat, left: nat)
    requires UniformMsg(m, ttl) && 0 < ttl
    ensures UniformMsg(DownMsg(m, LowestFrom(Counted(m), 0), left), U32Of(left))
  {
    var origin := LowestFrom(Counted(m), 0);
    UniformLowest(m, ttl);
    DownUniform(m.answer, ttl, origin, left);
    DownUniform(m.ns, ttl, origin, left);
    DownUniform(m.extra, ttl, origin, left);
  }

  lemma RotationUniform(answers: seq<RR>, i4: nat, i6: nat, ttl: nat)
    requires Uniform(answers, ttl)
    ensures Uniform(Rotation(answers, i4, i6), ttl)
  {
    var mid := Regrouped(answers, Where(answers, IsA), NotTypeA, i4);
    var a6 := Where(answers, IsAAAA);
    forall r | r in mid ensures r in answers {
      RegroupedMembers(answers, IsA, NotTypeA, i4, r);
    }
    WhereMembers(answers, IsAAAA);
    WhereMembers(mid, NotTypeAAAA);
    RotatedMembers(a6, i6);
  }

  // ----- the cache -----

  /** A stored message and its two deadlines: `freshUntil` for the answer, `expireAt` for the cache entry. */
  datatype Slot = Slot(entry: CachedMsg, freshUntil: int, lazy: bool, expireAt: int)

  predicate HasOPT(extra: seq<RR>) { exists r :: r in extra && r.rrtype == TYPE_OPT }

  function AllStale(records: seq<RR>): seq<RR> {
    seq(|records|, i requires 0 <= i < |records| => records[i].(ttl := STALE_TTL))
  }

  const NEW_OPT := RR(OPT, ".", TYPE_OPT, 0, 0)

  /** A stale answer: every TTL, that of an OPT record included, becomes five seconds. */
  function StaleMsg(m: Msg): Msg {
    var extra := AllStale(m.extra);
    m.(answer := AllStale(m.answer), ns := AllStale(m.ns), extra := if HasOPT(extra) then extra else extra + [NEW_OPT])
  }

  function SecondsLeft(expireAt: int, now: int): nat
    requires now <= expireAt
  {
    (expireAt - now) / SECOND
  }

  function LazyExtension(option: Option<nat>, clientLazy: nat): nat {
    if option.Some? then option.value else clientLazy
  }

  /** OPT records have no TTL: the field carries flags. A stale answer overwrites them, any other leaves them alone. */
  lemma OptFieldKeptIff(m: Msg, i: nat, origin: nat, left: nat)
    requires i < |m.extra| && m.extra[i].rrtype == TYPE_OPT
    ensures DownMsg(m, origin, left).extra[i] == m.extra[i]
    ensures StaleMsg(m).extra[i] == m.extra[i] <==> m.extra[i].ttl == STALE_TTL
  {
    assert AllStale(m.extra)[i].ttl == STALE_TTL;
  }

  class Client<K(==)> {
    const disableExpire: bool
    const roundRobin: bool
    const lazyTTL: nat
    const minTTL: nat
    const maxTTL: nat
    var cache: map<K, Slot>

    constructor (disableExpire: bool, roundRobin: bool, lazyTTL: nat, minOption: nat, maxOption: nat)
      ensures Valid() && cache == map[] && minTTL <= maxTTL
      ensures this.disableExpire == disableExpire && this.roundRobin == roundRobin && this.lazyTTL == lazyTTL
      ensures minTTL == minOption && maxTTL == Max(if maxOption == 0 then 86400 else maxOption, minOption)
    {
      this.disableExpire := disableExpire;
      this.roundRobin := roundRobin;
      this.lazyTTL := lazyTTL;
      minTTL := minOption;
      maxTTL := Max(if maxOption == 0 then 86400 else maxOption, minOption);
      cache := map[];
    }

    /** Whatever is cached carries one positive TTL, whoever asked for it and however it was rewritten. */
    ghost predicate Valid()
      reads this
    {
      forall k :: k in cache ==> exists ttl :: 0 < ttl && UniformMsg(cache[k].entry.msg, ttl)
    }

    method Store(key: K, m: Msg, ttl: nat, lazyOption: Option<nat>, now: int)
      requires Valid() && UniformMsg(m, ttl)
      modifies `cache
      ensures Valid()
      ensures ttl == 0 ==> cache == old(cache)
      ensures 0 < ttl ==>
        && cache.Keys == old(cache).Keys + {key}
        && (forall k :: k in old(cache) && k != key ==> cache[k] == old(cache)[k])
        && var extension := LazyExtension(lazyOption, lazyTTL);
           var slot := cache[key];
           && fresh(slot.entry) && slot.entry.msg == m
           && (!disableExpire ==>
                 && slot.freshUntil == now + ttl * 1_000_000_000 && slot.lazy == (0 < extension)
                 && slot.expireAt == now + (ttl + extension) * 1_000_000_000
                 && (lazyOption.Some? ==> extension == lazyOption.value) && (lazyOption.None? ==> extension == lazyTTL))
    {
      if ttl == 0 {
        return;
      }
      var entry := new CachedMsg(m);
      if disableExpire {
        cache := cache[key := Slot(entry, 0, false, 0)];
        return;
      }
      var lifetime := SECOND * ttl;
      var freshUntil := now + lifetime;
      var lazy := false;
      if lazyOption.Some? {
        if 0 < lazyOption.value {
          lazy := true;
          lifetime := lifetime + SECOND * lazyOption.value;
        }
      } else if 0 < lazyTTL {
        lazy := true;
        lifetime := lifetime + SECOND * lazyTTL;
      }
      cache := cache[key := Slot(entry, freshUntil, lazy, now + lifetime)];
    }

    /** The end of Exchange: one TTL for the whole response, which is then stored when caching is allowed. */
    method Finish(key: K, m: Msg, rewrite: Option<nat>, lazyOption: Option<nat>, writable: bool, now: int)
      returns (response: Msg)
      requires Valid()
      modifies `cache
      ensures Valid()
      ensures response == StampedMsg(m, ChosenTTL(m, minTTL, maxTTL, rewrite))
      ensures Retimed(m, response) && UniformMsg(response, ChosenTTL(m, minTTL, maxTTL, rewrite))
      ensures !writable || ChosenTTL(m, minTTL, maxTTL, rewrite) == 0 ==> cache == old(cache)
      ensures writable && 0 < ChosenTTL(m, minTTL, maxTTL, rewrite) ==>
        && cache.Keys == old(cache).Keys + {key}
        && (forall k :: k in old(cache) && k != key ==> cache[k] == old(cache)[k])
        && cache[key].entry.msg == response
        && (!disableExpire ==>
              && var ttl, extension := ChosenTTL(m, minTTL, maxTTL, rewrite), LazyExtension(lazyOption, lazyTTL);
                 && cache[key].freshUntil == now + ttl * SECOND && cache[key].lazy == (0 < extension)
                 && cache[key].expireAt == now + (ttl + extension) * SECOND)
    {
      var ttl := ChooseTTL(m, minTTL, maxTTL, rewrite);
      var answer := StampRecords(m.answer, ttl);
      var ns := StampRecords(m.ns, ttl);
      var extra := StampRecords(m.extra, ttl);
      response := m.(answer := answer, ns := ns, extra := extra);
      StampedIsUniform(m, ttl);
      StampedIsRetimed(m, ttl);
      if writable {
        Store(key, response, ttl, lazyOption, now);
      }
    }

    /** A copy of the stored message, rotated by the entry's present indices when round robin is on. */
    ghost function Base(slot: Slot): Msg
      reads slot.entry
    {
      var m := slot.entry.msg;
      if roundRobin then m.(answer := Rotation(m.answer, slot.entry.ipv4Index, slot.entry.ipv6Index)) else m
    }

    method Copy(slot: Slot) returns (base: Msg)
      modifies slot.entry
      ensures base == Base(slot)
      ensures slot.entry.ipv4Index == TurnedIndex(roundRobin, old(slot.entry.ipv4Index), slot.entry.msg, IsA)
      ensures slot.entry.ipv6Index == TurnedIndex(roundRobin, old(slot.entry.ipv6Index), slot.entry.msg, IsAAAA)
      ensures base == Shown(slot.entry.msg, roundRobin, slot.entry.ipv4Index, slot.entry.ipv6Index)
      ensures forall ttl :: UniformMsg(slot.entry.msg, ttl) ==> UniformMsg(base, ttl)
    {
      if roundRobin {
        base := slot.entry.Hit();
        forall ttl | UniformMsg(slot.entry.msg, ttl) ensures UniformMsg(base, ttl) {
          RotationUniform(slot.entry.msg.answer, slot.entry.ipv4Index, slot.entry.ipv6Index, ttl);
        }
      } else {
        base := slot.entry.msg;
      }
    }

    /** Returns the response, if any, and whether it is stale. */
    method Load(key: K, now: int) returns (response: Option<Msg>, stale: bool)
      requires Valid()
      modifies `cache, if key in cache then {cache[key].entry} else {}
      ensures Valid()
      ensures key !in old(cache) ==> response.None? && cache == old(cache)
      ensures key in old(cache) && !disableExpire ==>
        var slot := old(cache)[key];
        && (response.None? <==> slot.expireAt < now)
        && cache == (if response.None? then old(cache) - {key} else old(cache))
        && (response.Some? ==> stale == (slot.lazy && slot.freshUntil < now))
        && (response.Some? ==>
              response.value == (
                if stale then StaleMsg(Base(slot))
                else DownMsg(Base(slot), LowestFrom(Counted(Base(slot)), 0), SecondsLeft(slot.expireAt, now))))
        && (response.Some? && !stale ==> UniformMsg(response.value, U32Of(SecondsLeft(slot.expireAt, now))))
        && (response.Some? ==>
              var shown := Shown(slot.entry.msg, roundRobin, slot.entry.ipv4Index, slot.entry.ipv6Index);
              if stale then MadeStale(shown, response.value) else Retimed(shown, response.value))
      ensures key in old(cache) && response.Some? ==>
        var entry := old(cache)[key].entry;
        && entry.ipv4Index == TurnedIndex(roundRobin, old(entry.ipv4Index), entry.msg, IsA)
        && entry.ipv6Index == TurnedIndex(roundRobin, old(entry.ipv6Index), entry.msg, IsAAAA)
      ensures key in old(cache) && disableExpire ==>
        && response == Some(Base(old(cache)[key])) && !stale && cache == old(cache)
        && var entry := old(cache)[key].entry;
           response == Some(Shown(entry.msg, roundRobin, entry.ipv4Index, entry.ipv6Index))
    {
      if key !in cache {
        return None, false;
      }
      var slot := cache[key];
      ghost var ttl :| 0 < ttl && UniformMsg(slot.entry.msg, ttl);
      if disableExpire {
        var base := Copy(slot);
        return Some(base), false;
      }
      if slot.expireAt < now {
        cache := cache - {key};
        return None, false;
      }
      stale := slot.lazy && slot.freshUntil < now;
      var base := Copy(slot);
      if stale {
        StaleIsMadeStale(base);
        return Some(StaleMsg(base)), true;
      }
      var origin := Lowest(base.answer + base.ns + base.extra);
      var left := SecondsLeft(slot.expireAt, now);
      var answer := CountDown(base.answer, origin, left);
      var ns := CountDown(base.ns, origin, left);
      var extra := CountDown(base.extra, origin, left);
      DownMsgUniform(base, ttl, left);
      DownIsRetimed(base, origin, left);
      return Some(base.(answer := answer, ns := ns, extra := extra)), false;
    }
  }

  // ----- what the TTL in a fresh hit means -----

  lemma DivShift(x: int, k: int)
    ensures (x + k * SECOND) / SECOND == x / SECOND + k
  {
  }

  /**
   * A fresh hit of an entry stored at `t0` with TTL `ttl` and lazy extension `extension` is answered with the
   * seconds left to the entry's expiry: the extension, plus the whole seconds the answer itself is still good for.
   */
  lemma FreshHitTTL(t0: int, ttl: nat, extension: nat, now: int)
    requires t0 <= now <= t0 + ttl * SECOND
    ensures SecondsLeft(t0 + (ttl + extension) * SECOND, now) == extension + (t0 + ttl * SECOND - now) / SECOND
  {
    DivShift(t0 + ttl * SECOND - now, extension);
  }

  /** The TTL that a fresh hit shows, in its 32-bit field. */
  function ShownTTL(t0: int, ttl: nat, extension: nat, now: int): nat
    requires t0 <= now <= t0 + ttl * SECOND
  {
    U32Of(SecondsLeft(t0 + (ttl + extension) * SECOND, now))
  }

  /**
   * So the TTL shown is at most what the answer has left exactly when there is no lazy extension, or one so long that
   * the two together wrap. TTLs and extensions are 32-bit numbers.
   */
  lemma NoLongerThanUpstreamIff(t0: int, ttl: nat, extension: nat, now: int)
    requires t0 <= now <= t0 + ttl * SECOND && ttl < U32 && extension < U32
    ensures
      var left := (t0 + ttl * SECOND - now) / SECOND;
      ShownTTL(t0, ttl, extension, now) <= left <==> extension == 0 || U32 <= extension + left
  {
    FreshHitTTL(t0, ttl, extension, now);
    Remainder(extension + (t0 + ttl * SECOND - now) / SECOND);
  }

  lemma Remainder(x: nat)
    requires x < 2 * U32
    ensures x % U32 == if x < U32 then x else x - U32
  {
  }

  /** An hour of lazy extension makes ten seconds look longer; the longest extension makes them look shorter. */
  lemma LazyAnswersShowAnotherTTL()
    ensures ShownTTL(0, 10, 3600, 0) == 3610 && ShownTTL(0, 10, 0xffff_ffff, 0) == 9
  {
    FreshHitTTL(0, 10, 3600, 0);
    FreshHitTTL(0, 10, 0xffff_ffff, 0);
  }

  /** The 32-bit field holds the seconds left unchanged exactly while they are below 2^32. */
  lemma FieldIsExactIff(left: nat)
    ensures U32Of(left) == left <==> left < U32
  {
  }
}
