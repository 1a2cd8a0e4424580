/**
 * What a resolution should come to, read off what it did: a checker for an outcome and the events that led to it,
 * written from the rules and the upstream's replies alone. The router's loop is proved to pass it.
 */
module DnsTrace {
  import opened Prelude
  import opened DnsRecords
  import opened CnameChain
  import opened DnsRules

  /** One loop: what is asked, with which options, and where in the chain of aliases. */
  datatype Frame = Frame(
    cfg: Config, query: Query, options: Options, allowFakeIP: bool, chain: set<string>, depth: nat)

  // ----- the pieces of an outcome -----

  /** The query goes out as the match says, under the configured strategy when none was set. */
  ghost predicate AsksRight(f: Frame, m: Match, e: Event) {
    && e.Asked? && e.depth == f.depth && e.rule == m.rule && Some(e.transport) == m.transport && e.query == f.query
    && e.options.strategy == (if m.options.strategy == 0 then f.cfg.strategy else m.options.strategy)
    && e.options.disableCache == m.options.disableCache && e.options.rewriteTTL == m.options.rewriteTTL
    && e.options.subnet == m.options.subnet && e.options.lazyTTL == m.options.lazyTTL
  }

  /** The reply is handed on as it is. */
  ghost predicate HandsOn(reply: Reply, out: Outcome) {
    && (reply.Answered? ==> out.Response? && out.msg == reply.msg && out.stale == reply.stale)
    && (reply.Nothing? ==> out == NoResponse)
    && (reply.Rejected? || reply.Failed? ==> out == Error)
  }

  /** A drop, or an empty answer with the rule's code, else the configured one, else REFUSED. */
  ghost predicate Refuses(cfg: Config, a: Action, out: Outcome)
    requires a.Reject?
  {
    if a.drop then out == Dropped
    else
      && out.Response? && !out.stale && out.msg.answer == [] && out.msg.ns == [] && out.msg.extra == []
      && (a.rcode.Some? ==> out.msg.rcode == a.rcode.value)
      && (a.rcode.None? && cfg.rejectRcode.Some? ==> out.msg.rcode == cfg.rejectRcode.value)
      && (a.rcode.None? && cfg.rejectRcode.None? ==> out.msg.rcode == 5)
  }

  /** A wildcard owner name whose rest ends the question's name. */
  ghost predicate Stars(r: RR, name: string) {
    r.name != "" && r.name[0] == '*' && exists k :: 0 <= k <= |name| && name[k..] == r.name[1..]
  }

  /** The rule's records, each wildcard name that covers the question replaced by the question's. */
  ghost predicate OwnRecords(answer: seq<RR>, name: string, own: seq<RR>) {
    && |own| == |answer|
    && forall i :: 0 <= i < |answer| ==>
         && own[i].kind == answer[i].kind && own[i].rrtype == answer[i].rrtype && own[i].ttl == answer[i].ttl
         && own[i].data == answer[i].data && own[i].name == (if Stars(answer[i], name) then name else answer[i].name)
  }

  /** `places` are the records from `from` on that are of the asked type or a CNAME, in order. */
  ghost predicate Places(records: seq<RR>, qtype: nat, from: nat, places: seq<nat>) {
    && (forall k :: 0 <= k < |places| ==> from <= places[k] < |records|)
    && (forall k, l :: 0 <= k < l < |places| ==> places[k] < places[l])
    && (forall i :: from <= i < |records| ==>
          (i in places <==> records[i].rrtype == qtype || records[i].rrtype == 5))
  }

  ghost predicate Taken(records: seq<RR>, places: seq<nat>, added: seq<RR>) {
    && |added| == |places|
    && forall k :: 0 <= k < |added| ==> places[k] < |records| && added[k] == records[places[k]]
  }

  /** Exactly the records of the asked type and the CNAMEs, in order. */
  ghost predicate Selects(records: seq<RR>, qtype: nat, added: seq<RR>) {
    exists places :: Places(records, qtype, 0, places) && Taken(records, places, added)
  }

  /** An alias that succeeded adds its records; any other adds nothing. */
  ghost predicate Adds(followed: Outcome, qtype: nat, added: seq<RR>) {
    if followed.Response? && followed.msg.rcode == 0 then Selects(followed.msg.answer, qtype, added) else added == []
  }

  /** The alias to follow: the end of the answer's chain, for an address query, when it is new. */
  ghost predicate Leads(f: Frame, own: seq<RR>, target: string) {
    && (f.query.qtype == 1 || f.query.qtype == 28)
    && (exists p :: EndsAt(own, f.query.name, p, target))
    && target != f.query.name && target !in f.chain
  }

  /** Behind an alias: the same type, the options gathered so far, no fake addresses, both names in the chain. */
  ghost function Behind(f: Frame, target: string, options: Options): Frame {
    Frame(f.cfg, Query(target, f.query.qtype), options, false, f.chain + {f.query.name, target}, f.depth + 1)
  }

  // ----- the checker -----

  /** The outcome is right for what was done, from rule `from` on; `clock` counts the events before. */
  ghost predicate Explained(f: Frame, from: nat, clock: nat, out: Outcome, ev: seq<Event>)
    decreases |ev|, 2
  {
    exists m :: MatchIsRight(f.cfg, f.query, f.allowFakeIP, from, f.options, m) && ExplainedBy(f, m, clock, out, ev)
  }

  ghost predicate ExplainedBy(f: Frame, m: Match, clock: nat, out: Outcome, ev: seq<Event>)
    decreases |ev|, 1
  {
    if m.transport.Some? then
      && ev != [] && AsksRight(f, m, ev[0])
      && var reply := f.cfg.upstream(clock, ev[0]);
         if reply.Rejected? && Limited(f.cfg, m.rule) then Explained(f, m.rule.value + 1, clock + 1, out, ev[1..])
         else |ev| == 1 && HandsOn(reply, out)
    else
      && m.rule.Some? && m.rule.value < |f.cfg.rules|
      && match f.cfg.rules[m.rule.value].action
         case Reject(_, _) => ev == [] && Refuses(f.cfg, f.cfg.rules[m.rule.value].action, out)
         case Predefined(code, answer) => PredefinedExplained(f, m, code, answer, clock, out, ev)
         case _ => false
  }

  ghost predicate Limited(cfg: Config, rule: Option<nat>) {
    rule.Some? && rule.value < |cfg.rules| && cfg.rules[rule.value].addressLimit
  }

  ghost predicate PredefinedExplained(
    f: Frame, m: Match, code: nat, answer: seq<RR>, clock: nat, out: Outcome, ev: seq<Event>)
    decreases |ev|, 0
  {
    && out.Response? && !out.stale && out.msg.rcode == code && out.msg.ns == [] && out.msg.extra == []
    && |answer| <= |out.msg.answer|
    && var own, added := out.msg.answer[..|answer|], out.msg.answer[|answer|..];
       && OwnRecords(answer, f.query.name, own)
       && if ev == [] then added == [] && forall t :: !Leads(f, own, t)
          else
            && ev[0].Followed? && ev[0].depth == f.depth && ev[0].rule == m.rule && ev[0].source == f.query.name
            && Leads(f, own, ev[0].target)
            && exists inner ::
                 && Explained(Behind(f, ev[0].target, m.options), 0, clock + 1, inner, ev[1..])
                 && Adds(inner, f.query.qtype, added)
  }

  // ----- read off the trace alone -----

  /** Every event but the last is an ask that was rejected. */
  ghost predicate AllRejectedBefore(f: Frame, clock: nat, ev: seq<Event>, n: int) {
    forall i :: 0 <= i < n && i < |ev| ==>
      && ev[i].Asked? && ev[i].depth == f.depth && Limited(f.cfg, ev[i].rule)
      && f.cfg.upstream(clock + i, ev[i]).Rejected?
  }

  ghost predicate NoAlias(ev: seq<Event>) {
    forall i :: 0 <= i < |ev| ==> ev[i].Asked?
  }

  lemma FirstIsFollowed(f: Frame, m: Match, clock: nat, out: Outcome, ev: seq<Event>)
    requires ExplainedBy(f, m, clock, out, ev) && m.transport.None? && ev != []
    ensures ev[0].Followed?
  {
    var a := f.cfg.rules[m.rule.value].action;
    assert PredefinedExplained(f, m, a.code, a.answer, clock, out, ev);
  }

  /** A first ask is rejected by an address limit and another rule goes on, or its reply is handed on. */
  lemma FirstAsk(f: Frame, from: nat, clock: nat, out: Outcome, ev: seq<Event>)
    requires Explained(f, from, clock, out, ev) && ev != [] && ev[0].Asked?
    ensures ev[0].depth == f.depth
    ensures
      var reply := f.cfg.upstream(clock, ev[0]);
      if reply.Rejected? && Limited(f.cfg, ev[0].rule)
      then Explained(f, ev[0].rule.value + 1, clock + 1, out, ev[1..])
      else |ev| == 1 && HandsOn(reply, out)
  {
    var m :| MatchIsRight(f.cfg, f.query, f.allowFakeIP, from, f.options, m) && ExplainedBy(f, m, clock, out, ev);
    if m.transport.None? {
      FirstIsFollowed(f, m, clock, out, ev);
      assert false;
    }
  }

  lemma RejectedCons(f: Frame, clock: nat, ev: seq<Event>)
    requires 2 <= |ev| && AllRejectedBefore(f, clock + 1, ev[1..], |ev| - 2)
    requires ev[0].Asked? && ev[0].depth == f.depth && Limited(f.cfg, ev[0].rule)
    requires f.cfg.upstream(clock, ev[0]).Rejected?
    ensures AllRejectedBefore(f, clock, ev, |ev| - 1)
  {
    var rest := ev[1..];
    forall i | 0 <= i < |ev| - 1
      ensures ev[i].Asked? && ev[i].depth == f.depth && Limited(f.cfg, ev[i].rule)
      ensures f.cfg.upstream(clock + i, ev[i]).Rejected?
    {
      if 0 < i {
        assert ev[i] == rest[i - 1];
        assert clock + 1 + (i - 1) == clock + i;
      }
    }
  }

  /**
   * With no alias followed, all asks but the last were rejected by an address limit. Either the last was the final
   * word and its reply is handed on, or it was rejected too and a later rule decided.
   */
  lemma {:induction false} OutcomeOfAsks(f: Frame, from: nat, clock: nat, out: Outcome, ev: seq<Event>)
    requires Explained(f, from, clock, out, ev) && NoAlias(ev) && ev != []
    ensures AllRejectedBefore(f, clock, ev, |ev| - 1)
    ensures
      var last := |ev| - 1;
      var reply := f.cfg.upstream(clock + last, ev[last]);
      if reply.Rejected? && Limited(f.cfg, ev[last].rule)
      then Explained(f, ev[last].rule.value + 1, clock + |ev|, out, [])
      else HandsOn(reply, out)
    decreases |ev|
  {
    FirstAsk(f, from, clock, out, ev);
    if |ev| == 1 {
      assert ev[1..] == [];
    } else {
      var rest := ev[1..];
      OutcomeOfAsks(f, ev[0].rule.value + 1, clock + 1, out, rest);
      RejectedCons(f, clock, ev);
      assert ev[|ev| - 1] == rest[|rest| - 1] && clock + 1 + (|rest| - 1) == clock + (|ev| - 1);
    }
  }

  // ----- the checker accepts one resolution only -----

  lemma OwnRecordsOnce(answer: seq<RR>, name: string, own: seq<RR>, other: seq<RR>)
    requires OwnRecords(answer, name, own) && OwnRecords(answer, name, other)
    ensures own == other
  {
    forall i | 0 <= i < |own| ensures own[i] == other[i] {
    }
  }

  ghost function After(places: seq<nat>, from: nat): seq<nat> {
    if places != [] && places[0] == from then places[1..] else places
  }

  /** The first of the places, and the places after it. */
  lemma PlacesSplit(records: seq<RR>, qtype: nat, from: nat, places: seq<nat>)
    requires Places(records, qtype, from, places) && from < |records|
    ensures (places != [] && places[0] == from) <==> records[from].rrtype == qtype || records[from].rrtype == 5
    ensures Places(records, qtype, from + 1, After(places, from))
  {
    if from in places {
      var k :| 0 <= k < |places| && places[k] == from;
      assert k == 0;
      var rest := places[1..];
      forall i | from + 1 <= i < |records| ensures i in rest <==> records[i].rrtype == qtype || records[i].rrtype == 5 {
        assert places == [from] + rest;
      }
      assert forall j :: 0 <= j < |rest| ==> rest[j] == places[j + 1];
      assert places[0] == from;
    } else {
      assert forall j :: 0 <= j < |places| ==> places[j] in places;
    }
  }

  lemma {:induction false} PlacesOnce(records: seq<RR>, qtype: nat, from: nat, a: seq<nat>, b: seq<nat>)
    requires Places(records, qtype, from, a) && Places(records, qtype, from, b) && from <= |records|
    ensures a == b
    decreases |records| - from
  {
    if from < |records| {
      PlacesSplit(records, qtype, from, a);
      PlacesSplit(records, qtype, from, b);
      PlacesOnce(records, qtype, from + 1, After(a, from), After(b, from));
      SameAfter(a, b, from);
    } else {
      if a != [] {
        FirstPlace(records, qtype, from, a);
      }
      if b != [] {
        FirstPlace(records, qtype, from, b);
      }
    }
  }

  lemma FirstPlace(records: seq<RR>, qtype: nat, from: nat, places: seq<nat>)
    requires Places(records, qtype, from, places) && places != []
    ensures from < |records|
  {
    assert from <= places[0];
  }

  lemma SameAfter(a: seq<nat>, b: seq<nat>, from: nat)
    requires After(a, from) == After(b, from)
    requires (a != [] && a[0] == from) <==> (b != [] && b[0] == from)
    ensures a == b
  {
    if a != [] && a[0] == from {
      assert a == [from] + a[1..] && b == [from] + b[1..];
    }
  }

  lemma SelectsOnce(records: seq<RR>, qtype: nat, added: seq<RR>, other: seq<RR>)
    requires Selects(records, qtype, added) && Selects(records, qtype, other)
    ensures added == other
  {
    var a :| Places(records, qtype, 0, a) && Taken(records, a, added);
    var b :| Places(records, qtype, 0, b) && Taken(records, b, other);
    PlacesOnce(records, qtype, 0, a, b);
  }

  lemma LeadsOnce(f: Frame, own: seq<RR>, t: string, u: string)
    requires Leads(f, own, t) && Leads(f, own, u)
    ensures t == u
  {
    LastTargetIsChainEnd(f.query.name, own);
  }

  /** One answer and one list of events at most pass: the rules and the upstream leave no choice. */
  lemma {:induction false} ExplainedOnce(
    f: Frame, from: nat, clock: nat, out: Outcome, ev: seq<Event>, out2: Outcome, ev2: seq<Event>)
    requires Explained(f, from, clock, out, ev) && Explained(f, from, clock, out2, ev2)
    ensures out == out2 && ev == ev2
    decreases |ev|, 2
  {
    var m :| MatchIsRight(f.cfg, f.query, f.allowFakeIP, from, f.options, m) && ExplainedBy(f, m, clock, out, ev);
    var n :| MatchIsRight(f.cfg, f.query, f.allowFakeIP, from, f.options, n) && ExplainedBy(f, n, clock, out2, ev2);
    RightMatchIsUnique(f.cfg, f.query, f.allowFakeIP, from, f.options, m, n);
    ExplainedByOnce(f, m, clock, out, ev, out2, ev2);
  }

  lemma {:induction false} ExplainedByOnce(
    f: Frame, m: Match, clock: nat, out: Outcome, ev: seq<Event>, out2: Outcome, ev2: seq<Event>)
    requires ExplainedBy(f, m, clock, out, ev) && ExplainedBy(f, m, clock, out2, ev2)
    ensures out == out2 && ev == ev2
    decreases |ev|, 1
  {
    if m.transport.Some? {
      assert ev[0] == ev2[0];
      if f.cfg.upstream(clock, ev[0]).Rejected? && Limited(f.cfg, m.rule) {
        ExplainedOnce(f, m.rule.value + 1, clock + 1, out, ev[1..], out2, ev2[1..]);
        SameHeadAndTail(ev, ev2);
      } else {
        assert ev == [ev[0]] && ev2 == [ev2[0]];
      }
    } else if f.cfg.rules[m.rule.value].action.Predefined? {
      var a := f.cfg.rules[m.rule.value].action;
      PredefinedOnce(f, m, a.code, a.answer, clock, out, ev, out2, ev2);
    }
  }

  /** What a predefined answer holds without the records of an alias. */
  lemma PredefinedOwn(
    f: Frame, m: Match, code: nat, answer: seq<RR>, clock: nat, out: Outcome, ev: seq<Event>)
    requires PredefinedExplained(f, m, code, answer, clock, out, ev)
    ensures out.Response? && |answer| <= |out.msg.answer|
    ensures OwnRecords(answer, f.query.name, out.msg.answer[..|answer|])
    ensures out == Response(Msg(code, out.msg.answer[..|answer|] + out.msg.answer[|answer|..], [], []), false)
    ensures ev != [] ==>
      && ev[0] == Followed(f.depth, m.rule, f.query.name, ev[0].target)
      && Leads(f, out.msg.answer[..|answer|], ev[0].target)
    ensures ev == [] ==> out.msg.answer[|answer|..] == [] && forall t :: !Leads(f, out.msg.answer[..|answer|], t)
  {
    assert out.msg.answer == out.msg.answer[..|answer|] + out.msg.answer[|answer|..];
  }

  lemma PredefinedInner(
    f: Frame, m: Match, code: nat, answer: seq<RR>, clock: nat, out: Outcome, ev: seq<Event>)
    returns (inner: Outcome)
    requires PredefinedExplained(f, m, code, answer, clock, out, ev) && ev != []
    ensures ev[0].Followed? && out.Response? && |answer| <= |out.msg.answer|
    ensures Explained(Behind(f, ev[0].target, m.options), 0, clock + 1, inner, ev[1..])
    ensures Adds(inner, f.query.qtype, out.msg.answer[|answer|..])
  {
    var d := Behind(f, ev[0].target, m.options);
    inner :| Explained(d, 0, clock + 1, inner, ev[1..]) && Adds(inner, f.query.qtype, out.msg.answer[|answer|..]);
  }

  lemma AddsOnce(inner: Outcome, qtype: nat, added: seq<RR>, other: seq<RR>)
    requires Adds(inner, qtype, added) && Adds(inner, qtype, other)
    ensures added == other
  {
    if inner.Response? && inner.msg.rcode == 0 {
      SelectsOnce(inner.msg.answer, qtype, added, other);
    }
  }

  lemma {:induction false} PredefinedOnce(
    f: Frame, m: Match, code: nat, answer: seq<RR>, clock: nat,
    out: Outcome, ev: seq<Event>, out2: Outcome, ev2: seq<Event>)
    requires PredefinedExplained(f, m, code, answer, clock, out, ev)
    requires PredefinedExplained(f, m, code, answer, clock, out2, ev2)
    ensures out == out2 && ev == ev2
    decreases |ev|, 0
  {
    PredefinedOwn(f, m, code, answer, clock, out, ev);
    PredefinedOwn(f, m, code, answer, clock, out2, ev2);
    var own, added, added2 := out.msg.answer[..|answer|], out.msg.answer[|answer|..], out2.msg.answer[|answer|..];
    OwnRecordsOnce(answer, f.query.name, own, out2.msg.answer[..|answer|]);
    assert ev == [] <==> ev2 == [];
    if ev != [] {
      LeadsOnce(f, own, ev[0].target, ev2[0].target);
      var inner := PredefinedInner(f, m, code, answer, clock, out, ev);
      var inner2 := PredefinedInner(f, m, code, answer, clock, out2, ev2);
      ExplainedOnce(Behind(f, ev[0].target, m.options), 0, clock + 1, inner, ev[1..], inner2, ev2[1..]);
      AddsOnce(inner, f.query.qtype, added, added2);
      SameHeadAndTail(ev, ev2);
    }
  }

  lemma SameHeadAndTail<T>(a: seq<T>, b: seq<T>)
    requires a != [] && b != [] && a[0] == b[0] && a[1..] == b[1..]
    ensures a == b
  {
    assert a == [a[0]] + a[1..] && b == [b[0]] + b[1..];
  }
}
