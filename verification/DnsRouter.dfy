/**
 * The DNS router's rule loop: match a rule, ask its server, retry with a later rule when the addresses are
 * rejected, and follow the CNAME of a predefined answer by a new loop under a growing alias chain. Rules,
 * transports and upstream answers are abstract; the upstream may answer differently every time it is asked.
 */
module DnsRouter {
  import opened Prelude
  import opened DnsRecords
  import opened CnameChain
  import opened DnsRules
  import opened DnsTrace

  // ----- predefined answers -----

  predicate HasSuffix(s: string, suffix: string) {
    |suffix| <= |s| && s[|s| - |suffix|..] == suffix
  }

  /** A wildcard owner name that covers the question is replaced by the question's name. */
  function Rewritten(records: seq<RR>, name: string): seq<RR> {
    if records == [] then []
    else
      var r := records[0];
      [if r.name != "" && r.name[0] == '*' && HasSuffix(name, r.name[1..]) then r.(name := name) else r]
      + Rewritten(records[1..], name)
  }

  function OfType(records: seq<RR>, qtype: nat): seq<RR> {
    if records == [] then []
    else (if records[0].rrtype == qtype || records[0].rrtype == TYPE_CNAME then [records[0]] else [])
         + OfType(records[1..], qtype)
  }

  /** What remains of a predefined answer after its alias was looked up. */
  function Merged(response: Msg, followed: Outcome, qtype: nat): Msg {
    if followed.Response? && followed.msg.rcode == RCODE_SUCCESS && followed.msg.answer != []
    then response.(answer := response.answer + OfType(followed.msg.answer, qtype))
    else response
  }

  /** Every name that following a predefined CNAME can lead to. */
  ghost function Universe(cfg: Config): set<string> { UniverseOf(cfg.rules) }

  ghost function UniverseOf(rules: seq<Rule>): set<string> {
    if rules == [] then {}
    else (if rules[0].action.Predefined? then Targets(rules[0].action.answer) else {}) + UniverseOf(rules[1..])
  }

  lemma {:induction false} RewritingKeepsTargets(records: seq<RR>, name: string)
    ensures Targets(Rewritten(records, name)) == Targets(records)
  {
    if records != [] {
      RewritingKeepsTargets(records[1..], name);
      var w := Rewritten(records, name);
      assert records == [records[0]] + records[1..];
      assert w == [w[0]] + Rewritten(records[1..], name);
      assert Targets(records) == Targets([records[0]]) + Targets(records[1..]);
      assert Targets(w) == Targets([w[0]]) + Targets(Rewritten(records[1..], name));
      assert w[0].kind == records[0].kind;
      SameKindTargets(w[0], records[0]);
    }
  }

  lemma SameKindTargets(a: RR, b: RR)
    requires a.kind == b.kind
    ensures Targets([a]) == Targets([b])
  {
    assert a in [a] && b in [b];
  }

  lemma {:induction false} PredefinedInUniverse(rules: seq<Rule>, i: nat)
    requires i < |rules| && rules[i].action.Predefined?
    ensures Targets(rules[i].action.answer) <= UniverseOf(rules)
  {
    if 0 < i {
      PredefinedInUniverse(rules[1..], i - 1);
    }
  }

  /** The alias to follow for a predefined answer, with the chain it would leave. */
  function Alias(q: Query, answer: seq<RR>, chain: set<string>): (r: Option<(string, set<string>)>) {
    if q.qtype != TYPE_A && q.qtype != TYPE_AAAA then None
    else
      var t := LastTarget(q.name, answer);
      if t == "" then None
      else
        var next := AliasStep(chain, q.name, t);
        if next.None? then None else Some((t, next.value))
  }

  /** Each followed alias is a new element of the finite universe. */
  lemma FollowingShrinks(cfg: Config, i: nat, q: Query, chain: set<string>)
    requires i < |cfg.rules| && cfg.rules[i].action.Predefined?
    requires Alias(q, Rewritten(cfg.rules[i].action.answer, q.name), chain).Some?
    ensures
      var (t, next) := Alias(q, Rewritten(cfg.rules[i].action.answer, q.name), chain).value;
      && t in Universe(cfg) - chain && t in next && chain < next
      && Universe(cfg) - next < Universe(cfg) - chain
      && |Universe(cfg) - next| < |Universe(cfg) - chain|
  {
    var answer := cfg.rules[i].action.answer;
    var (t, next) := Alias(q, Rewritten(answer, q.name), chain).value;
    LastTargetIsTarget(q.name, Rewritten(answer, q.name));
    RewritingKeepsTargets(answer, q.name);
    PredefinedInUniverse(cfg.rules, i);
    var small, big := Universe(cfg) - next, Universe(cfg) - chain;
    assert t in big && t !in small;
    assert small <= big - {t};
    SubsetSize(small, big - {t});
  }

  // ----- exchangeLoop and followPredefinedCNAME -----

  function RejectOutcome(cfg: Config, a: Action): Outcome
    requires a.Reject?
  {
    if a.drop then Dropped
    else
      var rcode := if a.rcode.Some? then a.rcode.value
                   else if cfg.rejectRcode.Some? then cfg.rejectRcode.value else RCODE_REFUSED;
      Response(Msg(rcode, [], [], []), false)
  }

  function ReplyOutcome(r: Reply): Outcome {
    match r
    case Answered(msg, stale) => Response(msg, stale)
    case Nothing => NoResponse
    case Rejected => Error
    case Failed => Error
  }

  function AskFor(cfg: Config, q: Query, depth: nat, m: Match): Event
    requires m.transport.Some?
  {
    Asked(depth, m.rule, m.transport.value, q,
          m.options.(strategy := if m.options.strategy == AS_IS then cfg.strategy else m.options.strategy))
  }

  predicate Retries(cfg: Config, m: Match, reply: Reply)
    requires m.rule.Some? ==> m.rule.value < |cfg.rules|
  {
    m.rule.Some? && cfg.rules[m.rule.value].addressLimit && reply.Rejected?
  }

  /** The loop that looks up an alias. */
  function Deeper(f: Frame, target: string, options: Options, chain: set<string>): Frame {
    Frame(f.cfg, Query(target, f.query.qtype), options, false, chain, f.depth + 1)
  }

  function MatchIn(f: Frame, from: nat): Match
    requires from <= |f.cfg.rules|
  {
    MatchFrom(f.cfg, f.query, f.allowFakeIP, from, f.options)
  }

  /** What one turn of the loop decides. */
  datatype Turn =
    | Stop(out: Outcome, events: seq<Event>)
    | Retry(ask: Event, from: nat)
    | Follow(rule: Option<nat>, target: string, response: Msg, options: Options, chain: set<string>)

  /** The turn that starts at rule `from`; `clock` counts the events so far. */
  ghost function TurnAt(f: Frame, from: nat, clock: nat): Turn
    requires from <= |f.cfg.rules|
  {
    var m := MatchIn(f, from);
    if m.transport.Some? then
      var ask := AskFor(f.cfg, f.query, f.depth, m);
      var reply := f.cfg.upstream(clock, ask);
      if Retries(f.cfg, m, reply) then Retry(ask, m.rule.value + 1) else Stop(ReplyOutcome(reply), [ask])
    else DecidedTurn(f, m)
  }

  ghost function DecidedTurn(f: Frame, m: Match): Turn
    requires m.rule.Some? && m.rule.value < |f.cfg.rules| && Decides(f.cfg.rules[m.rule.value].action)
  {
    var a := f.cfg.rules[m.rule.value].action;
    if a.Reject? then Stop(RejectOutcome(f.cfg, a), [])
    else
      var response := Msg(a.code, Rewritten(a.answer, f.query.name), [], []);
      var alias := Alias(f.query, response.answer, f.chain);
      if alias.None? then Stop(Response(response, false), [])
      else Follow(m.rule, alias.value.0, response, m.options, alias.value.1)
  }

  /** A query sent at this depth, under a rule no earlier than `from` or to the default server. */
  ghost predicate SoundAsk(f: Frame, e: Event, from: nat) {
    && e.Asked? && e.depth == f.depth
    && (e.rule.Some? ==> from <= e.rule.value < |f.cfg.rules| && (e.transport.fakeIP ==> f.allowFakeIP))
  }

  lemma TurnFacts(f: Frame, from: nat, clock: nat)
    requires from <= |f.cfg.rules|
    ensures
      match TurnAt(f, from, clock)
      case Stop(_, ev) => |ev| <= 1 && forall e :: e in ev ==> SoundAsk(f, e, from)
      case Retry(ask, later) =>
        && from < later <= |f.cfg.rules| && SoundAsk(f, ask, from)
        && ask.rule == Some(later - 1) && f.cfg.rules[later - 1].addressLimit
      case Follow(rule, target, _, _, next) =>
        && rule.Some? && from <= rule.value && f.chain < next
        && target in Universe(f.cfg) - f.chain && target in next
        && Universe(f.cfg) - next < Universe(f.cfg) - f.chain
        && |Universe(f.cfg) - next| < |Universe(f.cfg) - f.chain|
  {
    var m := MatchIn(f, from);
    MatchFacts(f.cfg, f.query, f.allowFakeIP, from, f.options);
    if m.transport.None? {
      var a := f.cfg.rules[m.rule.value].action;
      if a.Predefined? && Alias(f.query, Rewritten(a.answer, f.query.name), f.chain).Some? {
        FollowingShrinks(f.cfg, m.rule.value, f.query, f.chain);
      }
    }
  }

  /** The whole resolution as a function: its outcome, and what it did in order. */
  ghost function Resolve(f: Frame, from: nat, clock: nat): (Outcome, seq<Event>)
    requires from <= |f.cfg.rules|
    decreases Universe(f.cfg) - f.chain, |f.cfg.rules| - from
  {
    TurnFacts(f, from, clock);
    match TurnAt(f, from, clock)
    case Stop(out, ev) => (out, ev)
    case Retry(ask, later) =>
      var (out, ev) := Resolve(f, later, clock + 1);
      (out, [ask] + ev)
    case Follow(rule, target, response, options, next) =>
      var (out, ev) := Resolve(Deeper(f, target, options, next), 0, clock + 1);
      (Response(Merged(response, out, f.query.qtype), false), [Followed(f.depth, rule, f.query.name, target)] + ev)
  }

  /** `whole` is what was done so far followed by the resolution from the rule after `ruleIndex` on. */
  ghost predicate Remains(f: Frame, ruleIndex: int, clock: nat, sofar: seq<Event>, whole: (Outcome, seq<Event>))
    requires -1 <= ruleIndex < |f.cfg.rules|
  {
    var rest := Resolve(f, ruleIndex + 1, clock);
    whole.0 == rest.0 && whole.1 == sofar + rest.1
  }

  lemma NothingDone(f: Frame, clock: nat) returns (whole: (Outcome, seq<Event>))
    ensures whole == Resolve(f, 0, clock) && Remains(f, -1, clock, [], whole)
  {
    whole := Resolve(f, 0, clock);
    assert [] + whole.1 == whole.1;
  }

  /** One turn: the result, or the query whose answer was rejected and the rule it was asked under. */
  method TakeTurn(f: Frame, ruleIndex: int, clock: nat, sofar: seq<Event>, ghost whole: (Outcome, seq<Event>))
    returns (out: Outcome, events: seq<Event>, again: Option<nat>)
    requires -1 <= ruleIndex < |f.cfg.rules|
    requires Remains(f, ruleIndex, clock, sofar, whole)
    ensures again.None? ==> (out, events) == whole
    ensures again.Some? ==>
      ruleIndex < again.value < |f.cfg.rules| && Remains(f, again.value, clock + 1, events, whole)
    decreases Universe(f.cfg) - f.chain, 1
  {
    var m := MatchDNS(f.cfg, f.query, f.allowFakeIP, ruleIndex, f.options);
    if m.transport.None? {
      var result, more := Decided(f, m, clock);
      return result, sofar + more, None;
    }
    var ask := AskFor(f.cfg, f.query, f.depth, m);
    var reply := f.cfg.upstream(clock, ask);
    if Retries(f.cfg, m, reply) {
      ghost var rest := Resolve(f, m.rule.value + 1, clock + 1);
      assert sofar + ([ask] + rest.1) == (sofar + [ask]) + rest.1;
      return Error, sofar + [ask], m.rule;
    }
    return ReplyOutcome(reply), sofar + [ask], None;
  }

  method ExchangeLoop(f: Frame, clock: nat) returns (out: Outcome, events: seq<Event>)
    ensures (out, events) == Resolve(f, 0, clock)
    ensures Explained(f, 0, clock, out, events)
    decreases Universe(f.cfg) - f.chain, 2
  {
    var ruleIndex, ticks := -1, clock;
    events := [];
    ghost var whole := NothingDone(f, clock);
    while true
      invariant -1 <= ruleIndex < |f.cfg.rules|
      invariant Remains(f, ruleIndex, ticks, events, whole)
      decreases |f.cfg.rules| - ruleIndex
    {
      var again;
      out, events, again := TakeTurn(f, ruleIndex, ticks, events, whole);
      if again.None? {
        ResolutionIsExplained(f, 0, clock);
        return;
      }
      ruleIndex, ticks := again.value, ticks + 1;
    }
  }

  /** What a turn that asks nobody leads to. */
  ghost function TurnResult(f: Frame, turn: Turn, clock: nat): (Outcome, seq<Event>)
    requires !turn.Retry?
  {
    if turn.Stop? then (turn.out, turn.events)
    else
      var (out, ev) := Resolve(Deeper(f, turn.target, turn.options, turn.chain), 0, clock + 1);
      (Response(Merged(turn.response, out, f.query.qtype), false),
       [Followed(f.depth, turn.rule, f.query.name, turn.target)] + ev)
  }

  /** A reject rule, or a predefined answer whose alias is followed when that cannot loop. */
  method Decided(f: Frame, m: Match, clock: nat) returns (out: Outcome, events: seq<Event>)
    requires m.rule.Some? && m.rule.value < |f.cfg.rules| && Decides(f.cfg.rules[m.rule.value].action)
    ensures (out, events) == TurnResult(f, DecidedTurn(f, m), clock)
    decreases Universe(f.cfg) - f.chain, 0
  {
    var a, q := f.cfg.rules[m.rule.value].action, f.query;
    if a.Reject? {
      return RejectOutcome(f.cfg, a), [];
    }
    var response := Msg(a.code, Rewritten(a.answer, q.name), [], []);
    if q.qtype != TYPE_A && q.qtype != TYPE_AAAA {
      return Response(response, false), [];
    }
    var t := FindLastTarget(q.name, response.answer);
    if t == "" {
      return Response(response, false), [];
    }
    var next := AliasStep(f.chain, q.name, t);
    if next.None? {
      return Response(response, false), [];
    }
    FollowingShrinks(f.cfg, m.rule.value, q, f.chain);
    var followed, more := ExchangeLoop(Deeper(f, t, m.options, next.value), clock + 1);
    return Response(Merged(response, followed, q.qtype), false), [Followed(f.depth, m.rule, q.name, t)] + more;
  }

  // ----- the outcome is the one the trace explains -----

  lemma HasSuffixIff(s: string, suffix: string)
    ensures HasSuffix(s, suffix) <==> exists k :: 0 <= k <= |s| && s[k..] == suffix
  {
    if HasSuffix(s, suffix) {
      assert s[|s| - |suffix|..] == suffix;
    }
  }

  lemma {:induction false} RewrittenIsOwn(answer: seq<RR>, name: string)
    ensures OwnRecords(answer, name, Rewritten(answer, name))
  {
    if answer != [] {
      RewrittenIsOwn(answer[1..], name);
      if answer[0].name != "" {
        HasSuffixIff(name, answer[0].name[1..]);
      }
      var own, rest := Rewritten(answer, name), Rewritten(answer[1..], name);
      assert forall i :: 0 < i < |own| ==> own[i] == rest[i - 1] && answer[i] == answer[1..][i - 1];
    }
  }

  /** The places of the records of the asked type and the CNAMEs. */
  ghost function PlacesFrom(records: seq<RR>, qtype: nat, from: nat): seq<nat>
    requires from <= |records|
    decreases |records| - from
  {
    if from == |records| then []
    else (if records[from].rrtype == qtype || records[from].rrtype == TYPE_CNAME then [from] else [])
         + PlacesFrom(records, qtype, from + 1)
  }

  lemma {:induction false} PlacesFromIsRight(records: seq<RR>, qtype: nat, from: nat)
    requires from <= |records|
    ensures Places(records, qtype, from, PlacesFrom(records, qtype, from))
    decreases |records| - from
  {
    if from < |records| {
      var places, rest := PlacesFrom(records, qtype, from), PlacesFrom(records, qtype, from + 1);
      PlacesFromIsRight(records, qtype, from + 1);
      if records[from].rrtype == qtype || records[from].rrtype == TYPE_CNAME {
        PlacesCons(records, qtype, from, rest, places);
      } else {
        PlacesSkip(records, qtype, from, rest);
        assert places == rest;
      }
    }
  }

  lemma {:induction false} OfTypeIsTaken(records: seq<RR>, qtype: nat, from: nat)
    requires from <= |records|
    ensures Taken(records, PlacesFrom(records, qtype, from), OfType(records[from..], qtype))
    decreases |records| - from
  {
    if from < |records| {
      OfTypeIsTaken(records, qtype, from + 1);
      assert records[from..][1..] == records[from + 1..];
    }
  }

  lemma PlacesSkip(records: seq<RR>, qtype: nat, from: nat, rest: seq<nat>)
    requires from < |records| && Places(records, qtype, from + 1, rest)
    requires records[from].rrtype != qtype && records[from].rrtype != 5
    ensures Places(records, qtype, from, rest)
  {
    assert from !in rest;
  }

  lemma PlacesCons(records: seq<RR>, qtype: nat, from: nat, rest: seq<nat>, all: seq<nat>)
    requires from < |records| && Places(records, qtype, from + 1, rest) && all == [from] + rest
    requires records[from].rrtype == qtype || records[from].rrtype == 5
    ensures Places(records, qtype, from, all)
  {
    assert forall k :: 0 < k < |all| ==> all[k] == rest[k - 1];
    assert forall i :: i in all <==> i == from || i in rest;
  }

  lemma OfTypeIsSelected(records: seq<RR>, qtype: nat)
    ensures Selects(records, qtype, OfType(records, qtype))
  {
    PlacesFromIsRight(records, qtype, 0);
    OfTypeIsTaken(records, qtype, 0);
    assert records[0..] == records;
  }

  lemma AliasLeads(f: Frame, own: seq<RR>)
    ensures
      var alias := Alias(f.query, own, f.chain);
      if alias.Some? then
        Leads(f, own, alias.value.0) && alias.value.1 == f.chain + {f.query.name, alias.value.0}
      else forall t :: !Leads(f, own, t)
  {
    LastTargetIsChainEnd(f.query.name, own);
  }

  lemma MergedIsExplained(f: Frame, m: Match, code: nat, answer: seq<RR>, clock: nat, inner: Outcome, ev: seq<Event>)
    requires ev != [] && ev[0].Followed? && ev[0].depth == f.depth && ev[0].rule == m.rule
    requires ev[0].source == f.query.name && Leads(f, Rewritten(answer, f.query.name), ev[0].target)
    requires Explained(Behind(f, ev[0].target, m.options), 0, clock + 1, inner, ev[1..])
    ensures
      var response := Msg(code, Rewritten(answer, f.query.name), [], []);
      PredefinedExplained(f, m, code, answer, clock, Response(Merged(response, inner, f.query.qtype), false), ev)
  {
    var own := Rewritten(answer, f.query.name);
    var all := Merged(Msg(code, own, [], []), inner, f.query.qtype).answer;
    RewrittenIsOwn(answer, f.query.name);
    if inner.Response? {
      OfTypeIsSelected(inner.msg.answer, f.query.qtype);
    }
    assert all[..|answer|] == own && Adds(inner, f.query.qtype, all[|answer|..]);
  }

  lemma StopIsExplained(f: Frame, m: Match, code: nat, answer: seq<RR>, clock: nat)
    requires Alias(f.query, Rewritten(answer, f.query.name), f.chain).None?
    ensures
      var response := Msg(code, Rewritten(answer, f.query.name), [], []);
      PredefinedExplained(f, m, code, answer, clock, Response(response, false), [])
  {
    var own := Rewritten(answer, f.query.name);
    RewrittenIsOwn(answer, f.query.name);
    AliasLeads(f, own);
    assert own[..|answer|] == own && own[|answer|..] == [];
  }

  /** The outcome of every resolution is the one that its events, the rules and the upstream's replies explain. */
  lemma {:induction false} ResolutionIsExplained(f: Frame, from: nat, clock: nat)
    requires from <= |f.cfg.rules|
    ensures Explained(f, from, clock, Resolve(f, from, clock).0, Resolve(f, from, clock).1)
    decreases Universe(f.cfg) - f.chain, |f.cfg.rules| - from
  {
    var m := MatchIn(f, from);
    var (out, ev) := Resolve(f, from, clock);
    MatchedRight(f.cfg, f.query, f.allowFakeIP, from, f.options);
    TurnIsExplained(f, m, from, clock);
    assert MatchIsRight(f.cfg, f.query, f.allowFakeIP, from, f.options, m) && ExplainedBy(f, m, clock, out, ev);
  }

  lemma {:induction false} TurnIsExplained(f: Frame, m: Match, from: nat, clock: nat)
    requires from <= |f.cfg.rules| && m == MatchIn(f, from)
    ensures ExplainedBy(f, m, clock, Resolve(f, from, clock).0, Resolve(f, from, clock).1)
    decreases Universe(f.cfg) - f.chain, |f.cfg.rules| - from, 0
  {
    TurnFacts(f, from, clock);
    var (out, ev) := Resolve(f, from, clock);
    match TurnAt(f, from, clock)
    case Stop(_, _) =>
      if m.transport.None? && f.cfg.rules[m.rule.value].action.Predefined? {
        var a := f.cfg.rules[m.rule.value].action;
        StopIsExplained(f, m, a.code, a.answer, clock);
      }
    case Retry(ask, later) =>
      ResolutionIsExplained(f, later, clock + 1);
      assert ev[1..] == Resolve(f, later, clock + 1).1;
    case Follow(rule, target, response, options, next) =>
      var a := f.cfg.rules[m.rule.value].action;
      var d := Deeper(f, target, options, next);
      AliasLeads(f, Rewritten(a.answer, f.query.name));
      ResolutionIsExplained(d, 0, clock + 1);
      assert ev[1..] == Resolve(d, 0, clock + 1).1;
      MergedIsExplained(f, m, a.code, a.answer, clock, Resolve(d, 0, clock + 1).0, ev);
  }

  // ----- what holds of every resolution -----

  function Asks(ev: seq<Event>): nat {
    if ev == [] then 0 else (if ev[0].Asked? then 1 else 0) + Asks(ev[1..])
  }

  ghost function Aliases(ev: seq<Event>): seq<string> {
    if ev == [] then [] else (if ev[0].Followed? then [ev[0].target] else []) + Aliases(ev[1..])
  }

  /** What may follow what: a retry only after an address-limited rule and under a later one; a follow goes deeper. */
  ghost predicate MayPrecede(cfg: Config, e: Event, f: Event) {
    if e.Asked? then
      && f.depth == e.depth && e.rule.Some? && e.rule.value < |cfg.rules| && cfg.rules[e.rule.value].addressLimit
      && (f.rule.Some? ==> e.rule.value < f.rule.value)
    else f.depth == e.depth + 1
  }

  ghost predicate Orderly(cfg: Config, ev: seq<Event>) {
    forall i :: 0 <= i < |ev| - 1 ==> MayPrecede(cfg, ev[i], ev[i + 1])
  }

  ghost predicate Begins(ev: seq<Event>, depth: nat, from: nat) {
    ev != [] ==> ev[0].depth == depth && (ev[0].rule.Some? ==> from <= ev[0].rule.value)
  }

  lemma OrderlyCons(cfg: Config, e: Event, ev: seq<Event>)
    requires Orderly(cfg, ev) && (ev != [] ==> MayPrecede(cfg, e, ev[0]))
    ensures Orderly(cfg, [e] + ev)
  {
    var all := [e] + ev;
    forall i | 0 <= i < |all| - 1 ensures MayPrecede(cfg, all[i], all[i + 1]) {
      if 0 < i {
        assert MayPrecede(cfg, ev[i - 1], ev[i - 1 + 1]);
      }
    }
  }

  /** Retries raise the rule index and need an address-limited rule; each follow opens a deeper loop. */
  lemma {:induction false} ResolutionIsOrderly(f: Frame, from: nat, clock: nat)
    requires from <= |f.cfg.rules|
    ensures Orderly(f.cfg, Resolve(f, from, clock).1) && Begins(Resolve(f, from, clock).1, f.depth, from)
    decreases Universe(f.cfg) - f.chain, |f.cfg.rules| - from
  {
    TurnFacts(f, from, clock);
    match TurnAt(f, from, clock)
    case Stop(_, ev) => assert ev != [] ==> ev[0] in ev;
    case Retry(ask, later) =>
      ResolutionIsOrderly(f, later, clock + 1);
      OrderlyCons(f.cfg, ask, Resolve(f, later, clock + 1).1);
    case Follow(rule, target, _, options, next) =>
      var d := Deeper(f, target, options, next);
      ResolutionIsOrderly(d, 0, clock + 1);
      OrderlyCons(f.cfg, Followed(f.depth, rule, f.query.name, target), Resolve(d, 0, clock + 1).1);
  }

  ghost function AskBound(f: Frame, from: int): int {
    (|f.cfg.rules| - from + 1) + (|f.cfg.rules| + 1) * |Universe(f.cfg) - f.chain|
  }

  lemma BoundShrinks(f: Frame, d: Frame, from: nat)
    requires d.cfg == f.cfg && |Universe(f.cfg) - d.chain| < |Universe(f.cfg) - f.chain| && from <= |f.cfg.rules|
    ensures AskBound(d, 0) <= AskBound(f, from)
  {
    ProductStep(|f.cfg.rules| + 1, |Universe(f.cfg) - d.chain|, |Universe(f.cfg) - f.chain|);
  }

  lemma {:induction false} ProductStep(n: nat, a: nat, b: nat)
    requires a < b
    ensures n * a + n <= n * b
  {
    if 0 < n {
      ProductStep(n - 1, a, b);
      assert n * a == (n - 1) * a + a;
      assert n * b == (n - 1) * b + b;
    }
  }

  lemma BoundIsPositive(f: Frame, from: nat)
    requires from <= |f.cfg.rules|
    ensures 1 <= AskBound(f, from) && forall later :: AskBound(f, later) == AskBound(f, from) - later + from
  {
  }

  lemma EventsCons(e: Event, ev: seq<Event>)
    ensures Aliases([e] + ev) == (if e.Followed? then [e.target] else []) + Aliases(ev)
    ensures e.Asked? ==> Aliases([e] + ev) == Aliases(ev)
    ensures Asks([e] + ev) == (if e.Asked? then 1 else 0) + Asks(ev)
  {
    assert ([e] + ev)[1..] == ev;
    assert [] + Aliases(ev) == Aliases(ev);
  }

  lemma StopFacts(f: Frame, ev: seq<Event>, from: nat)
    requires |ev| <= 1 && forall e :: e in ev ==> SoundAsk(f, e, from)
    ensures Asks(ev) <= 1 && Aliases(ev) == []
  {
    if ev != [] {
      assert ev[0] in ev;
      assert ev == [ev[0]] + [];
      EventsCons(ev[0], []);
    }
  }

  /** The upstream is asked at most once per remaining rule plus the default, for every alias not yet in the chain. */
  lemma {:induction false} AsksAreBounded(f: Frame, from: nat, clock: nat)
    requires from <= |f.cfg.rules|
    ensures Asks(Resolve(f, from, clock).1) <= AskBound(f, from)
    decreases Universe(f.cfg) - f.chain, |f.cfg.rules| - from
  {
    TurnFacts(f, from, clock);
    BoundIsPositive(f, from);
    match TurnAt(f, from, clock)
    case Stop(_, ev) => StopFacts(f, ev, from);
    case Retry(ask, later) =>
      AsksAreBounded(f, later, clock + 1);
      EventsCons(ask, Resolve(f, later, clock + 1).1);
    case Follow(rule, target, _, options, next) =>
      var d := Deeper(f, target, options, next);
      AsksAreBounded(d, 0, clock + 1);
      EventsCons(Followed(f.depth, rule, f.query.name, target), Resolve(d, 0, clock + 1).1);
      BoundShrinks(f, d, from);
  }

  ghost predicate AllNew(names: seq<string>, pool: set<string>) {
    && (forall i, j :: 0 <= i < j < |names| ==> names[i] != names[j])
    && (forall i :: 0 <= i < |names| ==> names[i] in pool)
  }

  /** No alias is followed twice, and none that was already in the chain. */
  lemma {:induction false} AliasesAreNew(f: Frame, from: nat, clock: nat)
    requires from <= |f.cfg.rules|
    ensures AllNew(Aliases(Resolve(f, from, clock).1), Universe(f.cfg) - f.chain)
    decreases Universe(f.cfg) - f.chain, |f.cfg.rules| - from
  {
    TurnFacts(f, from, clock);
    match TurnAt(f, from, clock)
    case Stop(_, ev) => StopFacts(f, ev, from);
    case Retry(ask, later) =>
      AliasesAreNew(f, later, clock + 1);
      var ev := Resolve(f, later, clock + 1).1;
      EventsCons(ask, ev);
      assert Resolve(f, from, clock).1 == [ask] + ev;
    case Follow(rule, target, _, options, next) =>
      var d := Deeper(f, target, options, next);
      AliasesAreNew(d, 0, clock + 1);
      EventsCons(Followed(f.depth, rule, f.query.name, target), Resolve(d, 0, clock + 1).1);
  }

  /** Behind an alias, no rule sends a query to a fake-IP server; and nothing there is asked at a lesser depth. */
  lemma {:induction false} AliasesAvoidFakeIP(f: Frame, from: nat, clock: nat)
    requires from <= |f.cfg.rules|
    ensures forall e :: e in Resolve(f, from, clock).1 ==>
      && f.depth <= e.depth
      && (e.Asked? && e.rule.Some? && (f.depth < e.depth || !f.allowFakeIP) ==> !e.transport.fakeIP)
    decreases Universe(f.cfg) - f.chain, |f.cfg.rules| - from
  {
    TurnFacts(f, from, clock);
    match TurnAt(f, from, clock)
    case Stop(_, _) =>
    case Retry(ask, later) =>
      AliasesAvoidFakeIP(f, later, clock + 1);
      var ev := Resolve(f, later, clock + 1).1;
      assert forall e :: e in [ask] + ev ==> e == ask || e in ev;
    case Follow(rule, target, _, options, next) =>
      var d := Deeper(f, target, options, next);
      AliasesAvoidFakeIP(d, 0, clock + 1);
      var ev := Resolve(d, 0, clock + 1).1;
      var step := Followed(f.depth, rule, f.query.name, target);
      assert forall e :: e in [step] + ev ==> e == step || e in ev;
  }

  lemma {:induction false} OfTypeSelects(records: seq<RR>, qtype: nat)
    ensures forall r :: r in OfType(records, qtype) <==> r in records && (r.rrtype == qtype || r.rrtype == TYPE_CNAME)
  {
    if records != [] {
      OfTypeSelects(records[1..], qtype);
    }
  }

  /**
   * A predefined rule answers with its own records first and its own code; following its alias only adds
   * records of the asked type and CNAMEs, and asks only at a greater depth.
   */
  lemma PredefinedComesFirst(f: Frame, from: nat, clock: nat)
    requires from <= |f.cfg.rules|
    requires MatchIn(f, from).rule.Some? && f.cfg.rules[MatchIn(f, from).rule.value].action.Predefined?
    ensures
      var a := f.cfg.rules[MatchIn(f, from).rule.value].action;
      var own := Rewritten(a.answer, f.query.name);
      var (out, ev) := Resolve(f, from, clock);
      && out.Response? && out.msg.rcode == a.code && own <= out.msg.answer
      && (forall e :: e in ev && e.Asked? ==> f.depth < e.depth)
      && forall r :: r in out.msg.answer[|own|..] ==> r.rrtype == f.query.qtype || r.rrtype == TYPE_CNAME
  {
    MatchFacts(f.cfg, f.query, f.allowFakeIP, from, f.options);
    TurnFacts(f, from, clock);
    match TurnAt(f, from, clock)
    case Stop(_, _) =>
    case Follow(rule, target, response, options, next) =>
      var d := Deeper(f, target, options, next);
      var (out, ev) := Resolve(d, 0, clock + 1);
      AliasesAvoidFakeIP(d, 0, clock + 1);
      var step := Followed(f.depth, rule, f.query.name, target);
      assert forall e :: e in [step] + ev ==> e == step || e in ev;
      if out.Response? {
        OfTypeSelects(out.msg.answer, f.query.qtype);
        var added := Merged(response, out, f.query.qtype).answer[|response.answer|..];
        assert added == [] || added == OfType(out.msg.answer, f.query.qtype);
      }
  }
}
