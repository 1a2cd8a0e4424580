/**
 * The DNS rules and how one is chosen: the first that decides the query, with the query options gathered on the way.
 * Rules and transports are abstract.
 */
module DnsRules {
  import opened Prelude
  import opened DnsRecords

  const AS_IS := 0
  const TYPE_HTTPS := 65
  const RCODE_REFUSED := 5

  /** Query options; as a rule's patch, AS_IS and None leave a field alone. */
  datatype Options = Options(
    strategy: nat, disableCache: bool, rewriteTTL: Option<nat>, subnet: Option<nat>, lazyTTL: Option<nat>)

  datatype Legacy = Legacy(strategy: nat, subnet: Option<nat>)

  datatype Transport = Transport(tag: string, fakeIP: bool, legacy: Option<Legacy>)

  datatype Action =
    | Route(server: string, patch: Options)
    | RouteOptions(patch: Options)
    | Reject(drop: bool, rcode: Option<nat>)
    | Predefined(code: nat, answer: seq<RR>)

  datatype Query = Query(name: string, qtype: nat)

  datatype Rule = Rule(disabled: bool, addressLimit: bool, matches: Query -> bool, action: Action)

  datatype Reply = Answered(msg: Msg, stale: bool) | Nothing | Rejected | Failed

  datatype Event =
    | Asked(depth: nat, rule: Option<nat>, transport: Transport, query: Query, options: Options)
    | Followed(depth: nat, rule: Option<nat>, source: string, target: string)

  /** `upstream` is also given how many events came before, so it may change its answers at will. */
  datatype Config = Config(
    rules: seq<Rule>, transports: map<string, Transport>, default: Transport,
    strategy: nat, rejectRcode: Option<nat>, upstream: (nat, Event) -> Reply)

  datatype Outcome = Response(msg: Msg, stale: bool) | NoResponse | Dropped | Error

  // ----- matchDNS -----

  function Patched(o: Options, p: Options, isFakeIP: bool): Options {
    Options(
      if p.strategy != AS_IS then p.strategy else o.strategy,
      o.disableCache || isFakeIP || p.disableCache,
      if p.rewriteTTL.Some? then p.rewriteTTL else o.rewriteTTL,
      if p.subnet.Some? then p.subnet else o.subnet,
      if p.lazyTTL.Some? then p.lazyTTL else o.lazyTTL)
  }

  function WithLegacy(o: Options, t: Transport): Options {
    if t.legacy.None? then o
    else o.(strategy := if o.strategy == AS_IS then t.legacy.value.strategy else o.strategy,
            subnet := if o.subnet.None? then t.legacy.value.subnet else o.subnet)
  }

  predicate IsAddressQuery(q: Query) { q.qtype == TYPE_A || q.qtype == TYPE_AAAA || q.qtype == TYPE_HTTPS }

  predicate Applies(rule: Rule, q: Query) {
    !rule.disabled && (rule.addressLimit ==> IsAddressQuery(q)) && rule.matches(q)
  }

  datatype Match = Match(transport: Option<Transport>, rule: Option<nat>, options: Options)

  /** The first rule from place `i` on that decides the query, and the options gathered on the way. */
  function MatchFrom(cfg: Config, q: Query, allowFakeIP: bool, i: nat, o: Options): (m: Match)
    requires i <= |cfg.rules|
    ensures m.rule.Some? ==> i <= m.rule.value < |cfg.rules|
    ensures m.transport.None? ==> m.rule.Some? && Decides(cfg.rules[m.rule.value].action)
    decreases |cfg.rules| - i
  {
    if i == |cfg.rules| then Match(Some(cfg.default), None, WithLegacy(o, cfg.default))
    else
      var rule := cfg.rules[i];
      if !Applies(rule, q) then MatchFrom(cfg, q, allowFakeIP, i + 1, o)
      else
        match rule.action
        case Route(server, patch) =>
          if server !in cfg.transports || (cfg.transports[server].fakeIP && !allowFakeIP) then
            MatchFrom(cfg, q, allowFakeIP, i + 1, o)
          else
            var t := cfg.transports[server];
            Match(Some(t), Some(i), WithLegacy(Patched(o, patch, t.fakeIP), t))
        case RouteOptions(patch) => MatchFrom(cfg, q, allowFakeIP, i + 1, Patched(o, patch, false))
        case Reject(_, _) => Match(None, Some(i), o)
        case Predefined(_, _) => Match(None, Some(i), o)
  }

  /** Rules that answer without asking a server. */
  predicate Decides(a: Action) { a.Reject? || a.Predefined? }

  lemma {:induction false} MatchFacts(cfg: Config, q: Query, allowFakeIP: bool, i: nat, o: Options)
    requires i <= |cfg.rules|
    ensures
      var m := MatchFrom(cfg, q, allowFakeIP, i, o);
      && (m.rule.Some? ==> Applies(cfg.rules[m.rule.value], q) && !cfg.rules[m.rule.value].action.RouteOptions?)
      && (m.transport.None? <==> m.rule.Some? && Decides(cfg.rules[m.rule.value].action))
      && (m.rule.Some? && m.transport.Some? && m.transport.value.fakeIP ==> allowFakeIP && m.options.disableCache)
    decreases |cfg.rules| - i
  {
    if i < |cfg.rules| {
      var rule := cfg.rules[i];
      MatchFacts(cfg, q, allowFakeIP, i + 1, o);
      if rule.action.RouteOptions? {
        MatchFacts(cfg, q, allowFakeIP, i + 1, Patched(o, rule.action.patch, false));
      }
    }
  }

  // ----- what the chosen rule is, read off the rules -----

  /** The rule speaks about the query. */
  ghost predicate Covers(rule: Rule, q: Query) {
    !rule.disabled && (rule.addressLimit ==> q.qtype == 1 || q.qtype == 28 || q.qtype == 65) && rule.matches(q)
  }

  /** A rule that is passed over: it does not speak about the query, only sets options, or names no usable server. */
  ghost predicate PassedOver(cfg: Config, q: Query, allowFakeIP: bool, rule: Rule) {
    || !Covers(rule, q)
    || rule.action.RouteOptions?
    || (rule.action.Route? && rule.action.server !in cfg.transports)
    || (rule.action.Route? && cfg.transports[rule.action.server].fakeIP && !allowFakeIP)
  }

  /** The chosen rule is the first that is not passed over, and the server is the one it names, or the default. */
  ghost predicate ChosenFirst(cfg: Config, q: Query, allowFakeIP: bool, i: nat, m: Match) {
    match m.rule
    case Some(r) =>
      && i <= r < |cfg.rules| && !PassedOver(cfg, q, allowFakeIP, cfg.rules[r])
      && (forall j :: i <= j < r ==> PassedOver(cfg, q, allowFakeIP, cfg.rules[j]))
      && m.transport == (if cfg.rules[r].action.Route? then Some(cfg.transports[cfg.rules[r].action.server]) else None)
    case None =>
      && (forall j :: i <= j < |cfg.rules| ==> PassedOver(cfg, q, allowFakeIP, cfg.rules[j]))
      && m.transport == Some(cfg.default)
  }

  /** Rule `j` sets options for the match: it covers the query and sets options only, or it is the chosen route. */
  ghost predicate Patches(cfg: Config, q: Query, m: Match, j: nat) {
    && j < |cfg.rules| && Covers(cfg.rules[j], q)
    && (if m.rule == Some(j) then cfg.rules[j].action.Route? else cfg.rules[j].action.RouteOptions?)
  }

  /** Where the patches for a match end. */
  function PatchesEnd(cfg: Config, m: Match): nat { if m.rule.Some? then m.rule.value + 1 else |cfg.rules| }

  function PatchOf(a: Action): Options
    requires a.Route? || a.RouteOptions?
  {
    a.patch
  }

  /** Rule `j` sets the field. */
  ghost predicate Sets(cfg: Config, q: Query, m: Match, field: Field, j: nat) {
    Patches(cfg, q, m, j) && IsSet(PatchOf(cfg.rules[j].action), field)
  }

  /** The four fields of which the last setting counts. */
  datatype Field = Strategy | RewriteTTL | Subnet | LazyTTL

  function Get(o: Options, field: Field): Option<nat> {
    match field
    case Strategy => if o.strategy == 0 then None else Some(o.strategy)
    case RewriteTTL => o.rewriteTTL
    case Subnet => o.subnet
    case LazyTTL => o.lazyTTL
  }

  predicate IsSet(o: Options, field: Field) { Get(o, field).Some? }

  /** What a server of the old form brings along, for fields that nobody set. */
  function FromServer(t: Option<Transport>, field: Field): Option<nat> {
    if t.None? || t.value.legacy.None? then None
    else
      match field
      case Strategy => if t.value.legacy.value.strategy == 0 then None else Some(t.value.legacy.value.strategy)
      case RewriteTTL => None
      case Subnet => t.value.legacy.value.subnet
      case LazyTTL => None
  }

  /** The last rule of a range that sets the field. */
  ghost function LastSetter(cfg: Config, q: Query, m: Match, field: Field, lo: nat, hi: nat): Option<nat> {
    if hi <= lo then None
    else if Sets(cfg, q, m, field, hi - 1) then Some(hi - 1)
    else LastSetter(cfg, q, m, field, lo, hi - 1)
  }

  /** A field is as the last rule that sets it says, else as the caller has it, else as the server brings along. */
  ghost predicate FieldIsRight(cfg: Config, q: Query, i: nat, o: Options, m: Match, field: Field) {
    var j := LastSetter(cfg, q, m, field, i, PatchesEnd(cfg, m));
    Get(m.options, field) ==
      if j.Some? && j.value < |cfg.rules| && Patches(cfg, q, m, j.value)
      then Get(PatchOf(cfg.rules[j.value].action), field)
      else if IsSet(o, field) then Get(o, field)
      else FromServer(m.transport, field)
  }

  /** The cache is off when the caller or a patch turns it off, or a rule sends the query to a fake-IP server. */
  ghost predicate CacheIsRight(cfg: Config, q: Query, i: nat, o: Options, m: Match) {
    m.options.disableCache <==>
      || o.disableCache
      || (exists j :: i <= j < PatchesEnd(cfg, m) && Patches(cfg, q, m, j) && PatchOf(cfg.rules[j].action).disableCache)
      || (m.rule.Some? && m.transport.Some? && m.transport.value.fakeIP)
  }

  ghost predicate MatchIsRight(cfg: Config, q: Query, allowFakeIP: bool, i: nat, o: Options, m: Match) {
    && ChosenFirst(cfg, q, allowFakeIP, i, m) && CacheIsRight(cfg, q, i, o, m)
    && (forall field :: FieldIsRight(cfg, q, i, o, m, field))
  }

  lemma {:induction false} LastSetterFrom(cfg: Config, q: Query, m: Match, field: Field, lo: nat, hi: nat)
    requires lo < hi
    ensures LastSetter(cfg, q, m, field, lo, hi) ==
      if LastSetter(cfg, q, m, field, lo + 1, hi).Some? then LastSetter(cfg, q, m, field, lo + 1, hi)
      else if Sets(cfg, q, m, field, lo) then Some(lo) else None
    decreases hi
  {
    if lo + 1 < hi {
      LastSetterFrom(cfg, q, m, field, lo, hi - 1);
    }
  }

  lemma {:induction false} LastSetterSets(cfg: Config, q: Query, m: Match, field: Field, lo: nat, hi: nat)
    ensures
      var j := LastSetter(cfg, q, m, field, lo, hi);
      j.Some? ==> lo <= j.value < hi && Sets(cfg, q, m, field, j.value)
    decreases hi
  {
    if lo < hi {
      LastSetterSets(cfg, q, m, field, lo, hi - 1);
    }
  }

  /** A rule that is passed over without setting options changes nothing about the match. */
  lemma SkipsRight(cfg: Config, q: Query, allowFakeIP: bool, i: nat, o: Options, m: Match)
    requires i < |cfg.rules| && PassedOver(cfg, q, allowFakeIP, cfg.rules[i])
    requires !Covers(cfg.rules[i], q) || !cfg.rules[i].action.RouteOptions?
    requires MatchIsRight(cfg, q, allowFakeIP, i + 1, o, m)
    ensures MatchIsRight(cfg, q, allowFakeIP, i, o, m)
  {
    assert !Patches(cfg, q, m, i);
    forall field ensures FieldIsRight(cfg, q, i, o, m, field) {
      assert FieldIsRight(cfg, q, i + 1, o, m, field);
      LastSetterFrom(cfg, q, m, field, i, PatchesEnd(cfg, m));
    }
  }

  lemma PatchedField(o: Options, patch: Options, fakeIP: bool, field: Field)
    ensures Get(Patched(o, patch, fakeIP), field) == if IsSet(patch, field) then Get(patch, field) else Get(o, field)
  {
  }

  /** A rule that only sets options. */
  lemma PatchesRight(cfg: Config, q: Query, allowFakeIP: bool, i: nat, o: Options, m: Match)
    requires i < |cfg.rules| && Covers(cfg.rules[i], q) && cfg.rules[i].action.RouteOptions?
    requires MatchIsRight(cfg, q, allowFakeIP, i + 1, Patched(o, cfg.rules[i].action.patch, false), m)
    ensures MatchIsRight(cfg, q, allowFakeIP, i, o, m)
  {
    var patch := cfg.rules[i].action.patch;
    assert Patches(cfg, q, m, i) && PatchOf(cfg.rules[i].action) == patch;
    forall field ensures FieldIsRight(cfg, q, i, o, m, field) {
      assert FieldIsRight(cfg, q, i + 1, Patched(o, patch, false), m, field);
      LastSetterFrom(cfg, q, m, field, i, PatchesEnd(cfg, m));
      LastSetterSets(cfg, q, m, field, i + 1, PatchesEnd(cfg, m));
      PatchedField(o, patch, false, field);
    }
  }

  /** The rule that is chosen. */
  lemma ChoosesRight(cfg: Config, q: Query, allowFakeIP: bool, i: nat, o: Options, m: Match)
    requires i < |cfg.rules| && !PassedOver(cfg, q, allowFakeIP, cfg.rules[i])
    requires m == MatchFrom(cfg, q, allowFakeIP, i, o)
    ensures MatchIsRight(cfg, q, allowFakeIP, i, o, m)
  {
    forall field ensures FieldIsRight(cfg, q, i, o, m, field) {
      LastSetterFrom(cfg, q, m, field, i, i + 1);
      if cfg.rules[i].action.Route? {
        PatchedField(o, cfg.rules[i].action.patch, m.transport.value.fakeIP, field);
      }
    }
    assert cfg.rules[i].action.Route? <==> Patches(cfg, q, m, i);
  }

  /** The match is right, for every list of rules: which rule, which server and every option. */
  lemma {:induction false} MatchedRight(cfg: Config, q: Query, allowFakeIP: bool, i: nat, o: Options)
    requires i <= |cfg.rules|
    ensures MatchIsRight(cfg, q, allowFakeIP, i, o, MatchFrom(cfg, q, allowFakeIP, i, o))
    decreases |cfg.rules| - i
  {
    var m := MatchFrom(cfg, q, allowFakeIP, i, o);
    if i < |cfg.rules| {
      var rule := cfg.rules[i];
      if !PassedOver(cfg, q, allowFakeIP, rule) {
        ChoosesRight(cfg, q, allowFakeIP, i, o, m);
      } else if Covers(rule, q) && rule.action.RouteOptions? {
        MatchedRight(cfg, q, allowFakeIP, i + 1, Patched(o, rule.action.patch, false));
        PatchesRight(cfg, q, allowFakeIP, i, o, m);
      } else {
        MatchedRight(cfg, q, allowFakeIP, i + 1, o);
        SkipsRight(cfg, q, allowFakeIP, i, o, m);
      }
    }
  }

  /** And there is only one such match. */
  lemma RightMatchIsUnique(cfg: Config, q: Query, allowFakeIP: bool, i: nat, o: Options, m: Match, n: Match)
    requires MatchIsRight(cfg, q, allowFakeIP, i, o, m) && MatchIsRight(cfg, q, allowFakeIP, i, o, n)
    ensures m == n
  {
    assert m.rule == n.rule && m.transport == n.transport;
    assert forall j :: Patches(cfg, q, m, j) <==> Patches(cfg, q, n, j);
    forall field ensures Get(m.options, field) == Get(n.options, field) {
      assert FieldIsRight(cfg, q, i, o, m, field) && FieldIsRight(cfg, q, i, o, n, field);
      SameSetters(cfg, q, m, n, field, i, PatchesEnd(cfg, m));
    }
    assert Get(m.options, Strategy) == Get(n.options, Strategy);
    assert Get(m.options, RewriteTTL) == Get(n.options, RewriteTTL);
    assert Get(m.options, Subnet) == Get(n.options, Subnet) && Get(m.options, LazyTTL) == Get(n.options, LazyTTL);
  }

  lemma {:induction false} SameSetters(cfg: Config, q: Query, m: Match, n: Match, field: Field, lo: nat, hi: nat)
    requires m.rule == n.rule
    ensures LastSetter(cfg, q, m, field, lo, hi) == LastSetter(cfg, q, n, field, lo, hi)
    decreases hi
  {
    if lo < hi {
      SameSetters(cfg, q, m, n, field, lo, hi - 1);
    }
  }

  /** `ruleIndex` is -1, or the rule that the last answer was rejected under. */
  method MatchDNS(cfg: Config, q: Query, allowFakeIP: bool, ruleIndex: int, o: Options) returns (m: Match)
    requires -1 <= ruleIndex < |cfg.rules|
    ensures MatchIsRight(cfg, q, allowFakeIP, ruleIndex + 1, o, m)
    ensures m == MatchFrom(cfg, q, allowFakeIP, ruleIndex + 1, o)
  {
    MatchedRight(cfg, q, allowFakeIP, ruleIndex + 1, o);
    var options := o;
    var i := if ruleIndex != -1 then ruleIndex + 1 else 0;
    while i < |cfg.rules|
      invariant 0 <= i <= |cfg.rules|
      invariant MatchFrom(cfg, q, allowFakeIP, ruleIndex + 1, o) == MatchFrom(cfg, q, allowFakeIP, i, options)
    {
      var rule := cfg.rules[i];
      if Applies(rule, q) {
        match rule.action {
          case Route(server, patch) =>
            if server in cfg.transports && (cfg.transports[server].fakeIP ==> allowFakeIP) {
              var t := cfg.transports[server];
              return Match(Some(t), Some(i), WithLegacy(Patched(options, patch, t.fakeIP), t));
            }
          case RouteOptions(patch) => options := Patched(options, patch, false);
          case Reject(_, _) => return Match(None, Some(i), options);
          case Predefined(_, _) => return Match(None, Some(i), options);
        }
      }
      i := i + 1;
    }
    return Match(Some(cfg.default), None, WithLegacy(options, cfg.default));
  }
}
