/**
 * A provider turns a list of options into outbounds with unique tags and keeps them registered with the
 * outbound manager across updates.
 */
module ProviderTags {
  import opened Prelude
  import opened OutboundManager

  // ----- numbers in tags -----

  function Digit(d: nat): char
    requires d < 10
  {
    (48 + d) as char
  }

  function Decimal(n: nat): string {
    if n < 10 then [Digit(n)] else Decimal(n / 10) + [Digit(n % 10)]
  }

  function Value(s: string): int {
    if s == [] then 0 else Value(s[..|s| - 1]) * 10 + (s[|s| - 1] as int - 48)
  }

  lemma {:induction false} DecimalRoundTrip(n: nat)
    ensures Value(Decimal(n)) == n
  {
    if n < 10 {
      assert Decimal(n)[..0] == [];
    } else {
      DecimalRoundTrip(n / 10);
      assert Decimal(n)[..|Decimal(n)| - 1] == Decimal(n / 10);
    }
  }

  // ----- candidate tags -----

  /** base, then "base (2)", "base (3)", ... */
  function Candidate(base: string, n: nat): string {
    if n <= 1 then base else base + " (" + Decimal(n) + ")"
  }

  lemma CandidatesDiffer(base: string, n: nat, m: nat)
    requires 1 <= n < m
    ensures Candidate(base, n) != Candidate(base, m)
  {
    if 1 < n && Candidate(base, n) == Candidate(base, m) {
      var s := Candidate(base, n);
      assert s[|base| + 2..|s| - 1] == Decimal(n);
      assert s[|base| + 2..|s| - 1] == Decimal(m);
      DecimalRoundTrip(n);
      DecimalRoundTrip(m);
    }
  }

  ghost function Candidates(base: string, k: nat): set<string> {
    if k == 0 then {} else Candidates(base, k - 1) + {Candidate(base, k)}
  }

  lemma {:induction false} CandidatesMembers(base: string, k: nat, t: string)
    ensures t in Candidates(base, k) <==> exists m :: 1 <= m <= k && t == Candidate(base, m)
  {
    if 0 < k {
      CandidatesMembers(base, k - 1, t);
    }
  }

  /** No two of the first k candidates coincide. */
  lemma {:induction false} CandidatesCount(base: string, k: nat)
    ensures |Candidates(base, k)| == k
  {
    if 0 < k {
      CandidatesCount(base, k - 1);
      CandidatesMembers(base, k - 1, Candidate(base, k));
      if Candidate(base, k) in Candidates(base, k - 1) {
        var m :| 1 <= m <= k - 1 && Candidate(base, k) == Candidate(base, m);
        CandidatesDiffer(base, m, k);
      }
    }
  }

  /** Pigeonhole: a finite set cannot hold more candidates than it has elements. */
  lemma TakenAreFew(base: string, k: nat, seen: set<string>)
    requires forall m :: 1 <= m <= k ==> Candidate(base, m) in seen
    ensures k <= |seen|
  {
    forall t | t in Candidates(base, k) ensures t in seen {
      CandidatesMembers(base, k, t);
    }
    CandidatesCount(base, k);
    assert seen == Candidates(base, k) + (seen - Candidates(base, k));
  }

  ghost predicate FirstFreeAt(base: string, seen: set<string>, tag: string, n: nat) {
    1 <= n && tag == Candidate(base, n) && tag !in seen && forall m :: 1 <= m < n ==> Candidate(base, m) in seen
  }

  method FirstFree(base: string, seen: set<string>) returns (tag: string)
    ensures exists n: nat :: FirstFreeAt(base, seen, tag, n) && n <= |seen| + 1
  {
    tag := base;
    var next := 2;
    while tag in seen
      invariant 2 <= next && tag == Candidate(base, next - 1)
      invariant forall m :: 1 <= m < next - 1 ==> Candidate(base, m) in seen
      invariant next - 2 <= |seen|
      decreases |seen| + 2 - next
    {
      TakenAreFew(base, next - 1, seen);
      tag := base + " (" + Decimal(next) + ")";
      next := next + 1;
    }
    assert FirstFreeAt(base, seen, tag, next - 1);
  }

  // ----- resolving a whole list -----

  /** An option: its own tag, possibly empty, and everything else about it. */
  datatype Opt = Opt(tag: string, body: nat)

  const ZERO_OPT := Opt("", 0)

  ghost predicate TakesFirstFree(base: string, seen: set<string>, tag: string) {
    exists n :: FirstFreeAt(base, seen, tag, n)
  }

  lemma FirstFreeUnique(base: string, seen: set<string>, tag: string, other: string)
    requires TakesFirstFree(base, seen, tag) && TakesFirstFree(base, seen, other)
    ensures tag == other
  {
    var n :| FirstFreeAt(base, seen, tag, n);
    var m :| FirstFreeAt(base, seen, other, m);
    assert n == m;
  }

  /** Every base gets the first of its candidates that no earlier one took. */
  ghost predicate Resolved(bases: seq<string>, tags: seq<string>) {
    |tags| == |bases| && forall i :: 0 <= i < |bases| ==> ResolvedAt(bases, tags, i)
  }

  ghost predicate ResolvedAt(bases: seq<string>, tags: seq<string>, i: nat)
    requires i < |bases| && i < |tags|
  {
    TakesFirstFree(bases[i], Elems(tags[..i]), tags[i])
  }

  lemma ResolvedIsDistinct(bases: seq<string>, tags: seq<string>)
    requires Resolved(bases, tags)
    ensures Distinct(tags)
  {
    forall i, j | 0 <= i < j < |tags| ensures tags[i] != tags[j] {
      assert tags[i] in tags[..j];
      assert ResolvedAt(bases, tags, j);
    }
  }

  /** The resolution is determined by the options. */
  lemma {:induction false} ResolvedIsUnique(bases: seq<string>, tags: seq<string>, other: seq<string>, k: nat)
    requires Resolved(bases, tags) && Resolved(bases, other) && k <= |bases|
    ensures tags[..k] == other[..k]
  {
    if 0 < k {
      ResolvedIsUnique(bases, tags, other, k - 1);
      assert ResolvedAt(bases, tags, k - 1) && ResolvedAt(bases, other, k - 1);
      FirstFreeUnique(bases[k - 1], Elems(tags[..k - 1]), tags[k - 1], other[k - 1]);
      assert tags[..k] == tags[..k - 1] + [tags[k - 1]];
      assert other[..k] == other[..k - 1] + [other[k - 1]];
    }
  }

  /** A tag is kept as written exactly when no earlier option ended up with it. */
  lemma KeptAsWrittenIff(bases: seq<string>, tags: seq<string>, i: nat)
    requires Resolved(bases, tags) && i < |bases|
    ensures tags[i] == bases[i] <==> bases[i] !in tags[..i]
  {
    assert ResolvedAt(bases, tags, i);
    var n :| FirstFreeAt(bases[i], Elems(tags[..i]), tags[i], n);
    assert Candidate(bases[i], 1) == bases[i];
    if 1 < n {
      assert Candidate(bases[i], 1) in Elems(tags[..i]);
    }
  }

  lemma ResolvedExtends(bases: seq<string>, tags: seq<string>, base: string, tag: string)
    requires Resolved(bases, tags) && TakesFirstFree(base, Elems(tags), tag)
    ensures Resolved(bases + [base], tags + [tag])
  {
    var b, t := bases + [base], tags + [tag];
    forall j | 0 <= j < |b| ensures ResolvedAt(b, t, j) {
      if j < |bases| {
        assert t[..j] == tags[..j];
        assert ResolvedAt(bases, tags, j);
      } else {
        assert t[..j] == tags;
      }
    }
  }

  /** `auto` is "" for outbounds and "endpoint-" for endpoints. */
  function BaseTag(provider: string, auto: string, opt: Opt, i: nat): string {
    provider + "/" + (if opt.tag != "" then opt.tag else auto + Decimal(i))
  }

  function BaseTags(provider: string, auto: string, opts: seq<Opt>): seq<string> {
    seq(|opts|, i requires 0 <= i < |opts| => BaseTag(provider, auto, opts[i], i))
  }

  /** Names as they are written out, for a provider "p". */
  lemma LiteralNames()
    ensures Decimal(10) == "10"
    ensures Candidate("p/a", 1) == "p/a" && Candidate("p/a", 2) == "p/a (2)"
    ensures BaseTag("p", "", Opt("a", 0), 3) == "p/a" && BaseTag("p", "", Opt("", 0), 3) == "p/3"
    ensures BaseTag("p", "endpoint-", Opt("", 0), 3) == "p/endpoint-3"
  {
    assert Decimal(1) == "1" && Decimal(2) == "2" && Decimal(3) == "3";
    assert "p/a" + " (" + "2" + ")" == "p/a (2)";
    assert "p" + "/" + "a" == "p/a" && "" + "3" == "3" && "p" + "/" + "3" == "p/3";
    assert "endpoint-" + "3" == "endpoint-3" && "p" + "/" + "endpoint-3" == "p/endpoint-3";
  }

  method ResolveTags(provider: string, auto: string, opts: seq<Opt>) returns (tags: seq<string>)
    ensures Resolved(BaseTags(provider, auto, opts), tags) && Distinct(tags)
  {
    tags := [];
    var seen: set<string> := {};
    ghost var bases := BaseTags(provider, auto, opts);
    for i := 0 to |opts|
      invariant seen == Elems(tags) && Resolved(bases[..i], tags)
    {
      var base := BaseTag(provider, auto, opts[i], i);
      var tag := FirstFree(base, seen);
      assert TakesFirstFree(base, seen, tag);
      ResolvedExtends(bases[..i], tags, base, tag);
      assert bases[..i + 1] == bases[..i] + [base];
      tags := tags + [tag];
      seen := seen + {tag};
    }
    assert bases[..|opts|] == bases;
    ResolvedIsDistinct(bases, tags);
  }

  // ----- updating the provider -----

  /** What the outside world does with one option: the object the registry builds, and the calls that may fail. */
  datatype Attempt = Attempt(id: nat, deps: seq<string>, built: bool, startOk: bool, closeOk: bool)

  /** The ids of the attempts from `i` on are not in use. */
  ghost predicate FreshFrom(env: seq<Attempt>, i: nat, registered: seq<Outbound>) {
    && (forall j, k :: 0 <= j < k < |env| ==> env[j].id != env[k].id)
    && (forall j, o :: i <= j < |env| && o in registered ==> env[j].id != o.id)
  }

  lemma FreshNext(env: seq<Attempt>, i: nat, before: seq<Outbound>, after: seq<Outbound>)
    requires i < |env| && FreshFrom(env, i, before) && forall o :: o in after ==> o in before || o.id == env[i].id
    ensures FreshFrom(env, i + 1, after)
  {
  }

  function Lookup(byTag: map<string, Outbound>, endpoints: map<string, Outbound>, tag: string): Option<Outbound> {
    if tag in byTag then Some(byTag[tag]) else if tag in endpoints then Some(endpoints[tag]) else None
  }

  function OldOpt(oldOpts: seq<Opt>, tag: string): Opt {
    if oldOpts == [] then ZERO_OPT
    else if oldOpts[|oldOpts| - 1].tag == tag then oldOpts[|oldOpts| - 1]
    else OldOpt(oldOpts[..|oldOpts| - 1], tag)
  }

  /** Whether the manager can build and register it; a registered one of the same tag is closed first. */
  predicate Buildable(tag: string, env: Attempt, started: bool, taken: bool) {
    tag != "" && env.built && (started ==> env.startOk && (taken ==> env.closeOk))
  }

  /** All that an update depends on. */
  datatype Plan = Plan(
    registry: map<string, Outbound>, endpoints: map<string, Outbound>, started: bool, tags: seq<string>,
    active: set<string>, opts: seq<Opt>, oldOpts: seq<Opt>, env: seq<Attempt>)

  predicate Matched(p: Plan) { |p.tags| == |p.opts| == |p.env| }

  /** What option `i` comes to: the registered outbound when it is this provider's and unchanged, else a new one. */
  function Expected(p: Plan, i: nat): Option<Outbound>
    requires Matched(p) && i < |p.tags|
  {
    UpdatedOne(p.registry, p.endpoints, p.started, p.tags[i], p.tags[i] in p.active,
               p.opts[i] == OldOpt(p.oldOpts, p.opts[i].tag), p.env[i])
  }

  function UpdatedOne(
    registry: map<string, Outbound>, endpoints: map<string, Outbound>, started: bool, tag: string, active: bool,
    sameOpt: bool, env: Attempt): Option<Outbound>
  {
    if active && sameOpt && Lookup(registry, endpoints, tag).Some? then Lookup(registry, endpoints, tag)
    else if Buildable(tag, env, started, tag in registry) then Some(Outbound(env.id, tag, env.deps))
    else None
  }

  /**
   * An unchanged option of the provider's own keeps what is registered, or the endpoint of its tag. Any other gets a
   * new outbound exactly when the registry builds it and, once started, its start and the old one's close succeed.
   */
  lemma UpdatedOneSays(
    registry: map<string, Outbound>, endpoints: map<string, Outbound>, started: bool, tag: string, active: bool,
    sameOpt: bool, env: Attempt)
    ensures
      var r := UpdatedOne(registry, endpoints, started, tag, active, sameOpt, env);
      && (active && sameOpt && tag in registry ==> r == Some(registry[tag]))
      && (active && sameOpt && tag !in registry && tag in endpoints ==> r == Some(endpoints[tag]))
      && (!active || !sameOpt || (tag !in registry && tag !in endpoints) ==>
            && (r.Some? <==>
                  tag != "" && env.built && (!started || (env.startOk && (tag !in registry || env.closeOk))))
            && (r.Some? ==> r.value.id == env.id && r.value.tag == tag && r.value.deps == env.deps))
  {
  }

  /** The list is what the first `n` options come to, in their order; `kept` are the options that came to something. */
  ghost predicate Follows(list: seq<Outbound>, kept: seq<nat>, p: Plan, n: nat)
    requires Matched(p) && n <= |p.tags|
  {
    && |kept| == |list|
    && (forall i, j :: 0 <= i < j < |kept| ==> kept[i] < kept[j])
    && (forall k :: 0 <= k < |kept| ==> kept[k] < n && Expected(p, kept[k]) == Some(list[k]))
    && (forall i :: 0 <= i < n && Expected(p, i).Some? ==> i in kept)
  }

  lemma FollowsNext(list: seq<Outbound>, kept: seq<nat>, p: Plan, n: nat)
    requires Matched(p) && n < |p.tags| && Follows(list, kept, p, n)
    ensures Expected(p, n).None? ==> Follows(list, kept, p, n + 1)
    ensures Expected(p, n).Some? ==> Follows(list + [Expected(p, n).value], kept + [n], p, n + 1)
  {
    var kept' := kept + [n];
    assert forall i :: i in kept ==> i in kept';
    assert kept'[|kept|] == n;
  }

  /** Only the registry's entries for the tags of the options matter. */
  lemma SamePlan(list: seq<Outbound>, kept: seq<nat>, p: Plan, registry: map<string, Outbound>)
    requires Matched(p) && Follows(list, kept, p, |p.tags|)
    requires forall t :: t in p.tags ==>
      (t in registry <==> t in p.registry) && (t in registry ==> registry[t] == p.registry[t])
    ensures Follows(list, kept, p.(registry := registry), |p.tags|)
  {
    var q := p.(registry := registry);
    forall i | 0 <= i < |p.tags| ensures Expected(q, i) == Expected(p, i) {
      assert p.tags[i] in p.tags;
    }
  }

  class Adapter {
    const providerTag: string
    const manager: Manager
    const endpoints: map<string, Outbound>
    var outbounds: seq<Outbound>
    var outboundsByTag: map<string, Outbound>

    constructor (providerTag: string, manager: Manager, endpoints: map<string, Outbound>)
      ensures outbounds == [] && outboundsByTag == map[]
      ensures this.providerTag == providerTag && this.manager == manager && this.endpoints == endpoints
    {
      this.providerTag := providerTag;
      this.manager := manager;
      this.endpoints := endpoints;
      outbounds, outboundsByTag := [], map[];
    }

    /** Unregisters one tag; the manager's error, if any, is only logged. */
    method Unregister(tag: string)
      requires manager.Valid()
      modifies manager
      ensures manager.Valid() && manager.started == old(manager.started)
      ensures manager.outboundByTag == old(manager.outboundByTag) - {tag}
      ensures forall o :: o in manager.outbounds ==> o in old(manager.outbounds)
    {
      if tag in manager.outboundByTag {
        WithoutKeeps(manager.outbounds, manager.outboundByTag[tag]);
      }
      var _ := manager.Remove(tag, true);
    }

    ghost function Dropped(n: nat, newTags: seq<string>): set<string>
      requires n <= |outbounds|
      reads this
    {
      set i | 0 <= i < n && outbounds[i].tag !in newTags :: outbounds[i].tag
    }

    /** Removes from the manager what this provider had and no longer lists. */
    method RemoveUseless(newTags: seq<string>)
      requires manager.Valid()
      modifies manager
      ensures manager.Valid() && manager.started == old(manager.started)
      ensures manager.outboundByTag == old(manager.outboundByTag) - Dropped(|outbounds|, newTags)
      ensures forall o :: o in manager.outbounds ==> o in old(manager.outbounds)
    {
      for n := 0 to |outbounds|
        invariant manager.Valid() && manager.started == old(manager.started)
        invariant manager.outboundByTag == old(manager.outboundByTag) - Dropped(n, newTags)
        invariant forall o :: o in manager.outbounds ==> o in old(manager.outbounds)
      {
        var tag := outbounds[n].tag;
        if tag !in newTags {
          assert Dropped(n + 1, newTags) == Dropped(n, newTags) + {tag};
          Unregister(tag);
        } else {
          assert Dropped(n + 1, newTags) == Dropped(n, newTags);
        }
      }
    }

    /**
     * One option of an update: reuse what is registered when this provider owns it and the option did not
     * change, otherwise build and register anew; a failed build drops what the provider owned.
     */
    method UpdateOne(tag: string, active: bool, sameOpt: bool, env: Attempt) returns (r: Option<Outbound>)
      requires manager.Valid()
      requires forall o :: o in manager.outbounds ==> o.id != env.id
      modifies manager
      ensures manager.Valid() && manager.started == old(manager.started)
      ensures manager.outboundByTag - {tag} == old(manager.outboundByTag) - {tag}
      ensures forall o :: o in manager.outbounds ==> o in old(manager.outbounds) || o.id == env.id
      ensures r == old(UpdatedOne(manager.outboundByTag, endpoints, manager.started, tag, active, sameOpt, env))
      ensures r.Some? ==> Lookup(manager.outboundByTag, endpoints, tag) == r
      ensures r.None? && active ==> tag !in manager.outboundByTag
      ensures r.None? && !active ==> manager.outboundByTag == old(manager.outboundByTag)
    {
      r := Lookup(manager.outboundByTag, endpoints, tag);
      if r.Some? && active && sameOpt {
        return;
      }
      var made := Outbound(env.id, tag, env.deps);
      if tag in manager.outboundByTag {
        WithoutKeeps(manager.outbounds, manager.outboundByTag[tag]);
      }
      var created := manager.Create(tag, if env.built then Some(made) else None, env.startOk, env.closeOk);
      if created.Ok? {
        return Lookup(manager.outboundByTag, endpoints, tag);
      }
      if active {
        Unregister(tag);
      }
      return None;
    }

    function ActiveTags(): set<string>
      reads this
    {
      set o | o in outbounds :: o.tag
    }

    ghost function PlanOf(
      newTags: seq<string>, active: set<string>, newOpts: seq<Opt>, oldOpts: seq<Opt>, env: seq<Attempt>): Plan
      reads manager
    {
      Plan(manager.outboundByTag, endpoints, manager.started, newTags, active, newOpts, oldOpts, env)
    }

    /** The loop of an update over the options, after the useless outbounds are gone. */
    method Rebuild(oldOpts: seq<Opt>, newOpts: seq<Opt>, newTags: seq<string>, active: set<string>, env: seq<Attempt>)
      returns (list: seq<Outbound>, byTag: map<string, Outbound>, ghost kept: seq<nat>)
      requires manager.Valid() && |env| == |newOpts| == |newTags| && FreshFrom(env, 0, manager.outbounds)
      requires Distinct(newTags) && forall t :: t in endpoints ==> endpoints[t].tag == t
      modifies manager
      ensures manager.Valid() && manager.started == old(manager.started)
      ensures Rebuilt(
        old(PlanOf(newTags, active, newOpts, oldOpts, env)), |newTags|, list, byTag, kept, manager.outboundByTag)
    {
      list, byTag, kept := [], map[], [];
      ghost var plan := PlanOf(newTags, active, newOpts, oldOpts, env);
      for i := 0 to |newOpts|
        invariant manager.Valid() && manager.started == plan.started
        invariant FreshFrom(env, i, manager.outbounds)
        invariant Rebuilt(plan, i, list, byTag, kept, manager.outboundByTag)
      {
        var tag := newTags[i];
        ghost var before, registered := manager.outboundByTag, manager.outbounds;
        UntouchedSoFar(plan, i, list, byTag, kept, before);
        var r := UpdateOne(tag, tag in active, newOpts[i] == OldOpt(oldOpts, newOpts[i].tag), env[i]);
        RebuildsNext(plan, i, list, byTag, kept, before, manager.outboundByTag);
        FreshNext(env, i, registered, manager.outbounds);
        if r.Some? {
          list := list + [r.value];
          byTag := byTag[tag := r.value];
          kept := kept + [i];
        }
      }
    }

    method UpdateOutbounds(oldOpts: seq<Opt>, newOpts: seq<Opt>, env: seq<Attempt>)
      returns (newTags: seq<string>, ghost kept: seq<nat>)
      requires manager.Valid() && |env| == |newOpts| && FreshFrom(env, 0, manager.outbounds)
      requires forall t :: t in endpoints ==> endpoints[t].tag == t
      modifies this, manager
      ensures manager.Valid() && manager.started == old(manager.started)
      ensures Resolved(BaseTags(providerTag, "", newOpts), newTags) && Distinct(newTags)
      ensures Agree(outbounds, outboundsByTag) && |newTags| == |newOpts|
      ensures Follows(outbounds, kept, old(PlanOf(newTags, ActiveTags(), newOpts, oldOpts, env)), |newTags|)
      ensures Registered(outboundsByTag, manager.outboundByTag, endpoints, newTags)
      ensures SameOutside(manager.outboundByTag, old(manager.outboundByTag), newTags + old(TagsOf(outbounds)))
      ensures forall t :: t in old(TagsOf(outbounds)) && t !in newTags ==> t !in manager.outboundByTag
    {
      newTags := ResolveTags(providerTag, "", newOpts);
      var active := ActiveTags();
      RemoveUseless(newTags);
      ghost var swept := manager.outboundByTag;
      var list, byTag;
      list, byTag, kept := Rebuild(oldOpts, newOpts, newTags, active, env);
      RebuiltAll(Plan(swept, endpoints, manager.started, newTags, active, newOpts, oldOpts, env), list, byTag, kept,
                 manager.outboundByTag);
      SamePlan(list, kept, Plan(swept, endpoints, manager.started, newTags, active, newOpts, oldOpts, env),
               old(manager.outboundByTag));
      UpdateFrame(old(manager.outboundByTag), swept, manager.outboundByTag, outbounds,
                  Dropped(|outbounds|, newTags), newTags);
      outbounds := list;
      outboundsByTag := byTag;
    }
  }

  // ----- what an update leaves behind -----

  function TagsOf(list: seq<Outbound>): seq<string> { seq(|list|, i requires 0 <= i < |list| => list[i].tag) }

  /** What the provider hands out is what the manager finds under the same tag. */
  ghost predicate Registered(
    byTag: map<string, Outbound>, registry: map<string, Outbound>, endpoints: map<string, Outbound>, tags: seq<string>)
  {
    forall t :: t in byTag ==> t in tags && Lookup(registry, endpoints, t) == Some(byTag[t])
  }

  ghost predicate SameOutside(a: map<string, Outbound>, b: map<string, Outbound>, tags: seq<string>) {
    forall t :: t !in tags ==> (t in a <==> t in b) && (t in a ==> a[t] == b[t])
  }

  lemma OnlyOneChanged(
    byTag: map<string, Outbound>, before: map<string, Outbound>, after: map<string, Outbound>,
    first: map<string, Outbound>, endpoints: map<string, Outbound>, done: seq<string>, tag: string)
    requires tag !in done && after - {tag} == before - {tag}
    requires Registered(byTag, before, endpoints, done) && SameOutside(before, first, done)
    ensures Registered(byTag, after, endpoints, done + [tag]) && SameOutside(after, first, done + [tag])
  {
    assert forall t :: t != tag ==> (t in after <==> t in after - {tag}) && (t in before <==> t in before - {tag});
    assert forall t :: t != tag && t in after ==> (after - {tag})[t] == after[t] && (before - {tag})[t] == before[t];
    assert tag !in byTag;
  }

  /** Where the loop of an update stands before option `i`. */
  ghost predicate Rebuilt(
    p: Plan, i: nat, list: seq<Outbound>, byTag: map<string, Outbound>, kept: seq<nat>, registry: map<string, Outbound>)
    requires Matched(p) && i <= |p.tags|
  {
    && Agree(list, byTag) && Follows(list, kept, p, i)
    && Registered(byTag, registry, p.endpoints, p.tags[..i]) && SameOutside(registry, p.registry, p.tags[..i])
  }

  lemma RebuiltAll(
    p: Plan, list: seq<Outbound>, byTag: map<string, Outbound>, kept: seq<nat>, registry: map<string, Outbound>)
    requires Matched(p) && Rebuilt(p, |p.tags|, list, byTag, kept, registry)
    ensures Agree(list, byTag) && Follows(list, kept, p, |p.tags|)
    ensures Registered(byTag, registry, p.endpoints, p.tags) && SameOutside(registry, p.registry, p.tags)
  {
    assert p.tags[..|p.tags|] == p.tags;
  }

  lemma UntouchedSoFar(
    p: Plan, i: nat, list: seq<Outbound>, byTag: map<string, Outbound>, kept: seq<nat>, registry: map<string, Outbound>)
    requires Matched(p) && i < |p.tags| && Distinct(p.tags) && Rebuilt(p, i, list, byTag, kept, registry)
    ensures UpdatedOne(registry, p.endpoints, p.started, p.tags[i], p.tags[i] in p.active,
                       p.opts[i] == OldOpt(p.oldOpts, p.opts[i].tag), p.env[i]) == Expected(p, i)
  {
    assert p.tags[i] !in p.tags[..i];
  }

  lemma RebuildsNext(
    p: Plan, i: nat, list: seq<Outbound>, byTag: map<string, Outbound>, kept: seq<nat>, before: map<string, Outbound>,
    after: map<string, Outbound>)
    requires Matched(p) && i < |p.tags| && Distinct(p.tags) && Rebuilt(p, i, list, byTag, kept, before)
    requires after - {p.tags[i]} == before - {p.tags[i]} && forall t :: t in p.endpoints ==> p.endpoints[t].tag == t
    requires forall t :: t in p.registry ==> p.registry[t].tag == t
    requires Expected(p, i).Some? ==> Lookup(after, p.endpoints, p.tags[i]) == Expected(p, i)
    ensures
      var r := Expected(p, i);
      if r.None? then Rebuilt(p, i + 1, list, byTag, kept, after)
      else Rebuilt(p, i + 1, list + [r.value], byTag[p.tags[i] := r.value], kept + [i], after)
  {
    var tag := p.tags[i];
    assert p.tags[..i + 1] == p.tags[..i] + [tag];
    assert tag !in p.tags[..i];
    OnlyOneChanged(byTag, before, after, p.registry, p.endpoints, p.tags[..i], tag);
    FollowsNext(list, kept, p, i);
    if Expected(p, i).Some? {
      AppendAgrees(list, byTag, Expected(p, i).value);
    }
  }

  lemma UpdateFrame(
    first: map<string, Outbound>, swept: map<string, Outbound>, last: map<string, Outbound>,
    owned: seq<Outbound>, dropped: set<string>, newTags: seq<string>)
    requires dropped == set i | 0 <= i < |owned| && owned[i].tag !in newTags :: owned[i].tag
    requires swept == first - dropped && SameOutside(last, swept, newTags)
    ensures SameOutside(last, first, newTags + TagsOf(owned))
    ensures forall t :: t in TagsOf(owned) && t !in newTags ==> t !in last
  {
    forall t | t in dropped ensures t in TagsOf(owned) {
      var i :| 0 <= i < |owned| && owned[i].tag == t;
      assert TagsOf(owned)[i] == t;
    }
    forall t | t in TagsOf(owned) && t !in newTags ensures t in dropped {
      var i :| 0 <= i < |owned| && TagsOf(owned)[i] == t;
      assert owned[i].tag == t;
    }
  }
}
