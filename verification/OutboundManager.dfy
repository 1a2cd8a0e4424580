/**
 * The outbound manager's registry: an ordered list and a tag map that must hold the same outbounds, and the
 * default outbound. The endpoint manager is seen as a list.
 */
module OutboundManager {
  import opened Prelude
  import StartOrder

  /** `id` stands for object identity, by which the source compares outbounds. */
  datatype Outbound = Outbound(id: nat, tag: string, deps: seq<string>)

  datatype Failure =
    | Invalid          // os.ErrInvalid
    | Registry         // the registry could not build the outbound
    | StartError
    | CloseError
    | DefaultNotFound
    | FallbackError
    | DependedBy
    | Scheduler(outcome: StartOrder.Outcome)
    | Panic            // "invalid inbound index"

  // ----- list and tag map -----

  /** Same outbounds on both sides, each under its own tag. */
  ghost predicate Agree(list: seq<Outbound>, byTag: map<string, Outbound>) {
    && (forall i, j :: 0 <= i < j < |list| ==> list[i].tag != list[j].tag)
    && (forall i :: 0 <= i < |list| ==> list[i].tag in byTag && byTag[list[i].tag] == list[i])
    && (forall t :: t in byTag ==> byTag[t] in list && byTag[t].tag == t)
  }

  function Without(list: seq<Outbound>, x: Outbound): seq<Outbound> {
    if list == [] then [] else if list[0] == x then list[1..] else [list[0]] + Without(list[1..], x)
  }

  function Replaced(list: seq<Outbound>, byTag: map<string, Outbound>, made: Outbound): seq<Outbound> {
    (if made.tag in byTag then Without(list, byTag[made.tag]) else list) + [made]
  }

  lemma {:induction false} WithoutAt(list: seq<Outbound>, x: Outbound, i: nat)
    requires i < |list| && list[i] == x && x !in list[..i]
    ensures Without(list, x) == list[..i] + list[i + 1..]
  {
    if 0 < i {
      assert list[..i][0] == list[0];
      assert x !in list[1..][..i - 1] by {
        assert list[1..][..i - 1] == list[..i][1..];
      }
      WithoutAt(list[1..], x, i - 1);
    }
  }

  lemma {:induction false} WithoutKeeps(list: seq<Outbound>, x: Outbound)
    requires forall i, j :: 0 <= i < j < |list| ==> list[i].tag != list[j].tag
    ensures
      var w := Without(list, x);
      && (forall i, j :: 0 <= i < j < |w| ==> w[i].tag != w[j].tag)
      && (forall o :: o in w <==> o in list && o != x)
  {
    if list != [] && list[0] != x {
      WithoutKeeps(list[1..], x);
      var rest := Without(list[1..], x);
      assert forall i :: 0 <= i < |rest| ==> rest[i] in list[1..];
    }
  }

  lemma RemoveAgrees(list: seq<Outbound>, byTag: map<string, Outbound>, tag: string)
    requires Agree(list, byTag) && tag in byTag
    ensures Agree(Without(list, byTag[tag]), byTag - {tag})
  {
    WithoutKeeps(list, byTag[tag]);
    var w := Without(list, byTag[tag]);
    forall i | 0 <= i < |w| ensures w[i] in list && w[i].tag != tag {
      assert w[i] in w;
    }
  }

  lemma AppendAgrees(list: seq<Outbound>, byTag: map<string, Outbound>, made: Outbound)
    requires Agree(list, byTag) && made.tag !in byTag
    ensures Agree(list + [made], byTag[made.tag := made])
  {
    var longer, wider := list + [made], byTag[made.tag := made];
    forall t | t in wider ensures wider[t] in longer && wider[t].tag == t {
      if t != made.tag {
        assert byTag[t] in list;
      }
    }
  }

  /** Registering an outbound, new or in place of another, keeps list and map in agreement. */
  lemma CreateAgrees(list: seq<Outbound>, byTag: map<string, Outbound>, made: Outbound)
    requires Agree(list, byTag) && made !in list
    ensures Agree(Replaced(list, byTag, made), byTag[made.tag := made])
  {
    if made.tag in byTag {
      RemoveAgrees(list, byTag, made.tag);
      AppendAgrees(Without(list, byTag[made.tag]), byTag - {made.tag}, made);
      assert (byTag - {made.tag})[made.tag := made] == byTag[made.tag := made];
    } else {
      AppendAgrees(list, byTag, made);
    }
  }

  /** Close empties the list and leaves the map, so it keeps the agreement only when there was nothing to close. */
  lemma CloseAgreesIff(list: seq<Outbound>, byTag: map<string, Outbound>)
    requires Agree(list, byTag)
    ensures Agree([], byTag) <==> list == []
  {
    if list != [] {
      assert list[0].tag in byTag;
    }
  }

  // ----- the default outbound -----

  function DefaultAfterCreate(defaultTag: string, default: Option<Outbound>, made: Outbound): Option<Outbound> {
    if made.tag == defaultTag || (defaultTag == "" && default.None?) then Some(made) else default
  }

  /** The default after a whole run of successful registrations on a new manager. */
  ghost function DefaultAfterAll(defaultTag: string, made: seq<Outbound>): Option<Outbound>
    decreases |made|
  {
    if made == [] then None
    else
      var n := |made| - 1;
      DefaultAfterCreate(defaultTag, DefaultAfterAll(defaultTag, made[..n]), made[n])
  }

  lemma DefaultSnoc(defaultTag: string, made: seq<Outbound>, o: Outbound)
    ensures DefaultAfterAll(defaultTag, made + [o]) ==
      DefaultAfterCreate(defaultTag, DefaultAfterAll(defaultTag, made), o)
  {
    assert (made + [o])[..|made|] == made;
  }

  /** The last outbound made under the tag, or None when there is none. */
  ghost predicate IsLastUnder(made: seq<Outbound>, tag: string, default: Option<Outbound>) {
    match default
    case None => forall i :: 0 <= i < |made| ==> made[i].tag != tag
    case Some(o) =>
      exists i :: 0 <= i < |made| && made[i] == o && o.tag == tag && forall j :: i < j < |made| ==> made[j].tag != tag
  }

  /** A configured tag gives the last outbound made under it; without one, it is the first outbound made at all. */
  ghost predicate RightDefault(defaultTag: string, made: seq<Outbound>, default: Option<Outbound>) {
    if defaultTag != "" then IsLastUnder(made, defaultTag, default)
    else default == if made == [] then None else Some(made[0])
  }

  lemma {:induction false} DefaultOfRun(defaultTag: string, made: seq<Outbound>)
    requires forall o :: o in made ==> o.tag != ""
    ensures RightDefault(defaultTag, made, DefaultAfterAll(defaultTag, made))
    decreases |made|
  {
    if made != [] {
      var before, last := made[..|made| - 1], made[|made| - 1];
      DefaultOfRun(defaultTag, before);
      assert last in made;
      assert forall i :: 0 <= i < |before| ==> made[i] == before[i];
    }
  }

  /** A call of Create: what the registry builds for the tag, and whether its Start and the old one's Close succeed. */
  datatype Call = Call(tag: string, made: Option<Outbound>, startOk: bool, closeOk: bool)

  /** The registry builds a new object every time, under the tag it is asked for. */
  ghost predicate NewObjects(calls: seq<Call>) {
    && (forall i :: 0 <= i < |calls| && calls[i].made.Some? ==> calls[i].made.value.tag == calls[i].tag)
    && (forall i, j :: 0 <= i < j < |calls| && calls[i].made.Some? && calls[j].made.Some? ==>
          calls[i].made.value != calls[j].made.value)
  }

  /** What the calls that succeeded have made, in order. */
  ghost function Successes(calls: seq<Call>, ok: seq<bool>): seq<Outbound>
    requires |calls| == |ok|
    decreases |calls|
  {
    if calls == [] then []
    else
      var n := |calls| - 1;
      Successes(calls[..n], ok[..n]) + if ok[n] && calls[n].made.Some? then [calls[n].made.value] else []
  }

  lemma SuccessesSnoc(calls: seq<Call>, ok: seq<bool>, i: nat, good: bool)
    requires i < |calls| && |ok| == i
    ensures |ok + [good]| == i + 1
    ensures Successes(calls[..i + 1], ok + [good]) ==
      Successes(calls[..i], ok) + if good && calls[i].made.Some? then [calls[i].made.value] else []
  {
    assert calls[..i + 1][..i] == calls[..i] && (ok + [good])[..i] == ok;
  }

  ghost predicate Sources(calls: seq<Call>, n: nat, made: seq<Outbound>) {
    forall o :: o in made ==> o.tag != "" && exists k :: 0 <= k < n && k < |calls| && calls[k].made == Some(o)
  }

  lemma SourcesSnoc(calls: seq<Call>, n: nat, made: seq<Outbound>, more: seq<Outbound>)
    requires n < |calls| && Sources(calls, n, made)
    requires more == [] || (calls[n].made.Some? && calls[n].made.value.tag != "" && more == [calls[n].made.value])
    ensures Sources(calls, n + 1, made + more)
  {
    forall o | o in made + more
      ensures o.tag != "" && exists k :: 0 <= k < n + 1 && k < |calls| && calls[k].made == Some(o)
    {
      if o in made {
        var k :| 0 <= k < n && k < |calls| && calls[k].made == Some(o);
      } else {
        assert calls[n].made == Some(o);
      }
    }
  }

  lemma IsNew(calls: seq<Call>, n: nat, made: seq<Outbound>)
    requires n < |calls| && NewObjects(calls) && Sources(calls, n, made) && calls[n].made.Some?
    ensures calls[n].made.value !in made
  {
  }

  lemma {:induction false} WithoutIsPart(list: seq<Outbound>, x: Outbound)
    ensures forall o :: o in Without(list, x) ==> o in list
  {
    if list != [] && list[0] != x {
      WithoutIsPart(list[1..], x);
    }
  }

  lemma ReplacedIsPart(list: seq<Outbound>, byTag: map<string, Outbound>, made: Outbound, all: seq<Outbound>)
    requires forall o :: o in list ==> o in all
    ensures forall o :: o in Replaced(list, byTag, made) ==> o in all + [made]
  {
    if made.tag in byTag {
      WithoutIsPart(list, byTag[made.tag]);
    }
  }

  /** On a manager that has not started, a call fails only for want of a tag or of an outbound. */
  ghost predicate OkExactly(calls: seq<Call>, ok: seq<bool>) {
    forall k :: 0 <= k < |ok| && k < |calls| ==> (ok[k] <==> calls[k].tag != "" && calls[k].made.Some?)
  }

  /** After the calls in `ok`: what was made, that the list holds nothing else, and the default. */
  ghost predicate SoFar(
    calls: seq<Call>, ok: seq<bool>, made: seq<Outbound>, list: seq<Outbound>, defaultTag: string,
    default: Option<Outbound>)
  {
    && |ok| <= |calls| && made == Successes(calls[..|ok|], ok) && default == DefaultAfterAll(defaultTag, made)
    && Sources(calls, |ok|, made) && forall o :: o in list ==> o in made
  }

  lemma SoFarFails(
    calls: seq<Call>, ok: seq<bool>, made: seq<Outbound>, list: seq<Outbound>, defaultTag: string,
    default: Option<Outbound>)
    requires SoFar(calls, ok, made, list, defaultTag, default) && |ok| < |calls|
    ensures SoFar(calls, ok + [false], made, list, defaultTag, default)
  {
    SuccessesSnoc(calls, ok, |ok|, false);
    SourcesSnoc(calls, |ok|, made, []);
    assert made + [] == made;
  }

  lemma SoFarSucceeds(
    calls: seq<Call>, ok: seq<bool>, made: seq<Outbound>, list: seq<Outbound>, byTag: map<string, Outbound>,
    defaultTag: string, default: Option<Outbound>)
    requires SoFar(calls, ok, made, list, defaultTag, default) && |ok| < |calls|
    requires calls[|ok|].made.Some? && calls[|ok|].made.value.tag != ""
    ensures
      var o := calls[|ok|].made.value;
      SoFar(calls, ok + [true], made + [o], Replaced(list, byTag, o), defaultTag,
            DefaultAfterCreate(defaultTag, default, o))
  {
    var o := calls[|ok|].made.value;
    SuccessesSnoc(calls, ok, |ok|, true);
    SourcesSnoc(calls, |ok|, made, [o]);
    ReplacedIsPart(list, byTag, o, made);
    DefaultSnoc(defaultTag, made, o);
  }

  lemma SoFarNew(
    calls: seq<Call>, ok: seq<bool>, made: seq<Outbound>, list: seq<Outbound>, defaultTag: string,
    default: Option<Outbound>)
    requires SoFar(calls, ok, made, list, defaultTag, default) && |ok| < |calls| && NewObjects(calls)
    ensures calls[|ok|].made.Some? ==> calls[|ok|].made.value !in list && calls[|ok|].made.value.tag == calls[|ok|].tag
  {
    if calls[|ok|].made.Some? {
      IsNew(calls, |ok|, made);
    }
  }

  lemma SoFarRight(
    calls: seq<Call>, ok: seq<bool>, made: seq<Outbound>, list: seq<Outbound>, defaultTag: string,
    default: Option<Outbound>)
    requires SoFar(calls, ok, made, list, defaultTag, default) && |ok| == |calls|
    ensures RightDefault(defaultTag, Successes(calls, ok), default)
  {
    assert calls[..|calls|] == calls;
    DefaultOfRun(defaultTag, made);
  }

  /**
   * A default that was registered stays registered exactly when the new outbound does not replace it, or is
   * itself the configured default; otherwise the manager goes on handing out the replaced one.
   */
  lemma DefaultStaysListedIff(
    list: seq<Outbound>, byTag: map<string, Outbound>, defaultTag: string, default: Outbound, made: Outbound)
    requires Agree(list, byTag) && made !in list && default in list
    ensures DefaultAfterCreate(defaultTag, Some(default), made).value in Replaced(list, byTag, made) <==>
      made.tag != default.tag || made.tag == defaultTag
  {
    if made.tag in byTag {
      WithoutKeeps(list, byTag[made.tag]);
    }
    var i :| 0 <= i < |list| && list[i] == default;
    assert byTag[default.tag] == default;
  }

  /** With no configured default, replacing the first outbound leaves the replaced one as the default. */
  lemma ReplacedDefaultGoesOn()
    ensures
      var first, second := Outbound(1, "a", []), Outbound(2, "a", []);
      && Agree([first], map["a" := first])
      && DefaultAfterCreate("", Some(first), second) == Some(first)
      && first !in Replaced([first], map["a" := first], second)
  {
  }

  // ----- who depends on whom -----

  type Dependents = map<string, seq<string>>

  function DependentsOf(m: Dependents, tag: string): seq<string> { if tag in m then m[tag] else [] }

  function Filtered(tags: seq<string>, tag: string): seq<string> {
    if tags == [] then [] else (if tags[0] != tag then [tags[0]] else []) + Filtered(tags[1..], tag)
  }

  function NotedOne(m: Dependents, tag: string, dep: string): Dependents { m[dep := DependentsOf(m, dep) + [tag]] }

  function ForgottenOne(m: Dependents, tag: string, dep: string): Dependents {
    if |DependentsOf(m, dep)| == 1 then m - {dep} else m[dep := Filtered(DependentsOf(m, dep), tag)]
  }

  function Noted(m: Dependents, tag: string, deps: seq<string>): Dependents {
    if deps == [] then m else NotedOne(Noted(m, tag, deps[..|deps| - 1]), tag, deps[|deps| - 1])
  }

  function Forgotten(m: Dependents, tag: string, deps: seq<string>): Dependents {
    if deps == [] then m else ForgottenOne(Forgotten(m, tag, deps[..|deps| - 1]), tag, deps[|deps| - 1])
  }

  /** Registering makes the outbound a dependent of exactly its dependencies, and loses no other. */
  lemma {:induction false} NotedMembers(m: Dependents, tag: string, deps: seq<string>, dep: string, x: string)
    ensures x in DependentsOf(Noted(m, tag, deps), dep) <==> x in DependentsOf(m, dep) || (x == tag && dep in deps)
  {
    if deps != [] {
      NotedMembers(m, tag, deps[..|deps| - 1], dep, x);
      assert deps == deps[..|deps| - 1] + [deps[|deps| - 1]];
    }
  }

  lemma {:induction false} FilteredKeepsIff(tags: seq<string>, tag: string)
    ensures Filtered(tags + [tag], tag) == Filtered(tags, tag)
    ensures |Filtered(tags, tag)| <= |tags| && (Filtered(tags, tag) == tags <==> tag !in tags)
  {
    if tags != [] {
      FilteredKeepsIff(tags[1..], tag);
      assert (tags + [tag])[1..] == tags[1..] + [tag];
      assert tags == [tags[0]] + tags[1..];
    }
  }

  /** For one dependency, removing undoes registering exactly when the record was clean: no empty list, not listed. */
  lemma ForgettingUndoesNotingIff(m: Dependents, tag: string, dep: string)
    ensures ForgottenOne(NotedOne(m, tag, dep), tag, dep) == m <==>
      dep in m ==> m[dep] != [] && tag !in m[dep]
  {
    FilteredKeepsIff(DependentsOf(m, dep), tag);
    if dep !in m {
      assert m[dep := [tag]] - {dep} == m;
    } else if m[dep] != [] {
      assert NotedOne(m, tag, dep)[dep := m[dep]] == m;
      var back := ForgottenOne(NotedOne(m, tag, dep), tag, dep);
      assert back[dep] == Filtered(m[dep], tag);
    }
  }

  // ----- what the scheduler is given -----

  function NodeOf(o: Outbound): StartOrder.Node { StartOrder.Node(o.tag, o.deps) }

  function NodesOf(list: seq<Outbound>): seq<StartOrder.Node> {
    seq(|list|, i requires 0 <= i < |list| => NodeOf(list[i]))
  }

  function NodeMap(byTag: map<string, Outbound>): map<string, StartOrder.Node> {
    map t | t in byTag :: NodeOf(byTag[t])
  }

  /** The agreement is what makes the scheduler's explanations truthful. */
  lemma AgreementFeedsTheScheduler(list: seq<Outbound>, byTag: map<string, Outbound>, endpoints: seq<Outbound>)
    requires Agree(list, byTag)
    ensures StartOrder.MapListed(NodesOf(list + endpoints), NodeMap(byTag))
    ensures StartOrder.DistinctTags(NodesOf(list))
  {
    var nodes := NodesOf(list + endpoints);
    forall t | t in byTag ensures NodeOf(byTag[t]) in nodes {
      var i :| 0 <= i < |list| && list[i] == byTag[t];
      assert nodes[i] == NodeOf((list + endpoints)[i]);
    }
  }

  /** Everything is started, each outbound after all it depends on. */
  ghost predicate DependenciesFirst(list: seq<Outbound>, order: seq<string>) {
    && (forall o :: o in list ==> o.tag in order)
    && forall o, k, d :: o in list && 0 <= k < |order| && order[k] == o.tag && d in o.deps ==> d in order[..k]
  }

  lemma CompleteStartsInOrder(list: seq<Outbound>, order: seq<string>)
    requires StartOrder.Complete(NodesOf(list), order)
    ensures DependenciesFirst(list, order)
  {
    var nodes := NodesOf(list);
    forall o | o in list ensures NodeOf(o) in nodes && o.tag in order {
      var i :| 0 <= i < |list| && list[i] == o;
      assert nodes[i] == NodeOf(o);
      assert NodeOf(o).tag in StartOrder.Tags(nodes);
      assert o.tag in Elems(order);
    }
    forall o, k, d | o in list && 0 <= k < |order| && order[k] == o.tag && d in o.deps ensures d in order[..k] {
      StartOrder.DependencyComesFirst(nodes, order, NodeOf(o), k);
      assert d in Elems(order[..k]);
    }
  }

  /** Why the start stage finds no default outbound, if it does not. */
  function DefaultFailure(
    defaultTag: string, default: Option<Outbound>, endpoints: seq<Outbound>, fallback: Option<Outbound>)
    : Option<Failure>
  {
    if default.Some? then None
    else if defaultTag != "" then
      if exists e :: e in endpoints && e.tag == defaultTag then None else Some(DefaultNotFound)
    else if fallback.Some? then None else Some(FallbackError)
  }

  /** The scheduler was stuck and says why. */
  predicate Explains(f: Failure) { f.Scheduler? && (f.outcome.Circular? || f.outcome.NotFound?) }

  class Manager {
    const defaultTag: string
    var started: bool
    var outbounds: seq<Outbound>
    var outboundByTag: map<string, Outbound>
    var dependByTag: map<string, seq<string>>
    var defaultOutbound: Option<Outbound>

    /**
     * Kept by every operation except Close. The second part is why the fallback outbound, added at start
     * under its own tag, can never clash with a registered one.
     */
    ghost predicate Valid()
      reads this
    {
      && Agree(outbounds, outboundByTag)
      && (defaultTag == "" && defaultOutbound.None? ==> outbounds == [])
    }

    constructor (defaultTag: string)
      ensures Valid() && outbounds == [] && !started && this.defaultTag == defaultTag
      ensures outboundByTag == map[] && dependByTag == map[] && defaultOutbound == None
    {
      this.defaultTag := defaultTag;
      started := false;
      outbounds, outboundByTag, dependByTag, defaultOutbound := [], map[], map[], None;
    }

    /** Takes an outbound out of the list by identity; the source panics when it is not there. */
    method Unlist(o: Outbound) returns (found: bool)
      modifies `outbounds
      ensures found == (o in old(outbounds))
      ensures outbounds == if found then Without(old(outbounds), o) else old(outbounds)
    {
      for i := 0 to |outbounds|
        invariant o !in outbounds[..i] && outbounds == old(outbounds)
      {
        if outbounds[i] == o {
          WithoutAt(outbounds, o, i);
          outbounds := outbounds[..i] + outbounds[i + 1..];
          return true;
        }
      }
      return false;
    }

    method NoteDependent(o: Outbound)
      modifies `dependByTag
      ensures dependByTag == Noted(old(dependByTag), o.tag, o.deps)
    {
      for i := 0 to |o.deps|
        invariant dependByTag == Noted(old(dependByTag), o.tag, o.deps[..i])
      {
        var d := o.deps[i];
        assert o.deps[..i + 1][..i] == o.deps[..i];
        var known := if d in dependByTag then dependByTag[d] else [];
        dependByTag := dependByTag[d := known + [o.tag]];
      }
      assert o.deps[..|o.deps|] == o.deps;
    }

    method ForgetDependent(tag: string, o: Outbound)
      modifies `dependByTag
      ensures dependByTag == Forgotten(old(dependByTag), tag, o.deps)
    {
      for i := 0 to |o.deps|
        invariant dependByTag == Forgotten(old(dependByTag), tag, o.deps[..i])
      {
        var d := o.deps[i];
        assert o.deps[..i + 1][..i] == o.deps[..i];
        var known := if d in dependByTag then dependByTag[d] else [];
        if |known| == 1 {
          dependByTag := dependByTag - {d};
        } else {
          dependByTag := dependByTag[d := Filtered(known, tag)];
        }
      }
      assert o.deps[..|o.deps|] == o.deps;
    }

    /** `made` is what the registry built for `tag`; the flags are whether its Start and the old one's Close succeed. */
    method Create(tag: string, made: Option<Outbound>, startOk: bool, closeOk: bool) returns (r: Result<(), Failure>)
      requires made.Some? ==> made.value.tag == tag && made.value !in outbounds
      modifies this
      ensures started == old(started)
      ensures old(Valid()) ==> Valid() && r != Err(Panic)
      ensures r == Err(Panic) <==>
        && tag != "" && made.Some? && (started ==> startOk && closeOk)
        && tag in old(outboundByTag) && old(outboundByTag)[tag] !in old(outbounds)
      ensures r.Err? ==>
        && outbounds == old(outbounds) && outboundByTag == old(outboundByTag)
        && dependByTag == old(dependByTag) && defaultOutbound == old(defaultOutbound)
      ensures r.Ok? ==>
        && made.Some? && outbounds == Replaced(old(outbounds), old(outboundByTag), made.value)
        && outboundByTag == old(outboundByTag)[tag := made.value]
        && defaultOutbound == DefaultAfterCreate(defaultTag, old(defaultOutbound), made.value)
        && dependByTag == Noted(old(dependByTag), tag, made.value.deps)
      ensures r.Ok? && (tag == defaultTag || (defaultTag == "" && old(defaultOutbound) == None)) ==>
        defaultOutbound == made
      ensures r.Ok? && tag != defaultTag && (defaultTag != "" || old(defaultOutbound) != None) ==>
        defaultOutbound == old(defaultOutbound)
      ensures r == Err(Invalid) <==> tag == ""
      ensures r == Err(Registry) <==> tag != "" && made.None?
      ensures r == Err(StartError) <==> tag != "" && made.Some? && started && !startOk
      ensures r == Err(CloseError) <==>
        tag != "" && made.Some? && started && startOk && tag in old(outboundByTag) && !closeOk
      ensures r.Err? ==> r.error in {Invalid, Registry, StartError, CloseError, Panic}
    {
      if tag == "" {
        return Err(Invalid);
      }
      if made.None? {
        return Err(Registry);
      }
      var o := made.value;
      if started && !startOk {
        return Err(StartError);
      }
      if old(Valid()) {
        CreateAgrees(outbounds, outboundByTag, o);
      }
      if tag in outboundByTag {
        var existing := outboundByTag[tag];
        if started && !closeOk {
          return Err(CloseError);
        }
        var found := Unlist(existing);
        if !found {
          return Err(Panic);
        }
      }
      outbounds := outbounds + [o];
      outboundByTag := outboundByTag[tag := o];
      NoteDependent(o);
      if tag == defaultTag || (defaultTag == "" && defaultOutbound.None?) {
        defaultOutbound := Some(o);
      }
      return Ok(());
    }

    method CreateNext(calls: seq<Call>, ok: seq<bool>, ghost made: seq<Outbound>)
      returns (good: bool, ghost now: seq<Outbound>)
      requires Valid() && NewObjects(calls) && |ok| < |calls|
      requires SoFar(calls, ok, made, outbounds, defaultTag, defaultOutbound)
      modifies this
      ensures Valid() && started == old(started)
      ensures SoFar(calls, ok + [good], now, outbounds, defaultTag, defaultOutbound)
      ensures !started ==> (good <==> calls[|ok|].tag != "" && calls[|ok|].made.Some?)
    {
      var c := calls[|ok|];
      SoFarNew(calls, ok, made, outbounds, defaultTag, defaultOutbound);
      ghost var list, byTag, default := outbounds, outboundByTag, defaultOutbound;
      var r := Create(c.tag, c.made, c.startOk, c.closeOk);
      good := r.Ok?;
      if good {
        SoFarSucceeds(calls, ok, made, list, byTag, defaultTag, default);
        now := made + [c.made.value];
      } else {
        SoFarFails(calls, ok, made, list, defaultTag, default);
        now := made;
      }
    }

    /** Any calls of Create on a new manager: which of them succeed, and the default outbound they leave behind. */
    method CreateAll(calls: seq<Call>) returns (ok: seq<bool>)
      requires Valid() && outbounds == [] && defaultOutbound == None && NewObjects(calls)
      modifies this
      ensures Valid() && started == old(started) && |ok| == |calls|
      ensures !started ==> OkExactly(calls, ok)
      ensures RightDefault(defaultTag, Successes(calls, ok), defaultOutbound)
    {
      ok := [];
      ghost var made := [];
      for i := 0 to |calls|
        invariant Valid() && started == old(started) && |ok| == i
        invariant !started ==> OkExactly(calls, ok)
        invariant SoFar(calls, ok, made, outbounds, defaultTag, defaultOutbound)
      {
        var good;
        good, made := CreateNext(calls, ok, made);
        ok := ok + [good];
      }
      SoFarRight(calls, ok, made, outbounds, defaultTag, defaultOutbound);
    }

    /** The outbound leaves the registry even when the call ends in the "depended by" error. */
    method Remove(tag: string, closeOk: bool) returns (r: Result<(), Failure>)
      modifies this
      ensures started == old(started)
      ensures old(Valid()) ==> Valid() && r != Err(Panic)
      ensures r == Err(Invalid) <==> tag !in old(outboundByTag)
      ensures r == Err(Invalid) ==> outbounds == old(outbounds) && defaultOutbound == old(defaultOutbound)
      ensures outboundByTag == old(outboundByTag) - {tag}
      ensures r == Err(Panic) <==> tag in old(outboundByTag) && old(outboundByTag)[tag] !in old(outbounds)
      ensures tag in old(outboundByTag) && r != Err(Panic) ==>
        && outbounds == Without(old(outbounds), old(outboundByTag)[tag])
        && defaultOutbound ==
             (if old(defaultOutbound) != Some(old(outboundByTag)[tag]) then old(defaultOutbound)
              else if outbounds == [] then None else Some(outbounds[0]))
      ensures r == Err(DependedBy) <==>
        tag in old(outboundByTag) && r != Err(Panic) && DependentsOf(old(dependByTag), tag) != []
      ensures r == Err(CloseError) <==>
        tag in old(outboundByTag) && r != Err(Panic) && r != Err(DependedBy) && started && !closeOk
      ensures r.Err? ==> r.error in {Invalid, DependedBy, CloseError, Panic}
      ensures dependByTag ==
        if r.Ok? || r == Err(CloseError) then Forgotten(old(dependByTag), tag, old(outboundByTag)[tag].deps)
        else old(dependByTag)
    {
      if tag !in outboundByTag {
        assert outboundByTag - {tag} == outboundByTag;
        return Err(Invalid);
      }
      var o := outboundByTag[tag];
      outboundByTag := outboundByTag - {tag};
      var found := Unlist(o);
      if !found {
        return Err(Panic);
      }
      if old(Valid()) {
        RemoveAgrees(old(outbounds), old(outboundByTag), tag);
      }
      if defaultOutbound == Some(o) {
        defaultOutbound := if outbounds == [] then None else Some(outbounds[0]);
      }
      if tag in dependByTag && dependByTag[tag] != [] {
        return Err(DependedBy);
      }
      ForgetDependent(tag, o);
      if started && !closeOk {
        return Err(CloseError);
      }
      return Ok(());
    }

    /** Settles the default outbound: the configured one, else an endpoint of that tag, else the fallback. */
    method SettleDefault(endpoints: seq<Outbound>, fallback: Option<Outbound>) returns (failure: Option<Failure>)
      requires fallback.Some? ==> fallback.value !in outbounds
      modifies `outbounds, `outboundByTag, `defaultOutbound
      ensures old(Valid()) ==> Valid()
      ensures failure == DefaultFailure(defaultTag, old(defaultOutbound), endpoints, fallback)
      ensures failure.None? <==> defaultOutbound.Some?
      ensures failure == Some(DefaultNotFound) <==>
        old(defaultOutbound) == None && defaultTag != "" && forall e :: e in endpoints ==> e.tag != defaultTag
      ensures failure == Some(FallbackError) <==> old(defaultOutbound) == None && defaultTag == "" && fallback == None
      ensures failure in {None, Some(DefaultNotFound), Some(FallbackError)}
      ensures old(defaultOutbound).Some? ==> defaultOutbound == old(defaultOutbound)
      ensures old(defaultOutbound).None? && failure.None? && defaultTag != "" ==>
        defaultOutbound.value in endpoints && defaultOutbound.value.tag == defaultTag
      ensures if old(defaultOutbound).None? && defaultTag == "" && fallback.Some?
              then defaultOutbound == fallback && outbounds == old(outbounds) + [fallback.value]
                && outboundByTag == old(outboundByTag)[fallback.value.tag := fallback.value]
              else outbounds == old(outbounds) && outboundByTag == old(outboundByTag)
    {
      if defaultTag != "" && defaultOutbound.None? {
        var i := 0;
        while i < |endpoints| && endpoints[i].tag != defaultTag
          invariant 0 <= i <= |endpoints| && forall j :: 0 <= j < i ==> endpoints[j].tag != defaultTag
        {
          i := i + 1;
        }
        if i == |endpoints| {
          return Some(DefaultNotFound);
        }
        defaultOutbound := Some(endpoints[i]);
      }
      if defaultOutbound.None? {
        if fallback.None? {
          return Some(FallbackError);
        }
        var direct := fallback.value;
        outbounds := outbounds + [direct];
        outboundByTag := outboundByTag[direct.tag := direct];
        defaultOutbound := Some(direct);
        if old(Valid()) {
          CreateAgrees(old(outbounds), old(outboundByTag), direct);
        }
      }
      return None;
    }

    /**
     * The start stage: settle the default, adding the fallback outbound when there is none, then start the
     * outbounds and the endpoints in dependency order. `fails` are the tags whose Start returns an error.
     */
    method StartStage(endpoints: seq<Outbound>, fallback: Option<Outbound>, fails: set<string>)
      returns (r: Result<seq<string>, Failure>)
      requires fallback.Some? ==> fallback.value !in outbounds
      modifies this
      ensures old(Valid()) ==> Valid()
      ensures started
      ensures
        var nodes := NodesOf(outbounds + endpoints);
        && (r.Ok? <==>
              && DefaultFailure(defaultTag, old(defaultOutbound), endpoints, fallback).None?
              && StartOrder.DistinctTags(nodes) && StartOrder.Closed(nodes) && StartOrder.Acyclic(nodes)
              && StartOrder.Tags(nodes) !! fails)
        && (r.Ok? ==>
              defaultOutbound.Some? && StartOrder.ValidOrder(nodes, r.value) && StartOrder.Complete(nodes, r.value))
        && (r.Ok? ==> DependenciesFirst(outbounds + endpoints, r.value))
      ensures old(Valid()) && r.Err? && Explains(r.error) ==>
        exists s :: StartOrder.Truthful(NodesOf(outbounds + endpoints), NodeMap(outboundByTag), s, r.error.outcome)
    {
      started := true;
      var failure := SettleDefault(endpoints, fallback);
      if failure.Some? {
        return Err(failure.value);
      }
      var nodes := NodesOf(outbounds + endpoints);
      var outcome, order := StartOrder.StartAll(nodes, NodeMap(outboundByTag), fails);
      if old(Valid()) {
        AgreementFeedsTheScheduler(outbounds, outboundByTag, endpoints);
      }
      if outcome.AllStarted? {
        CompleteStartsInOrder(outbounds + endpoints, order);
      }
      r := if outcome.AllStarted? then Ok(order) else Err(Scheduler(outcome));
    }

    method Close()
      modifies this
      ensures !started
      ensures outbounds == (if old(started) then [] else old(outbounds))
      ensures outboundByTag == old(outboundByTag) && defaultOutbound == old(defaultOutbound)
    {
      if started {
        started := false;
        outbounds := [];
      }
    }
  }
}
