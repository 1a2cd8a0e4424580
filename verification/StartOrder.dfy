/**
 * Dependency-ordered start, shared by the outbound manager and the DNS transport manager: sweep the list,
 * start whatever has all its dependencies started, repeat until nothing changes; when stuck, walk the
 * unstarted dependencies to say why.
 */
module StartOrder {
  import opened Prelude

  /** An outbound, endpoint or transport, as the scheduler sees it. */
  datatype Node = Node(tag: string, deps: seq<string>)

  datatype Outcome =
    | AllStarted
    | StartFailed(tag: string)
    | Circular(path: seq<string>, closing: string)
    | NotFound(dep: string, owner: string)
    | NilNode                       // the nil interface that a list with repeated tags leaves to dereference

  // ----- the dependency graph -----

  ghost function Tags(nodes: seq<Node>): set<string> { set n | n in nodes :: n.tag }

  ghost predicate DistinctTags(nodes: seq<Node>) {
    forall i, j :: 0 <= i < j < |nodes| ==> nodes[i].tag != nodes[j].tag
  }

  ghost predicate Closed(nodes: seq<Node>) {
    forall n, d :: n in nodes && d in n.deps ==> d in Tags(nodes)
  }

  ghost predicate Edge(nodes: seq<Node>, a: string, b: string) {
    exists n :: n in nodes && n.tag == a && b in n.deps
  }

  ghost predicate Walk(nodes: seq<Node>, p: seq<string>) {
    p != [] && forall i :: 0 <= i < |p| - 1 ==> Edge(nodes, p[i], p[i + 1])
  }

  ghost predicate Cycle(nodes: seq<Node>, p: seq<string>) {
    2 <= |p| && Walk(nodes, p) && p[0] == p[|p| - 1]
  }

  ghost predicate Acyclic(nodes: seq<Node>) { forall p :: !Cycle(nodes, p) }

  // ----- start orders -----

  ghost predicate Ready(n: Node, started: set<string>) { forall d :: d in n.deps ==> d in started }

  /** Tags in the order they were started: none twice, each after all its dependencies. */
  ghost predicate ValidOrder(nodes: seq<Node>, order: seq<string>) {
    && (forall i, j :: 0 <= i < j < |order| ==> order[i] != order[j])
    && (forall i :: 0 <= i < |order| ==> StartedReady(nodes, order[i], order[..i]))
  }

  ghost predicate StartedReady(nodes: seq<Node>, tag: string, before: seq<string>) {
    exists n :: n in nodes && n.tag == tag && Ready(n, Elems(before))
  }

  /** Nothing in the list can be started next. */
  ghost predicate Stuck(nodes: seq<Node>, started: set<string>) {
    forall n :: n in nodes && n.tag !in started ==> !Ready(n, started)
  }

  lemma OrderExtends(nodes: seq<Node>, order: seq<string>, n: Node)
    requires ValidOrder(nodes, order) && n in nodes && n.tag !in order && Ready(n, Elems(order))
    ensures ValidOrder(nodes, order + [n.tag])
    ensures Elems(order + [n.tag]) == Elems(order) + {n.tag}
  {
    var longer := order + [n.tag];
    forall i | 0 <= i < |longer| ensures StartedReady(nodes, longer[i], longer[..i]) {
      if i < |order| {
        assert longer[..i] == order[..i];
      } else {
        assert longer[..i] == order;
      }
    }
  }

  lemma OrderWithinTags(nodes: seq<Node>, order: seq<string>)
    requires ValidOrder(nodes, order)
    ensures Elems(order) <= Tags(nodes)
  {
    forall t | t in order ensures t in Tags(nodes) {
      var i :| 0 <= i < |order| && order[i] == t;
      assert StartedReady(nodes, order[i], order[..i]);
    }
  }

  /** What gets started does not depend on the list's order: it is the least set closed under readiness. */
  lemma {:induction false} StartedIsForced(nodes: seq<Node>, order: seq<string>, closure: set<string>)
    requires ValidOrder(nodes, order) && Stuck(nodes, closure)
    ensures Elems(order) <= closure
  {
    if order != [] {
      var p, t := order[..|order| - 1], order[|order| - 1];
      assert forall i :: 0 <= i < |p| ==> p[..i] == order[..i];
      StartedIsForced(nodes, p, closure);
      assert StartedReady(nodes, t, order[..|order| - 1]);
      assert Elems(order) == Elems(p) + {t};
    }
  }

  lemma DistinctExtends(nodes: seq<Node>, n: Node)
    ensures DistinctTags(nodes + [n]) <==> DistinctTags(nodes) && n.tag !in Tags(nodes)
  {
    var longer := nodes + [n];
    if n.tag in Tags(nodes) {
      var m :| m in nodes && m.tag == n.tag;
      var i :| 0 <= i < |nodes| && nodes[i] == m;
      assert longer[i].tag == longer[|nodes|].tag;
    } else {
      assert forall i :: 0 <= i < |nodes| ==> nodes[i] in nodes && nodes[i].tag in Tags(nodes);
    }
    if DistinctTags(longer) {
      forall i, j | 0 <= i < j < |nodes| ensures nodes[i].tag != nodes[j].tag {
        assert longer[i].tag != longer[j].tag;
      }
    }
  }

  lemma {:induction false} TagCount(nodes: seq<Node>)
    ensures |Tags(nodes)| <= |nodes|
    ensures |Tags(nodes)| == |nodes| <==> DistinctTags(nodes)
  {
    if nodes != [] {
      var p, n := nodes[..|nodes| - 1], nodes[|nodes| - 1];
      assert nodes == p + [n];
      TagCount(p);
      DistinctExtends(p, n);
      assert Tags(nodes) == Tags(p) + {n.tag};
    }
  }

  // ----- a complete order means a closed, acyclic graph -----

  ghost predicate Complete(nodes: seq<Node>, order: seq<string>) {
    DistinctTags(nodes) && ValidOrder(nodes, order) && Elems(order) == Tags(nodes)
  }

  lemma DependencyComesFirst(nodes: seq<Node>, order: seq<string>, n: Node, i: nat)
    requires Complete(nodes, order) && n in nodes && i < |order| && order[i] == n.tag
    ensures Ready(n, Elems(order[..i]))
  {
    assert StartedReady(nodes, order[i], order[..i]);
    var m :| m in nodes && m.tag == n.tag && Ready(m, Elems(order[..i]));
    assert m == n;
  }

  lemma CompleteIsClosed(nodes: seq<Node>, order: seq<string>)
    requires Complete(nodes, order)
    ensures Closed(nodes)
  {
    forall n, d | n in nodes && d in n.deps ensures d in Tags(nodes) {
      assert n.tag in Tags(nodes);
      assert n.tag in order;
      var i :| 0 <= i < |order| && order[i] == n.tag;
      DependencyComesFirst(nodes, order, n, i);
      assert d in order[..i];
      assert d in order;
    }
  }

  lemma {:induction false} WalkDescends(nodes: seq<Node>, order: seq<string>, p: seq<string>, i: nat)
    requires Complete(nodes, order) && Walk(nodes, p) && 2 <= |p| && i < |order| && order[i] == p[0]
    ensures exists j :: 0 <= j < i && order[j] == p[|p| - 1]
    decreases |p|
  {
    assert Edge(nodes, p[0], p[0 + 1]);
    var n :| n in nodes && n.tag == p[0] && p[1] in n.deps;
    DependencyComesFirst(nodes, order, n, i);
    assert p[1] in order[..i];
    var k :| 0 <= k < i && order[k] == p[1];
    if |p| > 2 {
      var rest := p[1..];
      forall a | 0 <= a < |rest| - 1 ensures Edge(nodes, rest[a], rest[a + 1]) {
        assert Edge(nodes, p[a + 1], p[a + 1 + 1]);
      }
      WalkDescends(nodes, order, rest, k);
    }
  }

  lemma CompleteIsAcyclic(nodes: seq<Node>, order: seq<string>)
    requires Complete(nodes, order)
    ensures Acyclic(nodes)
  {
    forall p | Cycle(nodes, p) ensures false {
      assert Edge(nodes, p[0], p[0 + 1]);
      assert p[0] in Tags(nodes);
      assert p[0] in order;
      var i :| 0 <= i < |order| && order[i] == p[0];
      WalkDescends(nodes, order, p, i);
    }
  }

  // ----- stuck on a closed graph means a cycle -----

  lemma WalkExtends(nodes: seq<Node>, p: seq<string>, t: string)
    requires Walk(nodes, p) && Edge(nodes, p[|p| - 1], t)
    ensures Walk(nodes, p + [t])
  {
    var q := p + [t];
    forall i | 0 <= i < |q| - 1 ensures Edge(nodes, q[i], q[i + 1]) {
      if i < |p| - 1 {
        assert Edge(nodes, p[i], p[i + 1]);
      }
    }
  }

  /** A walk that steps back onto itself closes a cycle. */
  lemma WalkCloses(nodes: seq<Node>, p: seq<string>, t: string) returns (i: nat)
    requires Walk(nodes, p) && Edge(nodes, p[|p| - 1], t) && t in p
    ensures i < |p| && p[i] == t && Cycle(nodes, p[i..] + [t])
  {
    i :| 0 <= i < |p| && p[i] == t;
    WalkExtends(nodes, p, t);
    var q, whole := p[i..] + [t], p + [t];
    forall a | 0 <= a < |q| - 1 ensures Edge(nodes, q[a], q[a + 1]) {
      assert q[a] == whole[a + i] && q[a + 1] == whole[a + i + 1];
      assert Edge(nodes, whole[a + i], whole[a + i + 1]);
    }
  }

  lemma {:induction false} StuckHasCycle(nodes: seq<Node>, started: set<string>, p: seq<string>)
    requires Stuck(nodes, started) && Closed(nodes)
    requires Walk(nodes, p) && p[|p| - 1] in Tags(nodes) - started && Elems(p) <= Tags(nodes)
    ensures !Acyclic(nodes)
    decreases Tags(nodes) - Elems(p)
  {
    var t := p[|p| - 1];
    var n :| n in nodes && n.tag == t;
    var d :| d in n.deps && d !in started;
    assert Edge(nodes, t, d);
    assert d in Tags(nodes);
    if d in p {
      var _ := WalkCloses(nodes, p, d);
    } else {
      WalkExtends(nodes, p, d);
      assert Elems(p + [d]) == Elems(p) + {d};
      assert d in Tags(nodes) - Elems(p);
      StuckHasCycle(nodes, started, p + [d]);
    }
  }

  // ----- the explanation -----

  /** The first dependency that is not started, or the empty string. */
  function FirstUnstarted(deps: seq<string>, started: set<string>): (d: string)
    ensures (exists x :: x in deps && x !in started) ==> d in deps && d !in started
  {
    if deps == [] then ""
    else if deps[0] !in started then deps[0]
    else FirstUnstarted(deps[1..], started)
  }

  function Lint(byTag: map<string, Node>, started: set<string>, path: seq<string>, current: Node): (o: Outcome)
    ensures o.Circular? || o.NotFound?
    decreases byTag.Keys - set t | t in path
  {
    var problem := FirstUnstarted(current.deps, started);
    if problem in path then Circular(path, problem)
    else if problem !in byTag then NotFound(problem, current.tag)
    else
      assert problem in byTag.Keys - set t | t in path;
      Lint(byTag, started, path + [problem], byTag[problem])
  }

  /** The tag map holds listed nodes only, each under its own tag. */
  ghost predicate MapListed(nodes: seq<Node>, byTag: map<string, Node>) {
    forall t :: t in byTag ==> byTag[t] in nodes && byTag[t].tag == t
  }

  /** What an explanation claims, read off the graph. */
  ghost predicate Truthful(nodes: seq<Node>, byTag: map<string, Node>, started: set<string>, o: Outcome) {
    match o
    case Circular(path, t) =>
      && Walk(nodes, path) && Elems(path) !! started
      && exists i :: 0 <= i < |path| && path[i] == t && Cycle(nodes, path[i..] + [t])
    case NotFound(dep, owner) =>
      dep !in byTag && dep !in started && owner !in started && Edge(nodes, owner, dep)
    case _ => false
  }

  lemma {:induction false} LintIsTruthful(
    nodes: seq<Node>, byTag: map<string, Node>, started: set<string>, path: seq<string>, current: Node)
    requires MapListed(nodes, byTag) && Stuck(nodes, started)
    requires current in nodes && current.tag !in started
    requires Walk(nodes, path) && path[|path| - 1] == current.tag && Elems(path) !! started
    ensures Truthful(nodes, byTag, started, Lint(byTag, started, path, current))
    decreases byTag.Keys - set t | t in path
  {
    var problem := FirstUnstarted(current.deps, started);
    assert !Ready(current, started);
    assert problem in current.deps && problem !in started;
    assert Edge(nodes, current.tag, problem);
    if problem in path {
      var i := WalkCloses(nodes, path, problem);
    } else if problem in byTag {
      WalkExtends(nodes, path, problem);
      assert Elems(path + [problem]) == Elems(path) + {problem};
      assert problem in byTag.Keys - set t | t in path;
      LintIsTruthful(nodes, byTag, started, path + [problem], byTag[problem]);
    }
  }

  // ----- the scheduler -----

  method AllStartedIn(deps: seq<string>, started: set<string>) returns (ready: bool)
    ensures ready == forall d :: d in deps ==> d in started
  {
    for i := 0 to |deps|
      invariant forall j :: 0 <= j < i ==> deps[j] in started
    {
      if deps[i] !in started {
        return false;
      }
    }
    return true;
  }

  /** One sweep over the list; `failed` is the node whose Start returned an error. */
  method Sweep(nodes: seq<Node>, fails: set<string>, started0: set<string>, order0: seq<string>)
    returns (started: set<string>, order: seq<string>, failed: Option<string>)
    requires ValidOrder(nodes, order0) && started0 == Elems(order0) && started0 !! fails
    ensures ValidOrder(nodes, order) && started == Elems(order) && started0 <= started
    ensures failed.None? ==> started !! fails && (started == started0 ==> order == order0 && Stuck(nodes, started))
    ensures failed.Some? ==> failed.value in fails && order != [] && order[|order| - 1] == failed.value
    ensures failed.Some? ==> Elems(order[..|order| - 1]) !! fails
  {
    started, order, failed := started0, order0, None;
    for i := 0 to |nodes|
      invariant ValidOrder(nodes, order) && started == Elems(order) && started0 <= started && started !! fails
      invariant started == started0 ==> order == order0
      invariant started == started0 ==> forall j :: 0 <= j < i && nodes[j].tag !in started ==> !Ready(nodes[j], started)
    {
      var n := nodes[i];
      if n.tag !in started {
        var ready := AllStartedIn(n.deps, started);
        if ready {
          OrderExtends(nodes, order, n);
          assert (order + [n.tag])[..|order|] == order;
          started, order := started + {n.tag}, order + [n.tag];
          assert n.tag !in started0;
          if n.tag in fails {
            failed := Some(n.tag);
            return;
          }
        }
      }
    }
  }

  method FindUnstarted(nodes: seq<Node>, started: set<string>) returns (current: Option<Node>)
    ensures current.None? ==> forall n :: n in nodes ==> n.tag in started
    ensures current.Some? ==> current.value in nodes && current.value.tag !in started
  {
    for i := 0 to |nodes|
      invariant forall j :: 0 <= j < i ==> nodes[j].tag in started
    {
      if nodes[i].tag !in started {
        return Some(nodes[i]);
      }
    }
    return None;
  }

  /**
   * `fails` holds the tags whose own Start returns an error. With no such tag, the whole list starts exactly
   * when tags are distinct, every dependency is listed and the graph has no cycle.
   */
  method StartAll(nodes: seq<Node>, byTag: map<string, Node>, fails: set<string>)
    returns (outcome: Outcome, order: seq<string>)
    ensures ValidOrder(nodes, order)
    ensures outcome.AllStarted? <==> DistinctTags(nodes) && Closed(nodes) && Acyclic(nodes) && Tags(nodes) !! fails
    ensures outcome.AllStarted? ==> Elems(order) == Tags(nodes)
    ensures outcome.StartFailed? ==>
      outcome.tag in fails && order != [] && order[|order| - 1] == outcome.tag && Elems(order[..|order| - 1]) !! fails
    ensures outcome.Circular? || outcome.NotFound? ==> Stuck(nodes, Elems(order)) && Elems(order) < Tags(nodes)
    ensures (outcome.Circular? || outcome.NotFound?) && MapListed(nodes, byTag) ==>
      Truthful(nodes, byTag, Elems(order), outcome)
    ensures outcome.Circular? || outcome.NotFound? ==>
      exists c :: c in nodes && c.tag !in order && outcome == Lint(byTag, Elems(order), [c.tag], c)
    ensures outcome.NilNode? ==> !DistinctTags(nodes) && Elems(order) == Tags(nodes)
  {
    var started: set<string> := {};
    order := [];
    TagCount(nodes);
    while true
      invariant ValidOrder(nodes, order) && started == Elems(order) && started !! fails
      decreases Tags(nodes) - started
    {
      var more, longer, failed := Sweep(nodes, fails, started, order);
      OrderWithinTags(nodes, longer);
      var canContinue := started != more;
      started, order := more, longer;
      if failed.Some? {
        assert failed.value in Elems(order) * fails;
        return StartFailed(failed.value), order;
      }
      SubsetSize(started, Tags(nodes));
      if |started| == |nodes| {
        assert Complete(nodes, order);
        CompleteIsClosed(nodes, order);
        CompleteIsAcyclic(nodes, order);
        return AllStarted, order;
      }
      if canContinue {
        continue;
      }
      var current := FindUnstarted(nodes, started);
      if current.None? {
        assert started == Tags(nodes);
        return NilNode, order;
      }
      var c := current.value;
      assert c.tag in Tags(nodes) - started;
      if Closed(nodes) {
        StuckHasCycle(nodes, started, [c.tag]);
      }
      if MapListed(nodes, byTag) {
        LintIsTruthful(nodes, byTag, started, [c.tag], c);
      }
      return Lint(byTag, started, [c.tag], c), order;
    }
  }

  // ----- the two managers -----

  /** DNS transports: the tag map covers the list, so "not found" names a tag that no listed transport has. */
  lemma FullMapBlamesTheMissing(nodes: seq<Node>, byTag: map<string, Node>, started: set<string>, current: Node)
    requires MapListed(nodes, byTag) && byTag.Keys == Tags(nodes) && Stuck(nodes, started)
    requires current in nodes && current.tag !in started
    ensures
      var o := Lint(byTag, started, [current.tag], current);
      if o.NotFound? then o.dep !in Tags(nodes) && !Closed(nodes) else !Acyclic(nodes)
  {
    LintIsTruthful(nodes, byTag, started, [current.tag], current);
    var o := Lint(byTag, started, [current.tag], current);
    if o.NotFound? {
      var n :| n in nodes && n.tag == o.owner && o.dep in n.deps;
    }
  }

  /** Outbounds: endpoints are listed but not in the tag map, so a blocked endpoint is reported as missing. */
  lemma ListedEndpointReportedMissing()
    ensures
      var a, e := Node("a", ["e"]), Node("e", ["x"]);
      && Stuck([a, e], {}) && MapListed([a, e], map["a" := a])
      && Lint(map["a" := a], {}, ["a"], a) == NotFound("e", "a")
      && "e" in Tags([a, e])
  {
    var a, e := Node("a", ["e"]), Node("e", ["x"]);
    assert e in [a, e];
    assert "e" in a.deps && "x" in e.deps;
  }

  /** What is said to be missing is really not listed. */
  ghost predicate RightReport(nodes: seq<Node>, o: Outcome) { o.NotFound? ==> o.dep !in Tags(nodes) }

  /** What a stuck node is blamed on is itself, in the tag map, or really not listed: it is no other endpoint. */
  ghost predicate BlamesMappedOrMissing(nodes: seq<Node>, byTag: map<string, Node>, started: set<string>, n: Node) {
    var d := FirstUnstarted(n.deps, started);
    d == n.tag || d in byTag || d !in Tags(nodes)
  }

  lemma {:induction false} MappedBlameIsRight(
    nodes: seq<Node>, byTag: map<string, Node>, started: set<string>, path: seq<string>, current: Node)
    requires MapListed(nodes, byTag) && Stuck(nodes, started)
    requires forall n :: n in nodes && n.tag !in started ==> BlamesMappedOrMissing(nodes, byTag, started, n)
    requires current in nodes && current.tag !in started && current.tag in path
    ensures RightReport(nodes, Lint(byTag, started, path, current))
    decreases byTag.Keys - set t | t in path
  {
    var d := FirstUnstarted(current.deps, started);
    assert !Ready(current, started);
    assert BlamesMappedOrMissing(nodes, byTag, started, current);
    if d !in path && d in byTag {
      assert d in byTag.Keys - set t | t in path;
      MappedBlameIsRight(nodes, byTag, started, path + [d], byTag[d]);
    }
  }

  /**
   * When the scheduler is stuck, "not found" can be trusted, whichever node the walk starts from, exactly when no
   * stuck node's first unstarted dependency is another node that the list has and the tag map has not: an endpoint.
   */
  lemma MissingReportsAreRightIff(nodes: seq<Node>, byTag: map<string, Node>, started: set<string>)
    requires MapListed(nodes, byTag) && Stuck(nodes, started)
    ensures
      (forall n :: n in nodes && n.tag !in started ==> RightReport(nodes, Lint(byTag, started, [n.tag], n))) <==>
      (forall n :: n in nodes && n.tag !in started ==> BlamesMappedOrMissing(nodes, byTag, started, n))
  {
    if forall n :: n in nodes && n.tag !in started ==> BlamesMappedOrMissing(nodes, byTag, started, n) {
      forall n | n in nodes && n.tag !in started ensures RightReport(nodes, Lint(byTag, started, [n.tag], n)) {
        MappedBlameIsRight(nodes, byTag, started, [n.tag], n);
      }
    } else {
      var n :| n in nodes && n.tag !in started && !BlamesMappedOrMissing(nodes, byTag, started, n);
      assert Lint(byTag, started, [n.tag], n) == NotFound(FirstUnstarted(n.deps, started), n.tag);
    }
  }

  // ----- the one walk that is made -----

  /** The node at the end of a path from `start`. */
  function EndOf(byTag: map<string, Node>, start: Node, p: seq<string>): Node {
    if |p| <= 1 || p[|p| - 1] !in byTag then start else byTag[p[|p| - 1]]
  }

  /** A path from a node along first unstarted dependencies, through the tag map, that does not meet itself. */
  ghost predicate Leads(byTag: map<string, Node>, started: set<string>, start: Node, p: seq<string>) {
    if |p| <= 1 then p == [start.tag]
    else
      var q, d := p[..|p| - 1], p[|p| - 1];
      Leads(byTag, started, start, q) && d !in q && d in byTag
      && d == FirstUnstarted(EndOf(byTag, start, q).deps, started)
  }

  /** At the end of the path stands a node whose first unstarted dependency is listed but not in the tag map. */
  ghost predicate EndsAtEndpoint(
    nodes: seq<Node>, byTag: map<string, Node>, started: set<string>, start: Node, p: seq<string>)
  {
    && Leads(byTag, started, start, p)
    && var d := FirstUnstarted(EndOf(byTag, start, p).deps, started);
       d !in p && d !in byTag && d in Tags(nodes)
  }

  lemma LintStep(byTag: map<string, Node>, started: set<string>, path: seq<string>, current: Node, d: string)
    requires d == FirstUnstarted(current.deps, started) && d !in path && d in byTag
    ensures Lint(byTag, started, path, current) == Lint(byTag, started, path + [d], byTag[d])
  {
  }

  lemma {:induction false} LintFollows(byTag: map<string, Node>, started: set<string>, start: Node, p: seq<string>)
    requires Leads(byTag, started, start, p)
    ensures Lint(byTag, started, [start.tag], start) == Lint(byTag, started, p, EndOf(byTag, start, p))
    decreases |p|
  {
    if 1 < |p| {
      var q, d := p[..|p| - 1], p[|p| - 1];
      LintFollows(byTag, started, start, q);
      LintStep(byTag, started, q, EndOf(byTag, start, q), d);
      assert q + [d] == p;
    }
  }

  lemma LeadsFurther(byTag: map<string, Node>, started: set<string>, start: Node, p: seq<string>, d: string)
    requires Leads(byTag, started, start, p) && d !in p && d in byTag
    requires d == FirstUnstarted(EndOf(byTag, start, p).deps, started)
    ensures Leads(byTag, started, start, p + [d]) && EndOf(byTag, start, p + [d]) == byTag[d]
  {
    assert (p + [d])[..|p|] == p;
  }

  lemma {:induction false} LintEnds(
    nodes: seq<Node>, byTag: map<string, Node>, started: set<string>, start: Node, p: seq<string>)
    requires Leads(byTag, started, start, p)
    requires !RightReport(nodes, Lint(byTag, started, p, EndOf(byTag, start, p)))
    ensures exists q :: EndsAtEndpoint(nodes, byTag, started, start, q)
    decreases byTag.Keys - set t | t in p
  {
    var d := FirstUnstarted(EndOf(byTag, start, p).deps, started);
    if d !in p && d in byTag {
      assert d in byTag.Keys - set t | t in p;
      LeadsFurther(byTag, started, start, p, d);
      LintStep(byTag, started, p, EndOf(byTag, start, p), d);
      LintEnds(nodes, byTag, started, start, p + [d]);
    } else {
      assert EndsAtEndpoint(nodes, byTag, started, start, p);
    }
  }

  /** The one report that is made is right exactly when the walk from its node does not end at a listed endpoint. */
  lemma MissingReportIsRightIff(nodes: seq<Node>, byTag: map<string, Node>, started: set<string>, start: Node)
    ensures RightReport(nodes, Lint(byTag, started, [start.tag], start)) <==>
      !exists p :: EndsAtEndpoint(nodes, byTag, started, start, p)
  {
    if !RightReport(nodes, Lint(byTag, started, [start.tag], start)) {
      LintEnds(nodes, byTag, started, start, [start.tag]);
    }
    if exists p :: EndsAtEndpoint(nodes, byTag, started, start, p) {
      var p :| EndsAtEndpoint(nodes, byTag, started, start, p);
      LintFollows(byTag, started, start, p);
    }
  }
}
