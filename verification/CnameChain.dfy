/** Following CNAME records inside one answer, and the alias chain that guards following them across queries. */
module CnameChain {
  import opened Prelude
  import opened DnsRecords

  /** The target of the first CNAME record of a name. */
  function FirstCname(records: seq<RR>, name: string): Option<string> {
    if records == [] then None
    else if records[0].kind.CNAME? && records[0].name == name then Some(records[0].kind.target)
    else FirstCname(records[1..], name)
  }

  ghost function Targets(records: seq<RR>): set<string> {
    set r | r in records && r.kind.CNAME? :: r.kind.target
  }

  predicate HasAddress(records: seq<RR>, name: string) {
    exists r :: r in records && (r.kind.A? || r.kind.AAAA?) && r.name == name
  }

  /** The record is the first CNAME of the name. */
  ghost predicate IsFirstCname(records: seq<RR>, name: string, i: nat) {
    && i < |records| && records[i].kind.CNAME? && records[i].name == name
    && forall j :: 0 <= j < i ==> !(records[j].kind.CNAME? && records[j].name == name)
  }

  lemma {:induction false} FirstCnameIff(records: seq<RR>, name: string, t: string)
    ensures FirstCname(records, name) == Some(t) <==>
      exists i: nat :: IsFirstCname(records, name, i) && records[i].kind.target == t
  {
    if records != [] {
      var later := records[1..];
      FirstCnameIff(later, name, t);
      if records[0].kind.CNAME? && records[0].name == name {
        assert IsFirstCname(records, name, 0);
      } else {
        if i: nat :| IsFirstCname(later, name, i) && later[i].kind.target == t {
          assert forall j :: 0 <= j < i + 1 ==> records[j] == if j == 0 then records[0] else later[j - 1];
          assert IsFirstCname(records, name, i + 1);
        }
        if i: nat :| IsFirstCname(records, name, i) && records[i].kind.target == t {
          assert 0 < i && forall j :: 0 <= j < i ==> later[j] == records[j + 1];
          assert IsFirstCname(later, name, i - 1);
        }
      }
    }
  }

  lemma {:induction false} FirstCnameIsTarget(records: seq<RR>, name: string)
    ensures FirstCname(records, name).Some? ==> FirstCname(records, name).value in Targets(records)
  {
    if records != [] && !(records[0].kind.CNAME? && records[0].name == name) {
      FirstCnameIsTarget(records[1..], name);
      assert forall t :: t in Targets(records[1..]) ==> t in Targets(records);
    } else if records != [] {
      assert records[0] in records;
    }
  }

  // ----- the reference: simple chains -----

  /** Names, none twice, each the first CNAME target of the one before. */
  ghost predicate Chain(records: seq<RR>, p: seq<string>) {
    && p != []
    && (forall i :: 0 <= i < |p| - 1 ==> FirstCname(records, p[i]) == Some(p[i + 1]))
    && (forall i, j :: 0 <= i < j < |p| ==> p[i] != p[j])
  }

  /** `t` is the unresolved end of the chain that starts at `name`. */
  ghost predicate EndsAt(records: seq<RR>, name: string, p: seq<string>, t: string) {
    && Chain(records, p) && p[0] == name && p[|p| - 1] == t && 2 <= |p|
    && FirstCname(records, t).None? && t != ""
    && forall r :: r in records && r.name == t ==> !r.kind.A? && !r.kind.AAAA?
  }

  lemma {:induction false} ChainsAgree(records: seq<RR>, p: seq<string>, q: seq<string>, i: nat)
    requires Chain(records, p) && Chain(records, q) && p[0] == q[0] && i < |p| && i < |q|
    ensures p[i] == q[i]
    ensures i + 1 < |p| ==> FirstCname(records, q[i]) == Some(p[i + 1])
  {
    if 0 < i {
      ChainsAgree(records, p, q, i - 1);
      assert FirstCname(records, q[i - 1]) == Some(q[i - 1 + 1]);
    }
    if i + 1 < |p| {
      assert FirstCname(records, p[i]) == Some(p[i + 1]);
    }
  }

  /** No chain goes further than one whose end has no CNAME. */
  lemma FinishedIsLongest(records: seq<RR>, p: seq<string>, q: seq<string>)
    requires Chain(records, p) && Chain(records, q) && p[0] == q[0] && FirstCname(records, p[|p| - 1]).None?
    ensures |q| <= |p|
  {
    if |p| < |q| {
      ChainsAgree(records, q, p, |p| - 1);
    }
  }

  lemma FinishedChainIsUnique(records: seq<RR>, q: seq<string>, p: seq<string>, t: string)
    requires Chain(records, q) && FirstCname(records, q[|q| - 1]).None? && EndsAt(records, q[0], p, t)
    ensures p == q
  {
    FinishedIsLongest(records, p, q);
    FinishedIsLongest(records, q, p);
    forall i | 0 <= i < |p| ensures p[i] == q[i] {
      ChainsAgree(records, p, q, i);
    }
  }

  /** A chain that runs back into itself has no end. */
  lemma LoopHasNoEnd(records: seq<RR>, q: seq<string>, next: string, p: seq<string>, t: string)
    requires Chain(records, q) && FirstCname(records, q[|q| - 1]) == Some(next) && next in q
    ensures !EndsAt(records, q[0], p, t)
  {
    if EndsAt(records, q[0], p, t) {
      FinishedIsLongest(records, p, q);
      ChainsAgree(records, p, q, |q| - 1);
      var k :| 0 <= k < |q| && q[k] == next;
      ChainsAgree(records, p, q, k);
    }
  }

  // ----- findLastCNAMETarget -----

  /** The name a chain from `current` stops at, or None when it runs into a visited name. */
  function Chase(records: seq<RR>, current: string, visited: set<string>): (r: Option<string>)
    decreases Unvisited(records, visited)
  {
    var next := FirstCname(records, current);
    if next.None? then Some(current)
    else if next.value in visited then None
    else
      NextIsUnvisited(records, current, visited);
      Chase(records, next.value, visited + {next.value})
  }

  function Unvisited(records: seq<RR>, visited: set<string>): set<string> {
    (set t | t in TargetList(records)) - visited
  }

  lemma NextIsUnvisited(records: seq<RR>, current: string, visited: set<string>)
    requires FirstCname(records, current).Some? && FirstCname(records, current).value !in visited
    ensures Unvisited(records, visited + {FirstCname(records, current).value}) < Unvisited(records, visited)
  {
    var next := FirstCname(records, current).value;
    TargetListed(records, current);
    assert next in Unvisited(records, visited);
    assert Unvisited(records, visited + {next}) == Unvisited(records, visited) - {next};
  }

  function TargetList(records: seq<RR>): seq<string> {
    if records == [] then []
    else (if records[0].kind.CNAME? then [records[0].kind.target] else []) + TargetList(records[1..])
  }

  lemma {:induction false} TargetListed(records: seq<RR>, name: string)
    ensures FirstCname(records, name).Some? ==> FirstCname(records, name).value in TargetList(records)
  {
    if records != [] && !(records[0].kind.CNAME? && records[0].name == name) {
      TargetListed(records[1..], name);
    }
  }

  function LastTarget(name: string, records: seq<RR>): string {
    var last := Chase(records, name, {name});
    if last.None? || last.value == name || HasAddress(records, last.value) then "" else last.value
  }

  lemma ChainGrows(records: seq<RR>, q: seq<string>, next: string)
    requires Chain(records, q) && FirstCname(records, q[|q| - 1]) == Some(next) && next !in q
    ensures Chain(records, q + [next])
  {
    var longer := q + [next];
    forall i | 0 <= i < |longer| - 1 ensures FirstCname(records, longer[i]) == Some(longer[i + 1]) {
      if i < |q| - 1 {
        assert FirstCname(records, q[i]) == Some(q[i + 1]);
      }
    }
  }

  /** Chasing from the end of a chain gives the end of the one finished chain, if there is one. */
  lemma {:induction false} ChaseFindsEnd(records: seq<RR>, q: seq<string>, visited: set<string>)
    requires Chain(records, q) && visited == set x | x in q
    ensures
      var r := Chase(records, q[|q| - 1], visited);
      && (r.Some? ==>
            && FirstCname(records, r.value).None?
            && exists p :: Chain(records, p) && p[0] == q[0] && p[|p| - 1] == r.value)
      && (r.None? ==> forall p, t :: !EndsAt(records, q[0], p, t))
    decreases Unvisited(records, visited)
  {
    var next := FirstCname(records, q[|q| - 1]);
    if next.Some? {
      if next.value in visited {
        forall p, t ensures !EndsAt(records, q[0], p, t) {
          LoopHasNoEnd(records, q, next.value, p, t);
        }
      } else {
        NextIsUnvisited(records, q[|q| - 1], visited);
        ChainGrows(records, q, next.value);
        var longer := q + [next.value];
        assert (set x | x in longer) == visited + {next.value};
        ChaseFindsEnd(records, longer, visited + {next.value});
        assert longer[0] == q[0];
      }
    }
  }

  /**
   * A non-empty result is exactly the end of the one simple chain of first CNAMEs that leaves the name,
   * provided that end is a name, has no CNAME of its own and no address in the same answer.
   */
  lemma LastTargetIsChainEnd(name: string, records: seq<RR>)
    ensures LastTarget(name, records) != "" ==> exists p :: EndsAt(records, name, p, LastTarget(name, records))
    ensures forall p, t :: EndsAt(records, name, p, t) ==> LastTarget(name, records) == t
  {
    assert Chain(records, [name]);
    ChaseFindsEnd(records, [name], {name});
    var last := Chase(records, name, {name});
    if last.Some? {
      var q :| Chain(records, q) && q[0] == name && q[|q| - 1] == last.value && FirstCname(records, last.value).None?;
      forall p, t | EndsAt(records, name, p, t) ensures LastTarget(name, records) == t {
        FinishedChainIsUnique(records, q, p, t);
      }
      if LastTarget(name, records) != "" {
        assert 2 <= |q|;
        assert EndsAt(records, name, q, last.value);
      }
    }
  }

  lemma {:induction false} ChaseStaysInTargets(records: seq<RR>, current: string, visited: set<string>)
    ensures
      var r := Chase(records, current, visited);
      r.Some? ==> r.value == current || r.value in Targets(records)
    decreases Unvisited(records, visited)
  {
    var next := FirstCname(records, current);
    if next.Some? && next.value !in visited {
      NextIsUnvisited(records, current, visited);
      FirstCnameIsTarget(records, current);
      ChaseStaysInTargets(records, next.value, visited + {next.value});
    }
  }

  lemma LastTargetIsTarget(name: string, records: seq<RR>)
    ensures LastTarget(name, records) != "" ==> LastTarget(name, records) in Targets(records)
    ensures LastTarget(name, records) != "" ==> LastTarget(name, records) != name
  {
    ChaseStaysInTargets(records, name, {name});
  }

  method FindCname(records: seq<RR>, name: string) returns (target: Option<string>)
    ensures target == FirstCname(records, name)
  {
    for i := 0 to |records|
      invariant FirstCname(records, name) == FirstCname(records[i..], name)
    {
      if records[i].kind.CNAME? && records[i].name == name {
        return Some(records[i].kind.target);
      }
    }
    return None;
  }

  method FindAddress(records: seq<RR>, name: string) returns (found: bool)
    ensures found == HasAddress(records, name)
  {
    for i := 0 to |records|
      invariant !HasAddress(records[..i], name)
    {
      assert records[..i + 1] == records[..i] + [records[i]];
      if (records[i].kind.A? || records[i].kind.AAAA?) && records[i].name == name {
        return true;
      }
    }
    assert records[..|records|] == records;
    return false;
  }

  method FindLastTarget(name: string, records: seq<RR>) returns (t: string)
    ensures t == LastTarget(name, records)
  {
    var current, visited := name, {name};
    while true
      invariant Chase(records, name, {name}) == Chase(records, current, visited)
      decreases Unvisited(records, visited)
    {
      var next := FindCname(records, current);
      if next.None? {
        break;
      }
      if next.value in visited {
        return "";
      }
      NextIsUnvisited(records, current, visited);
      current, visited := next.value, visited + {next.value};
    }
    if current == name {
      return "";
    }
    var found := FindAddress(records, current);
    return if found then "" else current;
  }

  // ----- the alias chain across queries -----

  /** The chain after following `source -> target`, or None when that would be a loop. */
  function AliasStep(chain: set<string>, source: string, target: string): (r: Option<set<string>>)
    ensures r.None? <==> source == target || target in chain
    ensures r.Some? ==> chain < r.value && source in r.value && target in r.value
  {
    if source == target || target in chain then None else Some(chain + {source, target})
  }
}
