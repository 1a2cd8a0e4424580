/**
 * Does an update hand a new option the outbound that was built from it? An option is compared with the last old
 * option of its own tag, but what it takes over is found under its resolved tag, which may be another option's.
 */
module ProviderReuse {
  import opened Prelude
  import opened OutboundManager
  import opened ProviderTags

  // ----- the option an option is compared with -----

  /** The last option with this tag. */
  ghost predicate LastWithTag(opts: seq<Opt>, k: nat) {
    k < |opts| && forall j :: k < j < |opts| ==> opts[j].tag != opts[k].tag
  }

  lemma {:induction false} OldOptIsLast(opts: seq<Opt>, k: nat)
    requires LastWithTag(opts, k)
    ensures OldOpt(opts, opts[k].tag) == opts[k]
  {
    if k < |opts| - 1 {
      assert LastWithTag(opts[..|opts| - 1], k);
      OldOptIsLast(opts[..|opts| - 1], k);
    }
  }

  lemma {:induction false} OldOptIsListed(opts: seq<Opt>, tag: string) returns (k: nat)
    requires OldOpt(opts, tag).tag == tag && tag != ""
    ensures LastWithTag(opts, k) && opts[k] == OldOpt(opts, tag)
  {
    if opts[|opts| - 1].tag == tag {
      k := |opts| - 1;
    } else {
      k := OldOptIsListed(opts[..|opts| - 1], tag);
    }
  }

  /** The untagged option that untagged ones are compared with; the zero option if there is none. */
  lemma {:induction false} UntaggedOldOpt(opts: seq<Opt>)
    ensures OldOpt(opts, "").tag == ""
  {
    if opts != [] {
      UntaggedOldOpt(opts[..|opts| - 1]);
    }
  }

  // ----- an update, with the option each outbound was built from -----

  /** `made` says from which option an outbound, known by its id, was built. */
  type Origins = map<nat, Opt>

  /** So far every active outbound of the provider was built from its own old option. */
  ghost predicate Current(provider: string, opts: seq<Opt>, tags: seq<string>, p: Plan, made: Origins) {
    && Matched(p) && p.oldOpts == opts && |tags| == |opts|
    && Resolved(BaseTags(provider, "", p.opts), p.tags) && p.active <= Elems(tags)
    && (forall j :: 0 <= j < |tags| && tags[j] in p.active ==>
          tags[j] in p.registry && p.registry[tags[j]].id in made && made[p.registry[tags[j]].id] == opts[j])
  }

  /** The branch of the update that keeps a registered outbound. */
  predicate Reuses(p: Plan, i: nat) {
    && Matched(p) && i < |p.tags| && p.tags[i] in p.active && p.opts[i] == OldOpt(p.oldOpts, p.opts[i].tag)
    && Lookup(p.registry, p.endpoints, p.tags[i]).Some?
  }

  /** The update gives option `i` an outbound that was built from another option. */
  ghost predicate WrongReuse(p: Plan, made: Origins, i: nat) {
    && Reuses(p, i) && Expected(p, i).Some?
    && !(Expected(p, i).value.id in made && made[Expected(p, i).value.id] == p.opts[i])
  }

  // ----- the condition, on the old options alone -----

  function OwnName(provider: string, tag: string): string { provider + "/" + tag }

  /** Old option `j` holds a name that the last old option `k` of a tag can get. */
  ghost predicate HoldsTagged(provider: string, opts: seq<Opt>, tags: seq<string>, j: nat, k: nat, n: nat) {
    && LastWithTag(opts, k) && opts[k].tag != "" && j < |opts| == |tags| && 1 <= n
    && tags[j] == Candidate(OwnName(provider, opts[k].tag), n)
  }

  /** Old option `j` holds a name that an untagged option at place `i` can get. */
  predicate HoldsUntagged(provider: string, opts: seq<Opt>, tags: seq<string>, j: nat, i: nat, n: nat) {
    j < |opts| == |tags| && 1 <= n <= i + 1 && tags[j] == Candidate(OwnName(provider, Decimal(i)), n)
  }

  ghost predicate TaggedNamesAgree(provider: string, opts: seq<Opt>, tags: seq<string>) {
    forall j: nat, k: nat, n: nat :: HoldsTagged(provider, opts, tags, j, k, n) ==> opts[j] == opts[k]
  }

  ghost predicate UntaggedNamesAgree(provider: string, opts: seq<Opt>, tags: seq<string>) {
    forall j: nat, i: nat, n: nat :: HoldsUntagged(provider, opts, tags, j, i, n) ==> opts[j] == OldOpt(opts, "")
  }

  // ----- it suffices -----

  lemma {:induction false} ElemsSize(s: seq<string>)
    ensures |Elems(s)| <= |s|
  {
    if s == [] {
      assert Elems(s) == {};
    } else {
      ElemsSize(s[..|s| - 1]);
      assert s == s[..|s| - 1] + [s[|s| - 1]];
      assert Elems(s) == Elems(s[..|s| - 1]) + {s[|s| - 1]};
    }
  }

  /** The tag of option `i` is one of the first `i + 1` candidates for its base. */
  lemma WhichCandidate(bases: seq<string>, tags: seq<string>, i: nat) returns (n: nat)
    requires Resolved(bases, tags) && i < |bases|
    ensures 1 <= n <= i + 1 && tags[i] == Candidate(bases[i], n)
  {
    assert ResolvedAt(bases, tags, i);
    n :| FirstFreeAt(bases[i], Elems(tags[..i]), tags[i], n);
    TakenAreFew(bases[i], n - 1, Elems(tags[..i]));
    ElemsSize(tags[..i]);
  }

  lemma AgreementSuffices(provider: string, opts: seq<Opt>, tags: seq<string>, p: Plan, made: Origins, i: nat)
    requires Current(provider, opts, tags, p, made) && Reuses(p, i)
    requires TaggedNamesAgree(provider, opts, tags) && UntaggedNamesAgree(provider, opts, tags)
    ensures !WrongReuse(p, made, i)
  {
    var bases := BaseTags(provider, "", p.opts);
    var n := WhichCandidate(bases, p.tags, i);
    var j :| 0 <= j < |tags| && tags[j] == p.tags[i];
    if p.opts[i].tag != "" {
      var k := OldOptIsListed(opts, p.opts[i].tag);
      assert bases[i] == OwnName(provider, opts[k].tag);
      assert HoldsTagged(provider, opts, tags, j, k, n);
    } else {
      assert "" + Decimal(i) == Decimal(i);
      assert bases[i] == OwnName(provider, Decimal(i));
      assert HoldsUntagged(provider, opts, tags, j, i, n);
    }
  }

  // ----- and it is needed: lists of options that get any given candidate -----

  function Copies<T>(x: T, m: nat): seq<T> { seq(m, _ => x) }

  function FirstCandidates(base: string, m: nat): seq<string> { seq(m, i requires 0 <= i => Candidate(base, i + 1)) }

  ghost predicate NoCandidate(base: string, tags: seq<string>) {
    forall t, n: nat :: t in tags && 1 <= n ==> t != Candidate(base, n)
  }

  /** After other tags and the first `m` candidates of a base, its next one is the first that is free. */
  lemma NextIsFree(others: seq<string>, base: string, m: nat, after: seq<string>)
    requires NoCandidate(base, others) && NoCandidate(base, after)
    ensures TakesFirstFree(base, Elems(others + FirstCandidates(base, m) + after), Candidate(base, m + 1))
  {
    var c := FirstCandidates(base, m);
    var seen := Elems(others + c + after);
    forall i | 1 <= i < m + 1 ensures Candidate(base, i) in seen {
      assert c[i - 1] == Candidate(base, i) && c[i - 1] in c;
      assert Candidate(base, i) in others + c + after;
    }
    forall i | 0 <= i < m ensures c[i] != Candidate(base, m + 1) {
      CandidatesDiffer(base, i + 1, m + 1);
    }
    assert FirstFreeAt(base, seen, Candidate(base, m + 1), m + 1);
  }

  /** Copies of one option get its first candidates, whatever other names were given before. */
  lemma {:induction false} CopiesResolve(bases: seq<string>, tags: seq<string>, base: string, m: nat)
    requires Resolved(bases, tags) && NoCandidate(base, tags)
    ensures Resolved(bases + Copies(base, m), tags + FirstCandidates(base, m))
  {
    if m == 0 {
      assert bases + Copies(base, 0) == bases && tags + FirstCandidates(base, 0) == tags;
    } else {
      CopiesResolve(bases, tags, base, m - 1);
      NextIsFree(tags, base, m - 1, []);
      var b, t := bases + Copies(base, m - 1), tags + FirstCandidates(base, m - 1);
      assert t + [] == t;
      ResolvedExtends(b, t, base, Candidate(base, m));
      assert bases + Copies(base, m) == b + [base];
      assert tags + FirstCandidates(base, m) == t + [Candidate(base, m)];
    }
  }

  /** A plan in which one active outbound, built from old option `j`, is up for reuse by the last of the new options. */
  function OnePlan(opts: seq<Opt>, tags: seq<string>, j: nat, news: seq<Opt>, newTags: seq<string>): Plan
    requires j < |tags|
  {
    Plan(map[tags[j] := Outbound(0, tags[j], [])], map[], false, newTags, {tags[j]}, news, opts,
         Copies(Attempt(1, [], true, true, true), |news|))
  }

  lemma OnePlanReuses(
    provider: string, opts: seq<Opt>, tags: seq<string>, j: nat, news: seq<Opt>, newTags: seq<string>)
    requires |tags| == |opts| && Distinct(tags) && j < |opts| && news != []
    requires Resolved(BaseTags(provider, "", news), newTags) && newTags[|news| - 1] == tags[j]
    requires OldOpt(opts, news[|news| - 1].tag) == news[|news| - 1] && opts[j] != news[|news| - 1]
    ensures
      var p, made := OnePlan(opts, tags, j, news, newTags), map[0 := opts[j]];
      Current(provider, opts, tags, p, made) && WrongReuse(p, made, |news| - 1)
  {
    assert tags[j] in tags;
  }

  lemma TaggedIsNeeded(provider: string, opts: seq<Opt>, tags: seq<string>, j: nat, k: nat, n: nat)
    returns (p: Plan, made: Origins, i: nat)
    requires Distinct(tags) && HoldsTagged(provider, opts, tags, j, k, n) && opts[j] != opts[k]
    ensures Current(provider, opts, tags, p, made) && WrongReuse(p, made, i)
  {
    var base, news := OwnName(provider, opts[k].tag), Copies(opts[k], n);
    CopiesResolve([], [], base, n);
    assert [] + Copies(base, n) == BaseTags(provider, "", news);
    assert [] + FirstCandidates(base, n) == FirstCandidates(base, n);
    OldOptIsLast(opts, k);
    OnePlanReuses(provider, opts, tags, j, news, FirstCandidates(base, n));
    p, made, i := OnePlan(opts, tags, j, news, FirstCandidates(base, n)), map[0 := opts[j]], n - 1;
  }

  /** Candidates for a number and for a letter differ in their first character. */
  lemma LettersAreNotNumbers(provider: string, i: nat, n: nat, m: nat)
    ensures Candidate(OwnName(provider, Decimal(i)), n) != Candidate(OwnName(provider, "x"), m)
  {
    FirstDigit(i);
    var a, b := Candidate(OwnName(provider, Decimal(i)), n), Candidate(OwnName(provider, "x"), m);
    assert a[|provider| + 1] == Decimal(i)[0] && b[|provider| + 1] == 'x';
  }

  lemma {:induction false} FirstDigit(n: nat)
    ensures Decimal(n) != "" && Decimal(n)[0] != 'x'
  {
    if 10 <= n {
      FirstDigit(n / 10);
    }
  }

  /** n - 1 options named like the number, others up to place i, and there the untagged one. */
  function Crowded(i: nat, n: nat, last: Opt): seq<Opt>
    requires 1 <= n <= i + 1
  {
    Copies(Opt(Decimal(i), 0), n - 1) + Copies(Opt("x", 0), i + 1 - n) + [last]
  }

  lemma CrowdedBases(provider: string, i: nat, n: nat, last: Opt)
    requires 1 <= n <= i + 1 && last.tag == ""
    ensures BaseTags(provider, "", Crowded(i, n, last)) ==
      Copies(OwnName(provider, Decimal(i)), n - 1) + Copies(OwnName(provider, "x"), i + 1 - n)
      + [OwnName(provider, Decimal(i))]
  {
    FirstDigit(i);
    assert "" + Decimal(i) == Decimal(i);
  }

  lemma CrowdedResolve(number: string, letter: string, i: nat, n: nat) returns (tags: seq<string>)
    requires 1 <= n <= i + 1
    requires forall a: nat, b: nat {:trigger Candidate(number, a), Candidate(letter, b)} ::
      Candidate(number, a) != Candidate(letter, b)
    ensures Resolved(Copies(number, n - 1) + Copies(letter, i + 1 - n) + [number], tags)
    ensures |tags| == i + 1 && tags[i] == Candidate(number, n)
  {
    var first, second := FirstCandidates(number, n - 1), FirstCandidates(letter, i + 1 - n);
    CopiesResolve([], [], number, n - 1);
    assert [] + Copies(number, n - 1) == Copies(number, n - 1) && [] + first == first;
    CopiesResolve(Copies(number, n - 1), first, letter, i + 1 - n);
    NextIsFree([], number, n - 1, second);
    assert [] + first + second == first + second;
    tags := first + second + [Candidate(number, n)];
    ResolvedExtends(Copies(number, n - 1) + Copies(letter, i + 1 - n), first + second, number, Candidate(number, n));
  }

  lemma UntaggedIsNeeded(provider: string, opts: seq<Opt>, tags: seq<string>, j: nat, place: nat, n: nat)
    returns (p: Plan, made: Origins, i: nat)
    requires Distinct(tags) && HoldsUntagged(provider, opts, tags, j, place, n) && opts[j] != OldOpt(opts, "")
    ensures Current(provider, opts, tags, p, made) && WrongReuse(p, made, i)
  {
    var last := OldOpt(opts, "");
    UntaggedOldOpt(opts);
    CrowdedBases(provider, place, n, last);
    var number, letter := OwnName(provider, Decimal(place)), OwnName(provider, "x");
    forall a: nat, b: nat ensures Candidate(number, a) != Candidate(letter, b) {
      LettersAreNotNumbers(provider, place, a, b);
    }
    var newTags := CrowdedResolve(number, letter, place, n);
    var news := Crowded(place, n, last);
    OnePlanReuses(provider, opts, tags, j, news, newTags);
    p, made, i := OnePlan(opts, tags, j, news, newTags), map[0 := opts[j]], place;
  }

  /**
   * If every active outbound was built from its own option, then no update, to whatever options, gives an option an
   * outbound built from another, exactly when the old options agree: whoever holds a name that the last option of a
   * tag can get equals that one, and whoever holds a name that an untagged option can get equals the last untagged one.
   */
  lemma ReuseIsRightIff(provider: string, opts: seq<Opt>, tags: seq<string>)
    requires Resolved(BaseTags(provider, "", opts), tags)
    ensures
      (forall p, made, i: nat :: Current(provider, opts, tags, p, made) ==> !WrongReuse(p, made, i)) <==>
      TaggedNamesAgree(provider, opts, tags) && UntaggedNamesAgree(provider, opts, tags)
  {
    ResolvedIsDistinct(BaseTags(provider, "", opts), tags);
    if TaggedNamesAgree(provider, opts, tags) && UntaggedNamesAgree(provider, opts, tags) {
      forall p, made, i: nat | Current(provider, opts, tags, p, made) ensures !WrongReuse(p, made, i) {
        if Reuses(p, i) {
          AgreementSuffices(provider, opts, tags, p, made, i);
        }
      }
    } else if !TaggedNamesAgree(provider, opts, tags) {
      var j: nat, k: nat, n: nat :| HoldsTagged(provider, opts, tags, j, k, n) && opts[j] != opts[k];
      var p, made, i := TaggedIsNeeded(provider, opts, tags, j, k, n);
    } else {
      var j: nat, i: nat, n: nat :| HoldsUntagged(provider, opts, tags, j, i, n) && opts[j] != OldOpt(opts, "");
      var p, made, place := UntaggedIsNeeded(provider, opts, tags, j, i, n);
    }
  }

  /** `after` adds what the update builds to what was known. */
  ghost predicate Records(p: Plan, made: Origins, after: Origins)
    requires Matched(p)
  {
    && (forall id :: id in made ==> id in after && after[id] == made[id])
    && (forall i :: 0 <= i < |p.env| ==> p.env[i].id in after && after[p.env[i].id] == p.opts[i])
  }

  /** An update without a wrong reuse leaves every outbound built from its own option, as the next one needs it. */
  lemma RightReuseCarries(p: Plan, made: Origins, after: Origins, i: nat)
    requires Matched(p) && Records(p, made, after) && i < |p.tags| && !WrongReuse(p, made, i)
    ensures
      var r := Expected(p, i);
      r.Some? ==> r.value.id in after && after[r.value.id] == p.opts[i]
  {
  }

  // ----- inputs that fail -----

  /** Option `j` of the old ones and the last of the new ones get the same outbound, and differ. */
  ghost predicate GoesAstray(
    provider: string, opts: seq<Opt>, tags: seq<string>, j: nat, news: seq<Opt>, newTags: seq<string>)
  {
    && Resolved(BaseTags(provider, "", opts), tags) && j < |tags| == |opts| && news != []
    && var p, made := OnePlan(opts, tags, j, news, newTags), map[0 := opts[j]];
       && Current(provider, opts, tags, p, made)
       && Expected(p, |news| - 1) == Some(p.registry[tags[j]]) && opts[j] != news[|news| - 1]
  }

  lemma Astray(provider: string, opts: seq<Opt>, tags: seq<string>, j: nat, news: seq<Opt>, newTags: seq<string>)
    requires Resolved(BaseTags(provider, "", opts), tags) && j < |opts| && news != []
    requires Resolved(BaseTags(provider, "", news), newTags) && newTags[|news| - 1] == tags[j]
    requires OldOpt(opts, news[|news| - 1].tag) == news[|news| - 1] && opts[j] != news[|news| - 1]
    ensures GoesAstray(provider, opts, tags, j, news, newTags)
  {
    ResolvedIsDistinct(BaseTags(provider, "", opts), tags);
    OnePlanReuses(provider, opts, tags, j, news, newTags);
  }

  /** Options of one tag get its first candidates. */
  lemma SameTagResolves(provider: string, opts: seq<Opt>, tag: string)
    requires tag != "" && forall i :: 0 <= i < |opts| ==> opts[i].tag == tag
    ensures Resolved(BaseTags(provider, "", opts), FirstCandidates(OwnName(provider, tag), |opts|))
  {
    var base, m := OwnName(provider, tag), |opts|;
    CopiesResolve([], [], base, m);
    assert [] + Copies(base, m) == BaseTags(provider, "", opts);
    assert [] + FirstCandidates(base, m) == FirstCandidates(base, m);
  }

  /** Two old options share a tag: the first holds the name, the comparison is with the last. */
  lemma DuplicateTakesOverAnother(provider: string)
    ensures
      var x, y, name := Opt("a", 1), Opt("a", 2), OwnName(provider, "a");
      GoesAstray(provider, [x, y], FirstCandidates(name, 2), 0, [y], FirstCandidates(name, 1))
  {
    var x, y, name := Opt("a", 1), Opt("a", 2), OwnName(provider, "a");
    SameTagResolves(provider, [x, y], "a");
    SameTagResolves(provider, [y], "a");
    OldOptIsLast([x, y], 1);
    Astray(provider, [x, y], FirstCandidates(name, 2), 0, [y], FirstCandidates(name, 1));
  }

  /** A new option that is renamed gets the name of another old one. */
  lemma RenamedTakesOverAnother(provider: string)
    ensures
      var w, y, z, name := Opt("a", 9), Opt("a", 2), Opt("a", 3), OwnName(provider, "a");
      GoesAstray(provider, [z, y, z], FirstCandidates(name, 3), 1, [w, z], FirstCandidates(name, 2))
  {
    var w, y, z, name := Opt("a", 9), Opt("a", 2), Opt("a", 3), OwnName(provider, "a");
    SameTagResolves(provider, [z, y, z], "a");
    SameTagResolves(provider, [w, z], "a");
    OldOptIsLast([z, y, z], 2);
    Astray(provider, [z, y, z], FirstCandidates(name, 3), 1, [w, z], FirstCandidates(name, 2));
  }

  function PlaceNames(provider: string, m: nat): seq<string> {
    seq(m, i requires 0 <= i => OwnName(provider, Decimal(i)))
  }

  lemma PlaceNamesDiffer(provider: string, j: nat, i: nat)
    requires j != i
    ensures OwnName(provider, Decimal(j)) != OwnName(provider, Decimal(i))
  {
    DecimalRoundTrip(i);
    DecimalRoundTrip(j);
    Cut(provider + "/", Decimal(i));
    Cut(provider + "/", Decimal(j));
  }

  /** Names that differ are kept. */
  lemma DistinctResolve(names: seq<string>)
    requires Distinct(names)
    ensures Resolved(names, names)
  {
    forall i | 0 <= i < |names| ensures ResolvedAt(names, names, i) {
      assert names[i] !in names[..i];
      assert FirstFreeAt(names[i], Elems(names[..i]), names[i], 1);
    }
  }

  lemma PlaceNamesResolve(provider: string, opts: seq<Opt>)
    requires forall i :: 0 <= i < |opts| ==> opts[i].tag == ""
    ensures Resolved(BaseTags(provider, "", opts), PlaceNames(provider, |opts|))
  {
    var names := PlaceNames(provider, |opts|);
    assert forall i {:trigger Decimal(i)} :: 0 <= i < |opts| ==> "" + Decimal(i) == Decimal(i);
    assert BaseTags(provider, "", opts) == names;
    forall j, i | 0 <= j < i < |names| ensures names[j] != names[i] {
      PlaceNamesDiffer(provider, j, i);
    }
    DistinctResolve(names);
  }

  /** Untagged options are named by their place and compared with the last untagged one. */
  lemma UntaggedTakesOverAnother(provider: string)
    ensures
      var x, y := Opt("", 1), Opt("", 2);
      GoesAstray(provider, [x, y], PlaceNames(provider, 2), 0, [y], PlaceNames(provider, 1))
  {
    var x, y := Opt("", 1), Opt("", 2);
    PlaceNamesResolve(provider, [x, y]);
    PlaceNamesResolve(provider, [y]);
    OldOptIsLast([x, y], 1);
    Astray(provider, [x, y], PlaceNames(provider, 2), 0, [y], PlaceNames(provider, 1));
  }
}
