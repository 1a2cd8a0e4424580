/** Round-robin answers from the DNS cache: address records rotate by one place at every hit. */
module RoundRobin {
  import opened DnsRecords
  import opened Prelude

  function Where(s: seq<RR>, p: RR -> bool): seq<RR> {
    if s == [] then [] else (if p(s[0]) then [s[0]] else []) + Where(s[1..], p)
  }

  predicate IsA(r: RR) { r.kind.A? }
  predicate IsAAAA(r: RR) { r.kind.AAAA? }
  predicate IsOther(r: RR) { !r.kind.A? && !r.kind.AAAA? }
  predicate NotTypeA(r: RR) { r.rrtype != TYPE_A }
  predicate NotTypeAAAA(r: RR) { r.rrtype != TYPE_AAAA }

  /** The last `steps` elements moved to the front. */
  function Rotated<T>(s: seq<T>, steps: nat): (r: seq<T>)
    ensures |r| == |s|
  {
    if |s| <= 1 then s
    else
      var k := steps % |s|;
      s[|s| - k..] + s[..|s| - k]
  }

  /** Which element a rotation by `k` puts at place `p`. */
  function Source(n: nat, p: nat, k: nat): nat
    requires p < n && k < n
  {
    if p < k then n - k + p else p - k
  }

  lemma RotatedAt<T>(s: seq<T>, k: nat, p: nat)
    requires p < |s| && k < |s|
    ensures Rotated(s, k)[p] == s[Source(|s|, p, k)]
  {
    assert k % |s| == k;
  }

  /** Where the addresses of one family go: to the end, rotated; nothing is moved when there is at most one. */
  function Regrouped(answers: seq<RR>, family: seq<RR>, keep: RR -> bool, index: nat): seq<RR> {
    if |family| <= 1 then answers else Where(answers, keep) + Rotated(family, index)
  }

  function Rotation(answers: seq<RR>, index4: nat, index6: nat): seq<RR> {
    Regrouped(Regrouped(answers, Where(answers, IsA), NotTypeA, index4), Where(answers, IsAAAA), NotTypeAAAA, index6)
  }

  function NextIndex(index: nat, n: nat): nat { if n <= 1 then index else (index + 1) % n }

  // ----- counting -----

  lemma {:induction false} WhereCount(s: seq<RR>, p: RR -> bool, r: RR)
    ensures multiset(Where(s, p))[r] == if p(r) then multiset(s)[r] else 0
  {
    if s != [] {
      WhereCount(s[1..], p, r);
      assert s == [s[0]] + s[1..];
    }
  }

  lemma RotatedIsPermutation<T>(s: seq<T>, steps: nat)
    ensures multiset(Rotated(s, steps)) == multiset(s)
  {
    if 1 < |s| {
      var k := steps % |s|;
      assert s == s[..|s| - k] + s[|s| - k..];
    }
  }

  /** How often a record comes out that went in `c` times. */
  function CountAfter(r: RR, c: nat, rotate4: bool, rotate6: bool): nat {
    var mid := if rotate4 then (if r.rrtype != TYPE_A then c else 0) + (if r.kind.A? then c else 0) else c;
    if rotate6 then (if r.rrtype != TYPE_AAAA then mid else 0) + (if r.kind.AAAA? then c else 0) else mid
  }

  predicate ComesOutOnce(r: RR, rotate4: bool, rotate6: bool) { CountAfter(r, 1, rotate4, rotate6) == 1 }

  lemma RegroupedCount(s: seq<RR>, family: seq<RR>, keep: RR -> bool, index: nat, r: RR)
    ensures multiset(Regrouped(s, family, keep, index))[r] ==
      if |family| <= 1 then multiset(s)[r] else (if keep(r) then multiset(s)[r] else 0) + multiset(family)[r]
  {
    WhereCount(s, keep, r);
    RotatedIsPermutation(family, index);
  }

  lemma RotationCount(answers: seq<RR>, index4: nat, index6: nat, r: RR)
    ensures multiset(Rotation(answers, index4, index6))[r] ==
      CountAfter(r, multiset(answers)[r], |Where(answers, IsA)| > 1, |Where(answers, IsAAAA)| > 1)
  {
    var a4, a6 := Where(answers, IsA), Where(answers, IsAAAA);
    WhereCount(answers, IsA, r);
    WhereCount(answers, IsAAAA, r);
    RegroupedCount(answers, a4, NotTypeA, index4, r);
    RegroupedCount(Regrouped(answers, a4, NotTypeA, index4), a6, NotTypeAAAA, index6, r);
  }

  /**
   * Records are selected by Go type and removed by header type. So nothing is lost or doubled exactly when,
   * for every record, the two ways to tell let it come out once.
   */
  lemma PermutationIff(answers: seq<RR>, index4: nat, index6: nat)
    ensures multiset(Rotation(answers, index4, index6)) == multiset(answers) <==>
      forall r :: r in answers ==> ComesOutOnce(r, |Where(answers, IsA)| > 1, |Where(answers, IsAAAA)| > 1)
  {
    var before, after := multiset(answers), multiset(Rotation(answers, index4, index6));
    forall r ensures after[r] == before[r] <==>
      (r in answers ==> ComesOutOnce(r, |Where(answers, IsA)| > 1, |Where(answers, IsAAAA)| > 1))
    {
      RotationCount(answers, index4, index6, r);
      assert r in answers <==> 0 < before[r];
    }
    if before == after {
      forall r | r in answers ensures ComesOutOnce(r, |Where(answers, IsA)| > 1, |Where(answers, IsAAAA)| > 1) {
        assert after[r] == before[r];
      }
    } else if forall r :: r in answers ==> ComesOutOnce(r, |Where(answers, IsA)| > 1, |Where(answers, IsAAAA)| > 1) {
      assert forall r :: after[r] == before[r];
    }
  }

  /** Headers tell the truth about A and AAAA records. */
  ghost predicate HonestHeaders(answers: seq<RR>) {
    forall r :: r in answers ==> (r.kind.A? <==> r.rrtype == TYPE_A) && (r.kind.AAAA? <==> r.rrtype == TYPE_AAAA)
  }

  lemma HonestMeansPermutation(answers: seq<RR>, index4: nat, index6: nat)
    requires HonestHeaders(answers)
    ensures multiset(Rotation(answers, index4, index6)) == multiset(answers)
  {
    PermutationIff(answers, index4, index6);
  }

  /** An address: whether it is an IPv4 one, and which. */
  datatype Address = Address(is4: bool, data: nat)

  /** FixedResponse: the addresses of the asked family, as records. */
  function FixedAnswers(name: string, qtype: nat, ttl: nat, addresses: seq<Address>): seq<RR> {
    if addresses == [] then []
    else
      var a := addresses[0];
      (if a.is4 && qtype == TYPE_A then [RR(A, name, TYPE_A, ttl, a.data)]
       else if !a.is4 && qtype == TYPE_AAAA then [RR(AAAA, name, TYPE_AAAA, ttl, a.data)]
       else []) + FixedAnswers(name, qtype, ttl, addresses[1..])
  }

  /** The answers that the transports build themselves have honest headers. */
  lemma {:induction false} FixedAnswersAreHonest(name: string, qtype: nat, ttl: nat, addresses: seq<Address>)
    ensures HonestHeaders(FixedAnswers(name, qtype, ttl, addresses))
  {
    if addresses != [] {
      FixedAnswersAreHonest(name, qtype, ttl, addresses[1..]);
    }
  }

  // ----- order -----

  lemma {:induction false} WhereAppend(s: seq<RR>, t: seq<RR>, p: RR -> bool)
    ensures Where(s + t, p) == Where(s, p) + Where(t, p)
  {
    if s == [] {
      assert s + t == t;
    } else {
      WhereAppend(s[1..], t, p);
      assert (s + t)[1..] == s[1..] + t;
    }
  }

  lemma {:induction false} WhereAll(s: seq<RR>, p: RR -> bool)
    requires forall r :: r in s ==> p(r)
    ensures Where(s, p) == s
  {
    if s != [] {
      WhereAll(s[1..], p);
    }
  }

  lemma {:induction false} WhereNone(s: seq<RR>, p: RR -> bool)
    requires forall r :: r in s ==> !p(r)
    ensures Where(s, p) == []
  {
    if s != [] {
      WhereNone(s[1..], p);
    }
  }

  lemma {:induction false} WhereMembers(s: seq<RR>, p: RR -> bool)
    ensures forall r :: r in Where(s, p) <==> r in s && p(r)
  {
    if s != [] {
      WhereMembers(s[1..], p);
    }
  }

  /** Filtering by `keep` first does not matter to a filter that `keep` always lets through. */
  lemma {:induction false} WhereWhere(s: seq<RR>, keep: RR -> bool, p: RR -> bool)
    requires forall r :: r in s && p(r) ==> keep(r)
    ensures Where(Where(s, keep), p) == Where(s, p)
  {
    if s != [] {
      WhereWhere(s[1..], keep, p);
      WhereAppend(if keep(s[0]) then [s[0]] else [], Where(s[1..], keep), p);
      assert Where([s[0]], p) == if p(s[0]) then [s[0]] else [];
    }
  }

  lemma RotatedMembers<T>(s: seq<T>, steps: nat)
    ensures forall r :: r in Rotated(s, steps) <==> r in s
  {
    RotatedIsPermutation(s, steps);
    assert forall r :: r in Rotated(s, steps) <==> r in multiset(Rotated(s, steps));
    assert forall r :: r in s <==> r in multiset(s);
  }

  /** Moving one family to the end leaves every other kind of record in its order. */
  lemma RegroupedOthers(s: seq<RR>, family: seq<RR>, keep: RR -> bool, index: nat, p: RR -> bool)
    requires forall r :: r in family ==> !p(r)
    requires forall r :: r in s && p(r) ==> keep(r)
    ensures Where(Regrouped(s, family, keep, index), p) == Where(s, p)
  {
    if 1 < |family| {
      WhereAppend(Where(s, keep), Rotated(family, index), p);
      WhereWhere(s, keep, p);
      RotatedMembers(family, index);
      WhereNone(Rotated(family, index), p);
    }
  }

  /** The family itself comes out rotated. */
  lemma RegroupedFamily(s: seq<RR>, family: seq<RR>, keep: RR -> bool, index: nat, p: RR -> bool)
    requires family == Where(s, p) && 1 < |family|
    requires forall r :: r in s && p(r) ==> !keep(r)
    ensures Where(Regrouped(s, family, keep, index), p) == Rotated(family, index)
  {
    WhereAppend(Where(s, keep), Rotated(family, index), p);
    WhereMembers(s, p);
    WhereMembers(s, keep);
    RotatedMembers(family, index);
    WhereNone(Where(s, keep), p);
    WhereAll(Rotated(family, index), p);
  }

  lemma RegroupedMembers(s: seq<RR>, p: RR -> bool, keep: RR -> bool, index: nat, r: RR)
    ensures r in Regrouped(s, Where(s, p), keep, index) ==> r in s
  {
    WhereMembers(s, p);
    WhereMembers(s, keep);
    RotatedMembers(Where(s, p), index);
  }

  /** With honest headers: other records keep their order, and each family is rotated by its own index. */
  lemma RotationOrder(answers: seq<RR>, index4: nat, index6: nat)
    requires HonestHeaders(answers)
    ensures
      var out := Rotation(answers, index4, index6);
      && Where(out, IsOther) == Where(answers, IsOther)
      && Where(out, IsA) == Rotated(Where(answers, IsA), index4)
      && Where(out, IsAAAA) == Rotated(Where(answers, IsAAAA), index6)
  {
    var a4, a6 := Where(answers, IsA), Where(answers, IsAAAA);
    var mid := Regrouped(answers, a4, NotTypeA, index4);
    WhereMembers(answers, IsA);
    WhereMembers(answers, IsAAAA);
    forall r | r in mid ensures r in answers {
      RegroupedMembers(answers, IsA, NotTypeA, index4, r);
    }
    RegroupedOthers(answers, a4, NotTypeA, index4, IsOther);
    RegroupedOthers(answers, a4, NotTypeA, index4, IsAAAA);
    RegroupedOthers(mid, a6, NotTypeAAAA, index6, IsOther);
    RegroupedOthers(mid, a6, NotTypeAAAA, index6, IsA);
    if 1 < |a4| {
      RegroupedFamily(answers, a4, NotTypeA, index4, IsA);
    }
    if 1 < |a6| {
      RegroupedFamily(mid, a6, NotTypeAAAA, index6, IsAAAA);
    }
  }

  // ----- fairness -----

  /** The index after `calls` hits. */
  function IndexAfter(index: nat, n: nat, calls: nat): nat {
    if calls == 0 then index else NextIndex(IndexAfter(index, n, calls - 1), n)
  }

  lemma NextIndexCases(index: nat, n: nat)
    requires index < n && 1 < n
    ensures NextIndex(index, n) == if index + 1 == n then 0 else index + 1
  {
  }

  lemma {:induction false} IndexAfterSum(index: nat, n: nat, calls: nat)
    requires index < n && 1 < n && calls <= n
    ensures IndexAfter(index, n, calls) == if index + calls < n then index + calls else index + calls - n
  {
    if 0 < calls {
      IndexAfterSum(index, n, calls - 1);
      NextIndexCases(IndexAfter(index, n, calls - 1), n);
    }
  }

  /** Which call, of the next n, puts the j-th address at place p. */
  function TurnOf(index: nat, n: nat, p: nat, j: nat): nat
    requires index < n && p < n && j < n
  {
    var wanted := if p < j then p + n - j else p - j;
    if index < wanted then wanted - index else wanted + n - index
  }

  /**
   * Over any n consecutive hits with n > 1 addresses of a family, every address takes every place, the first
   * one included, exactly once.
   */
  lemma EveryAddressEveryPlaceOnce<T>(s: seq<T>, index: nat, p: nat, j: nat, call: nat)
    requires 1 < |s| && index < |s| && p < |s| && j < |s| && 1 <= call <= |s|
    ensures
      var n := |s|;
      var k := IndexAfter(index, n, call);
      && 1 <= TurnOf(index, n, p, j) <= n
      && k < n
      && Rotated(s, k)[p] == s[Source(n, p, k)]
      && (Source(n, p, k) == j <==> call == TurnOf(index, n, p, j))
  {
    var n := |s|;
    IndexAfterSum(index, n, call);
    RotatedAt(s, IndexAfter(index, n, call), p);
  }

  /** Every element is at every place in exactly one of the lists. */
  ghost predicate OnceEach<T>(shown: seq<seq<T>>, s: seq<T>) {
    forall p, j :: 0 <= p < |s| && 0 <= j < |s| ==> OnceAt(shown, p, s[j])
  }

  predicate ShownAt<T(==)>(shown: seq<seq<T>>, c: nat, p: nat, x: T) {
    c < |shown| && p < |shown[c]| && shown[c][p] == x
  }

  ghost predicate OnceAt<T>(shown: seq<seq<T>>, p: nat, x: T) {
    exists c: nat :: ShownAt(shown, c, p, x) && forall d: nat :: ShownAt(shown, d, p, x) ==> d == c
  }

  lemma ShownAtIff<T>(s: seq<T>, index: nat, shown: seq<seq<T>>, p: nat, j: nat, d: nat)
    requires 1 < |s| == |shown| && index < |s| && Distinct(s) && p < |s| && j < |s|
    requires d < |shown| ==> shown[d] == Rotated(s, IndexAfter(index, |s|, d + 1))
    ensures 1 <= TurnOf(index, |s|, p, j) <= |s|
    ensures ShownAt(shown, d, p, s[j]) <==> d + 1 == TurnOf(index, |s|, p, j)
  {
    EveryAddressEveryPlaceOnce(s, index, p, j, if d < |s| then d + 1 else 1);
  }

  lemma OnceInTurn<T>(shown: seq<seq<T>>, p: nat, x: T, turn: nat)
    requires 1 <= turn && forall d: nat :: ShownAt(shown, d, p, x) <==> d + 1 == turn
    ensures OnceAt(shown, p, x)
  {
    assert ShownAt(shown, turn - 1, p, x);
  }

  lemma RotationsAreFair<T>(s: seq<T>, index: nat, shown: seq<seq<T>>)
    requires 1 < |s| == |shown| && index < |s| && Distinct(s)
    requires forall c :: 0 <= c < |shown| ==> shown[c] == Rotated(s, IndexAfter(index, |s|, c + 1))
    ensures OnceEach(shown, s)
  {
    forall p, j | 0 <= p < |s| && 0 <= j < |s| ensures OnceAt(shown, p, s[j]) {
      forall d: nat ensures ShownAt(shown, d, p, s[j]) <==> d + 1 == TurnOf(index, |s|, p, j) {
        ShownAtIff(s, index, shown, p, j, d);
      }
      ShownAtIff(s, index, shown, p, j, 0);
      OnceInTurn(shown, p, s[j], TurnOf(index, |s|, p, j));
    }
  }

  // ----- the cached message -----

  /** The answers of one kind in each of several messages. */
  function KindIn(outs: seq<Msg>, kind: RR -> bool): seq<seq<RR>> {
    seq(|outs|, c requires 0 <= c < |outs| => Where(outs[c].answer, kind))
  }

  /** What the `c`-th hit from given indices shows. */
  function HitAt(msg: Msg, index4: nat, index6: nat, c: nat): Msg {
    msg.(answer := Rotation(msg.answer,
                            IndexAfter(index4, |Where(msg.answer, IsA)|, c),
                            IndexAfter(index6, |Where(msg.answer, IsAAAA)|, c)))
  }

  ghost predicate HitsFrom(outs: seq<Msg>, msg: Msg, index4: nat, index6: nat) {
    forall c :: 0 <= c < |outs| ==> outs[c] == HitAt(msg, index4, index6, c + 1)
  }

  lemma HitsNext(outs: seq<Msg>, msg: Msg, index4: nat, index6: nat, out: Msg)
    requires HitsFrom(outs, msg, index4, index6) && out == HitAt(msg, index4, index6, |outs| + 1)
    ensures HitsFrom(outs + [out], msg, index4, index6)
  {
  }

  /** As many hits as there are addresses of a family show each of them at each place once. */
  ghost predicate Fair(outs: seq<Msg>, msg: Msg, kind: RR -> bool) {
    var a := Where(msg.answer, kind);
    1 < |a| == |outs| && Distinct(a) ==> OnceEach(KindIn(outs, kind), a)
  }

  lemma HitsAreFair(outs: seq<Msg>, msg: Msg, index4: nat, index6: nat)
    requires HonestHeaders(msg.answer) && HitsFrom(outs, msg, index4, index6)
    requires 1 < |Where(msg.answer, IsA)| ==> index4 < |Where(msg.answer, IsA)|
    requires 1 < |Where(msg.answer, IsAAAA)| ==> index6 < |Where(msg.answer, IsAAAA)|
    ensures Fair(outs, msg, IsA) && Fair(outs, msg, IsAAAA)
  {
    var a4, a6 := Where(msg.answer, IsA), Where(msg.answer, IsAAAA);
    forall c | 0 <= c < |outs|
      ensures KindIn(outs, IsA)[c] == Rotated(a4, IndexAfter(index4, |a4|, c + 1))
      ensures KindIn(outs, IsAAAA)[c] == Rotated(a6, IndexAfter(index6, |a6|, c + 1))
    {
      RotationOrder(msg.answer, IndexAfter(index4, |a4|, c + 1), IndexAfter(index6, |a6|, c + 1));
    }
    if 1 < |a4| == |outs| && Distinct(a4) {
      RotationsAreFair(a4, index4, KindIn(outs, IsA));
    }
    if 1 < |a6| == |outs| && Distinct(a6) {
      RotationsAreFair(a6, index6, KindIn(outs, IsAAAA));
    }
  }

  class CachedMsg {
    var ipv4Index: nat
    var ipv6Index: nat
    const msg: Msg

    constructor (msg: Msg)
      ensures this.msg == msg && ipv4Index == 0 && ipv6Index == 0 && InRange()
    {
      this.msg := msg;
      ipv4Index, ipv6Index := 0, 0;
    }

    ghost predicate InRange()
      reads this
    {
      && (1 < |Where(msg.answer, IsA)| ==> ipv4Index < |Where(msg.answer, IsA)|)
      && (1 < |Where(msg.answer, IsAAAA)| ==> ipv6Index < |Where(msg.answer, IsAAAA)|)
    }

    /** One hit: the stored message with its answers rotated by the advanced indices. */
    method Hit() returns (out: Msg)
      modifies this
      ensures ipv4Index == NextIndex(old(ipv4Index), |Where(msg.answer, IsA)|)
      ensures ipv6Index == NextIndex(old(ipv6Index), |Where(msg.answer, IsAAAA)|)
      ensures out == msg.(answer := Rotation(msg.answer, ipv4Index, ipv6Index))
      ensures InRange()
    {
      var a4, a6 := Families(msg.answer);
      var answer := msg.answer;
      if 1 < |a4| {
        ipv4Index := (ipv4Index + 1) % |a4|;
        var rest := Remaining(answer, NotTypeA);
        answer := rest + Rotated(a4, ipv4Index);
      }
      if 1 < |a6| {
        ipv6Index := (ipv6Index + 1) % |a6|;
        var rest := Remaining(answer, NotTypeAAAA);
        answer := rest + Rotated(a6, ipv6Index);
      }
      out := msg.(answer := answer);
    }

    /** Consecutive hits: over as many as there are addresses, each address is at each place once, so also first. */
    method Hits(calls: nat) returns (outs: seq<Msg>)
      requires InRange() && HonestHeaders(msg.answer)
      modifies this
      ensures |outs| == calls && InRange() && HitsFrom(outs, msg, old(ipv4Index), old(ipv6Index))
      ensures Fair(outs, msg, IsA) && Fair(outs, msg, IsAAAA)
    {
      outs := [];
      for c := 0 to calls
        invariant |outs| == c && InRange() && HitsFrom(outs, msg, old(ipv4Index), old(ipv6Index))
        invariant ipv4Index == IndexAfter(old(ipv4Index), |Where(msg.answer, IsA)|, c)
        invariant ipv6Index == IndexAfter(old(ipv6Index), |Where(msg.answer, IsAAAA)|, c)
      {
        var out := Hit();
        HitsNext(outs, msg, old(ipv4Index), old(ipv6Index), out);
        outs := outs + [out];
      }
      HitsAreFair(outs, msg, old(ipv4Index), old(ipv6Index));
    }
  }

  /** removeAnswersOfType: what is left of the answers. */
  method Remaining(answers: seq<RR>, keep: RR -> bool) returns (out: seq<RR>)
    ensures out == Where(answers, keep)
  {
    out := [];
    for i := 0 to |answers|
      invariant out == Where(answers[..i], keep)
    {
      assert answers[..i + 1] == answers[..i] + [answers[i]];
      WhereAppend(answers[..i], [answers[i]], keep);
      if keep(answers[i]) {
        out := out + [answers[i]];
      }
    }
    assert answers[..|answers|] == answers;
  }

  method Families(answers: seq<RR>) returns (a4: seq<RR>, a6: seq<RR>)
    ensures a4 == Where(answers, IsA) && a6 == Where(answers, IsAAAA)
  {
    a4, a6 := [], [];
    for i := 0 to |answers|
      invariant a4 == Where(answers[..i], IsA) && a6 == Where(answers[..i], IsAAAA)
    {
      var r := answers[i];
      assert answers[..i + 1] == answers[..i] + [r];
      WhereAppend(answers[..i], [r], IsA);
      WhereAppend(answers[..i], [r], IsAAAA);
      match r.kind {
        case A => a4 := a4 + [r];
        case AAAA => a6 := a6 + [r];
        case _ =>
      }
    }
    assert answers[..|answers|] == answers;
  }
}
