/**
 * A TLS ClientHello in one record, section 4.1.2 of RFC 8446 with server_name as in section 3 of RFC 6066: how it is
 * laid out, and what the parser makes of any bytes. `Panics` is a slice that leaves its bounds.
 */
module ClientHelloFormat {
  import opened Uvarint
  import Seqs = Prelude

  type U16 = n: int | 0 <= n < 0x10000

  datatype Outcome =
    | Done
    | LengthError(place: nat)
    | ContentTypeError
    | HandshakeTypeError
    | VersionError(place: nat)
    | ServerNameTypeError
    | Panics

  const RECORD_HEADER := 5
  const RANDOM_LENGTH := 32
  const CONTENT_TYPE := 22
  const HANDSHAKE_TYPE := 1
  const SERVER_NAME: U16 := 0
  const GROUPS: U16 := 10
  const POINT_FORMATS: U16 := 11
  const SIGNATURE_ALGORITHMS: U16 := 13
  const SUPPORTED_VERSIONS: U16 := 43

  function Two(hi: Byte, lo: Byte): U16 { 256 * hi + lo }

  function Three(a: nat, b: nat, c: nat): nat { 65536 * a + 256 * b + c }

  /** `v & 0xFFFC == 0x0300`, that is SSL 3.0 to TLS 1.2, or TLS 1.3. */
  predicate Supported(v: U16) { v - v % 4 == 0x0300 || v == 0x0304 }

  /** What the extensions say. */
  datatype Fields = Fields(
    name: seq<Byte>, types: seq<U16>, groups: seq<U16>, formats: seq<Byte>, versions: seq<U16>, algorithms: seq<U16>)

  const NOTHING := Fields([], [], [], [], [], [])

  datatype Hello = Hello(version: U16, suites: seq<U16>, fields: Fields)

  // ----- parsing -----

  /** The first `n` big-endian numbers of two bytes. */
  function Pairs(s: seq<Byte>, n: nat): seq<U16>
    requires 2 * n <= |s|
  {
    seq(n, i requires 0 <= i < n => Two(s[2 * i], s[2 * i + 1]))
  }

  datatype Step = Next(fields: Fields) | Stop(outcome: Outcome)

  function ParseServerName(f: Fields, s: seq<Byte>): Step {
    if |s| < 5 then Stop(LengthError(13))
    else if |s| - 5 != Two(s[3], s[4]) then Stop(LengthError(14))
    else if s[2] != 0 then Stop(ServerNameTypeError)
    else Next(f.(name := s[5..]))
  }

  function ParseGroups(f: Fields, s: seq<Byte>): Step {
    if |s| < 2 then Stop(LengthError(15))
    else if |s| - 2 != Two(s[0], s[1]) then Stop(LengthError(16))
    else Next(f.(groups := Pairs(s[2..], (|s| - 2) / 2)))
  }

  function ParseFormats(f: Fields, s: seq<Byte>): Step {
    if |s| < 1 then Stop(LengthError(17))
    else if |s| - 1 != s[0] then Stop(LengthError(18))
    else Next(f.(formats := s[1..]))
  }

  /** How many pairs a loop of step two below `n` reads: an odd length takes one more. */
  function PairsBelow(n: nat): nat { (n + 1) / 2 }

  function ParseVersions(f: Fields, s: seq<Byte>): Step {
    if |s| < 1 then Stop(LengthError(19))
    else if |s| - 1 < 2 * PairsBelow(s[0]) then Stop(Panics)
    else Next(f.(versions := f.versions + Pairs(s[1..], PairsBelow(s[0]))))
  }

  function ParseAlgorithms(f: Fields, s: seq<Byte>): Step {
    if |s| < 2 then Stop(LengthError(20))
    else if |s| - 2 < 2 * PairsBelow(Two(s[0], s[1])) then Stop(Panics)
    else Next(f.(algorithms := f.algorithms + Pairs(s[2..], PairsBelow(Two(s[0], s[1])))))
  }

  function ParseBody(f: Fields, kind: U16, s: seq<Byte>): Step {
    if kind == SERVER_NAME then ParseServerName(f, s)
    else if kind == GROUPS then ParseGroups(f, s)
    else if kind == POINT_FORMATS then ParseFormats(f, s)
    else if kind == SUPPORTED_VERSIONS then ParseVersions(f, s)
    else if kind == SIGNATURE_ALGORITHMS then ParseAlgorithms(f, s)
    else Next(f)
  }

  function Typed(f: Fields, kind: U16): Fields { f.(types := f.types + [kind]) }

  function ParseBlocks(f: Fields, s: seq<Byte>): Step
    decreases |s|
  {
    if s == [] then Next(f)
    else if |s| < 4 then Stop(LengthError(11))
    else
      var kind, length := Two(s[0], s[1]), Two(s[2], s[3]);
      if |s| < 4 + length then Stop(LengthError(12))
      else
        match ParseBody(Typed(f, kind), kind, s[4..4 + length])
        case Stop(o) => Stop(o)
        case Next(f') => ParseBlocks(f', s[4 + length..])
  }

  /** The announced length is only a lower bound: the loop goes on to the end of the handshake. */
  function ParseExtensions(h: Hello, s: seq<Byte>): (Outcome, Hello) {
    if s == [] then (Done, h)
    else if |s| < 2 then (LengthError(9), h)
    else if |s| - 2 < Two(s[0], s[1]) then (LengthError(10), h)
    else
      match ParseBlocks(NOTHING, s[2..])
      case Stop(o) => (o, h)
      case Next(f) => (Done, h.(fields := f))
  }

  function ParseSuites(h: Hello, s: seq<Byte>): (Outcome, Hello) {
    if |s| < 2 then (LengthError(6), h)
    else
      var length := Two(s[0], s[1]);
      if |s| < 3 + length then (LengthError(7), h)
      else
        var h', compression: nat := h.(suites := Pairs(s[2..], length / 2)), s[2 + length];
        if |s| < 3 + length + compression then (LengthError(8), h')
        else ParseExtensions(h', s[3 + length + compression..])
  }

  function ParseHandshake(h: Hello, s: seq<Byte>): (Outcome, Hello) {
    if |s| < 39 then (LengthError(3), h)
    else if s[0] != HANDSHAKE_TYPE then (HandshakeTypeError, h)
    else if |s| - 4 != Three(s[1], s[2], s[3]) then (LengthError(4), h)
    else
      var version := Two(s[4], s[5]);
      if !Supported(version) then (VersionError(2), h)
      else
        var h', session: nat := h.(version := version), s[38];
        if |s| < 39 + session then (LengthError(5), h') else ParseSuites(h', s[39 + session..])
  }

  function ParseSegment(h: Hello, s: seq<Byte>): (Outcome, Hello) {
    if |s| < RECORD_HEADER then (LengthError(1), h)
    else if s[0] != CONTENT_TYPE then (ContentTypeError, h)
    else if !Supported(Two(s[1], s[2])) then (VersionError(1), h)
    else if |s| - RECORD_HEADER < Two(s[3], s[4]) then (LengthError(2), h)
    else ParseHandshake(h, s[RECORD_HEADER..RECORD_HEADER + Two(s[3], s[4])])
  }

  // ----- layout -----

  function TwoBytes(n: U16): seq<Byte> { [n / 256, n % 256] }

  function PairBytes(v: seq<U16>): seq<Byte> { if v == [] then [] else PairBytes(v[..|v| - 1]) + TwoBytes(v[|v| - 1]) }

  datatype Extension =
    | ServerName(name: seq<Byte>)
    | Groups(groups: seq<U16>)
    | PointFormats(formats: seq<Byte>)
    | SupportedVersions(versions: seq<U16>)
    | SignatureAlgorithms(algorithms: seq<U16>)
    | Other(kind: U16, body: seq<Byte>)

  predicate WellFormed(e: Extension) {
    match e
    case ServerName(name) => |name| + 5 < 0x10000
    case Groups(groups) => 2 * |groups| + 2 < 0x10000
    case PointFormats(formats) => |formats| < 256
    case SupportedVersions(versions) => 2 * |versions| < 256
    case SignatureAlgorithms(algorithms) => 2 * |algorithms| + 2 < 0x10000
    case Other(kind, body) =>
      |body| < 0x10000 && kind !in {SERVER_NAME, GROUPS, POINT_FORMATS, SIGNATURE_ALGORITHMS, SUPPORTED_VERSIONS}
  }

  function Kind(e: Extension): U16 {
    match e
    case ServerName(_) => SERVER_NAME
    case Groups(_) => GROUPS
    case PointFormats(_) => POINT_FORMATS
    case SupportedVersions(_) => SUPPORTED_VERSIONS
    case SignatureAlgorithms(_) => SIGNATURE_ALGORITHMS
    case Other(kind, _) => kind
  }

  function Body(e: Extension): seq<Byte>
    requires WellFormed(e)
  {
    match e
    case ServerName(name) => (TwoBytes(|name| + 3) + [0] + TwoBytes(|name|)) + name
    case Groups(groups) => TwoBytes(2 * |groups|) + PairBytes(groups)
    case PointFormats(formats) => [|formats|] + formats
    case SupportedVersions(versions) => [2 * |versions|] + PairBytes(versions)
    case SignatureAlgorithms(algorithms) => TwoBytes(2 * |algorithms|) + PairBytes(algorithms)
    case Other(_, body) => body
  }

  lemma {:induction false} PairBytesLength(v: seq<U16>)
    ensures |PairBytes(v)| == 2 * |v|
  {
    if v != [] {
      PairBytesLength(v[..|v| - 1]);
    }
  }

  lemma BodyLength(e: Extension)
    requires WellFormed(e)
    ensures |Body(e)| < 0x10000
  {
    match e {
      case Groups(groups) => PairBytesLength(groups);
      case SupportedVersions(versions) => PairBytesLength(versions);
      case SignatureAlgorithms(algorithms) => PairBytesLength(algorithms);
      case _ =>
    }
  }

  /** One extension: type, length, body. */
  function Block(kind: U16, body: seq<Byte>): seq<Byte>
    requires |body| < 0x10000
  {
    (TwoBytes(kind) + TwoBytes(|body|)) + body
  }

  predicate AllWellFormed(es: seq<Extension>) { forall i :: 0 <= i < |es| ==> WellFormed(es[i]) }

  function Blocks(es: seq<Extension>): seq<Byte>
    requires AllWellFormed(es)
  {
    if es == [] then []
    else
      BodyLength(es[0]);
      Block(Kind(es[0]), Body(es[0])) + Blocks(es[1..])
  }

  /** A ClientHello with its cipher suites and extensions as bytes, and the version of the record it travels in. */
  datatype Raw = Raw(
    recordVersion: U16, version: U16, random: seq<Byte>, session: seq<Byte>, suites: seq<Byte>, compression: seq<Byte>,
    extensions: seq<Byte>)

  predicate Framed(w: Raw) {
    && Supported(w.recordVersion) && Supported(w.version) && |w.random| == RANDOM_LENGTH && |w.session| < 256
    && |w.suites| < 0x10000 && |w.compression| < 256
    && 42 + |w.session| + |w.suites| + |w.compression| + |w.extensions| < 0x10000
  }

  function SuiteBytes(w: Raw): seq<Byte>
    requires |w.suites| < 0x10000 && |w.compression| < 256
  {
    TwoBytes(|w.suites|) + (w.suites + ([|w.compression|] + (w.compression + w.extensions)))
  }

  function HandshakeBody(w: Raw): seq<Byte>
    requires Framed(w)
  {
    TwoBytes(w.version) + (w.random + ([|w.session|] + (w.session + SuiteBytes(w))))
  }

  function Handshake(w: Raw): seq<Byte>
    requires Framed(w)
  {
    var n := |HandshakeBody(w)|;
    [HANDSHAKE_TYPE, n / 65536 % 256, n / 256 % 256, n % 256] + HandshakeBody(w)
  }

  lemma HandshakeLength(w: Raw)
    requires Framed(w)
    ensures |Handshake(w)| == 42 + |w.session| + |w.suites| + |w.compression| + |w.extensions| < 0x10000
  {
  }

  function RawRecord(w: Raw): seq<Byte>
    requires Framed(w)
  {
    HandshakeLength(w);
    ([CONTENT_TYPE] + TwoBytes(w.recordVersion) + TwoBytes(|Handshake(w)|)) + Handshake(w)
  }

  /** A ClientHello as the standard has it, and the version of its record. */
  datatype Message = Message(
    recordVersion: U16, version: U16, random: seq<Byte>, session: seq<Byte>, suites: seq<U16>, compression: seq<Byte>,
    extensions: Seqs.Option<seq<Extension>>)

  predicate SomeWellFormed(m: Message) {
    m.extensions.Some? ==> AllWellFormed(m.extensions.value) && |Blocks(m.extensions.value)| < 0x10000
  }

  function ExtensionBytes(m: Message): seq<Byte>
    requires SomeWellFormed(m)
  {
    if m.extensions.None? then [] else TwoBytes(|Blocks(m.extensions.value)|) + Blocks(m.extensions.value)
  }

  function RawOf(m: Message): Raw
    requires SomeWellFormed(m)
  {
    Raw(m.recordVersion, m.version, m.random, m.session, PairBytes(m.suites), m.compression, ExtensionBytes(m))
  }

  predicate Valid(m: Message) { SomeWellFormed(m) && Framed(RawOf(m)) }

  function Record(m: Message): seq<Byte>
    requires Valid(m)
  {
    RawRecord(RawOf(m))
  }

  // ----- what a hello says -----

  function Said(f: Fields, e: Extension): Fields {
    var g := Typed(f, Kind(e));
    match e
    case ServerName(name) => g.(name := name)
    case Groups(groups) => g.(groups := groups)
    case PointFormats(formats) => g.(formats := formats)
    case SupportedVersions(versions) => g.(versions := g.versions + versions)
    case SignatureAlgorithms(algorithms) => g.(algorithms := g.algorithms + algorithms)
    case Other(_, _) => g
  }

  function AllSaid(f: Fields, es: seq<Extension>): Fields
    decreases |es|
  {
    if es == [] then f else AllSaid(Said(f, es[0]), es[1..])
  }

  // ----- round trips -----

  lemma {:induction false} PairsRoundTrip(v: seq<U16>, tail: seq<Byte>)
    ensures |PairBytes(v)| == 2 * |v| && Pairs(PairBytes(v) + tail, |v|) == v
  {
    PairBytesLength(v);
    if v != [] {
      var init, last := v[..|v| - 1], v[|v| - 1];
      PairsRoundTrip(init, TwoBytes(last) + tail);
      PairBytesLength(init);
      Seqs.Assoc(PairBytes(init), TwoBytes(last), tail);
      Seqs.Init(v);
      var s := PairBytes(v) + tail;
      assert Pairs(s, |v|) == Pairs(s, |init|) + [last];
    }
  }

  lemma PairsAlone(v: seq<U16>)
    ensures |PairBytes(v)| == 2 * |v| && Pairs(PairBytes(v), |v|) == v
  {
    PairsRoundTrip(v, []);
    assert PairBytes(v) + [] == PairBytes(v);
  }

  lemma ServerNameRoundTrip(f: Fields, name: seq<Byte>)
    requires |name| + 5 < 0x10000
    ensures ParseServerName(f, Body(ServerName(name))) == Next(f.(name := name))
  {
    Seqs.Cut(TwoBytes(|name| + 3) + [0] + TwoBytes(|name|), name);
  }

  /** A list of numbers behind its length in bytes. */
  lemma ListLayout(v: seq<U16>)
    requires 2 * |v| + 2 < 0x10000
    ensures
      var s := TwoBytes(2 * |v|) + PairBytes(v);
      |s| == 2 + 2 * |v| && Two(s[0], s[1]) == 2 * |v| && Pairs(s[2..], |v|) == v
  {
    PairsAlone(v);
    Seqs.Cut(TwoBytes(2 * |v|), PairBytes(v));
  }

  lemma GroupsRoundTrip(f: Fields, v: seq<U16>)
    requires 2 * |v| + 2 < 0x10000
    ensures ParseGroups(f, Body(Groups(v))) == Next(f.(groups := v))
  {
    ListLayout(v);
  }

  lemma AlgorithmsRoundTrip(f: Fields, v: seq<U16>)
    requires 2 * |v| + 2 < 0x10000
    ensures ParseAlgorithms(f, Body(SignatureAlgorithms(v))) == Next(f.(algorithms := f.algorithms + v))
  {
    ListLayout(v);
    EvenPairs(|v|);
  }

  lemma ShortListLayout(v: seq<U16>)
    requires 2 * |v| < 256
    ensures
      var s := [2 * |v|] + PairBytes(v);
      |s| == 1 + 2 * |v| && s[0] == 2 * |v| && Pairs(s[1..], |v|) == v
  {
    PairsAlone(v);
    Seqs.Cut([2 * |v|], PairBytes(v));
  }

  lemma VersionsRoundTrip(f: Fields, v: seq<U16>)
    requires 2 * |v| < 256
    ensures ParseVersions(f, Body(SupportedVersions(v))) == Next(f.(versions := f.versions + v))
  {
    ShortListLayout(v);
    EvenPairs(|v|);
  }

  lemma EvenPairs(n: nat)
    ensures PairsBelow(2 * n) == n
  {
  }

  lemma FormatsRoundTrip(f: Fields, formats: seq<Byte>)
    requires |formats| < 256
    ensures ParseFormats(f, Body(PointFormats(formats))) == Next(f.(formats := formats))
  {
    Seqs.Cut([|formats|], formats);
  }

  lemma NumbersRoundTrip(f: Fields, e: Extension)
    requires WellFormed(e) && (e.Groups? || e.SupportedVersions? || e.SignatureAlgorithms?)
    ensures ParseBody(Typed(f, Kind(e)), Kind(e), Body(e)) == Next(Said(f, e))
  {
    var g := Typed(f, Kind(e));
    match e {
      case Groups(groups) => GroupsRoundTrip(g, groups);
      case SupportedVersions(versions) => VersionsRoundTrip(g, versions);
      case SignatureAlgorithms(algorithms) => AlgorithmsRoundTrip(g, algorithms);
    }
  }

  /** The parser finds in an extension's body what was put there. */
  lemma BodyRoundTrip(f: Fields, e: Extension)
    requires WellFormed(e)
    ensures ParseBody(Typed(f, Kind(e)), Kind(e), Body(e)) == Next(Said(f, e))
  {
    match e {
      case ServerName(name) => ServerNameRoundTrip(Typed(f, Kind(e)), name);
      case PointFormats(formats) => FormatsRoundTrip(Typed(f, Kind(e)), formats);
      case Other(_, _) =>
      case _ => NumbersRoundTrip(f, e);
    }
  }

  /** The parser cuts a block where its length says. */
  lemma BlockIsCut(f: Fields, kind: U16, body: seq<Byte>, tail: seq<Byte>)
    requires |body| < 0x10000
    ensures
      var step := ParseBody(Typed(f, kind), kind, body);
      ParseBlocks(f, Block(kind, body) + tail) == if step.Stop? then step else ParseBlocks(step.fields, tail)
  {
    var header := TwoBytes(kind) + TwoBytes(|body|);
    var s := Block(kind, body) + tail;
    Seqs.Cut(header + body, tail);
    assert s[4..4 + |body|] == body;
  }

  lemma {:induction false} BlocksRoundTrip(f: Fields, es: seq<Extension>)
    requires AllWellFormed(es)
    ensures ParseBlocks(f, Blocks(es)) == Next(AllSaid(f, es))
    decreases |es|
  {
    if es != [] {
      BodyLength(es[0]);
      BlockIsCut(f, Kind(es[0]), Body(es[0]), Blocks(es[1..]));
      BodyRoundTrip(f, es[0]);
      BlocksRoundTrip(Said(f, es[0]), es[1..]);
    }
  }

  lemma ExtensionsRoundTrip(h: Hello, m: Message)
    requires SomeWellFormed(m)
    ensures ParseExtensions(h, ExtensionBytes(m)) == (Done, WithFields(h, m))
  {
    if m.extensions.Some? {
      var blocks := Blocks(m.extensions.value);
      Seqs.Cut(TwoBytes(|blocks|), blocks);
      BlocksRoundTrip(NOTHING, m.extensions.value);
    }
  }

  /** Without an extension block the fields stay as they were. */
  function WithFields(h: Hello, m: Message): Hello {
    if m.extensions.None? then h else h.(fields := AllSaid(NOTHING, m.extensions.value))
  }

  /** Two length-prefixed strings and what follows them. */
  lemma SuitesLayout(b: seq<Byte>, c: seq<Byte>, e: seq<Byte>)
    requires |b| < 0x10000 && |c| < 256
    ensures
      var s := TwoBytes(|b|) + (b + ([|c|] + (c + e)));
      && |s| == 3 + |b| + |c| + |e| && Two(s[0], s[1]) == |b| && s[2..] == b + ([|c|] + (c + e))
      && s[2 + |b|] == |c| && s[3 + |b| + |c|..] == e
  {
    Seqs.Cut(TwoBytes(|b|), b + ([|c|] + (c + e)));
    Seqs.CutInto(TwoBytes(|b|), b + ([|c|] + (c + e)), |b| + 1 + |c|);
    Seqs.CutInto(b, [|c|] + (c + e), 1 + |c|);
    Seqs.CutInto([|c|], c + e, |c|);
    Seqs.Cut(c, e);
  }

  lemma SuitesAre(h: Hello, s: seq<Byte>, length: nat, compression: nat, suites: seq<U16>, e: seq<Byte>)
    requires |s| == 3 + length + compression + |e| && Two(s[0], s[1]) == length && s[2 + length] == compression
    requires Pairs(s[2..], length / 2) == suites && s[3 + length + compression..] == e
    ensures ParseSuites(h, s) == ParseExtensions(h.(suites := suites), e)
  {
  }

  lemma PairsOfPrefix(s: seq<Byte>, tail: seq<Byte>, n: nat)
    requires 2 * n <= |s|
    ensures Pairs(s + tail, n) == Pairs(s, n)
  {
  }

  lemma SuitesReach(h: Hello, w: Raw)
    requires |w.suites| < 0x10000 && |w.compression| < 256
    ensures ParseSuites(h, SuiteBytes(w)) ==
      ParseExtensions(h.(suites := Pairs(w.suites, |w.suites| / 2)), w.extensions)
  {
    var b, c, e := w.suites, w.compression, w.extensions;
    SuitesLayout(b, c, e);
    PairsOfPrefix(b, [|c|] + (c + e), |b| / 2);
    SuitesAre(h, SuiteBytes(w), |b|, |c|, Pairs(b, |b| / 2), e);
  }

  /** The fixed part, the session and what follows it. */
  lemma HandshakeLayout(version: U16, r: seq<Byte>, c: seq<Byte>, e: seq<Byte>)
    requires |r| == RANDOM_LENGTH && |c| < 256
    ensures
      var s := TwoBytes(version) + (r + ([|c|] + (c + e)));
      && |s| == 35 + |c| + |e| && Two(s[0], s[1]) == version && s[34] == |c| && s[35 + |c|..] == e
  {
    Seqs.CutInto(TwoBytes(version), r + ([|c|] + (c + e)), 33 + |c|);
    Seqs.CutInto(r, [|c|] + (c + e), 1 + |c|);
    Seqs.CutInto([|c|], c + e, |c|);
    Seqs.Cut(c, e);
  }

  lemma ThreeRoundTrip(n: nat)
    requires n < 0x10000
    ensures Three(n / 65536 % 256, n / 256 % 256, n % 256) == n
  {
  }

  lemma HandshakeIs(h: Hello, s: seq<Byte>, body: seq<Byte>, version: U16, session: nat, e: seq<Byte>)
    requires |s| == 4 + |body| && s[0] == HANDSHAKE_TYPE && Three(s[1], s[2], s[3]) == |body| && s[4..] == body
    requires |body| == 35 + session + |e| && Two(body[0], body[1]) == version && body[34] == session
    requires body[35 + session..] == e && Supported(version) && 0 < |e|
    ensures ParseHandshake(h, s) == ParseSuites(h.(version := version), e)
  {
    assert s[4] == s[4..][0] && s[5] == s[4..][1] && s[38] == s[4..][34];
    assert s[39 + session..] == s[4..][35 + session..];
  }

  lemma HandshakeReaches(h: Hello, w: Raw)
    requires Framed(w)
    ensures ParseHandshake(h, Handshake(w)) ==
      ParseExtensions(Hello(w.version, Pairs(w.suites, |w.suites| / 2), h.fields), w.extensions)
  {
    var s, body, n := Handshake(w), HandshakeBody(w), |HandshakeBody(w)|;
    HandshakeLength(w);
    HandshakeLayout(w.version, w.random, w.session, SuiteBytes(w));
    ThreeRoundTrip(n);
    Seqs.Cut([HANDSHAKE_TYPE, n / 65536 % 256, n / 256 % 256, n % 256], body);
    HandshakeIs(h, s, body, w.version, |w.session|, SuiteBytes(w));
    SuitesReach(h.(version := w.version), w);
  }

  lemma RecordIs(h: Hello, header: seq<Byte>, hs: seq<Byte>, version: U16, trailing: seq<Byte>)
    requires |hs| < 0x10000 && header == [CONTENT_TYPE] + TwoBytes(version) + TwoBytes(|hs|) && Supported(version)
    ensures ParseSegment(h, header + hs + trailing) == ParseHandshake(h, hs)
  {
    var s := header + hs + trailing;
    assert s[5..5 + |hs|] == hs;
  }

  /** In a framed record the parser gets to the extension bytes, with version and suites set, whatever follows. */
  lemma SegmentReaches(h: Hello, w: Raw, trailing: seq<Byte>)
    requires Framed(w)
    ensures ParseSegment(h, RawRecord(w) + trailing) ==
      ParseExtensions(Hello(w.version, Pairs(w.suites, |w.suites| / 2), h.fields), w.extensions)
  {
    HandshakeLength(w);
    var hs := Handshake(w);
    var header := [CONTENT_TYPE] + TwoBytes(w.recordVersion) + TwoBytes(|hs|);
    RecordIs(h, header, hs, w.recordVersion, trailing);
    HandshakeReaches(h, w);
  }

  lemma SuitesAreRead(m: Message)
    requires SomeWellFormed(m)
    ensures
      var w := RawOf(m);
      Pairs(w.suites, |w.suites| / 2) == m.suites
  {
    PairsAlone(m.suites);
  }

  /** Parsing inverts serialisation, for every valid message, whatever follows the record. */
  lemma SegmentRoundTrip(h: Hello, m: Message, trailing: seq<Byte>)
    requires Valid(m)
    ensures ParseSegment(h, Record(m) + trailing) == (Done, WithFields(Hello(m.version, m.suites, h.fields), m))
  {
    SegmentReaches(h, RawOf(m), trailing);
    SuitesAreRead(m);
    ExtensionsRoundTrip(Hello(m.version, m.suites, h.fields), m);
  }

  // ----- what the fields mean -----

  function Kinds(es: seq<Extension>): seq<U16> { seq(|es|, i requires 0 <= i < |es| => Kind(es[i])) }

  ghost predicate OneOfEach(es: seq<Extension>) { forall i, j :: 0 <= i < j < |es| ==> Kind(es[i]) != Kind(es[j]) }

  lemma {:induction false} TypesInOrder(f: Fields, es: seq<Extension>)
    ensures AllSaid(f, es).types == f.types + Kinds(es)
    decreases |es|
  {
    if es != [] {
      TypesInOrder(Said(f, es[0]), es[1..]);
      assert f.types + [Kind(es[0])] + Kinds(es[1..]) == f.types + Kinds(es);
    }
  }

  /** The part of the fields that extensions of one kind fill. */
  datatype Part = Bytes(bytes: seq<Byte>) | Numbers(numbers: seq<U16>)

  function PartOf(f: Fields, kind: U16): Part {
    if kind == SERVER_NAME then Bytes(f.name)
    else if kind == GROUPS then Numbers(f.groups)
    else if kind == POINT_FORMATS then Bytes(f.formats)
    else if kind == SUPPORTED_VERSIONS then Numbers(f.versions)
    else if kind == SIGNATURE_ALGORITHMS then Numbers(f.algorithms)
    else Bytes([])
  }

  function Payload(e: Extension): Part {
    match e
    case ServerName(name) => Bytes(name)
    case Groups(groups) => Numbers(groups)
    case PointFormats(formats) => Bytes(formats)
    case SupportedVersions(versions) => Numbers(versions)
    case SignatureAlgorithms(algorithms) => Numbers(algorithms)
    case Other(_, _) => Bytes([])
  }

  lemma {:induction false} UnmentionedStays(f: Fields, es: seq<Extension>, kind: U16)
    requires AllWellFormed(es) && kind !in Kinds(es)
    ensures PartOf(AllSaid(f, es), kind) == PartOf(f, kind)
    decreases |es|
  {
    if es != [] {
      assert Kinds(es)[0] == Kind(es[0]);
      assert Kinds(es)[1..] == Kinds(es[1..]);
      UnmentionedStays(Said(f, es[0]), es[1..], kind);
    }
  }

  lemma SaidAlone(f: Fields, e: Extension)
    requires WellFormed(e) && PartOf(f, Kind(e)) == PartOf(NOTHING, Kind(e))
    ensures PartOf(Said(f, e), Kind(e)) == Payload(e)
  {
  }

  lemma {:induction false} MentionedOnce(f: Fields, es: seq<Extension>, i: nat)
    requires AllWellFormed(es) && OneOfEach(es) && i < |es| && PartOf(f, Kind(es[i])) == PartOf(NOTHING, Kind(es[i]))
    ensures PartOf(AllSaid(f, es), Kind(es[i])) == Payload(es[i])
    decreases |es|
  {
    if i == 0 {
      SaidAlone(f, es[0]);
      UnmentionedStays(Said(f, es[0]), es[1..], Kind(es[0]));
    } else {
      assert Kind(es[0]) != Kind(es[i]);
      SaidLeaves(f, es[0], Kind(es[i]));
      MentionedOnce(Said(f, es[0]), es[1..], i - 1);
    }
  }

  lemma SaidLeaves(f: Fields, e: Extension, kind: U16)
    requires kind != Kind(e)
    ensures PartOf(Said(f, e), kind) == PartOf(f, kind)
  {
  }

  /** The fields are the hello's: types in order, each extension's contents, and nothing for a kind it does not have. */
  ghost predicate Tells(f: Fields, es: seq<Extension>) {
    && f.types == Kinds(es)
    && (forall i :: 0 <= i < |es| ==> PartOf(f, Kind(es[i])) == Payload(es[i]))
    && (forall kind: U16 :: kind !in f.types ==> PartOf(f, kind) == PartOf(NOTHING, kind))
  }

  /** The parser returns exactly what a well-formed hello says, from whatever object it starts with. */
  lemma HelloIsRead(h: Hello, m: Message, trailing: seq<Byte>)
    requires Valid(m) && m.extensions.Some? && OneOfEach(m.extensions.value)
    ensures
      var (outcome, h') := ParseSegment(h, Record(m) + trailing);
      outcome == Done && h'.version == m.version && h'.suites == m.suites && Tells(h'.fields, m.extensions.value)
  {
    SegmentRoundTrip(h, m, trailing);
    var es := m.extensions.value;
    TypesInOrder(NOTHING, es);
    forall i | 0 <= i < |es| ensures PartOf(AllSaid(NOTHING, es), Kind(es[i])) == Payload(es[i]) {
      MentionedOnce(NOTHING, es, i);
    }
    forall kind: U16 | kind !in Kinds(es) ensures PartOf(AllSaid(NOTHING, es), kind) == PartOf(NOTHING, kind) {
      UnmentionedStays(NOTHING, es, kind);
    }
  }

  // ----- any bytes -----

  function Joined(blocks: seq<(U16, seq<Byte>)>): seq<Byte>
    requires forall i :: 0 <= i < |blocks| ==> |blocks[i].1| < 0x10000
  {
    if blocks == [] then [] else Block(blocks[0].0, blocks[0].1) + Joined(blocks[1..])
  }

  function BlockKinds(blocks: seq<(U16, seq<Byte>)>): seq<U16> {
    if blocks == [] then [] else [blocks[0].0] + BlockKinds(blocks[1..])
  }

  lemma BytesOfTwo(hi: Byte, lo: Byte)
    ensures TwoBytes(Two(hi, lo)) == [hi, lo]
  {
  }

  lemma FirstBlock(s: seq<Byte>)
    requires 4 <= |s| && 4 + Two(s[2], s[3]) <= |s|
    ensures s == Block(Two(s[0], s[1]), s[4..4 + Two(s[2], s[3])]) + s[4 + Two(s[2], s[3])..]
  {
    BytesOfTwo(s[0], s[1]);
    BytesOfTwo(s[2], s[3]);
    var n := 4 + Two(s[2], s[3]);
    assert s[..n] == [s[0], s[1], s[2], s[3]] + s[4..n];
    assert s == s[..n] + s[n..];
  }

  /** Whatever is accepted is a row of blocks, and the types are theirs, in order. */
  lemma {:induction false} AcceptedIsTiled(f: Fields, s: seq<Byte>) returns (blocks: seq<(U16, seq<Byte>)>)
    requires ParseBlocks(f, s).Next?
    ensures forall i :: 0 <= i < |blocks| ==> |blocks[i].1| < 0x10000
    ensures s == Joined(blocks) && ParseBlocks(f, s).fields.types == f.types + BlockKinds(blocks)
    decreases |s|
  {
    if s == [] {
      blocks := [];
    } else {
      var kind, length := Two(s[0], s[1]), Two(s[2], s[3]);
      var body := s[4..4 + length];
      BodyKeepsTypes(Typed(f, kind), kind, body);
      var later := AcceptedIsTiled(ParseBody(Typed(f, kind), kind, body).fields, s[4 + length..]);
      blocks := [(kind, body)] + later;
      FirstBlock(s);
      Seqs.Cut([(kind, body)], later);
      Seqs.Assoc(f.types, [kind], BlockKinds(later));
    }
  }

  lemma BodyKeepsTypes(f: Fields, kind: U16, s: seq<Byte>)
    ensures ParseBody(f, kind, s).Next? ==> ParseBody(f, kind, s).fields.types == f.types
  {
  }

  // ----- exactly when a slice leaves its bounds -----

  function RoundedUp(n: nat): nat { n + n % 2 }

  /** A list of versions or algorithms that, rounded up to whole pairs, is announced longer than its body. */
  predicate Overruns(kind: U16, s: seq<Byte>) {
    || (kind == SUPPORTED_VERSIONS && 1 <= |s| && |s| - 1 < RoundedUp(s[0]))
    || (kind == SIGNATURE_ALGORITHMS && 2 <= |s| && |s| - 2 < RoundedUp(Two(s[0], s[1])))
  }

  lemma BodyPanicsIff(f: Fields, kind: U16, s: seq<Byte>)
    ensures ParseBody(f, kind, s) == Stop(Panics) <==> Overruns(kind, s)
  {
    if 1 <= |s| {
      PairsBelowIs(s[0]);
    }
    if 2 <= |s| {
      PairsBelowIs(Two(s[0], s[1]));
    }
  }

  /** Accepted blocks, then one that overruns, then anything. */
  ghost predicate OverrunAt(f: Fields, s: seq<Byte>, before: seq<Byte>, kind: U16, body: seq<Byte>, tail: seq<Byte>) {
    && |body| < 0x10000 && s == before + (Block(kind, body) + tail)
    && ParseBlocks(f, before).Next? && Overruns(kind, body)
  }

  ghost predicate HasOverrun(f: Fields, s: seq<Byte>) {
    exists before, kind, body, tail :: OverrunAt(f, s, before, kind, body, tail)
  }

  /** Accepted blocks in front only change the fields that the rest starts with. */
  lemma {:induction false} AcceptedInFront(f: Fields, before: seq<Byte>, tail: seq<Byte>)
    requires ParseBlocks(f, before).Next?
    ensures ParseBlocks(f, before + tail) == ParseBlocks(ParseBlocks(f, before).fields, tail)
    decreases |before|
  {
    if before == [] {
      assert before + tail == tail;
    } else {
      var kind, length := Two(before[0], before[1]), Two(before[2], before[3]);
      var body, later := before[4..4 + length], before[4 + length..];
      FirstBlock(before);
      BlockIsCut(f, kind, body, later);
      BlockIsCut(f, kind, body, later + tail);
      Seqs.Assoc(Block(kind, body), later, tail);
      AcceptedInFront(ParseBody(Typed(f, kind), kind, body).fields, later, tail);
    }
  }

  lemma OverrunPanics(f: Fields, s: seq<Byte>, before: seq<Byte>, kind: U16, body: seq<Byte>, tail: seq<Byte>)
    requires OverrunAt(f, s, before, kind, body, tail)
    ensures ParseBlocks(f, s) == Stop(Panics)
  {
    var g := ParseBlocks(f, before).fields;
    AcceptedInFront(f, before, Block(kind, body) + tail);
    BlockIsCut(g, kind, body, tail);
    BodyPanicsIff(Typed(g, kind), kind, body);
  }

  lemma {:induction false} PanicHasOverrun(f: Fields, s: seq<Byte>)
    requires ParseBlocks(f, s) == Stop(Panics)
    ensures HasOverrun(f, s)
    decreases |s|
  {
    var kind, length := Two(s[0], s[1]), Two(s[2], s[3]);
    var body, later := s[4..4 + length], s[4 + length..];
    var step := ParseBody(Typed(f, kind), kind, body);
    FirstBlock(s);
    BodyPanicsIff(Typed(f, kind), kind, body);
    if step.Stop? {
      assert [] + (Block(kind, body) + later) == s;
      assert OverrunAt(f, s, [], kind, body, later);
    } else {
      PanicHasOverrun(step.fields, later);
      var before, k, b, tail :| OverrunAt(step.fields, later, before, k, b, tail);
      BlockIsCut(f, kind, body, before);
      Seqs.Assoc(Block(kind, body), before, Block(k, b) + tail);
      assert OverrunAt(f, s, Block(kind, body) + before, k, b, tail);
    }
  }

  /** For any bytes: the extension loop leaves a slice's bounds exactly if the first block not accepted overruns. */
  lemma BlocksPanicIff(f: Fields, s: seq<Byte>)
    ensures ParseBlocks(f, s) == Stop(Panics) <==> HasOverrun(f, s)
  {
    if ParseBlocks(f, s) == Stop(Panics) {
      PanicHasOverrun(f, s);
    }
    if HasOverrun(f, s) {
      var before, kind, body, tail :| OverrunAt(f, s, before, kind, body, tail);
      OverrunPanics(f, s, before, kind, body, tail);
    }
  }

  // ----- what gets as far as the extensions -----

  /** The outcome of a parse that got to the extensions. */
  predicate PastSuites(o: Outcome) {
    o.Done? || o.Panics? || o.ServerNameTypeError? || (o.LengthError? && 9 <= o.place)
  }

  lemma SuitesGuards(h: Hello, s: seq<Byte>)
    requires PastSuites(ParseSuites(h, s).0)
    ensures 2 <= |s| && 3 + Two(s[0], s[1]) <= |s|
    ensures
      var compression: nat := s[2 + Two(s[0], s[1])];
      3 + Two(s[0], s[1]) + compression <= |s|
  {
  }

  lemma SuitesAreFramed(h: Hello, s: seq<Byte>) returns (b: seq<Byte>, c: seq<Byte>, e: seq<Byte>)
    requires PastSuites(ParseSuites(h, s).0)
    ensures |b| < 0x10000 && |c| < 256 && s == TwoBytes(|b|) + (b + ([|c|] + (c + e)))
  {
    SuitesGuards(h, s);
    b, c, e := SplitSuites(s, Two(s[0], s[1]), s[2 + Two(s[0], s[1])]);
  }

  lemma SplitSuites(s: seq<Byte>, length: nat, compression: nat)
    returns (b: seq<Byte>, c: seq<Byte>, e: seq<Byte>)
    requires 3 + length + compression <= |s| && length == Two(s[0], s[1]) && compression == s[2 + length]
    ensures |b| < 0x10000 && |c| < 256 && s == TwoBytes(|b|) + (b + ([|c|] + (c + e)))
  {
    b, c, e := s[2..2 + length], s[3 + length..3 + length + compression], s[3 + length + compression..];
    BytesOfTwo(s[0], s[1]);
    Chopped(s, 2, 2 + length, 3 + length, 3 + length + compression);
    assert s[..2] == [s[0], s[1]] && s[2 + length..3 + length] == [|c|];
  }

  lemma Chopped(s: seq<Byte>, i: nat, j: nat, k: nat, l: nat)
    requires i <= j <= k <= l <= |s|
    ensures s == s[..i] + (s[i..j] + (s[j..k] + (s[k..l] + s[l..])))
  {
    Seqs.Chop(s, 0, i);
    Seqs.Chop(s, i, j);
    Seqs.Chop(s, j, k);
    Seqs.Chop(s, k, l);
  }

  lemma Digits(q: nat, r: nat)
    requires r < 256
    ensures (256 * q + r) / 256 == q && (256 * q + r) % 256 == r
  {
  }

  lemma BytesOfThree(a: Byte, b: Byte, c: Byte)
    ensures
      var n := Three(a, b, c);
      n / 65536 % 256 == a && n / 256 % 256 == b && n % 256 == c
  {
    Digits(256 * a + b, c);
    Digits(a, b);
    Digits(0, a);
    var n := Three(a, b, c);
    assert n == 256 * (256 * a + b) + c;
    assert n / 65536 == n / 256 / 256;
  }

  lemma BodyIsFramed(w: Raw, s: seq<Byte>, session: nat)
    requires Framed(w) && 39 + session <= |s| && session == s[38] == |w.session| && w.version == Two(s[4], s[5])
    requires w.random == s[6..38] && w.session == s[39..39 + session] && SuiteBytes(w) == s[39 + session..]
    ensures s[4..] == HandshakeBody(w)
  {
    BytesOfTwo(s[4], s[5]);
    Seqs.Chop(s, 4, 6);
    Seqs.Chop(s, 6, 38);
    Seqs.Chop(s, 38, 39);
    Seqs.Chop(s, 39, 39 + session);
    assert s[4..6] == [s[4], s[5]] && s[38..39] == [session];
  }

  lemma HeaderIsFramed(w: Raw, s: seq<Byte>)
    requires Framed(w) && 4 <= |s| && s[4..] == HandshakeBody(w)
    requires s[0] == HANDSHAKE_TYPE && |s| - 4 == Three(s[1], s[2], s[3])
    ensures s == Handshake(w)
  {
    BytesOfThree(s[1], s[2], s[3]);
    Seqs.Chop(s, 0, 4);
    assert s[0..4] == [s[0], s[1], s[2], s[3]];
  }

  lemma HandshakeGuards(h: Hello, s: seq<Byte>)
    requires PastSuites(ParseHandshake(h, s).0)
    ensures 39 <= |s| && s[0] == HANDSHAKE_TYPE && |s| - 4 == Three(s[1], s[2], s[3]) && Supported(Two(s[4], s[5]))
    ensures
      var session: nat := s[38];
      39 + session <= |s| && PastSuites(ParseSuites(h.(version := Two(s[4], s[5])), s[39 + session..]).0)
  {
  }

  lemma HandshakeSplits(h: Hello, s: seq<Byte>) returns (b: seq<Byte>, c: seq<Byte>, e: seq<Byte>)
    requires PastSuites(ParseHandshake(h, s).0)
    ensures 39 <= |s| && s[0] == HANDSHAKE_TYPE && |s| - 4 == Three(s[1], s[2], s[3]) && Supported(Two(s[4], s[5]))
    ensures |b| < 0x10000 && |c| < 256
    ensures
      var session: nat := s[38];
      39 + session <= |s| && s[39 + session..] == TwoBytes(|b|) + (b + ([|c|] + (c + e)))
  {
    HandshakeGuards(h, s);
    var session: nat := s[38];
    b, c, e := SuitesAreFramed(h.(version := Two(s[4], s[5])), s[39 + session..]);
  }

  lemma HandshakeIsFramed(h: Hello, s: seq<Byte>, recordVersion: U16) returns (w: Raw)
    requires PastSuites(ParseHandshake(h, s).0) && Supported(recordVersion) && |s| < 0x10000
    ensures Framed(w) && w.recordVersion == recordVersion && s == Handshake(w)
  {
    var b, c, e := HandshakeSplits(h, s);
    w := RawHandshake(s, recordVersion, b, c, e);
    HeaderIsFramed(w, s);
  }

  lemma RawHandshake(s: seq<Byte>, recordVersion: U16, b: seq<Byte>, c: seq<Byte>, e: seq<Byte>) returns (w: Raw)
    requires 39 <= |s| < 0x10000 && Supported(recordVersion) && Supported(Two(s[4], s[5]))
    requires |b| < 0x10000 && |c| < 256
    requires
      var session: nat := s[38];
      39 + session <= |s| && s[39 + session..] == TwoBytes(|b|) + (b + ([|c|] + (c + e)))
    ensures Framed(w) && w.recordVersion == recordVersion && s[4..] == HandshakeBody(w)
  {
    var session: nat := s[38];
    w := Raw(recordVersion, Two(s[4], s[5]), s[6..38], s[39..39 + session], b, c, e);
    SuiteBytesLength(w);
    RawIsFramed(w, s, session);
  }

  lemma SuiteBytesLength(w: Raw)
    requires |w.suites| < 0x10000 && |w.compression| < 256
    ensures |SuiteBytes(w)| == 3 + |w.suites| + |w.compression| + |w.extensions|
  {
  }

  lemma RawIsFramed(w: Raw, s: seq<Byte>, session: nat)
    requires 39 + session <= |s| < 0x10000 && session == s[38] && w.version == Two(s[4], s[5])
    requires Supported(w.recordVersion) && Supported(w.version) && |w.suites| < 0x10000 && |w.compression| < 256
    requires w.random == s[6..38] && w.session == s[39..39 + session] && SuiteBytes(w) == s[39 + session..]
    requires |SuiteBytes(w)| == 3 + |w.suites| + |w.compression| + |w.extensions|
    ensures Framed(w) && s[4..] == HandshakeBody(w)
  {
    BodyIsFramed(w, s, session);
  }

  /** Any bytes that get the parser to the extensions are a framed record and what follows it. */
  lemma SegmentIsFramed(h: Hello, s: seq<Byte>) returns (w: Raw, trailing: seq<Byte>)
    requires PastSuites(ParseSegment(h, s).0)
    ensures Framed(w) && s == RawRecord(w) + trailing
  {
    var length := Two(s[3], s[4]);
    var hs := s[5..5 + length];
    w := HandshakeIsFramed(h, hs, Two(s[1], s[2]));
    trailing := s[5 + length..];
    RecordIsFramed(s, hs, trailing);
  }

  lemma RecordIsFramed(s: seq<Byte>, hs: seq<Byte>, trailing: seq<Byte>)
    requires 5 <= |s| && 5 + Two(s[3], s[4]) <= |s| && s[0] == CONTENT_TYPE
    requires hs == s[5..5 + Two(s[3], s[4])] && trailing == s[5 + Two(s[3], s[4])..]
    ensures s == ([CONTENT_TYPE] + TwoBytes(Two(s[1], s[2])) + TwoBytes(|hs|)) + hs + trailing
  {
    BytesOfTwo(s[1], s[2]);
    BytesOfTwo(s[3], s[4]);
    Seqs.Chop(s, 0, 5);
    Seqs.Chop(s, 5, 5 + |hs|);
    assert s[0..5] == [s[0]] + [s[1], s[2]] + [s[3], s[4]];
    Seqs.Assoc(s[0..5], hs, trailing);
  }

  ghost predicate ExtensionsOverrun(e: seq<Byte>) {
    2 <= |e| && Two(e[0], e[1]) <= |e| - 2 && HasOverrun(NOTHING, e[2..])
  }

  lemma ExtensionsPanicIff(h: Hello, e: seq<Byte>)
    ensures ParseExtensions(h, e).0 == Panics <==> ExtensionsOverrun(e)
  {
    if 2 <= |e| {
      BlocksPanicIff(NOTHING, e[2..]);
    }
  }

  ghost predicate RecordOverruns(s: seq<Byte>, w: Raw, trailing: seq<Byte>) {
    Framed(w) && s == RawRecord(w) + trailing && ExtensionsOverrun(w.extensions)
  }

  /** For any bytes: parsing panics exactly on a framed record whose extensions have such an overrun. */
  lemma SegmentPanicsIff(h: Hello, s: seq<Byte>)
    ensures ParseSegment(h, s).0 == Panics <==> exists w, trailing :: RecordOverruns(s, w, trailing)
  {
    if ParseSegment(h, s).0 == Panics {
      var w, trailing := SegmentIsFramed(h, s);
      SegmentReaches(h, w, trailing);
      ExtensionsPanicIff(Hello(w.version, Pairs(w.suites, |w.suites| / 2), h.fields), w.extensions);
      assert RecordOverruns(s, w, trailing);
    }
    if exists w, trailing :: RecordOverruns(s, w, trailing) {
      var w, trailing :| RecordOverruns(s, w, trailing);
      SegmentReaches(h, w, trailing);
      ExtensionsPanicIff(Hello(w.version, Pairs(w.suites, |w.suites| / 2), h.fields), w.extensions);
    }
  }

  /** A TLS 1.3 hello with one suite whose only extension announces two versions and holds one. */
  function OverAnnounced(): Raw {
    Raw(0x0301, 0x0303, seq(32, _ => 0), [], [0x13, 0x01], [0], [0, 7, 0, 43, 0, 3, 4, 3, 4])
  }

  lemma OverAnnouncedPanics(h: Hello)
    ensures Framed(OverAnnounced()) && ParseSegment(h, RawRecord(OverAnnounced())).0 == Panics
  {
    var w := OverAnnounced();
    var e := w.extensions;
    assert e[2..] == [0, 43, 0, 3, 4, 3, 4] && Block(SUPPORTED_VERSIONS, [4, 3, 4]) == [0, 43, 0, 3, 4, 3, 4];
    assert OverrunAt(NOTHING, e[2..], [], SUPPORTED_VERSIONS, [4, 3, 4], []);
    assert RawRecord(w) + [] == RawRecord(w);
    assert RecordOverruns(RawRecord(w), w, []);
    SegmentPanicsIff(h, RawRecord(w));
  }

  // ----- which bodies are accepted -----

  /** A name is all after five bytes, the third of them zero and the last two its length; the first two are ignored. */
  lemma NameAcceptedIff(f: Fields, s: seq<Byte>)
    ensures ParseBody(f, 0, s).Next? <==> 5 <= |s| && s[2] == 0 && s[3] as int * 256 + s[4] == |s| - 5
    ensures ParseBody(f, 0, s).Next? ==> ParseBody(f, 0, s).fields == f.(name := s[5..])
  {
  }

  /** A list of groups must fill its body; a last odd byte is left out. */
  lemma GroupsAcceptedIff(f: Fields, s: seq<Byte>)
    ensures ParseBody(f, 10, s).Next? <==> 2 <= |s| && s[0] as int * 256 + s[1] == |s| - 2
    ensures ParseBody(f, 10, s).Next? ==>
      var g := ParseBody(f, 10, s).fields;
      && g == f.(groups := g.groups) && |g.groups| == |s| / 2 - 1
      && forall i :: 0 <= i < |g.groups| ==> g.groups[i] == s[2 * i + 2] as int * 256 + s[2 * i + 3]
  {
  }

  lemma FormatsAcceptedIff(f: Fields, s: seq<Byte>)
    ensures ParseBody(f, 11, s).Next? <==> 1 <= |s| && s[0] == |s| - 1
    ensures ParseBody(f, 11, s).Next? ==> ParseBody(f, 11, s).fields == f.(formats := s[1..])
  {
  }

  // ----- the bytes of a record, and the extensions by their numbers -----

  /** SSL 3.0 to TLS 1.3. */
  lemma SupportedIs(v: U16)
    ensures Supported(v) <==> 0x0300 <= v <= 0x0304
  {
  }

  /** Where everything stands in a record, byte by byte. */
  lemma RecordBytes(w: Raw)
    requires Framed(w)
    ensures
      var s := RawRecord(w);
      && 46 <= |s| && s[0] == 22 && s[1] as int * 256 + s[2] == w.recordVersion
      && s[3] as int * 256 + s[4] == |s| - 5
      && s[5] == 1 && s[6] as int * 65536 + s[7] as int * 256 + s[8] == |s| - 9
      && s[9] as int * 256 + s[10] == w.version && s[11..43] == w.random && s[43] == |w.session|
  {
    var hs, body := Handshake(w), HandshakeBody(w);
    HandshakeLength(w);
    HandshakeBytes(w);
    var s := RawRecord(w);
    assert s[5..] == hs;
    assert s[11..43] == hs[6..38];
  }

  lemma HandshakeBytes(w: Raw)
    requires Framed(w)
    ensures
      var hs := Handshake(w);
      && 42 <= |hs| && hs[0] == 1 && hs[1] as int * 65536 + hs[2] as int * 256 + hs[3] == |hs| - 4
      && hs[4] as int * 256 + hs[5] == w.version && hs[6..38] == w.random && hs[38] == |w.session|
  {
    var body := HandshakeBody(w);
    HandshakeLength(w);
    assert body[2..34] == w.random && body[34] == |w.session|;
    assert Handshake(w)[6..38] == body[2..34];
  }

  lemma BlockBytes(s: seq<Byte>, kind: U16, body: seq<Byte>)
    requires |s| == 4 + |body| && s[0] == 0 && s[1] == kind && s[2] == 0 && s[3] == |body| && s[4..] == body
    ensures Block(kind, body) == s
  {
    var b := Block(kind, body);
    assert |b| == |s| && b[0] == 0 && b[1] == kind && b[2] == 0 && b[3] == |body|;
    Seqs.Cut(TwoBytes(kind) + TwoBytes(|body|), body);
    SameBytes(b, s);
  }

  lemma SameBytes(a: seq<Byte>, b: seq<Byte>)
    requires |a| == |b| && 4 <= |a| && a[0] == b[0] && a[1] == b[1] && a[2] == b[2] && a[3] == b[3] && a[4..] == b[4..]
    ensures a == b
  {
    assert a[..4] == b[..4];
    assert a == a[..4] + a[4..] && b == b[..4] + b[4..];
  }

  lemma OneBlock(s: seq<Byte>, kind: U16, body: seq<Byte>, f: Fields)
    requires |s| == 4 + |body| && s[0] == 0 && s[1] == kind && s[2] == 0 && s[3] == |body| && s[4..] == body
    requires ParseBody(Typed(NOTHING, kind), kind, body) == Next(f)
    ensures ParseBlocks(NOTHING, s) == Next(f)
  {
    BlockIsCut(NOTHING, kind, body, []);
    BlockBytes(s, kind, body);
    assert s + [] == s;
  }

  lemma ServerNameIs0(s: seq<Byte>)
    requires s == [0, 0, 0, 6, 0, 4, 0, 0, 1, 97]
    ensures ParseBlocks(NOTHING, s) == Next(Fields([97], [0], [], [], [], []))
  {
    var body := s[4..];
    assert body[5..] == [97];
    OneBlock(s, 0, body, Fields([97], [0], [], [], [], []));
  }

  lemma GroupsAre10(s: seq<Byte>)
    requires s == [0, 10, 0, 4, 0, 2, 0, 29]
    ensures ParseBlocks(NOTHING, s) == Next(Fields([], [10], [29], [], [], []))
  {
    var body := s[4..];
    assert Pairs(body[2..], 1) == [29];
    OneBlock(s, 10, body, Fields([], [10], [29], [], [], []));
  }

  lemma PointFormatsAre11(s: seq<Byte>)
    requires s == [0, 11, 0, 2, 1, 0]
    ensures ParseBlocks(NOTHING, s) == Next(Fields([], [11], [], [0], [], []))
  {
    var body := s[4..];
    assert body[1..] == [0];
    OneBlock(s, 11, body, Fields([], [11], [], [0], [], []));
  }

  lemma AlgorithmsAre13(s: seq<Byte>)
    requires s == [0, 13, 0, 4, 0, 2, 4, 3]
    ensures ParseBlocks(NOTHING, s) == Next(Fields([], [13], [], [], [], [0x0403]))
  {
    var body := s[4..];
    assert Pairs(body[2..], 1) == [0x0403];
    OneBlock(s, 13, body, Fields([], [13], [], [], [], [0x0403]));
  }

  lemma VersionsAre43(s: seq<Byte>)
    requires s == [0, 43, 0, 3, 2, 3, 4]
    ensures ParseBlocks(NOTHING, s) == Next(Fields([], [43], [], [], [0x0304], []))
  {
    var body := s[4..];
    assert Pairs(body[1..], 1) == [0x0304];
    OneBlock(s, 43, body, Fields([], [43], [], [], [0x0304], []));
  }

  lemma PairsBelowIs(n: nat)
    ensures 2 * PairsBelow(n) == n + n % 2
  {
  }

  /** How far the source moves on: the sum is taken in 16 bits. */
  function Advance(length: U16): nat { (4 + length) % 0x10000 }

  /** The sum wraps for the last four lengths; a block that fits in a record is never that long. */
  lemma AdvanceIff(length: U16)
    ensures Advance(length) == 4 + length <==> length < 0xfffc
    ensures 4 + length < 0x10000 ==> Advance(length) == 4 + length
  {
  }
}
