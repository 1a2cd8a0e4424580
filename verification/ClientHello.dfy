/** The ClientHello object and the parser that fills it in place. */
module ClientHello {
  import opened Uvarint
  import opened ClientHelloFormat
  import P = Prelude

  method ReadPairs(s: seq<Byte>, n: nat) returns (list: seq<U16>)
    requires 2 * n <= |s|
    ensures list == Pairs(s, n)
  {
    list := [];
    for i := 0 to n
      invariant list == Pairs(s, i)
    {
      list := list + [Two(s[2 * i], s[2 * i + 1])];
    }
  }

  /** A loop of step two that slices without a check; `None` is a slice out of bounds. */
  method ReadUnchecked(s: seq<Byte>, n: nat) returns (list: P.Option<seq<U16>>)
    ensures list == if |s| < 2 * PairsBelow(n) then P.None else P.Some(Pairs(s, PairsBelow(n)))
  {
    var numbers: seq<U16>, i := [], 0;
    while i < n
      invariant i == 2 * |numbers| && |numbers| <= PairsBelow(n) && i <= |s| && numbers == Pairs(s, |numbers|)
    {
      if |s| < i + 2 {
        return P.None;
      }
      numbers := numbers + [Two(s[i], s[i + 1])];
      i := i + 2;
    }
    list := P.Some(numbers);
  }

  /** One extension's body, by its type. */
  method ReadBody(f: Fields, kind: U16, body: seq<Byte>) returns (step: Step)
    ensures step == ParseBody(f, kind, body)
  {
    if kind == SERVER_NAME {
      step := ReadServerName(f, body);
    } else if kind == GROUPS {
      step := ReadGroups(f, body);
    } else if kind == POINT_FORMATS {
      step := ReadFormats(f, body);
    } else if kind == SUPPORTED_VERSIONS {
      step := ReadVersions(f, body);
    } else if kind == SIGNATURE_ALGORITHMS {
      step := ReadAlgorithms(f, body);
    } else {
      step := Next(f);
    }
  }

  method ReadServerName(f: Fields, body: seq<Byte>) returns (step: Step)
    ensures step == ParseServerName(f, body)
  {
    if |body| < 5 {
      return Stop(LengthError(13));
    }
    var kind, length, name := body[2], Two(body[3], body[4]), body[5..];
    if |name| != length {
      return Stop(LengthError(14));
    }
    step := if kind == 0 then Next(f.(name := name)) else Stop(ServerNameTypeError);
  }

  method ReadGroups(f: Fields, body: seq<Byte>) returns (step: Step)
    ensures step == ParseGroups(f, body)
  {
    if |body| < 2 {
      return Stop(LengthError(15));
    }
    var length, list := Two(body[0], body[1]), body[2..];
    if |list| != length {
      return Stop(LengthError(16));
    }
    var groups := ReadPairs(list, length / 2);
    step := Next(f.(groups := groups));
  }

  method ReadFormats(f: Fields, body: seq<Byte>) returns (step: Step)
    ensures step == ParseFormats(f, body)
  {
    if |body| < 1 {
      return Stop(LengthError(17));
    }
    var length: nat, list := body[0], body[1..];
    if |list| != length {
      return Stop(LengthError(18));
    }
    var formats := [];
    for i := 0 to length
      invariant formats == list[..i]
    {
      formats := formats + [list[i]];
    }
    assert list[..length] == list;
    step := Next(f.(formats := formats));
  }

  method ReadVersions(f: Fields, body: seq<Byte>) returns (step: Step)
    ensures step == ParseVersions(f, body)
  {
    if |body| < 1 {
      return Stop(LengthError(19));
    }
    var list := ReadUnchecked(body[1..], body[0]);
    step := if list.None? then Stop(Panics) else Next(f.(versions := f.versions + list.value));
  }

  method ReadAlgorithms(f: Fields, body: seq<Byte>) returns (step: Step)
    ensures step == ParseAlgorithms(f, body)
  {
    if |body| < 2 {
      return Stop(LengthError(20));
    }
    var list := ReadUnchecked(body[2..], Two(body[0], body[1]));
    step := if list.None? then Stop(Panics) else Next(f.(algorithms := f.algorithms + list.value));
  }

  /** The extension loop. What a record can hold keeps the 16-bit sum from wrapping, so the cursor always moves. */
  method ReadBlocks(blocks: seq<Byte>) returns (step: Step)
    requires |blocks| < 0x10000
    ensures step == ParseBlocks(NOTHING, blocks)
  {
    var f, s := NOTHING, blocks;
    while |s| > 0
      invariant |s| < 0x10000 && ParseBlocks(NOTHING, blocks) == ParseBlocks(f, s)
      decreases |s|
    {
      if |s| < 4 {
        return Stop(LengthError(11));
      }
      var kind, length := Two(s[0], s[1]), Two(s[2], s[3]);
      if |s| - 4 < length {
        return Stop(LengthError(12));
      }
      step := ReadBody(Typed(f, kind), kind, s[4..4 + length]);
      if step.Stop? {
        return;
      }
      AdvanceIff(length);
      f, s := step.fields, s[Advance(length)..];
    }
    step := Next(f);
  }

  class ClientHello {
    var version: U16
    var cipherSuites: seq<U16>
    var extensions: seq<U16>
    var ellipticCurves: seq<U16>
    var ellipticCurvePF: seq<Byte>
    var versions: seq<U16>
    var signatureAlgorithms: seq<U16>
    var serverName: seq<Byte>

    function View(): Hello
      reads this
    {
      Hello(version, cipherSuites,
            Fields(serverName, extensions, ellipticCurves, ellipticCurvePF, versions, signatureAlgorithms))
    }

    constructor ()
      ensures View() == Hello(0, [], NOTHING)
    {
      version, cipherSuites, extensions, ellipticCurves, ellipticCurvePF := 0, [], [], [], [];
      versions, signatureAlgorithms, serverName := [], [], [];
    }

    method ReadExtensions(s: seq<Byte>) returns (outcome: Outcome)
      requires |s| < 0x10000
      modifies this
      ensures (outcome, View()) == ParseExtensions(old(View()), s)
    {
      if |s| == 0 {
        return Done;
      }
      if |s| < 2 {
        return LengthError(9);
      }
      if |s[2..]| < Two(s[0], s[1]) {
        return LengthError(10);
      }
      var step := ReadBlocks(s[2..]);
      if step.Stop? {
        return step.outcome;
      }
      serverName, extensions := step.fields.name, step.fields.types;
      ellipticCurves, ellipticCurvePF := step.fields.groups, step.fields.formats;
      versions, signatureAlgorithms := step.fields.versions, step.fields.algorithms;
      outcome := Done;
    }

    method ReadSuites(s: seq<Byte>) returns (outcome: Outcome)
      requires |s| < 0x10000
      modifies this
      ensures (outcome, View()) == ParseSuites(old(View()), s)
    {
      if |s| < 2 {
        return LengthError(6);
      }
      var length := Two(s[0], s[1]);
      if |s| < 2 + length + 1 {
        return LengthError(7);
      }
      cipherSuites := ReadPairs(s[2..], length / 2);
      var compression: nat := s[2 + length];
      if |s| < 3 + length + compression {
        return LengthError(8);
      }
      outcome := ReadExtensions(s[3 + length + compression..]);
    }

    method ReadHandshake(s: seq<Byte>) returns (outcome: Outcome)
      requires |s| < 0x10000
      modifies this
      ensures (outcome, View()) == ParseHandshake(old(View()), s)
    {
      if |s| < 39 {
        return LengthError(3);
      }
      if s[0] != HANDSHAKE_TYPE {
        return HandshakeTypeError;
      }
      if |s[4..]| != Three(s[1], s[2], s[3]) {
        return LengthError(4);
      }
      var tlsVersion := Two(s[4], s[5]);
      if !Supported(tlsVersion) {
        return VersionError(2);
      }
      version := tlsVersion;
      var session: nat := s[38];
      if |s| < 39 + session {
        return LengthError(5);
      }
      outcome := ReadSuites(s[39 + session..]);
    }

    /** For any bytes at all. */
    method ReadSegment(segment: seq<Byte>) returns (outcome: Outcome)
      modifies this
      ensures (outcome, View()) == ParseSegment(old(View()), segment)
    {
      if |segment| < RECORD_HEADER {
        return LengthError(1);
      }
      if segment[0] != CONTENT_TYPE {
        return ContentTypeError;
      }
      if !Supported(Two(segment[1], segment[2])) {
        return VersionError(1);
      }
      var length := Two(segment[3], segment[4]);
      if |segment[RECORD_HEADER..]| < length {
        return LengthError(2);
      }
      outcome := ReadHandshake(segment[RECORD_HEADER..RECORD_HEADER + length]);
    }
  }
}
