/** Writing and reading geosite files. */
module Geosite {
  import opened Uvarint
  import opened GeositeFormat
  import P = Prelude

  // ----- the order of the codes -----

  /** Byte-wise lexicographic order, that of Go strings. */
  predicate Less(a: Code, b: Code) {
    b != [] && (a == [] || a[0] < b[0] || (a[0] == b[0] && Less(a[1..], b[1..])))
  }

  lemma {:induction false} LessIsTotal(a: Code, b: Code)
    ensures Less(a, b) || Less(b, a) || a == b
    ensures !(Less(a, b) && Less(b, a)) && !Less(a, a)
    decreases |a|
  {
    if a != [] {
      LessIsTotal(a[1..], a[1..]);
    }
    if a != [] && b != [] && a[0] == b[0] {
      LessIsTotal(a[1..], b[1..]);
      if a[1..] == b[1..] {
        assert a == [a[0]] + a[1..] && b == [b[0]] + b[1..];
      }
    }
  }

  lemma {:induction false} LessIsTransitive(a: Code, b: Code, c: Code)
    requires Less(a, b) && Less(b, c)
    ensures Less(a, c)
    decreases |a|
  {
    if a != [] && a[0] == b[0] == c[0] {
      LessIsTransitive(a[1..], b[1..], c[1..]);
    }
  }

  ghost predicate Ordered(keys: seq<Code>) { forall i, j :: 0 <= i < j < |keys| ==> Less(keys[i], keys[j]) }

  function Inserted(keys: seq<Code>, code: Code): seq<Code> {
    if keys == [] || Less(code, keys[0]) then [code] + keys else [keys[0]] + Inserted(keys[1..], code)
  }

  lemma {:induction false} InsertedFacts(keys: seq<Code>, code: Code)
    requires Ordered(keys) && code !in keys
    ensures Ordered(Inserted(keys, code))
    ensures forall k :: k in Inserted(keys, code) <==> k == code || k in keys
  {
    if keys != [] {
      var first, later := keys[0], keys[1..];
      assert keys == [first] + later;
      if Less(code, first) {
        forall j | 0 <= j < |keys| ensures Less(code, keys[j]) {
          if 0 < j {
            LessIsTransitive(code, first, keys[j]);
          }
        }
      } else {
        InsertedFacts(later, code);
        LessIsTotal(code, first);
        var tail := Inserted(later, code);
        forall j | 0 <= j < |tail| ensures Less(first, tail[j]) {
          assert tail[j] in tail;
          if tail[j] != code {
            var i :| 0 <= i < |later| && later[i] == tail[j];
            assert keys[i + 1] == tail[j];
          }
        }
      }
    }
  }

  lemma OrderedIsDistinct(keys: seq<Code>)
    requires Ordered(keys)
    ensures P.Distinct(keys)
  {
    forall i, j | 0 <= i < j < |keys| ensures keys[i] != keys[j] {
      LessIsTotal(keys[i], keys[j]);
    }
  }

  /** The ordered list of a set of codes. */
  ghost predicate KeysOf(keys: seq<Code>, codes: set<Code>) { Ordered(keys) && forall k :: k in keys <==> k in codes }

  lemma {:induction false} KeysAreUnique(a: seq<Code>, b: seq<Code>, codes: set<Code>)
    requires KeysOf(a, codes) && KeysOf(b, codes)
    ensures a == b
    decreases |a|
  {
    if a == [] {
      if b != [] {
        FirstsAgree(b, a, codes);
      }
    } else {
      FirstsAgree(a, b, codes);
      RestOf(a, codes);
      RestOf(b, codes);
      KeysAreUnique(a[1..], b[1..], codes - {a[0]});
      assert a == [a[0]] + a[1..] && b == [b[0]] + b[1..];
    }
  }

  lemma FirstsAgree(a: seq<Code>, b: seq<Code>, codes: set<Code>)
    requires KeysOf(a, codes) && KeysOf(b, codes) && a != []
    ensures b != [] && a[0] == b[0]
  {
    assert a[0] in codes;
    var i :| 0 <= i < |b| && b[i] == a[0];
    assert b[0] in codes;
    var j :| 0 <= j < |a| && a[j] == b[0];
    LessIsTotal(a[0], b[0]);
  }

  lemma RestOf(a: seq<Code>, codes: set<Code>)
    requires KeysOf(a, codes) && a != []
    ensures KeysOf(a[1..], codes - {a[0]})
  {
    OrderedIsDistinct(a);
    assert a == [a[0]] + a[1..];
  }

  /** However the map was walked, the file comes out the same. */
  lemma WriteIsDeterministic(keys: seq<Code>, keys': seq<Code>, domains: Domains)
    requires KeysOf(keys, domains.Keys) && KeysOf(keys', domains.Keys)
    ensures Known(keys, domains) && Known(keys', domains) && File(keys, domains) == File(keys', domains)
  {
    KeysAreUnique(keys, keys', domains.Keys);
  }

  // ----- writing -----

  method SortedKeys(domains: Domains) returns (keys: seq<Code>)
    ensures KeysOf(keys, domains.Keys)
  {
    keys := [];
    var todo := domains.Keys;
    while todo != {}
      invariant KeysOf(keys, domains.Keys - todo) && todo <= domains.Keys
    {
      var code :| code in todo;
      InsertedFacts(keys, code);
      keys := Inserted(keys, code);
      todo := todo - {code};
    }
  }

  method WriteContent(keys: seq<Code>, domains: Domains) returns (content: seq<Byte>, index: map<Code, nat>)
    requires Known(keys, domains) && P.Distinct(keys)
    ensures content == Content(keys, domains)
    ensures forall i :: 0 <= i < |keys| ==> keys[i] in index && index[keys[i]] == Offset(keys, domains, i)
  {
    content, index := [], map[];
    for i := 0 to |keys|
      invariant content == Content(keys[..i], domains)
      invariant forall j :: 0 <= j < i ==> keys[j] in index && index[keys[j]] == Offset(keys, domains, j)
    {
      index := index[keys[i] := |content|];
      content := WriteItems(content, domains[keys[i]]);
      assert keys[..i + 1][..i] == keys[..i];
    }
    assert keys[..|keys|] == keys;
  }

  method WriteItems(before: seq<Byte>, items: seq<Item>) returns (content: seq<Byte>)
    ensures content == before + ItemsBytes(items)
  {
    content := before;
    for i := 0 to |items|
      invariant content == before + ItemsBytes(items[..i])
    {
      assert items[..i + 1][..i] == items[..i];
      P.Assoc(before, ItemsBytes(items[..i]), ItemBytes(items[i]));
      content := content + ([items[i].kind] + StringBytes(items[i].value));
    }
    assert items[..|items|] == items;
  }

  method WriteEntries(keys: seq<Code>, domains: Domains, index: map<Code, nat>) returns (out: seq<Byte>)
    requires Known(keys, domains)
    requires forall i :: 0 <= i < |keys| ==> keys[i] in index && index[keys[i]] == Offset(keys, domains, i)
    ensures out == Entries(keys, domains, |keys|)
  {
    out := [];
    for i := 0 to |keys|
      invariant out == Entries(keys, domains, i)
    {
      out := out + (StringBytes(keys[i]) + Encode(index[keys[i]]) + Encode(|domains[keys[i]]|));
    }
  }

  method Write(domains: Domains) returns (out: seq<Byte>)
    ensures exists keys :: KeysOf(keys, domains.Keys) && Known(keys, domains) && out == File(keys, domains)
  {
    var keys := SortedKeys(domains);
    OrderedIsDistinct(keys);
    var content, index := WriteContent(keys, domains);
    var entries := WriteEntries(keys, domains, index);
    out := [0] + Encode(|keys|) + entries + content;
  }

  // ----- reading -----

  /** A buffered reader over a counted, seekable file. How much each fill brings is left open. */
  class BufReader {
    const data: seq<Byte>
    var pos: nat            // of the underlying file
    var count: nat          // bytes taken from it since the start
    var buffer: seq<Byte>

    ghost predicate Valid()
      reads this
    {
      |buffer| <= pos && |buffer| <= count && (buffer != [] ==> pos <= |data| && buffer == data[pos - |buffer|..pos])
    }

    /** The bytes still to come. */
    ghost function Rest(): seq<Byte>
      requires Valid()
      reads this
    {
      From(data, pos - |buffer|)
    }

    /** The counter has followed the file, which was not read past its end. */
    ghost predicate Moved(pos0: nat, count0: nat)
      reads this
    {
      count + pos0 == count0 + pos && (pos0 <= |data| ==> pos <= |data|)
    }

    constructor (data: seq<Byte>, at: nat)
      ensures Valid() && this.data == data && pos == at && count == 0 && buffer == []
    {
      this.data, pos, count, buffer := data, at, 0, [];
    }

    /** Seek from the start of the file, and forget what was buffered. */
    method Restart(at: nat)
      modifies this`pos, this`buffer
      ensures Valid() && Rest() == From(data, at)
    {
      pos, buffer := at, [];
    }

    method ReadByte() returns (r: P.Option<Byte>)
      requires Valid()
      modifies this
      ensures Valid() && Moved(old(pos), old(count))
      ensures old(Rest()) == [] ==> r.None? && Rest() == []
      ensures old(Rest()) != [] ==> r == P.Some(old(Rest())[0]) && Rest() == old(Rest())[1..]
    {
      if buffer == [] {
        if |data| <= pos {
          return P.None;
        }
        var n: nat :| 1 <= n <= |data| - pos;
        buffer := data[pos..pos + n];
        pos, count := pos + n, count + n;
      }
      r := P.Some(buffer[0]);
      buffer := buffer[1..];
    }

    method ReadUvarint() returns (r: P.Result<nat, Error>)
      requires Valid()
      modifies this
      ensures Valid() && Moved(old(pos), old(count))
      ensures Matches(r, ParseNumber(old(Rest())), Rest())
    {
      var x: nat := 0;
      for i := 0 to MAX_LENGTH
        invariant Valid() && Moved(old(pos), old(count))
        invariant Decode(old(Rest()), 0, 0) == Decode(Rest(), i, x)
      {
        var b := ReadByte();
        if b.None? {
          return P.Err(if i == 0 then EOF else UnexpectedEOF);
        }
        if b.value < 128 {
          if i == MAX_LENGTH - 1 && 1 < b.value {
            return P.Err(Overflow);
          }
          return P.Ok(x + Part(b.value, i));
        }
        x := x + Part(b.value - 128, i);
      }
      r := P.Err(Overflow);
    }

    method ReadString() returns (r: P.Result<seq<Byte>, Error>)
      requires Valid()
      modifies this
      ensures Valid() && Moved(old(pos), old(count))
      ensures Matches(r, ParseString(old(Rest())), Rest())
    {
      var length := ReadUvarint();
      if length.Err? {
        return P.Err(length.error);
      }
      ghost var rest := Rest();
      var result := [];
      while |result| < length.value
        invariant Valid() && Moved(old(pos), old(count))
        invariant |result| <= |rest| && |result| <= length.value
        invariant result == rest[..|result|] && Rest() == rest[|result|..]
        decreases length.value - |result|
      {
        var b := ReadByte();
        if b.None? {
          return P.Err(EOF);
        }
        P.OneMore(rest, |result|);
        result := result + [b.value];
      }
      r := P.Ok(result);
    }

    method ReadItem() returns (r: P.Result<Item, Error>)
      requires Valid()
      modifies this
      ensures Valid()
      ensures Matches(r, ParseItem(old(Rest())), Rest())
    {
      var kind := ReadByte();
      if kind.None? {
        return P.Err(EOF);
      }
      var value := ReadString();
      if value.Err? {
        return P.Err(value.error);
      }
      r := P.Ok(Item(kind.value, value.value));
    }

    method ReadItems(n: nat) returns (r: P.Result<seq<Item>, Error>)
      requires Valid()
      modifies this
      ensures Valid()
      ensures Matches(r, ParseItems(old(Rest()), n), Rest())
    {
      var items := [];
      for i := 0 to n
        invariant Valid() && ParseItems(old(Rest()), i) == Ok(items, Rest())
      {
        var item := ReadItem();
        if item.Err? {
          ItemsFailureStays(old(Rest()), i + 1, n);
          return P.Err(item.error);
        }
        items := items + [item.value];
      }
      r := P.Ok(items);
    }

    method ReadEntry() returns (r: P.Result<Entry, Error>)
      requires Valid()
      modifies this
      ensures Valid() && Moved(old(pos), old(count))
      ensures Matches(r, ParseEntry(old(Rest())), Rest())
    {
      var code := ReadString();
      if code.Err? {
        return P.Err(code.error);
      }
      var offset := ReadUvarint();
      if offset.Err? {
        return P.Err(offset.error);
      }
      var length := ReadUvarint();
      if length.Err? {
        return P.Err(length.error);
      }
      if MAX_INT32 < offset.value || MAX_INT32 < length.value {
        return P.Err(InvalidEntry(code.value));
      }
      r := P.Ok(Entry(code.value, offset.value, length.value));
    }

    method ReadEntries(n: nat) returns (r: P.Result<Tables, Error>)
      requires Valid()
      modifies this
      ensures Valid() && Moved(old(pos), old(count))
      ensures Matches(r, ParseEntries(old(Rest()), n), Rest())
    {
      var domainIndex: map<Code, nat>, domainLength: map<Code, nat> := map[], map[];
      for i := 0 to n
        invariant Valid() && Moved(old(pos), old(count))
        invariant ParseEntries(old(Rest()), i) == Ok(Tables(domainIndex, domainLength), Rest())
      {
        var entry := ReadEntry();
        if entry.Err? {
          EntriesFailureStays(old(Rest()), i + 1, n);
          return P.Err(entry.error);
        }
        domainIndex := domainIndex[entry.value.code := entry.value.offset];
        domainLength := domainLength[entry.value.code := entry.value.count];
      }
      r := P.Ok(Tables(domainIndex, domainLength));
    }

    method ReadHeader() returns (r: P.Result<Tables, Error>)
      requires Valid()
      modifies this
      ensures Valid() && Moved(old(pos), old(count))
      ensures Matches(r, ParseHeader(old(Rest())), Rest())
    {
      var version := ReadByte();
      if version.None? {
        return P.Err(EOF);
      }
      if version.value != 0 {
        return P.Err(UnknownVersion);
      }
      var length := ReadUvarint();
      if length.Err? {
        return P.Err(length.error);
      }
      r := ReadEntries(length.value);
    }
  }

  /** A method's result is the parser's, and it stopped where the parser did. */
  ghost predicate Matches<T>(r: P.Result<T, Error>, p: Parsed<T>, rest: seq<Byte>) {
    match p
    case Ok(value, left) => r == P.Ok(value) && rest == left
    case Fail(e) => r == P.Err(e)
  }

  class Reader {
    const stream: BufReader
    const metadataIndex: nat
    const domainIndex: map<Code, nat>
    const domainLength: map<Code, nat>

    ghost predicate Valid()
      reads stream
    {
      stream.Valid() && SameKeys(Tables(domainIndex, domainLength))
    }

    constructor (stream: BufReader, metadataIndex: nat, tables: Tables)
      requires stream.Valid() && SameKeys(tables)
      ensures Valid() && this.stream == stream && this.metadataIndex == metadataIndex
      ensures Tables(domainIndex, domainLength) == tables
    {
      this.stream, this.metadataIndex := stream, metadataIndex;
      domainIndex, domainLength := tables.offset, tables.count;
    }

    /** Whatever was read before, the answer is the file's. */
    method Read(code: Code) returns (r: P.Result<seq<Item>, Error>)
      requires Valid()
      modifies stream
      ensures Valid()
      ensures Agrees(r, Answer(stream.data, Tables(domainIndex, domainLength), metadataIndex, code))
    {
      if code !in domainIndex {
        return P.Err(NoSuchCode(code));
      }
      stream.Restart(metadataIndex + domainIndex[code]);
      r := stream.ReadItems(domainLength[code]);
    }
  }

  ghost predicate Agrees<T>(r: P.Result<T, Error>, p: Parsed<T>) {
    if p.Ok? then r == P.Ok(p.value) else r == P.Err(p.error)
  }

  method Listed(codes: set<Code>) returns (list: seq<Code>)
    ensures P.Distinct(list) && forall k :: k in list <==> k in codes
  {
    list := [];
    var todo := codes;
    while todo != {}
      invariant P.Distinct(list) && todo <= codes && forall k :: k in list <==> k in codes - todo
    {
      var code :| code in todo;
      assert code !in list;
      list := list + [code];
      todo := todo - {code};
    }
  }

  /**
   * Opens a file whose position is `at`. The content starts where the header ended, and the index the reader keeps for
   * it counts from `at`; `Read` seeks from the start of the file, so the two agree when `at` is zero, as it always is.
   */
  method NewReader(data: seq<Byte>, at: nat) returns (reader: Reader?, codes: seq<Code>, error: P.Option<Error>)
    ensures match ParseHeader(From(data, at))
            case Fail(e) => reader == null && error == P.Some(e)
            case Ok(tables, rest) =>
              && reader != null && reader.Valid() && fresh(reader.stream) && error.None?
              && reader.stream.data == data && Tables(reader.domainIndex, reader.domainLength) == tables
              && reader.metadataIndex + |rest| == |From(data, at)|
              && P.Distinct(codes) && forall k :: k in codes <==> k in tables.offset
  {
    reader, codes, error := null, [], P.None;
    var stream := new BufReader(data, at);
    var header := stream.ReadHeader();
    if header.Err? {
      error := P.Some(header.error);
    } else {
      HeaderHasSameKeys(From(data, at));
      reader := new Reader(stream, stream.count - |stream.buffer|, header.value);
      codes := Listed(header.value.offset.Keys);
    }
  }

  lemma HeaderHasSameKeys(s: seq<Byte>)
    ensures ParseHeader(s).Ok? ==> SameKeys(ParseHeader(s).value) && s != []
  {
    if s != [] && s[0] == 0 && ParseNumber(s[1..]).Ok? {
      TablesHaveSameKeys(ParseNumber(s[1..]).rest, ParseNumber(s[1..]).value);
    }
  }

  /** The answer a caller should get. */
  function Expected(domains: Domains, code: Code): P.Result<seq<Item>, Error> {
    if code in domains then P.Ok(domains[code]) else P.Err(NoSuchCode(code))
  }

  lemma OpensIff(keys: seq<Code>, domains: Domains)
    requires KeysOf(keys, domains.Keys) && Known(keys, domains) && Fits(keys, domains)
    ensures ParseHeader(File(keys, domains)).Ok? <==> Small(keys, domains, |keys|)
    ensures Small(keys, domains, |keys|) ==>
      ParseHeader(File(keys, domains)) == Ok(TablesOf(keys, domains, |keys|), Content(keys, domains))
  {
    HeaderRoundTripIff(keys, domains);
  }

  lemma AnswersAreExpected(keys: seq<Code>, domains: Domains, code: Code)
    requires KeysOf(keys, domains.Keys) && Known(keys, domains) && Fits(keys, domains)
    ensures SameKeys(TablesOf(keys, domains, |keys|))
    ensures Agrees(
      Expected(domains, code),
      Answer(File(keys, domains), TablesOf(keys, domains, |keys|), |Header(keys, domains)|, code))
  {
    OrderedIsDistinct(keys);
    AnswerRoundTrip(keys, domains, code);
  }

  /**
   * Write, open, and read any codes in any order, each as often as one likes: the file opens exactly when every offset
   * and count fits 31 bits, and then the codes are the written ones and every answer is what was written.
   */
  method WriteOpenRead(domains: Domains, requests: seq<Code>)
    returns (isOpen: bool, codes: seq<Code>, answers: seq<P.Result<seq<Item>, Error>>)
    ensures FitsFile(domains) ==> (isOpen <==> SmallFile(domains))
    ensures FitsFile(domains) && isOpen ==> P.Distinct(codes) && forall k :: k in codes <==> k in domains
    ensures FitsFile(domains) && isOpen ==> AllExpected(domains, requests, answers)
  {
    var reader, error;
    var file := Write(domains);
    ghost var keys :| KeysOf(keys, domains.Keys) && Known(keys, domains) && file == File(keys, domains);
    FileOpens(keys, domains, file);
    reader, codes, error := NewReader(file, 0);
    isOpen, answers := reader != null, [];
    if reader != null {
      answers := ReadAll(reader, keys, domains, requests);
    }
  }

  /** The codes in order, whose layout the two conditions below are about. */
  ghost predicate FitsFile(domains: Domains) {
    exists keys :: KeysOf(keys, domains.Keys) && Known(keys, domains) && Fits(keys, domains)
  }

  ghost predicate SmallFile(domains: Domains) {
    exists keys :: KeysOf(keys, domains.Keys) && Known(keys, domains) && Small(keys, domains, |keys|)
  }

  lemma OnlyKeys(keys: seq<Code>, domains: Domains)
    requires KeysOf(keys, domains.Keys) && Known(keys, domains)
    ensures FitsFile(domains) <==> Fits(keys, domains)
    ensures SmallFile(domains) <==> Small(keys, domains, |keys|)
  {
    forall other | KeysOf(other, domains.Keys) ensures other == keys {
      KeysAreUnique(other, keys, domains.Keys);
    }
  }

  lemma FileOpens(keys: seq<Code>, domains: Domains, file: seq<Byte>)
    requires KeysOf(keys, domains.Keys) && Known(keys, domains) && file == File(keys, domains)
    ensures From(file, 0) == file && |file| == |Header(keys, domains)| + |Content(keys, domains)|
    ensures FitsFile(domains) ==> Fits(keys, domains) && (ParseHeader(file).Ok? <==> SmallFile(domains))
    ensures FitsFile(domains) && ParseHeader(file).Ok? ==>
      ParseHeader(file) == Ok(TablesOf(keys, domains, |keys|), Content(keys, domains))
    ensures forall k :: k in TablesOf(keys, domains, |keys|).offset <==> k in domains
  {
    OnlyKeys(keys, domains);
    if Fits(keys, domains) {
      OpensIff(keys, domains);
    }
    TablesOfKeys(keys, domains, |keys|);
    assert keys[..|keys|] == keys;
  }

  ghost predicate AllExpected(domains: Domains, requests: seq<Code>, answers: seq<P.Result<seq<Item>, Error>>) {
    |answers| == |requests| && forall i :: 0 <= i < |requests| ==> answers[i] == Expected(domains, requests[i])
  }

  /** The reader has the tables of a written file, and knows where its content starts. */
  ghost predicate Serves(reader: Reader, keys: seq<Code>, domains: Domains)
    requires Known(keys, domains)
  {
    && reader.stream.data == File(keys, domains) && reader.metadataIndex == |Header(keys, domains)|
    && Tables(reader.domainIndex, reader.domainLength) == TablesOf(keys, domains, |keys|)
  }

  method ReadAll(reader: Reader, ghost keys: seq<Code>, ghost domains: Domains, requests: seq<Code>)
    returns (answers: seq<P.Result<seq<Item>, Error>>)
    requires reader.Valid() && KeysOf(keys, domains.Keys) && Known(keys, domains)
    modifies reader.stream
    ensures reader.Valid()
    ensures Fits(keys, domains) && Serves(reader, keys, domains) ==> AllExpected(domains, requests, answers)
  {
    answers := [];
    for i := 0 to |requests|
      invariant reader.Valid() && |answers| == i
      invariant Fits(keys, domains) && Serves(reader, keys, domains) ==>
        forall j :: 0 <= j < i ==> answers[j] == Expected(domains, requests[j])
    {
      if Fits(keys, domains) {
        AnswersAreExpected(keys, domains, requests[i]);
      }
      var answer := reader.Read(requests[i]);
      answers := answers + [answer];
    }
  }

  // ----- a file that does not start at the beginning -----

  /** Wherever a file was put, the items of a code are where it starts, plus their place in it. */
  lemma ItemsWhereverPut(before: seq<Byte>, file: seq<Byte>, at: nat, n: nat, items: seq<Item>)
    requires at <= |file| && ItemsAt(file, at, n) == P.Some(items)
    ensures ItemsAt(before + file, |before| + at, n) == P.Some(items)
  {
    FromContent(before, file, at);
    assert From(before + file, |before| + at) == From(file, at);
  }
}
