/**
 * The geosite file: a version byte, the number of codes, for each code its name, the offset of its items in the
 * content and their number, and then the content. Strings are Go strings, that is bytes.
 */
module GeositeFormat {
  import opened Uvarint
  import Seqs = Prelude

  type Code = seq<Byte>
  datatype Item = Item(kind: Byte, value: seq<Byte>)
  type Domains = map<Code, seq<Item>>

  const MAX_INT32 := 0x7fff_ffff

  // ----- writing -----

  function StringBytes(s: seq<Byte>): seq<Byte> { Encode(|s|) + s }

  function ItemBytes(item: Item): seq<Byte> { [item.kind] + StringBytes(item.value) }

  function ItemsBytes(items: seq<Item>): seq<Byte> {
    if items == [] then [] else ItemsBytes(items[..|items| - 1]) + ItemBytes(items[|items| - 1])
  }

  predicate Known(keys: seq<Code>, domains: Domains) { forall k :: k in keys ==> k in domains }

  function Content(keys: seq<Code>, domains: Domains): seq<Byte>
    requires Known(keys, domains)
  {
    if keys == [] then [] else Content(keys[..|keys| - 1], domains) + ItemsBytes(domains[keys[|keys| - 1]])
  }

  function Offset(keys: seq<Code>, domains: Domains, i: nat): nat
    requires Known(keys, domains) && i <= |keys|
  {
    |Content(keys[..i], domains)|
  }

  function EntryBytes(code: Code, offset: nat, count: nat): seq<Byte> {
    StringBytes(code) + Encode(offset) + Encode(count)
  }

  /** The first `i` entries. */
  function Entries(keys: seq<Code>, domains: Domains, i: nat): seq<Byte>
    requires Known(keys, domains) && i <= |keys|
  {
    if i == 0 then []
    else Entries(keys, domains, i - 1) + EntryBytes(keys[i - 1], Offset(keys, domains, i - 1), |domains[keys[i - 1]]|)
  }

  function Header(keys: seq<Code>, domains: Domains): seq<Byte>
    requires Known(keys, domains)
  {
    [0] + Encode(|keys|) + Entries(keys, domains, |keys|)
  }

  function File(keys: seq<Code>, domains: Domains): seq<Byte>
    requires Known(keys, domains)
  {
    Header(keys, domains) + Content(keys, domains)
  }

  /** A file of one code "a" with one item "b" of kind 0, byte by byte. */
  lemma LiteralFile(keys: seq<Code>, domains: Domains)
    requires keys == [[97]] && domains == map[[97] := [Item(0, [98])]]
    ensures File(keys, domains) == [0, 1, 1, 97, 0, 1, 0, 1, 98]
  {
    var items := domains[[97]];
    assert items[..0] == [] && keys[..0] == [] && keys[0] == [97];
    assert ItemsBytes(items) == [0, 1, 98];
    assert Content(keys, domains) == [0, 1, 98];
    assert EntryBytes(keys[0], 0, 1) == [1, 97, 0, 1];
    assert Entries(keys, domains, 1) == [1, 97, 0, 1];
  }

  // ----- reading -----

  function ParseString(s: seq<Byte>): Parsed<seq<Byte>> {
    match Decode(s, 0, 0)
    case Fail(e) => Fail(e)
    case Ok(n, rest) => if |rest| < n then Fail(EOF) else Ok(rest[..n], rest[n..])
  }

  function ParseItem(s: seq<Byte>): Parsed<Item> {
    if s == [] then Fail(EOF)
    else
      match ParseString(s[1..])
      case Fail(e) => Fail(e)
      case Ok(value, rest) => Ok(Item(s[0], value), rest)
  }

  function ParseItems(s: seq<Byte>, n: nat): Parsed<seq<Item>> {
    if n == 0 then Ok([], s)
    else
      match ParseItems(s, n - 1)
      case Fail(e) => Fail(e)
      case Ok(items, rest) =>
        match ParseItem(rest)
        case Fail(e) => Fail(e)
        case Ok(item, rest') => Ok(items + [item], rest')
  }

  datatype Entry = Entry(code: Code, offset: nat, count: nat)

  function ParseNumber(s: seq<Byte>): Parsed<nat> { Decode(s, 0, 0) }

  function ParseEntry(s: seq<Byte>): Parsed<Entry> {
    match ParseString(s)
    case Fail(e) => Fail(e)
    case Ok(code, s1) =>
      match ParseNumber(s1)
      case Fail(e) => Fail(e)
      case Ok(offset, s2) =>
        match ParseNumber(s2)
        case Fail(e) => Fail(e)
        case Ok(count, s3) =>
          if MAX_INT32 < offset || MAX_INT32 < count then Fail(InvalidEntry(code))
          else Ok(Entry(code, offset, count), s3)
  }

  /** The tables a reader keeps; a code listed twice keeps its last entry. */
  datatype Tables = Tables(offset: map<Code, nat>, count: map<Code, nat>)

  function Noted(t: Tables, e: Entry): Tables { Tables(t.offset[e.code := e.offset], t.count[e.code := e.count]) }

  function ParseEntries(s: seq<Byte>, n: nat): Parsed<Tables> {
    if n == 0 then Ok(Tables(map[], map[]), s)
    else
      match ParseEntries(s, n - 1)
      case Fail(e) => Fail(e)
      case Ok(t, rest) =>
        match ParseEntry(rest)
        case Fail(e) => Fail(e)
        case Ok(entry, rest') => Ok(Noted(t, entry), rest')
  }

  function ParseHeader(s: seq<Byte>): Parsed<Tables> {
    if s == [] then Fail(EOF)
    else if s[0] != 0 then Fail(UnknownVersion)
    else
      match ParseNumber(s[1..])
      case Fail(e) => Fail(e)
      case Ok(n, rest) => ParseEntries(rest, n)
  }

  /** The file from a position on; positions past the end are allowed and there is nothing there. */
  function From(data: seq<Byte>, pos: nat): seq<Byte> { if pos <= |data| then data[pos..] else [] }

  /** What a reader with these tables answers for a code, the content starting at `start`. */
  function Answer(data: seq<Byte>, t: Tables, start: nat, code: Code): Parsed<seq<Item>>
    requires SameKeys(t)
  {
    if code !in t.offset then Fail(NoSuchCode(code)) else ParseItems(From(data, start + t.offset[code]), t.count[code])
  }

  // ----- failures stay -----

  lemma {:induction false} ItemsFailureStays(s: seq<Byte>, i: nat, n: nat)
    requires i <= n && ParseItems(s, i).Fail?
    ensures ParseItems(s, n) == ParseItems(s, i)
  {
    if i < n {
      ItemsFailureStays(s, i, n - 1);
    }
  }

  lemma {:induction false} EntriesFailureStays(s: seq<Byte>, i: nat, n: nat)
    requires i <= n && ParseEntries(s, i).Fail?
    ensures ParseEntries(s, n) == ParseEntries(s, i)
  {
    if i < n {
      EntriesFailureStays(s, i, n - 1);
    }
  }

  predicate SameKeys(t: Tables) { t.offset.Keys == t.count.Keys }

  lemma NotedKeys(t: Tables, e: Entry)
    requires SameKeys(t)
    ensures SameKeys(Noted(t, e))
  {
  }

  lemma {:induction false} TablesHaveSameKeys(s: seq<Byte>, n: nat)
    ensures ParseEntries(s, n).Ok? ==> SameKeys(ParseEntries(s, n).value)
  {
    if 0 < n {
      TablesHaveSameKeys(s, n - 1);
      var p := ParseEntries(s, n - 1);
      if p.Ok? {
        var q := ParseEntry(p.rest);
        if q.Ok? {
          NotedKeys(p.value, q.value);
        }
      }
    }
  }

  // ----- round trips -----

  /** Go's lengths are ints, so every one of them fits the 64 bits it is written in. */
  predicate ItemFits(item: Item) { |item.value| < TWO_64 }
  predicate ItemsFit(items: seq<Item>) { |items| < TWO_64 && forall i :: 0 <= i < |items| ==> ItemFits(items[i]) }
  predicate Fits(keys: seq<Code>, domains: Domains)
    requires Known(keys, domains)
  {
    && |keys| < TWO_64 && |Content(keys, domains)| < TWO_64
    && forall k :: k in keys ==> |k| < TWO_64 && ItemsFit(domains[k])
  }

  lemma StringRoundTrip(s: seq<Byte>, tail: seq<Byte>)
    requires |s| < TWO_64
    ensures ParseString(StringBytes(s) + tail) == Ok(s, tail)
  {
    RoundTripIff(|s|, s + tail);
    Seqs.Assoc(Encode(|s|), s, tail);
    Seqs.Cut(s, tail);
  }

  lemma ItemRoundTrip(item: Item, tail: seq<Byte>)
    requires ItemFits(item)
    ensures ParseItem(ItemBytes(item) + tail) == Ok(item, tail)
  {
    StringRoundTrip(item.value, tail);
    Seqs.Assoc([item.kind], StringBytes(item.value), tail);
    Seqs.Cut([item.kind], StringBytes(item.value) + tail);
  }

  lemma {:induction false} ItemsRoundTrip(items: seq<Item>, tail: seq<Byte>)
    requires ItemsFit(items)
    ensures ParseItems(ItemsBytes(items) + tail, |items|) == Ok(items, tail)
  {
    if items == [] {
      assert ItemsBytes(items) + tail == tail;
    } else {
      var init, last := items[..|items| - 1], items[|items| - 1];
      ItemsRoundTrip(init, ItemBytes(last) + tail);
      ItemRoundTrip(last, tail);
      Seqs.Assoc(ItemsBytes(init), ItemBytes(last), tail);
      Seqs.Init(items);
    }
  }

  lemma EntryParts(a: seq<Byte>, b: seq<Byte>, c: seq<Byte>, d: seq<Byte>)
    ensures a + b + c + d == a + (b + (c + d))
  {
    Seqs.Assoc(a + b, c, d);
    Seqs.Assoc(a, b, c + d);
  }

  /** An entry is read back exactly if both numbers fit 31 bits, and refused by name otherwise. */
  lemma EntryRoundTripIff(code: Code, offset: nat, count: nat, tail: seq<Byte>)
    requires |code| < TWO_64 && offset < TWO_64 && count < TWO_64
    ensures ParseEntry(EntryBytes(code, offset, count) + tail) ==
      if offset <= MAX_INT32 && count <= MAX_INT32 then Ok(Entry(code, offset, count), tail)
      else Fail(InvalidEntry(code))
  {
    StringRoundTrip(code, Encode(offset) + (Encode(count) + tail));
    RoundTripIff(offset, Encode(count) + tail);
    RoundTripIff(count, tail);
    EntryParts(StringBytes(code), Encode(offset), Encode(count), tail);
  }

  /** The first `i` codes are within the reader's limits. */
  predicate Small(keys: seq<Code>, domains: Domains, i: nat)
    requires Known(keys, domains) && i <= |keys|
  {
    forall j :: 0 <= j < i ==> Offset(keys, domains, j) <= MAX_INT32 && |domains[keys[j]]| <= MAX_INT32
  }

  function TablesOf(keys: seq<Code>, domains: Domains, i: nat): Tables
    requires Known(keys, domains) && i <= |keys|
  {
    if i == 0 then Tables(map[], map[])
    else Noted(TablesOf(keys, domains, i - 1), Entry(keys[i - 1], Offset(keys, domains, i - 1), |domains[keys[i - 1]]|))
  }

  lemma {:induction false} OffsetsAreOrdered(keys: seq<Code>, domains: Domains, i: nat)
    requires Known(keys, domains) && i <= |keys|
    ensures Offset(keys, domains, i) <= |Content(keys, domains)|
    decreases |keys| - i
  {
    if i == |keys| {
      assert keys[..i] == keys;
    } else {
      OffsetsAreOrdered(keys, domains, i + 1);
      assert keys[..i + 1][..i] == keys[..i];
    }
  }

  lemma {:induction false} EntriesRoundTrip(keys: seq<Code>, domains: Domains, i: nat, tail: seq<Byte>)
    requires Known(keys, domains) && Fits(keys, domains) && i <= |keys| && Small(keys, domains, i)
    ensures ParseEntries(Entries(keys, domains, i) + tail, i) == Ok(TablesOf(keys, domains, i), tail)
  {
    if i == 0 {
      assert Entries(keys, domains, 0) + tail == tail;
    } else {
      var entry := EntryBytes(keys[i - 1], Offset(keys, domains, i - 1), |domains[keys[i - 1]]|);
      EntriesRoundTrip(keys, domains, i - 1, entry + tail);
      OffsetsAreOrdered(keys, domains, i - 1);
      assert keys[i - 1] in keys;
      EntryRoundTripIff(keys[i - 1], Offset(keys, domains, i - 1), |domains[keys[i - 1]]|, tail);
      Seqs.Assoc(Entries(keys, domains, i - 1), entry, tail);
    }
  }

  /** The entries after the first `i`. */
  function LaterEntries(keys: seq<Code>, domains: Domains, i: nat): seq<Byte>
    requires Known(keys, domains) && i <= |keys|
    decreases |keys| - i
  {
    if i == |keys| then []
    else EntryBytes(keys[i], Offset(keys, domains, i), |domains[keys[i]]|) + LaterEntries(keys, domains, i + 1)
  }

  lemma {:induction false} EntriesSplit(keys: seq<Code>, domains: Domains, i: nat)
    requires Known(keys, domains) && i <= |keys|
    ensures Entries(keys, domains, |keys|) == Entries(keys, domains, i) + LaterEntries(keys, domains, i)
    decreases |keys| - i
  {
    if i < |keys| {
      EntriesSplit(keys, domains, i + 1);
      var entry := EntryBytes(keys[i], Offset(keys, domains, i), |domains[keys[i]]|);
      Seqs.Assoc(Entries(keys, domains, i), entry, LaterEntries(keys, domains, i + 1));
    }
  }

  /** The first entry over the limits is the one the reader complains about. */
  lemma OversizedIsRefused(keys: seq<Code>, domains: Domains, i: nat, tail: seq<Byte>)
    requires Known(keys, domains) && Fits(keys, domains) && i < |keys|
    requires Small(keys, domains, i) && !Small(keys, domains, i + 1)
    ensures ParseEntries(Entries(keys, domains, |keys|) + tail, |keys|) == Fail(InvalidEntry(keys[i]))
  {
    var later := LaterEntries(keys, domains, i + 1) + tail;
    var offset, count := Offset(keys, domains, i), |domains[keys[i]]|;
    var entry := EntryBytes(keys[i], offset, count);
    EntriesRoundTrip(keys, domains, i, entry + later);
    OffsetsAreOrdered(keys, domains, i);
    assert keys[i] in keys;
    EntryRoundTripIff(keys[i], offset, count, later);
    EntriesSplit(keys, domains, i);
    var s := Entries(keys, domains, |keys|) + tail;
    Seqs.Assoc(Entries(keys, domains, i), LaterEntries(keys, domains, i), tail);
    Seqs.Assoc(entry, LaterEntries(keys, domains, i + 1), tail);
    assert ParseEntries(s, i + 1) == Fail(InvalidEntry(keys[i]));
    EntriesFailureStays(s, i + 1, |keys|);
  }

  lemma {:induction false} FirstOversized(keys: seq<Code>, domains: Domains, n: nat) returns (i: nat)
    requires Known(keys, domains) && n <= |keys| && !Small(keys, domains, n)
    ensures i < n && Small(keys, domains, i) && !Small(keys, domains, i + 1)
  {
    if Small(keys, domains, n - 1) {
      i := n - 1;
    } else {
      i := FirstOversized(keys, domains, n - 1);
    }
  }

  /** A written file opens exactly when every offset and count fits 31 bits; tables and content start are then right. */
  lemma HeaderRoundTripIff(keys: seq<Code>, domains: Domains)
    requires Known(keys, domains) && Fits(keys, domains)
    ensures Small(keys, domains, |keys|) ==>
      ParseHeader(File(keys, domains)) == Ok(TablesOf(keys, domains, |keys|), Content(keys, domains))
    ensures !Small(keys, domains, |keys|) ==> exists k ::
      k in keys && ParseHeader(File(keys, domains)) == Fail(InvalidEntry(k))
  {
    var entries, content := Entries(keys, domains, |keys|), Content(keys, domains);
    EntryParts([0], Encode(|keys|), entries, content);
    Seqs.Cut([0], Encode(|keys|) + (entries + content));
    RoundTripIff(|keys|, entries + content);
    if Small(keys, domains, |keys|) {
      EntriesRoundTrip(keys, domains, |keys|, content);
    } else {
      var i := FirstOversized(keys, domains, |keys|);
      OversizedIsRefused(keys, domains, i, content);
      assert keys[i] in keys;
    }
  }

  lemma {:induction false} TablesOfEach(keys: seq<Code>, domains: Domains, n: nat, i: nat)
    requires Known(keys, domains) && Seqs.Distinct(keys) && i < n <= |keys|
    ensures
      var t := TablesOf(keys, domains, n);
      && keys[i] in t.offset && t.offset[keys[i]] == Offset(keys, domains, i)
      && keys[i] in t.count && t.count[keys[i]] == |domains[keys[i]]|
  {
    if i < n - 1 {
      TablesOfEach(keys, domains, n - 1, i);
    }
  }

  lemma {:induction false} TablesOfKeys(keys: seq<Code>, domains: Domains, n: nat)
    requires Known(keys, domains) && n <= |keys|
    ensures
      var t := TablesOf(keys, domains, n);
      SameKeys(t) && forall k :: k in t.offset <==> k in keys[..n]
  {
    if 0 < n {
      TablesOfKeys(keys, domains, n - 1);
      assert keys[..n] == keys[..n - 1] + [keys[n - 1]];
    }
  }

  /** The items of a code lie at its offset. */
  lemma {:induction false} ContentAt(keys: seq<Code>, domains: Domains, i: nat) returns (tail: seq<Byte>)
    requires Known(keys, domains) && i < |keys|
    ensures Offset(keys, domains, i) <= |Content(keys, domains)|
    ensures Content(keys, domains)[Offset(keys, domains, i)..] == ItemsBytes(domains[keys[i]]) + tail
    decreases |keys|
  {
    var init := keys[..|keys| - 1];
    var before, last := Content(init, domains), ItemsBytes(domains[keys[|keys| - 1]]);
    if i == |keys| - 1 {
      tail := [];
      assert (before + last)[|before|..] == last + tail;
    } else {
      var tail' := ContentAt(init, domains, i);
      assert init[..i] == keys[..i];
      tail := tail' + last;
      var offset := Offset(keys, domains, i);
      assert (before + last)[offset..] == before[offset..] + last;
      Seqs.Assoc(ItemsBytes(domains[keys[i]]), tail', last);
    }
  }

  lemma FromContent(header: seq<Byte>, content: seq<Byte>, offset: nat)
    requires offset <= |content|
    ensures From(header + content, |header| + offset) == content[offset..]
  {
    Seqs.CutInto(header, content, offset);
  }

  /** The items read at a place, if there are that many. */
  function ItemsAt(data: seq<Byte>, at: nat, n: nat): Seqs.Option<seq<Item>> {
    match ParseItems(From(data, at), n)
    case Ok(items, _) => Seqs.Some(items)
    case Fail(_) => Seqs.None
  }

  /** Reading at a code's offset in a written file gives its items. */
  lemma ItemsAtOffset(keys: seq<Code>, domains: Domains, i: nat)
    requires Known(keys, domains) && Fits(keys, domains) && i < |keys|
    ensures ItemsAt(File(keys, domains), |Header(keys, domains)| + Offset(keys, domains, i), |domains[keys[i]]|) ==
      Seqs.Some(domains[keys[i]])
  {
    var tail := ContentAt(keys, domains, i);
    assert keys[i] in keys;
    ItemsRoundTrip(domains[keys[i]], tail);
    FromContent(Header(keys, domains), Content(keys, domains), Offset(keys, domains, i));
    assert From(File(keys, domains), |Header(keys, domains)| + Offset(keys, domains, i)) ==
           ItemsBytes(domains[keys[i]]) + tail;
  }

  lemma AnswerIs(data: seq<Byte>, t: Tables, start: nat, code: Code, offset: nat, count: nat)
    requires SameKeys(t) && code in t.offset && t.offset[code] == offset && t.count[code] == count
    ensures Answer(data, t, start, code) == ParseItems(From(data, start + offset), count)
  {
  }

  /** A reader that has a code's offset and count right answers with what was written for it. */
  lemma ListedAnswer(keys: seq<Code>, domains: Domains, t: Tables, i: nat)
    requires Known(keys, domains) && Fits(keys, domains) && i < |keys| && SameKeys(t) && keys[i] in t.offset
    requires t.offset[keys[i]] == Offset(keys, domains, i) && t.count[keys[i]] == |domains[keys[i]]|
    ensures RightAnswer(Answer(File(keys, domains), t, |Header(keys, domains)|, keys[i]), keys, domains, keys[i])
  {
    ItemsAtOffset(keys, domains, i);
    AnswerIs(File(keys, domains), t, |Header(keys, domains)|, keys[i], Offset(keys, domains, i), |domains[keys[i]]|);
  }

  /** What was written for a code is what a reader of the file answers for it, and other codes are unknown. */
  lemma AnswerRoundTrip(keys: seq<Code>, domains: Domains, code: Code)
    requires Known(keys, domains) && Fits(keys, domains) && Seqs.Distinct(keys)
    ensures SameKeys(TablesOf(keys, domains, |keys|))
    ensures RightAnswer(
      Answer(File(keys, domains), TablesOf(keys, domains, |keys|), |Header(keys, domains)|, code), keys, domains, code)
  {
    TablesOfKeys(keys, domains, |keys|);
    assert keys[..|keys|] == keys;
    if code in keys {
      var i := IndexOf(keys, code);
      TablesOfEach(keys, domains, |keys|, i);
      ListedAnswer(keys, domains, TablesOf(keys, domains, |keys|), i);
    }
  }

  predicate RightAnswer(p: Parsed<seq<Item>>, keys: seq<Code>, domains: Domains, code: Code)
    requires Known(keys, domains)
  {
    if code in keys then p.Ok? && p.value == domains[code] else p == Fail(NoSuchCode(code))
  }

  function IndexOf(keys: seq<Code>, code: Code): (i: nat)
    requires code in keys
    ensures i < |keys| && keys[i] == code
  {
    if keys[0] == code then 0 else 1 + IndexOf(keys[1..], code)
  }
}
