/**
 * Variable-length integers as Go's encoding/binary writes and reads them: seven bits a byte, least significant first,
 * the top bit set on every byte but the last, at most ten bytes, and a tenth byte of at most one.
 */
module Uvarint {
  type Byte = b: int | 0 <= b < 256

  datatype Error =
    | EOF
    | UnexpectedEOF
    | Overflow
    | UnknownVersion
    | InvalidEntry(code: seq<Byte>)
    | NoSuchCode(code: seq<Byte>)

  /** What a parser makes of its input: a value and what is left, or an error. */
  datatype Parsed<+T> = Ok(value: T, rest: seq<Byte>) | Fail(error: Error)

  const MAX_LENGTH := 10

  function Encode(n: nat): seq<Byte> {
    if n < 128 then [n] else [128 + n % 128] + Encode(n / 128)
  }

  /** Two bytes, the low group first. */
  lemma LiteralNumber()
    ensures Encode(300) == [0xac, 0x02]
  {
    assert Encode(2) == [2];
  }

  function Pow128(i: nat): nat { if i == 0 then 1 else 128 * Pow128(i - 1) }

  /** A value moved up by `i` groups of seven bits. */
  function Part(b: nat, i: nat): nat { b * Pow128(i) }

  /**
   * The rest of a read after `i` bytes that made up `x`. The source joins the bits with a bitwise or; `x` is below
   * 128 to the `i`, so that is the sum.
   */
  function Decode(s: seq<Byte>, i: nat, x: nat): Parsed<nat>
    requires i <= MAX_LENGTH
    decreases |s|
  {
    if i == MAX_LENGTH then Fail(Overflow)
    else if s == [] then Fail(if i == 0 then EOF else UnexpectedEOF)
    else if s[0] < 128 then
      if i == MAX_LENGTH - 1 && 1 < s[0] then Fail(Overflow) else Ok(x + Part(s[0], i), s[1..])
    else Decode(s[1..], i + 1, x + Part(s[0] - 128, i))
  }

  /** The values that still fit after `i` bytes. */
  function Room(i: nat): nat
    requires i < MAX_LENGTH
  {
    2 * Pow128(MAX_LENGTH - 1 - i)
  }

  lemma Scale(n: nat, i: nat)
    ensures Part(n % 128, i) + Part(n / 128, i + 1) == Part(n, i)
  {
    var p := Pow128(i);
    assert (n / 128) * (128 * p) == (128 * (n / 128)) * p;
    assert (n % 128) * p + (128 * (n / 128)) * p == (n % 128 + 128 * (n / 128)) * p;
  }

  /** What was written is read back, and nothing more is consumed, exactly when the value fits. */
  lemma {:induction false} DecodeEncoded(n: nat, rest: seq<Byte>, i: nat, x: nat)
    requires i < MAX_LENGTH
    ensures Decode(Encode(n) + rest, i, x) == if n < Room(i) then Ok(x + Part(n, i), rest) else Fail(Overflow)
    decreases MAX_LENGTH - i
  {
    var s := Encode(n) + rest;
    if n < 128 {
      assert s[1..] == rest;
      RoomFacts(i);
    } else {
      assert s[1..] == Encode(n / 128) + rest;
      RoomFacts(i);
      if i + 1 < MAX_LENGTH {
        DecodeEncoded(n / 128, rest, i + 1, x + Part(n % 128, i));
        Scale(n, i);
      }
    }
  }

  lemma RoomFacts(i: nat)
    requires i < MAX_LENGTH
    ensures i + 1 < MAX_LENGTH ==> Room(i) == 128 * Room(i + 1) && 128 < Room(i)
    ensures i + 1 == MAX_LENGTH ==> Room(i) == 2
  {
    if i + 1 < MAX_LENGTH {
      PowPositive(MAX_LENGTH - 2 - i);
    }
  }

  lemma {:induction false} PowPositive(i: nat)
    ensures 1 <= Pow128(i)
  {
    if 0 < i {
      PowPositive(i - 1);
    }
  }

  const TWO_64 := 0x1_0000_0000_0000_0000

  lemma RoomIs64Bits()
    ensures Room(0) == TWO_64
  {
    assert Pow128(3) == 128 * 128 * 128;
    assert Pow128(6) == 128 * 128 * 128 * Pow128(3);
    assert Pow128(9) == 128 * 128 * 128 * Pow128(6);
  }

  /** The round trip, for every value and whatever follows it. */
  lemma RoundTripIff(n: nat, rest: seq<Byte>)
    ensures Decode(Encode(n) + rest, 0, 0) == if n < TWO_64 then Ok(n, rest) else Fail(Overflow)
  {
    DecodeEncoded(n, rest, 0, 0);
    RoomIs64Bits();
  }

  /** The product of what is behind and what is ahead never changes. */
  lemma RoomMoves(i: nat)
    requires i + 1 < MAX_LENGTH
    ensures Part(Room(i + 1), i + 1) == Part(Room(i), i)
  {
    RoomFacts(i);
    assert Room(i + 1) * (128 * Pow128(i)) == (128 * Room(i + 1)) * Pow128(i);
  }

  /** Whatever the bytes, a value that is read fits. */
  lemma {:induction false} DecodedFits(s: seq<Byte>, i: nat, x: nat)
    requires i < MAX_LENGTH && x < Pow128(i)
    ensures Decode(s, i, x).Ok? ==> Decode(s, i, x).value < Part(Room(i), i)
    decreases MAX_LENGTH - i
  {
    if s != [] {
      RoomFacts(i);
      if s[0] < 128 {
        if i + 1 < MAX_LENGTH {
          FitsHere(x, s[0], i, 128);
        } else if s[0] <= 1 {
          FitsHere(x, s[0], i, 2);
        }
      } else if i + 1 < MAX_LENGTH {
        FitsHere(x, s[0] - 128, i, 128);
        RoomMoves(i);
        DecodedFits(s[1..], i + 1, x + Part(s[0] - 128, i));
      }
    }
  }

  lemma FitsHere(x: nat, b: nat, i: nat, limit: nat)
    requires x < Pow128(i) && b < limit && i < MAX_LENGTH && limit <= Room(i)
    ensures x + Part(b, i) < Part(limit, i) <= Part(Room(i), i)
  {
    var p := Pow128(i);
    assert (b + 1) * p == b * p + p;
    Multiplied(b + 1, limit, p);
    Multiplied(limit, Room(i), p);
  }

  lemma Multiplied(a: nat, b: nat, p: nat)
    requires a <= b
    ensures a * p <= b * p
  {
  }

  /** For a whole number: it is a 64-bit value. */
  lemma DecodedIs64Bits(s: seq<Byte>)
    ensures Decode(s, 0, 0).Ok? ==> Decode(s, 0, 0).value < TWO_64
  {
    DecodedFits(s, 0, 0);
    RoomIs64Bits();
  }
}
