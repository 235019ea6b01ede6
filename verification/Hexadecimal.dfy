/** Hexadecimal digits of numbers and of bytes. */
module Hexadecimal {
  import opened Ideal
  import opened LittleEndian
  import opened Sequences

  type nibble = x: int | 0 <= x < 16

  function HexDigit(n: nibble): (r: char) {
    if n < 10 then '0' + n as char else 'a' + (n - 10) as char
  }

  function HexValue(c: char): (r: Option<nibble>) {
    if '0' <= c <= '9' then Some((c - '0') as int)
    else if 'a' <= c <= 'f' then Some((c - 'a') as int + 10)
    else if 'A' <= c <= 'F' then Some((c - 'A') as int + 10)
    else None
  }

  /** Digits of either case count, and nothing else. */
  lemma HexValueExactly(c: char, v: nibble)
    ensures HexValue(c) == Some(v) <==> c == HexDigit(v) || (v >= 10 && c == 'A' + (v - 10) as char)
    ensures v < 10 ==> HexDigit(v) as int == '0' as int + v
    ensures v >= 10 ==> HexDigit(v) as int == 'a' as int + (v - 10)
  {
  }

  predicate LowerHexDigit(c: char) {
    '0' <= c <= '9' || 'a' <= c <= 'f'
  }

  function HexPair(b: byte): (s: string)
    ensures |s| == 2 && LowerHexDigit(s[0]) && LowerHexDigit(s[1])
  {
    [HexDigit(b / 16), HexDigit(b % 16)]
  }

  function PairValue(high: char, low: char): (r: Option<byte>) {
    match (HexValue(high), HexValue(low))
    case (Some(h), Some(l)) => var value: int := h; Some(16 * value + l)
    case _ => None
  }

  lemma PairRoundTrip(b: byte)
    ensures PairValue(HexPair(b)[0], HexPair(b)[1]) == Some(b)
  {
  }

  lemma PairRoundTripBack(high: char, low: char)
    requires LowerHexDigit(high) && LowerHexDigit(low)
    ensures PairValue(high, low).Some? && HexPair(PairValue(high, low).value) == [high, low]
  {
    var h, l := HexValue(high).value, HexValue(low).value;
    assert HexDigit(h) == high && HexDigit(l) == low;
    assert PairValue(high, low).value / 16 == h && PairValue(high, low).value % 16 == l;
  }

  /** Zero-padded big-endian digits of a number, as the verb %0nx prints them. */
  function HexNumber(digits: nat, v: nat): (s: string)
    ensures |s| == digits
  {
    if digits == 0 then "" else HexNumber(digits - 1, v / 16) + [HexDigit(v % 16)]
  }

  /** The digits of a byte string, as the verb %x prints them. */
  function HexString(b: seq<byte>): (s: string)
    ensures |s| == 2 * |b|
  {
    if b == [] then "" else HexPair(b[0]) + HexString(b[1..])
  }

  /** The bytes up to the first pair that is none; a decoding error leaves them to the caller. */
  function DecodedHex(s: string): (b: seq<byte>) {
    if |s| < 2 then []
    else
      match PairValue(s[0], s[1])
      case None => []
      case Some(b) => [b] + DecodedHex(s[2..])
  }

  /** Decoding ends in front of the first pair that is none, or where there is no other pair. */
  lemma {:induction false} DecodedHexExactly(s: string, b: seq<byte>)
    ensures DecodedHex(s) == b <==>
              && 2 * |b| <= |s|
              && (forall i :: 0 <= i < |b| ==> PairAt(s, i) == Some(b[i]))
              && PairAt(s, |b|) == None
  {
    if PairAt(s, 0).Some? {
      assert forall i: nat :: PairAt(s[2..], i) == PairAt(s, i + 1);
      if b != [] {
        var rest := b[1..];
        DecodedHexExactly(s[2..], rest);
        assert b == [b[0]] + rest;
        assert forall i :: 0 <= i < |rest| ==> rest[i] == b[i + 1];
        if 2 * |b| <= |s| && (forall i :: 0 <= i < |b| ==> PairAt(s, i) == Some(b[i])) {
          assert forall i :: 0 <= i < |rest| ==> PairAt(s[2..], i) == Some(b[i + 1]);
        }
        if DecodedHex(s[2..]) == rest && PairAt(s, 0) == Some(b[0]) {
          forall i | 0 <= i < |b|
            ensures PairAt(s, i) == Some(b[i])
          {
            if i > 0 {
              assert PairAt(s[2..], i - 1) == Some(rest[i - 1]);
            }
          }
        }
      }
    }
  }

  /** The i-th pair of characters as a byte, if it is there and is one. */
  function PairAt(s: string, i: nat): (r: Option<byte>) {
    if 2 * i + 2 <= |s| then PairValue(s[2 * i], s[2 * i + 1]) else None
  }

  lemma {:induction false} HexRoundTrip(b: seq<byte>)
    ensures DecodedHex(HexString(b)) == b
  {
    if b != [] {
      HexRoundTrip(b[1..]);
      PairRoundTrip(b[0]);
      assert HexString(b)[2..] == HexString(b[1..]);
      assert b == [b[0]] + b[1..];
    }
  }

  predicate LowerHex(s: string) {
    forall i :: 0 <= i < |s| ==> LowerHexDigit(s[i])
  }

  lemma {:induction false} HexRoundTripBack(s: string)
    requires LowerHex(s) && |s| % 2 == 0
    ensures HexString(DecodedHex(s)) == s
  {
    if s != "" {
      HexRoundTripBack(s[2..]);
      PairRoundTripBack(s[0], s[1]);
      assert s == [s[0], s[1]] + s[2..];
    }
  }

  lemma {:induction false} HexStringIsLower(b: seq<byte>)
    ensures LowerHex(HexString(b))
  {
    if b != [] {
      HexStringIsLower(b[1..]);
    }
  }

  lemma {:induction false} HexConcat(a: seq<byte>, b: seq<byte>)
    ensures HexString(a + b) == HexString(a) + HexString(b)
  {
    if a == [] {
      assert a + b == b;
    } else {
      HexConcat(a[1..], b);
      assert (a + b)[1..] == a[1..] + b;
    }
  }

  lemma LastPair(digits: nat, v: nat)
    ensures HexNumber(digits + 2, v) == HexNumber(digits, v / 256) + HexPair(v % 256)
  {
    assert v / 16 / 16 == v / 256 && v / 16 % 16 == v % 256 / 16 && v % 16 == v % 256 % 16;
    assert HexNumber(digits + 1, v / 16) == HexNumber(digits, v / 16 / 16) + [HexDigit(v / 16 % 16)];
  }

  /** A little-endian number, printed with two digits for each of its bytes. */
  function PrintLE(b: seq<byte>): (r: string) {
    HexNumber(2 * |b|, FromLE(b))
  }

  lemma HexOfOneMore(first: byte, rest: seq<byte>)
    requires PrintLE(rest) == HexString(Backwards(rest))
    ensures PrintLE([first] + rest) == HexString(Backwards(rest) + [first])
  {
    var b := [first] + rest;
    assert b[1..] == rest;
    assert FromLE(b) % 256 == first && FromLE(b) / 256 == FromLE(rest);
    LastPair(2 * |rest|, FromLE(b));
    HexConcat(Backwards(rest), [first]);
    assert [first][1..] == [];
    assert HexString([first]) == HexPair(first) + HexString([]);
  }

  /** Printing a little-endian number shows its bytes in reverse. */
  lemma {:induction false} HexOfLE(b: seq<byte>)
    ensures PrintLE(b) == HexString(Backwards(b))
  {
    if b != [] {
      HexOfLE(b[1..]);
      BackwardsFirst(b);
      HexOfOneMore(b[0], b[1..]);
      assert b == [b[0]] + b[1..];
    }
  }
}
