/** GUIDs as 16 mixed-endian bytes and as text: the first three groups are little-endian numbers. */
module Guids {
  import opened Ideal
  import opened Hexadecimal
  import opened Sequences

  /** Five groups of digits. */
  function Dashed(a: string, b: string, c: string, d: string, e: string): (r: string) {
    a + ("-" + (b + ("-" + (c + ("-" + (d + ("-" + e)))))))
  }

  function GuidString(b: seq<byte>): (r: string) {
    if |b| < 16 then ""
    else
      Dashed(PrintLE(b[..4]), PrintLE(b[4..6]), PrintLE(b[6..8]), HexString(b[8..10]), HexString(b[10..16]))
  }

  function Kept(c: char): (r: string) {
    if c == '-' then "" else [c]
  }

  function WithoutDashes(s: string): (r: string) {
    if s == "" then "" else Kept(s[0]) + WithoutDashes(s[1..])
  }

  /** Three groups reversed, the rest as it is. */
  function Reordered(b: seq<byte>): (r: seq<byte>)
    requires |b| >= 16
    ensures |r| == 16 && r[8..] == b[8..16]
  {
    [b[3], b[2], b[1], b[0], b[5], b[4], b[7], b[6], b[8], b[9], b[10], b[11], b[12], b[13], b[14], b[15]]
  }

  predicate Decodable(s: string) {
    |DecodedHex(WithoutDashes(s))| >= 16
  }

  function GuidBytes(s: string): (g: seq<byte>)
    requires Decodable(s)
    ensures |g| == 16
  {
    Reordered(DecodedHex(WithoutDashes(s)))
  }

  /** The text form with all dashes in place. */
  predicate Canonical(s: string) {
    && |s| == 36
    && s[8] == '-' && s[13] == '-' && s[18] == '-' && s[23] == '-'
    && LowerHex(s[..8]) && LowerHex(s[9..13]) && LowerHex(s[14..18]) && LowerHex(s[19..23]) && LowerHex(s[24..])
  }

  /** A decoding error is ignored; without 16 bytes in front of it the array indexing fails. */
  method GuidBytesLE(s: string) returns (g: seq<byte>)
    requires Decodable(s)
    ensures g == GuidBytes(s)
  {
    var b := DecodedHex(WithoutDashes(s));
    var a := new byte[16];
    a[0], a[1], a[2], a[3] := b[3], b[2], b[1], b[0];
    a[4], a[5] := b[5], b[4];
    a[6], a[7] := b[7], b[6];
    for i := 8 to 16
      invariant a[..8] == [b[3], b[2], b[1], b[0], b[5], b[4], b[7], b[6]]
      invariant forall k :: 8 <= k < i ==> a[k] == b[k]
    {
      a[i] := b[i];
    }
    g := a[..];
  }

  lemma {:induction false} NoDashes(s: string, rest: string)
    requires LowerHex(s)
    ensures WithoutDashes(s + rest) == s + WithoutDashes(rest)
  {
    if s == "" {
      assert s + rest == rest;
    } else {
      NoDashes(s[1..], rest);
      assert (s + rest)[1..] == s[1..] + rest;
      assert s == [s[0]] + s[1..];
    }
  }

  lemma Group(s: string, rest: string)
    requires LowerHex(s)
    ensures WithoutDashes(s + ("-" + rest)) == s + WithoutDashes(rest)
  {
    NoDashes(s, "-" + rest);
    assert ("-" + rest)[1..] == rest;
    assert WithoutDashes("-" + rest) == WithoutDashes(rest);
  }

  lemma Undashed(a: string, b: string, c: string, d: string, e: string)
    requires LowerHex(a) && LowerHex(b) && LowerHex(c) && LowerHex(d) && LowerHex(e)
    ensures WithoutDashes(Dashed(a, b, c, d, e)) == a + (b + (c + (d + e)))
  {
    Group(a, b + ("-" + (c + ("-" + (d + ("-" + e))))));
    Group(b, c + ("-" + (d + ("-" + e))));
    Group(c, d + ("-" + e));
    Group(d, e);
    NoDashes(e, "");
    assert e + "" == e;
  }

  /** The text of a GUID shows the reordered bytes in five groups. */
  lemma GuidStringIs(g: seq<byte>)
    requires |g| == 16
    ensures var r := Reordered(g);
            GuidString(g)
            == Dashed(HexString(r[..4]), HexString(r[4..6]), HexString(r[6..8]), HexString(r[8..10]),
                      HexString(r[10..]))
  {
    var r := Reordered(g);
    HexOfLE(g[..4]);
    HexOfLE(g[4..6]);
    HexOfLE(g[6..8]);
    assert Backwards(g[..4]) == r[..4] && Backwards(g[4..6]) == r[4..6] && Backwards(g[6..8]) == r[6..8];
    assert g[8..16] == r[8..];
    assert g[8..10] == g[8..16][..2] && g[10..16] == g[8..16][2..];
    assert r[8..10] == r[8..][..2] && r[10..] == r[8..][2..];
  }

  lemma HexSplit(r: seq<byte>, i: nat, j: nat)
    requires i <= j <= |r|
    ensures HexString(r[i..]) == HexString(r[i..j]) + HexString(r[j..])
  {
    HexConcat(r[i..j], r[j..]);
    assert r[i..] == r[i..j] + r[j..];
  }

  lemma HexGroups(r: seq<byte>)
    requires |r| == 16
    ensures HexString(r)
         == HexString(r[..4]) + (HexString(r[4..6]) + (HexString(r[6..8]) + (HexString(r[8..10]) + HexString(r[10..]))))
  {
    assert r[0..] == r && r[0..4] == r[..4];
    HexSplit(r, 0, 4);
    HexSplit(r, 4, 6);
    HexSplit(r, 6, 8);
    HexSplit(r, 8, 10);
  }

  lemma ReorderedTwice(b: seq<byte>)
    requires |b| == 16
    ensures Reordered(Reordered(b)) == b
  {
  }

  /** From bytes to text and back; so different GUIDs have different texts. */
  lemma GuidRoundTrip(g: seq<byte>)
    requires |g| == 16
    ensures Decodable(GuidString(g)) && GuidBytes(GuidString(g)) == g
  {
    var r := Reordered(g);
    GuidStringIs(g);
    HexStringIsLower(r[..4]);
    HexStringIsLower(r[4..6]);
    HexStringIsLower(r[6..8]);
    HexStringIsLower(r[8..10]);
    HexStringIsLower(r[10..]);
    Undashed(HexString(r[..4]), HexString(r[4..6]), HexString(r[6..8]), HexString(r[8..10]), HexString(r[10..]));
    HexGroups(r);
    HexRoundTrip(r);
    ReorderedTwice(g);
  }

  lemma GuidStringInjective(g: seq<byte>, h: seq<byte>)
    requires |g| == |h| == 16 && GuidString(g) == GuidString(h)
    ensures g == h
  {
    GuidRoundTrip(g);
    GuidRoundTrip(h);
  }

  lemma CanonicalGroups(s: string)
    requires Canonical(s)
    ensures s == Dashed(s[..8], s[9..13], s[14..18], s[19..23], s[24..])
  {
    var t := Dashed(s[..8], s[9..13], s[14..18], s[19..23], s[24..]);
    assert |t| == 36;
    forall i | 0 <= i < 36
      ensures t[i] == s[i]
    {
    }
  }

  lemma SameGroups(a: string, b: string, c: string, d: string, e: string, a': string, b': string, c': string,
                   d': string, e': string)
    requires |a| == |a'| && |b| == |b'| && |c| == |c'| && |d| == |d'|
    requires a + (b + (c + (d + e))) == a' + (b' + (c' + (d' + e')))
    ensures a == a' && b == b' && c == c' && d == d' && e == e'
  {
    SameHalves(a, b + (c + (d + e)), a', b' + (c' + (d' + e')));
    SameHalves(b, c + (d + e), b', c' + (d' + e'));
    SameHalves(c, d + e, c', d' + e');
    SameHalves(d, e, d', e');
  }

  /** From text to bytes and back. */
  lemma GuidRoundTripBack(s: string)
    requires Canonical(s)
    ensures Decodable(s) && GuidString(GuidBytes(s)) == s
  {
    var a, b, c, d, e := s[..8], s[9..13], s[14..18], s[19..23], s[24..];
    CanonicalGroups(s);
    Undashed(a, b, c, d, e);
    var t := a + (b + (c + (d + e)));
    HexRoundTripBack(t);
    var r := DecodedHex(t);
    assert 2 * |r| == |t| == 32;
    assert r[..16] == r;
    ReorderedTwice(r);
    GuidStringIs(Reordered(r));
    HexGroups(r);
    SameGroups(a, b, c, d, e, HexString(r[..4]), HexString(r[4..6]), HexString(r[6..8]), HexString(r[8..10]),
               HexString(r[10..]));
  }

  // ---- The text of given bytes ----

  lemma HexTwo(a: byte, b: byte)
    ensures HexString([a, b]) == HexPair(a) + HexPair(b)
  {
    assert [a, b][1..] == [b] && [b][1..] == [];
    assert HexString([b]) == HexPair(b) + HexString([]);
  }

  lemma HexFour(a: byte, b: byte, c: byte, d: byte)
    ensures HexString([a, b, c, d]) == (HexPair(a) + HexPair(b)) + (HexPair(c) + HexPair(d))
  {
    assert [a, b, c, d] == [a, b] + [c, d];
    HexConcat([a, b], [c, d]);
    HexTwo(a, b);
    HexTwo(c, d);
  }

  lemma ShortGroup(r: seq<byte>, text: string)
    requires |r| == 2 && HexPair(r[0]) + HexPair(r[1]) == text
    ensures HexString(r) == text
  {
    HexTwo(r[0], r[1]);
    assert r == [r[0], r[1]];
  }

  lemma LongGroup(r: seq<byte>, text: string)
    requires |r| == 4 && (HexPair(r[0]) + HexPair(r[1])) + (HexPair(r[2]) + HexPair(r[3])) == text
    ensures HexString(r) == text
  {
    HexFour(r[0], r[1], r[2], r[3]);
    assert r == [r[0], r[1], r[2], r[3]];
  }

  lemma LastGroup(r: seq<byte>, text: string)
    requires |r| == 6
    requires (HexPair(r[0]) + HexPair(r[1])) + ((HexPair(r[2]) + HexPair(r[3])) + (HexPair(r[4]) + HexPair(r[5])))
               == text
    ensures HexString(r) == text
  {
    HexTwo(r[0], r[1]);
    HexFour(r[2], r[3], r[4], r[5]);
    HexConcat([r[0], r[1]], [r[2], r[3], r[4], r[5]]);
    assert r == [r[0], r[1]] + [r[2], r[3], r[4], r[5]];
  }

  /** The text of a GUID, digit pair by digit pair. */
  lemma GuidText(g: seq<byte>, a: string, b: string, c: string, d: string, e: string)
    requires |g| == 16
    requires (HexPair(g[3]) + HexPair(g[2])) + (HexPair(g[1]) + HexPair(g[0])) == a
    requires HexPair(g[5]) + HexPair(g[4]) == b && HexPair(g[7]) + HexPair(g[6]) == c
             && HexPair(g[8]) + HexPair(g[9]) == d
    requires (HexPair(g[10]) + HexPair(g[11]))
               + ((HexPair(g[12]) + HexPair(g[13])) + (HexPair(g[14]) + HexPair(g[15]))) == e
    ensures GuidString(g) == Dashed(a, b, c, d, e)
    ensures Decodable(Dashed(a, b, c, d, e)) && GuidBytes(Dashed(a, b, c, d, e)) == g
  {
    GuidStringIs(g);
    GuidRoundTrip(g);
    var r := Reordered(g);
    LongGroup(r[..4], a);
    ShortGroup(r[4..6], b);
    ShortGroup(r[6..8], c);
    ShortGroup(r[8..10], d);
    LastGroup(r[10..], e);
  }
}
