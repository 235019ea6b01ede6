/** Standard base64 with padding (section 4 of RFC 4648), and decimal numbers. */
module Base64 {
  import opened Ideal
  import opened Sequences

  type sextet = x: int | 0 <= x < 64

  function Digit(v: sextet): (r: char) {
    if v < 26 then 'A' + v as char
    else if v < 52 then 'a' + (v - 26) as char
    else if v < 62 then '0' + (v - 52) as char
    else if v == 62 then '+'
    else '/'
  }

  function Value(c: char): (r: Option<sextet>) {
    if 'A' <= c <= 'Z' then Some((c - 'A') as int)
    else if 'a' <= c <= 'z' then Some((c - 'a') as int + 26)
    else if '0' <= c <= '9' then Some((c - '0') as int + 52)
    else if c == '+' then Some(62)
    else if c == '/' then Some(63)
    else None
  }

  lemma DigitValue(v: sextet)
    ensures Value(Digit(v)) == Some(v)
    ensures Digit(v) != '=' && Digit(v) != '\r' && Digit(v) != '\n'
  {
  }

  /** Exactly the digits have a value, and that is their place in the alphabet. */
  lemma ValueExactly(c: char, v: sextet)
    ensures Value(c) == Some(v) <==> c == Digit(v)
  {
  }

  /** The alphabet is that of section 4 of RFC 4648: capital letters, small letters, digits, plus and slash. */
  lemma Alphabet(v: sextet)
    ensures Digit(0) == 'A' && Digit(25) == 'Z' && Digit(26) == 'a' && Digit(51) == 'z'
    ensures Digit(52) == '0' && Digit(61) == '9' && Digit(62) == '+' && Digit(63) == '/'
    ensures v !in {25, 51, 61, 62, 63} ==> Digit(v + 1) as int == Digit(v) as int + 1
  {
  }

  /** Three bytes as four digits. */
  function Quantum(a: byte, b: byte, c: byte): (s: string)
    ensures |s| == 4
  {
    [Digit(a / 4), Digit(a % 4 * 16 + b / 16), Digit(b % 16 * 4 + c / 64), Digit(c % 64)]
  }

  function OneByte(a: byte): (r: string) {
    [Digit(a / 4), Digit(a % 4 * 16), '=', '=']
  }

  function TwoBytes(a: byte, b: byte): (r: string) {
    [Digit(a / 4), Digit(a % 4 * 16 + b / 16), Digit(b % 16 * 4), '=']
  }

  function Encode(b: seq<byte>): (r: string) {
    if b == [] then ""
    else if |b| == 1 then OneByte(b[0])
    else if |b| == 2 then TwoBytes(b[0], b[1])
    else Quantum(b[0], b[1], b[2]) + Encode(b[3..])
  }

  function Kept(c: char): (r: string) {
    if c == '\r' || c == '\n' then "" else [c]
  }

  /** Line breaks are ignored wherever they are. */
  function Stripped(s: string): (r: string) {
    if s == "" then "" else Kept(s[0]) + Stripped(s[1..])
  }

  function Joined(high: sextet, low: sextet): (r: int)
    ensures 0 <= r < 4096
  {
    var h: int := high;
    64 * h + low
  }

  /** Only the last group may be padded; what is left over of its last digit is ignored. */
  function DecodeGroups(s: string): (r: Option<seq<byte>>) {
    if s == "" then Some([])
    else if |s| < 4 then None
    else
      match (Value(s[0]), Value(s[1]))
      case (Some(v0), Some(v1)) =>
        var first := Joined(v0, v1) / 16;
        if |s| == 4 && s[2] == '=' && s[3] == '=' then Some([first])
        else
          (match Value(s[2])
           case None => None
           case Some(v2) =>
             var second := Joined(v1, v2) / 4 % 256;
             if |s| == 4 && s[3] == '=' then Some([first, second])
             else
               match (Value(s[3]), DecodeGroups(s[4..]))
               case (Some(v3), Some(rest)) => Some([first, second, Joined(v2, v3) % 256] + rest)
               case _ => None)
      case _ => None
  }

  function Decode(s: string): (r: Option<seq<byte>>) {
    DecodeGroups(Stripped(s))
  }

  lemma FirstByte(a: byte, b: byte)
    ensures Joined(a / 4, a % 4 * 16 + b / 16) / 16 == a
  {
    FirstParts(a / 4, a % 4, b / 16);
  }

  lemma FirstParts(p: int, q: int, r: int)
    requires 0 <= r < 16
    ensures (64 * p + (16 * q + r)) / 16 == 4 * p + q
  {
  }

  lemma SecondByte(a: byte, b: byte, c: byte)
    ensures Joined(a % 4 * 16 + b / 16, b % 16 * 4 + c / 64) / 4 % 256 == b
  {
    SecondParts(a % 4, b / 16, b % 16, c / 64);
  }

  lemma SecondParts(q: int, r: int, t: int, u: int)
    requires 0 <= r < 16 && 0 <= t < 16 && 0 <= u < 4
    ensures (64 * (q * 16 + r) + (t * 4 + u)) / 4 % 256 == 16 * r + t
  {
    assert (64 * (q * 16 + r) + (t * 4 + u)) / 4 == 256 * q + (16 * r + t);
  }

  lemma ThirdByte(b: byte, c: byte)
    ensures Joined(b % 16 * 4 + c / 64, c % 64) % 256 == c
  {
    ThirdParts(b % 16, c / 64, c % 64);
  }

  lemma ThirdParts(t: int, u: int, w: int)
    requires 0 <= u < 4 && 0 <= w < 64
    ensures (64 * (t * 4 + u) + w) % 256 == 64 * u + w
  {
  }

  lemma OneLeft(a: byte)
    ensures DecodeGroups(OneByte(a)) == Some([a])
  {
    DigitValue(a / 4);
    DigitValue(a % 4 * 16);
    FirstByte(a, 0);
  }

  lemma TwoLeft(a: byte, b: byte)
    ensures DecodeGroups(TwoBytes(a, b)) == Some([a, b])
  {
    DigitValue(a / 4);
    DigitValue(a % 4 * 16 + b / 16);
    DigitValue(b % 16 * 4);
    FirstByte(a, b);
    SecondByte(a, b, 0);
  }

  lemma FullGroup(a: byte, b: byte, c: byte, rest: string)
    requires DecodeGroups(rest).Some?
    ensures DecodeGroups(Quantum(a, b, c) + rest) == Some([a, b, c] + DecodeGroups(rest).value)
  {
    DigitValue(a / 4);
    DigitValue(a % 4 * 16 + b / 16);
    DigitValue(b % 16 * 4 + c / 64);
    DigitValue(c % 64);
    FirstByte(a, b);
    SecondByte(a, b, c);
    ThirdByte(b, c);
    assert (Quantum(a, b, c) + rest)[4..] == rest;
  }

  lemma ShortRoundTrip(b: seq<byte>)
    requires |b| <= 2
    ensures DecodeGroups(Encode(b)) == Some(b)
  {
    if |b| == 1 {
      OneLeft(b[0]);
      assert b == [b[0]];
    } else if |b| == 2 {
      TwoLeft(b[0], b[1]);
      assert b == [b[0], b[1]];
    }
  }

  lemma EncodeStep(b: seq<byte>, rest: string)
    requires |b| >= 3 && rest == Encode(b[3..])
    ensures Encode(b) == Quantum(b[0], b[1], b[2]) + rest
  {
  }

  lemma {:induction false} GroupsRoundTrip(b: seq<byte>)
    ensures DecodeGroups(Encode(b)) == Some(b)
  {
    if |b| <= 2 {
      ShortRoundTrip(b);
    } else {
      GroupsRoundTrip(b[3..]);
      FullGroup(b[0], b[1], b[2], Encode(b[3..]));
      EncodeStep(b, Encode(b[3..]));
      assert b == [b[0], b[1], b[2]] + b[3..];
    }
  }

  predicate NoBreaks(s: string) {
    forall i :: 0 <= i < |s| ==> s[i] != '\r' && s[i] != '\n'
  }

  lemma {:induction false} NothingStripped(s: string)
    requires NoBreaks(s)
    ensures Stripped(s) == s
  {
    if s != "" {
      NothingStripped(s[1..]);
    }
  }

  lemma {:induction false} EncodeHasNoBreaks(b: seq<byte>)
    ensures NoBreaks(Encode(b))
  {
    if |b| == 1 {
      DigitValue(b[0] / 4);
      DigitValue(b[0] % 4 * 16);
    } else if |b| == 2 {
      DigitValue(b[0] / 4);
      DigitValue(b[0] % 4 * 16 + b[1] / 16);
      DigitValue(b[1] % 16 * 4);
    } else if |b| >= 3 {
      EncodeHasNoBreaks(b[3..]);
      DigitValue(b[0] / 4);
      DigitValue(b[0] % 4 * 16 + b[1] / 16);
      DigitValue(b[1] % 16 * 4 + b[2] / 64);
      DigitValue(b[2] % 64);
    }
  }

  /** Decoding inverts encoding. */
  lemma RoundTrip(b: seq<byte>)
    ensures Decode(Encode(b)) == Some(b)
  {
    EncodeHasNoBreaks(b);
    NothingStripped(Encode(b));
    GroupsRoundTrip(b);
  }

  lemma StrippedFirst(c: char, s: string)
    ensures Stripped([c] + s) == Kept(c) + Stripped(s)
  {
    assert ([c] + s)[1..] == s;
  }

  lemma {:induction false} StrippedConcat(a: string, b: string)
    ensures Stripped(a + b) == Stripped(a) + Stripped(b)
  {
    if a == "" {
      assert a + b == b;
    } else {
      StrippedConcat(a[1..], b);
      StrippedFirst(a[0], a[1..]);
      StrippedFirst(a[0], a[1..] + b);
      Associative([a[0]], a[1..], b);
      Associative(Kept(a[0]), Stripped(a[1..]), Stripped(b));
      assert a == [a[0]] + a[1..];
    }
  }

  lemma StrippedBreak(a: string, c: char, b: string)
    requires c == '\r' || c == '\n'
    ensures Stripped(a + ([c] + b)) == Stripped(a + b)
  {
    StrippedConcat(a, [c] + b);
    StrippedConcat(a, b);
    StrippedFirst(c, b);
  }

  lemma SameStripped(s: string, t: string)
    requires Stripped(s) == Stripped(t)
    ensures Decode(s) == Decode(t)
  {
  }

  /** A line break anywhere makes no difference. */
  lemma BreaksAreIgnored(a: string, c: char, b: string)
    requires c == '\r' || c == '\n'
    ensures Decode(a + ([c] + b)) == Decode(a + b)
  {
    StrippedBreak(a, c, b);
    SameStripped(a + ([c] + b), a + b);
  }

  /** Padding: the last character, or the last two. */
  predicate Padding(s: string, i: int)
    requires 0 <= i < |s|
  {
    s[i] == '=' && (i == |s| - 1 || (i == |s| - 2 && s[|s| - 1] == '='))
  }

  /** Digits up to the padding, if any. */
  predicate DigitsAndPadding(s: string) {
    forall i :: 0 <= i < |s| ==> Value(s[i]).Some? || Padding(s, i)
  }

  lemma FirstGroup(s: string)
    requires |s| > 4
    ensures DecodeGroups(s).Some? <==>
              (forall i :: 0 <= i < 4 ==> Value(s[i]).Some?) && DecodeGroups(s[4..]).Some?
  {
  }

  lemma FinalGroup(s: string)
    requires |s| <= 4
    ensures DecodeGroups(s).Some? <==> |s| % 4 == 0 && DigitsAndPadding(s)
  {
    if |s| == 4 {
      assert s[4..] == "";
      assert Value('=') == None;
    }
  }

  lemma LaterGroups(s: string)
    requires |s| > 4 && |s| % 4 == 0
    ensures DigitsAndPadding(s) <==> (forall i :: 0 <= i < 4 ==> Value(s[i]).Some?) && DigitsAndPadding(s[4..])
  {
    var t := s[4..];
    forall i | 0 <= i < |t|
      ensures t[i] == s[i + 4] && (Padding(t, i) <==> Padding(s, i + 4))
    {
    }
    if DigitsAndPadding(t) {
      forall i | 4 <= i < |s|
        ensures Value(s[i]).Some? || Padding(s, i)
      {
        assert Value(t[i - 4]).Some? || Padding(t, i - 4);
      }
    }
  }

  /** Without line breaks, exactly whole groups of four are decoded, with digits up to the padding, if any. Bits that
      are left over in front of the padding are not looked at. */
  lemma {:induction false} DecodedExactly(s: string)
    ensures DecodeGroups(s).Some? <==> |s| % 4 == 0 && DigitsAndPadding(s)
  {
    if |s| <= 4 {
      FinalGroup(s);
    } else {
      FirstGroup(s);
      DecodedExactly(s[4..]);
      OneGroup(s, DecodeGroups(s).Some?, DecodeGroups(s[4..]).Some?);
    }
  }

  lemma OneGroup(s: string, whole: bool, rest: bool)
    requires |s| > 4 && (rest <==> |s[4..]| % 4 == 0 && DigitsAndPadding(s[4..]))
    requires whole <==> (forall i :: 0 <= i < 4 ==> Value(s[i]).Some?) && rest
    ensures whole <==> |s| % 4 == 0 && DigitsAndPadding(s)
  {
    if |s| % 4 == 0 {
      LaterGroups(s);
    }
  }

  // ---- Decimal numbers ----

  predicate IsDigit(c: char) {
    '0' <= c <= '9'
  }

  predicate AllDigits(s: string) {
    forall i :: 0 <= i < |s| ==> IsDigit(s[i])
  }

  function Print(n: nat): (s: string)
    ensures s != "" && AllDigits(s)
  {
    if n < 10 then ['0' + n as char] else Print(n / 10) + ['0' + (n % 10) as char]
  }

  function Number(s: string): (r: nat)
    requires AllDigits(s)
  {
    if s == "" then 0 else 10 * Number(s[..|s| - 1]) + (s[|s| - 1] - '0') as int
  }

  lemma {:induction false} PrintRoundTrip(n: nat)
    ensures Number(Print(n)) == n
  {
    if n >= 10 {
      PrintRoundTrip(n / 10);
      assert Print(n)[..|Print(n)| - 1] == Print(n / 10);
    } else {
      assert Print(n)[..0] == "";
    }
  }

  function Noughts(k: nat): (s: string)
    ensures |s| == k && AllDigits(s)
  {
    seq(k, _ => '0')
  }

  lemma {:induction false} NoughtsInFront(k: nat, s: string)
    requires AllDigits(s)
    ensures AllDigits(Noughts(k) + s) && Number(Noughts(k) + s) == Number(s)
    decreases k + |s|
  {
    var t := Noughts(k) + s;
    if s != "" {
      NoughtsInFront(k, s[..|s| - 1]);
      assert t[..|t| - 1] == Noughts(k) + s[..|s| - 1];
    } else if k > 0 {
      NoughtsInFront(k - 1, "");
      assert t[..|t| - 1] == Noughts(k - 1) + "";
    }
  }

  lemma NumberStep(s: string)
    requires s != "" && AllDigits(s)
    ensures AllDigits(s[..|s| - 1]) && IsDigit(s[|s| - 1])
    ensures Number(s) == 10 * Number(s[..|s| - 1]) + (s[|s| - 1] - '0') as int
  {
  }

  lemma TenTimes(front: nat, c: char, n: nat)
    requires IsDigit(c) && n == 10 * front + (c - '0') as int
    ensures n / 10 == front && c == '0' + (n % 10) as char
  {
  }

  lemma LastDigit(s: string)
    requires s != "" && AllDigits(s)
    ensures AllDigits(s[..|s| - 1])
    ensures Number(s) / 10 == Number(s[..|s| - 1]) && s[|s| - 1] == '0' + (Number(s) % 10) as char
  {
    NumberStep(s);
    TenTimes(Number(s[..|s| - 1]), s[|s| - 1], Number(s));
  }

  lemma {:induction false} PrintedNumber(s: string) returns (k: nat)
    requires s != "" && AllDigits(s)
    ensures s == Noughts(k) + Print(Number(s))
  {
    var n := |s| - 1;
    var last := [s[n]];
    LastDigit(s);
    assert s == s[..n] + last;
    if Number(s) < 10 {
      OnlyNoughts(s[..n]);
      k := n;
    } else {
      k := PrintedNumber(s[..n]);
      Associative(Noughts(k), Print(Number(s) / 10), last);
    }
  }

  lemma {:induction false} OnlyNoughts(s: string)
    requires AllDigits(s) && Number(s) == 0
    ensures s == Noughts(|s|)
  {
    if s != "" {
      LastDigit(s);
      OnlyNoughts(s[..|s| - 1]);
      assert s == s[..|s| - 1] + [s[|s| - 1]];
    }
  }

  /** A text is a number's digits exactly if it is its printed form behind any number of zeros. */
  lemma NumberExactly(s: string, n: nat)
    ensures s != "" && AllDigits(s) && Number(s) == n <==> exists k :: s == Noughts(k) + Print(n)
  {
    if s != "" && AllDigits(s) {
      var k := PrintedNumber(s);
    }
    if k :| s == Noughts(k) + Print(n) {
      NoughtsInFront(k, Print(n));
      PrintRoundTrip(n);
    }
  }
}
