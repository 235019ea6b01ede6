/** Fixed-width little-endian numbers. */
module LittleEndian {
  import opened Ideal

  function Power256(n: nat): (p: nat)
    ensures p >= 1
  {
    if n == 0 then 1 else 256 * Power256(n - 1)
  }

  /** Byte number `i` of a value, counted from the lowest. */
  function ByteAt(v: nat, i: nat): (r: byte) {
    if i == 0 then v % 256 else ByteAt(v / 256, i - 1)
  }

  /** The `n` low-order bytes of a value, lowest first. */
  function LE(n: nat, v: nat): (b: seq<byte>)
    ensures |b| == n
  {
    seq(n, i requires 0 <= i < n => ByteAt(v, i))
  }

  lemma StepLE(n: nat, v: nat)
    requires n > 0
    ensures LE(n, v) == [v % 256] + LE(n - 1, v / 256)
  {
  }

  function FromLE(b: seq<byte>): (r: nat) {
    if b == [] then 0 else b[0] + 256 * FromLE(b[1..])
  }

  lemma {:induction false} EncodeLE(n: nat, v: nat)
    requires v < Power256(n)
    ensures FromLE(LE(n, v)) == v
  {
    if n > 0 {
      EncodeLE(n - 1, v / 256);
      StepLE(n, v);
      assert LE(n, v)[1..] == LE(n - 1, v / 256);
    }
  }

  lemma {:induction false} DecodeLE(b: seq<byte>)
    ensures FromLE(b) < Power256(|b|)
    ensures LE(|b|, FromLE(b)) == b
  {
    if b != [] {
      DecodeLE(b[1..]);
      assert FromLE(b) % 256 == b[0] && FromLE(b) / 256 == FromLE(b[1..]);
      StepLE(|b|, FromLE(b));
      assert b == [b[0]] + b[1..];
    }
  }

  /** An encoding is unique. */
  lemma CodecLE(b: seq<byte>, v: nat)
    requires v < Power256(|b|)
    ensures FromLE(b) == v <==> b == LE(|b|, v)
  {
    EncodeLE(|b|, v);
    DecodeLE(b);
  }

  /** Four bytes, the lowest first. */
  lemma FourBytes(a: byte, b: byte, c: byte, d: byte)
    ensures FromLE([a, b, c, d]) == a + 0x100 * b + 0x1_0000 * c + 0x100_0000 * d
    ensures LE(4, a + 0x100 * b + 0x1_0000 * c + 0x100_0000 * d) == [a, b, c, d]
  {
    assert [a, b, c, d][1..] == [b, c, d] && [b, c, d][1..] == [c, d] && [c, d][1..] == [d] && [d][1..] == [];
    var v := FromLE([a, b, c, d]);
    assert FromLE([d]) == d && FromLE([c, d]) == c + 0x100 * d && FromLE([b, c, d]) == b + 0x100 * c + 0x1_0000 * d;
    DecodeLE([a, b, c, d]);
  }

  lemma Widths()
    ensures Power256(2) == 0x1_0000 && Power256(4) == 0x1_0000_0000 && Power256(8) == 0x1_0000_0000_0000_0000
  {
    assert Power256(2) == 256 * Power256(1);
    assert Power256(4) == 256 * Power256(3) && Power256(3) == 256 * Power256(2);
    assert Power256(8) == 256 * Power256(7) && Power256(7) == 256 * Power256(6);
    assert Power256(6) == 256 * Power256(5) && Power256(5) == 256 * Power256(4);
  }
}
