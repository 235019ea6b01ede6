/** Plain bytes as octets, and buffers of octets that are filled in place. */
module Octets {
  import opened Ideal

  const PAGE_SIZE: nat := 4096

  function Plain(b: seq<byte>): (r: Bytes)
    ensures |r| == |b|
  {
    seq(|b|, i requires 0 <= i < |b| => Raw(b[i]))
  }

  lemma PlainInjective(a: seq<byte>, b: seq<byte>)
    requires Plain(a) == Plain(b)
    ensures a == b
  {
    assert |a| == |Plain(a)| == |Plain(b)| == |b|;
    forall i | 0 <= i < |a|
      ensures a[i] == b[i]
    {
      assert Plain(a)[i] == Plain(b)[i];
    }
  }

  function Zeros(n: nat): (r: Bytes)
    ensures |r| == n
  {
    seq(n, i => Raw(0))
  }

  /** A buffer with a filled front part and zeros behind it. */
  ghost predicate Filled(b: Bytes, front: Bytes) {
    |front| <= |b| && b == front + Zeros(|b| - |front|)
  }

  /** Copies a source to where the filled part of the buffer ends. */
  method CopyTo(b: array<Octet>, off: nat, src: Bytes, ghost front: Bytes)
    requires off + |src| <= b.Length && |front| == off && Filled(b[..], front)
    modifies b
    ensures Filled(b[..], front + src)
  {
    ghost var before := b[..];
    for i := 0 to |src|
      invariant forall k :: 0 <= k < b.Length ==> b[k] == if off <= k < off + i then src[k - off] else before[k]
    {
      b[off + i] := src[i];
    }
    forall k | 0 <= k < b.Length
      ensures b[k] == (front + src + Zeros(b.Length - |front + src|))[k]
    {
      assert before[k] == (front + Zeros(b.Length - |front|))[k];
    }
  }
}
