/** Transitions, the signed reference to the latest one, and chains of transitions. */
module Chain {
  import opened Ideal

  datatype Transition = Transition(manifestHash: Hash, previous: Hash)

  function Marshal(t: Transition): (r: Bytes) {
    t.manifestHash + t.previous
  }

  function Unmarshal(data: Bytes): (r: Option<Transition>) {
    if |data| != 64 then None else Some(Transition(data[..32], data[32..]))
  }

  /** The two directions of the codec: an octet string decodes to `t` exactly if it is the
      encoding of `t`. */
  lemma TransitionCodec(t: Transition, data: Bytes)
    ensures Unmarshal(data) == Some(t) <==> data == Marshal(t)
  {
    if data == Marshal(t) {
      assert data[..32] == t.manifestHash && data[32..] == t.previous;
    }
  }

  function TransitionDigest(t: Transition): (r: Hash) {
    Digest(Marshal(t))
  }

  lemma TransitionDigestInjective(s: Transition, t: Transition)
    requires TransitionDigest(s) == TransitionDigest(t)
    ensures s == t
  {
    DigestInjective(Marshal(s), Marshal(t));
    TransitionCodec(s, Marshal(s));
    TransitionCodec(t, Marshal(t));
  }

  datatype LatestTransition = LatestTransition(tip: Hash, signature: Bytes)

  function MarshalLatest(l: LatestTransition): (r: Bytes) {
    l.tip + l.signature
  }

  /** Anything without room for a non-empty signature is rejected. */
  function UnmarshalLatest(data: Bytes): (r: Option<LatestTransition>) {
    if |data| <= 32 then None else Some(LatestTransition(data[..32], data[32..]))
  }

  /** A signed reference decodes from exactly its encoding; an unsigned one from nothing. */
  lemma LatestCodec(l: LatestTransition, data: Bytes)
    ensures UnmarshalLatest(data) == Some(l) <==> data == MarshalLatest(l) && l.signature != []
  {
    if data == MarshalLatest(l) {
      assert data[..32] == l.tip && data[32..] == l.signature;
    }
  }

  /** The digest of the transition that a history of manifests, oldest first, ends in. */
  function Tip(manifests: seq<Bytes>): (r: Hash)
    decreases |manifests|, 1
  {
    if manifests == [] then ZeroHash() else TransitionDigest(LastTransition(manifests))
  }

  function LastTransition(manifests: seq<Bytes>): (r: Transition)
    requires manifests != []
    decreases |manifests|, 0
  {
    var n := |manifests| - 1;
    Transition(Digest(manifests[n]), Tip(manifests[..n]))
  }

  /** The transitions of a history of manifests, oldest first. */
  function TransitionsOf(manifests: seq<Bytes>): (ts: seq<Transition>)
    ensures |ts| == |manifests|
  {
    if manifests == [] then []
    else TransitionsOf(manifests[..|manifests| - 1]) + [LastTransition(manifests)]
  }

  lemma {:induction false} TransitionsOfAt(manifests: seq<Bytes>, i: nat)
    requires i < |manifests|
    ensures TransitionsOf(manifests)[i] == Transition(Digest(manifests[i]), Tip(manifests[..i]))
  {
    var n := |manifests| - 1;
    if i < n {
      TransitionsOfAt(manifests[..n], i);
      assert manifests[..n][..i] == manifests[..i];
    }
  }

  /** One digest pins down the whole history: different manifest lists have different tips. */
  lemma {:induction false} TipInjective(a: seq<Bytes>, b: seq<Bytes>)
    requires Tip(a) == Tip(b)
    ensures a == b
  {
    if a == [] {
      if b != [] {
        DigestNotZero(Marshal(LastTransition(b)));
      }
    } else if b == [] {
      DigestNotZero(Marshal(LastTransition(a)));
    } else {
      TransitionDigestInjective(LastTransition(a), LastTransition(b));
      DigestInjective(a[|a| - 1], b[|b| - 1]);
      TipInjective(a[..|a| - 1], b[..|b| - 1]);
      assert a == a[..|a| - 1] + [a[|a| - 1]] && b == b[..|b| - 1] + [b[|b| - 1]];
    }
  }

  /** The loop of the source: each transition refers to the digest of the one before it. */
  method BuildTransitionChain(manifests: seq<Bytes>) returns (transitions: seq<Transition>)
    ensures transitions == TransitionsOf(manifests)
    ensures manifests != [] ==> TransitionDigest(transitions[|transitions| - 1]) == Tip(manifests)
  {
    transitions := [];
    var lastTransitionHash := ZeroHash();
    for i := 0 to |manifests|
      invariant transitions == TransitionsOf(manifests[..i])
      invariant lastTransitionHash == Tip(manifests[..i])
    {
      assert manifests[..i + 1][..i] == manifests[..i];
      var t := Transition(Digest(manifests[i]), lastTransitionHash);
      transitions := transitions + [t];
      lastTransitionHash := TransitionDigest(t);
    }
    assert manifests[..|manifests|] == manifests;
    if manifests != [] {
      TransitionsOfAt(manifests, |manifests| - 1);
    }
  }
}
