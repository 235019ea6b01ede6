/** Walking the persisted transitions from the newest back to the root, reading the store only. */
module Walks {
  import opened Ideal
  import opened Chain
  import opened Manifests
  import opened Protocol

  /** The transition digests met on a walk, newest first; nothing if an entry is missing, does not
      match its key or is no transition. The walk terminates on every store whatsoever, because an
      entry that matches its key is smaller than the key. */
  function Visited(kv: Store, h: Hash): (r: Option<seq<Hash>>)
    decreases h[0]
  {
    if h == ZeroHash() then Some([])
    else
      match Fetch(kv, map[], Transitions, h)
      case None => None
      case Some(data) =>
        if |data| != 64 then None
        else
          assert h[0] == DigestOctet(Sha256, data, 0);
          assert data[32..][0] == data[32];
          match Visited(kv, data[32..])
          case None => None
          case Some(rest) => Some([h] + rest)
  }

  /** `a` is `h` itself or one of its ancestors. */
  predicate Ancestor(kv: Store, a: Hash, h: Hash) {
    Visited(kv, h).Some? && a in Visited(kv, h).value
  }

  predicate PolicyFound(kv: Store, reference: string) {
    HexBytes(reference).Some? && Fetch(kv, map[], Policies, Reference(HexBytes(reference).value)).Some?
  }

  /** What is found is a policy that the reference stands for, under that policy's own digest. */
  lemma PolicyFoundExactly(kv: Store, reference: string)
    ensures PolicyFound(kv, reference) <==>
              exists policy :: Fits(reference, policy) && At(Policies, Digest(policy)) in kv
                               && kv[At(Policies, Digest(policy))] == policy
  {
    if PolicyFound(kv, reference) {
      var policy := Fetch(kv, map[], Policies, Reference(HexBytes(reference).value)).value;
      ReferenceFits(reference, policy);
    }
    if policy :| Fits(reference, policy) && At(Policies, Digest(policy)) in kv
                 && kv[At(Policies, Digest(policy))] == policy {
      ReferenceFits(reference, policy);
    }
  }

  /** GetHistory on the store alone: the manifests of a transition and its ancestors, oldest
      first, provided that each of them and each policy they name is found. */
  function HistoryOf(kv: Store, h: Hash): (r: Option<seq<Bytes>>)
    decreases h[0]
  {
    if h == ZeroHash() then Some([])
    else
      match Fetch(kv, map[], Transitions, h)
      case None => None
      case Some(data) =>
        if |data| != 64 then None
        else
          assert h[0] == DigestOctet(Sha256, data, 0);
          assert data[32..][0] == data[32];
          match (Fetch(kv, map[], ManifestsKind, data[..32]), HistoryOf(kv, data[32..]))
          case (Some(manifest), Some(older)) =>
            if ParseManifest(manifest).None? then None
            else if forall reference :: reference in ParseManifest(manifest).value.policies ==>
                PolicyFound(kv, reference)
            then Some(older + [manifest])
            else None
          case _ => None
  }

  lemma VisitedStep(kv: Store, t: Transition)
    requires At(Transitions, TransitionDigest(t)) in kv && kv[At(Transitions, TransitionDigest(t))] == Marshal(t)
    ensures Visited(kv, TransitionDigest(t))
         == match Visited(kv, t.previous)
            case None => None
            case Some(rest) => Some([TransitionDigest(t)] + rest)
  {
    DigestNotZero(Marshal(t));
    TransitionCodec(t, Marshal(t));
  }
}
