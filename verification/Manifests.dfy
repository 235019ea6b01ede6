/** Manifest contents as far as history steps depend on them, and the pure decisions that guard
  * those steps.
  */
module Manifests {
  import opened Ideal
  import opened Chain

  /** Hex strings stay strings; `policies` are the keys of the policy map. */
  datatype Manifest = Manifest(
    workloadOwners: seq<string>,
    seedshareOwners: seq<string>,
    policies: set<string>,
    hasInsecure: bool,
    hasSecure: bool)

  // Foreign parsers and checks, left uninterpreted: every result holds whatever they do.
  const ParseManifest: Bytes -> Option<Manifest>
  const HexBytes: string -> Option<Bytes>
  const IsEcdsaKey: Bytes -> bool
  const SharesEncryptable: seq<string> -> bool

  /** A policy reference is copied into a fixed 32-octet array: cut off or zero-padded. */
  function Reference(decoded: Bytes): (r: Hash)
    ensures forall i :: 0 <= i < 32 ==> r[i] == OctetAt(decoded, i)
  {
    if |decoded| >= 32 then decoded[..32] else decoded + ZeroHash()[|decoded|..]
  }

  function OctetAt(b: Bytes, i: nat): (r: Octet) {
    if i < |b| then b[i] else Raw(0)
  }

  /** The policy that a reference stands for: the reference decodes, and its first 32 octets, with zeros behind
      a shorter one, are the policy's digest. */
  predicate Fits(reference: string, policy: Bytes) {
    && HexBytes(reference).Some?
    && forall i :: 0 <= i < 32 ==> Digest(policy)[i] == OctetAt(HexBytes(reference).value, i)
  }

  /** The lookup by `Reference` finds what fits, and nothing else. */
  lemma ReferenceFits(reference: string, policy: Bytes)
    ensures Fits(reference, policy)
       <==> HexBytes(reference).Some? && Reference(HexBytes(reference).value) == Digest(policy)
  {
    if HexBytes(reference).Some? {
      var r := Reference(HexBytes(reference).value);
      if Fits(reference, policy) {
        assert forall i :: 0 <= i < 32 ==> r[i] == Digest(policy)[i];
      }
    }
  }

  /** A reference fits one policy at most; one that is the hex form of a policy's digest fits that policy. */
  lemma FitsOne(reference: string, policy: Bytes, policy': Bytes)
    requires Fits(reference, policy) || HexBytes(reference) == Some(Digest(policy))
    ensures Fits(reference, policy') <==> policy' == policy
  {
    if Fits(reference, policy') {
      assert Digest(policy)[0] == Digest(policy')[0];
    }
  }

  /** A SetManifest call. `peer` is the public key of the TLS peer, if it can be determined. */
  datatype Request = Request(
    manifest: Bytes,
    policies: seq<Bytes>,
    signature: Option<Bytes>,
    previous: Option<Bytes>,
    peer: Option<Bytes>)

  datatype Verdict = Accept | NoSignature | Deny

  /** What a workload owner signs: the hex form of the next transition's digest, hashed again. */
  function SignedMessage(manifest: Bytes, position: Hash): (r: Bytes) {
    Digest(HexEncode(TransitionDigest(Transition(Digest(manifest), position))))
  }

  function ValidateSignature(keys: seq<string>, position: Hash, req: Request): (r: Verdict) {
    if keys == [] then Deny
    else if req.signature.None? || req.signature.value == [] then NoSignature
    else TryKeys(keys, SignedMessage(req.manifest, position), req.signature.value)
  }

  /** Keys are tried in order; one that does not parse ends the search. */
  function TryKeys(keys: seq<string>, message: Bytes, signature: Bytes): (v: Verdict)
    ensures v != NoSignature
  {
    if keys == [] then Deny
    else if HexBytes(keys[0]).None? || !IsEcdsaKey(HexBytes(keys[0]).value) then Deny
    else if Verify(OwnerKey(HexBytes(keys[0]).value), message, signature) then Accept
    else TryKeys(keys[1..], message, signature)
  }

  predicate ValidatePeer(keys: seq<string>, peer: Option<Bytes>) {
    peer.Some? && PeerAmong(keys, peer.value)
  }

  predicate PeerAmong(keys: seq<string>, peer: Bytes) {
    if keys == [] || HexBytes(keys[0]).None? then false
    else HexBytes(keys[0]).value == peer || PeerAmong(keys[1..], peer)
  }

  predicate SecurityAccepted(allowInsecure: bool, m: Manifest) {
    && !(m.hasInsecure && m.hasSecure)
    && !(m.hasInsecure && !allowInsecure)
    && !(!m.hasInsecure && allowInsecure)
  }

  datatype Code = Ok | PermissionDenied | FailedPrecondition | InvalidArgument | Internal

  /** The checks of SetManifest on top of an existing state, in the order the caller sees them. */
  function GuardUpdate(allowInsecure: bool, current: Manifest, tip: Hash, m: Manifest, req: Request): (r: Code) {
    var verdict := ValidateSignature(current.workloadOwners, tip, req);
    if verdict == Deny then PermissionDenied
    else if verdict == NoSignature && !ValidatePeer(current.workloadOwners, req.peer) then PermissionDenied
    else if current.seedshareOwners != m.seedshareOwners then PermissionDenied
    else if req.previous.Some? && req.previous.value != tip then FailedPrecondition
    else if !SecurityAccepted(allowInsecure, m) then InvalidArgument
    else Ok
  }

  /** The checks of the first SetManifest. */
  function GuardInitial(allowInsecure: bool, m: Manifest, req: Request): (r: Code) {
    if req.signature.Some? && ValidateSignature(m.workloadOwners, ZeroHash(), req) != Accept then PermissionDenied
    else if req.previous.Some? && req.previous.value != ZeroHash() then FailedPrecondition
    else if !SharesEncryptable(m.seedshareOwners) then InvalidArgument
    else if !SecurityAccepted(allowInsecure, m) then InvalidArgument
    else Ok
  }

  // ---- Which calls get past the checks ----

  ghost predicate Signed(req: Request) {
    req.signature.Some? && req.signature.value != []
  }

  /** A key listed in a manifest vouches for an update: by a detached signature over exactly this
      manifest at exactly this position, or by being the key of the connected peer. */
  ghost predicate Vouches(key: string, position: Hash, req: Request) {
    && HexBytes(key).Some?
    && var der := HexBytes(key).value;
    if Signed(req) then
      Verify(OwnerKey(der), Digest(HexEncode(Digest(Digest(req.manifest) + position))), req.signature.value)
    else req.peer == Some(der)
  }

  /** The search for an owner goes on behind this key, or ends with it. */
  ghost predicate Readable(key: string, req: Request) {
    HexBytes(key).Some? && (Signed(req) ==> IsEcdsaKey(HexBytes(key).value))
  }

  ghost predicate VouchedAt(keys: seq<string>, i: int, position: Hash, req: Request) {
    0 <= i < |keys| && Vouches(keys[i], position, req) && forall j :: 0 <= j <= i ==> Readable(keys[j], req)
  }

  /** One of the keys vouches, whichever it is, and all keys up to it can be read. */
  ghost predicate OwnersVouch(keys: seq<string>, position: Hash, req: Request) {
    exists i :: VouchedAt(keys, i, position, req)
  }

  ghost predicate PeerAt(keys: seq<string>, i: int, peer: Bytes) {
    0 <= i < |keys| && HexBytes(keys[i]) == Some(peer) && forall j :: 0 <= j < i ==> HexBytes(keys[j]).Some?
  }

  /** The caller's key is one of the keys, whichever it is, and all keys in front of it decode. */
  ghost predicate PeerListed(keys: seq<string>, peer: Option<Bytes>) {
    peer.Some? && exists i :: PeerAt(keys, i, peer.value)
  }

  /** The call is meant for this position, if it says for which. */
  ghost predicate MeantFor(req: Request, position: Hash) {
    req.previous == None || req.previous == Some(position)
  }

  /** The platforms of a manifest are all of the kind that the Coordinator is set to. */
  ghost predicate RightLevel(allowInsecure: bool, m: Manifest) {
    !(m.hasInsecure && m.hasSecure) && m.hasInsecure == allowInsecure
  }

  lemma LaterPeer(keys: seq<string>, i: int, peer: Bytes)
    requires keys != [] && HexBytes(keys[0]).Some?
    ensures PeerAt(keys[1..], i, peer) ==> PeerAt(keys, i + 1, peer)
    ensures i > 0 && PeerAt(keys, i, peer) ==> PeerAt(keys[1..], i - 1, peer)
  {
    if i > 0 && PeerAt(keys, i, peer) {
      assert forall j :: 0 <= j < i - 1 ==> keys[1..][j] == keys[j + 1];
    }
  }

  lemma {:induction false} PeerAmongExactly(keys: seq<string>, peer: Bytes)
    ensures PeerAmong(keys, peer) <==> exists i :: PeerAt(keys, i, peer)
  {
    if keys != [] && HexBytes(keys[0]).Some? {
      PeerAmongExactly(keys[1..], peer);
      if HexBytes(keys[0]).value == peer {
        assert PeerAt(keys, 0, peer);
      } else if i :| PeerAt(keys, i, peer) {
        LaterPeer(keys, i, peer);
      }
      if i :| PeerAt(keys[1..], i, peer) {
        LaterPeer(keys, i, peer);
      }
    }
  }

  /** The check of the connected peer passes exactly for a caller whose key is listed. */
  lemma PeerExactly(keys: seq<string>, peer: Option<Bytes>)
    ensures ValidatePeer(keys, peer) <==> PeerListed(keys, peer)
  {
    if peer.Some? {
      PeerAmongExactly(keys, peer.value);
    }
  }

  lemma LaterKey(keys: seq<string>, i: int, position: Hash, req: Request)
    requires keys != [] && Readable(keys[0], req)
    ensures VouchedAt(keys[1..], i, position, req) ==> VouchedAt(keys, i + 1, position, req)
    ensures i > 0 && VouchedAt(keys, i, position, req) ==> VouchedAt(keys[1..], i - 1, position, req)
  {
    if VouchedAt(keys[1..], i, position, req) {
      forall j | 0 <= j <= i + 1
        ensures Readable(keys[j], req)
      {
        assert j > 0 ==> keys[j] == keys[1..][j - 1];
      }
    }
    if i > 0 && VouchedAt(keys, i, position, req) {
      assert forall j :: 0 <= j <= i - 1 ==> keys[1..][j] == keys[j + 1];
    }
  }

  lemma {:induction false} TriedExactly(keys: seq<string>, position: Hash, req: Request)
    requires Signed(req)
    ensures TryKeys(keys, SignedMessage(req.manifest, position), req.signature.value) == Accept
       <==> OwnersVouch(keys, position, req)
  {
    if keys != [] && Readable(keys[0], req) {
      TriedExactly(keys[1..], position, req);
      if Vouches(keys[0], position, req) {
        assert VouchedAt(keys, 0, position, req);
      } else if i :| VouchedAt(keys, i, position, req) {
        LaterKey(keys, i, position, req);
      }
      if i :| VouchedAt(keys[1..], i, position, req) {
        LaterKey(keys, i, position, req);
      }
    }
  }

  /** A signature is accepted exactly if one of the keys vouches by it. */
  lemma SignatureExactly(keys: seq<string>, position: Hash, req: Request)
    ensures ValidateSignature(keys, position, req) == Accept <==> Signed(req) && OwnersVouch(keys, position, req)
    ensures ValidateSignature(keys, position, req) == NoSignature <==> !Signed(req) && keys != []
  {
    if Signed(req) {
      TriedExactly(keys, position, req);
    }
  }

  lemma UnsignedExactly(keys: seq<string>, position: Hash, req: Request)
    requires !Signed(req)
    ensures OwnersVouch(keys, position, req) <==> PeerListed(keys, req.peer)
  {
    if i :| VouchedAt(keys, i, position, req) {
      assert PeerAt(keys, i, req.peer.value);
    }
    if req.peer.Some? {
      if i :| PeerAt(keys, i, req.peer.value) {
        assert VouchedAt(keys, i, position, req);
      }
    }
  }

  /** What the caller of SetManifest is told on top of an existing state. In particular, the call gets past the
      checks if and only if an owner vouches for it and nothing else stands against it. */
  lemma UpdateAnswer(allowInsecure: bool, current: Manifest, tip: Hash, m: Manifest, req: Request)
    ensures GuardUpdate(allowInsecure, current, tip, m, req)
         == if !OwnersVouch(current.workloadOwners, tip, req) || current.seedshareOwners != m.seedshareOwners
            then PermissionDenied
            else if !MeantFor(req, tip) then FailedPrecondition
            else if !RightLevel(allowInsecure, m) then InvalidArgument
            else Ok
  {
    var keys := current.workloadOwners;
    SignatureExactly(keys, tip, req);
    if !Signed(req) {
      UnsignedExactly(keys, tip, req);
      PeerExactly(keys, req.peer);
    }
  }

  /** What the caller of the first SetManifest is told: nobody has to vouch for it, but a signature that is sent
      has to be one of an owner that the manifest itself names. */
  lemma InitialAnswer(allowInsecure: bool, m: Manifest, req: Request)
    ensures GuardInitial(allowInsecure, m, req)
         == if req.signature.Some? && !(Signed(req) && OwnersVouch(m.workloadOwners, ZeroHash(), req))
            then PermissionDenied
            else if !MeantFor(req, ZeroHash()) then FailedPrecondition
            else if !SharesEncryptable(m.seedshareOwners) || !RightLevel(allowInsecure, m) then InvalidArgument
            else Ok
  {
    SignatureExactly(m.workloadOwners, ZeroHash(), req);
  }

  /** Every accepted update has a workload owner of the manifest it replaces behind it. */
  lemma UpdateNeedsOwner(allowInsecure: bool, current: Manifest, tip: Hash, m: Manifest, req: Request)
    requires GuardUpdate(allowInsecure, current, tip, m, req) == Ok
    ensures exists i :: 0 <= i < |current.workloadOwners| && Vouches(current.workloadOwners[i], tip, req)
    ensures current.seedshareOwners == m.seedshareOwners
    ensures m.hasInsecure == allowInsecure
  {
    UpdateAnswer(allowInsecure, current, tip, m, req);
    var i :| VouchedAt(current.workloadOwners, i, tip, req);
    assert Vouches(current.workloadOwners[i], tip, req);
  }

  /** A detached signature is good for one manifest at one position of the history. */
  lemma SignatureFixesManifestAndPosition(keys1: seq<string>, position1: Hash, req1: Request, keys2: seq<string>,
                                          position2: Hash, req2: Request)
    requires ValidateSignature(keys1, position1, req1) == Accept
    requires ValidateSignature(keys2, position2, req2) == Accept
    requires req1.signature == req2.signature
    ensures req1.manifest == req2.manifest && position1 == position2
  {
    var m1, m2 := SignedMessage(req1.manifest, position1), SignedMessage(req2.manifest, position2);
    SignatureExactly(keys1, position1, req1);
    SignatureExactly(keys2, position2, req2);
    var i :| VouchedAt(keys1, i, position1, req1);
    var j :| VouchedAt(keys2, j, position2, req2);
    SignatureBinds(OwnerKey(HexBytes(keys1[i]).value), m1, OwnerKey(HexBytes(keys2[j]).value), m2,
                   req1.signature.value);
    var t1, t2 := Transition(Digest(req1.manifest), position1), Transition(Digest(req2.manifest), position2);
    DigestInjective(HexEncode(TransitionDigest(t1)), HexEncode(TransitionDigest(t2)));
    HexInjective(TransitionDigest(t1), TransitionDigest(t2));
    TransitionDigestInjective(t1, t2);
    DigestInjective(req1.manifest, req2.manifest);
  }
}
