/** The state guard of one Coordinator: the methods that read and replace its state in place, each
  * against a function of the store and the cache it found.
  */
module Guard {
  import opened Ideal
  import opened Chain
  import opened Manifests
  import opened Protocol
  import opened Walks
  import opened History
  import opened Sequences

  /** A State object: immutable but for the flag, compared by identity. */
  class StateRef {
    const state: State
    var stale: bool

    constructor (state: State)
      ensures this.state == state && !stale
    {
      this.state := state;
      stale := false;
    }
  }

  datatype GuardError =
    | NoError
    | NoState
    | StaleState
    | ConcurrentUpdate
    | InvalidManifest
    | MissingPolicy
    | Unreadable
    | NotAuthorized
    | NoPeers

  // ---- Specifications ----

  /** Several blobs written one after the other. */
  function PutAll(kv: Store, cache: Cache, kind: Kind, blobs: seq<Bytes>): (r: (Store, Cache)) {
    if blobs == [] then (kv, cache)
    else
      var last := blobs[|blobs| - 1];
      var before := PutAll(kv, cache, kind, blobs[..|blobs| - 1]);
      (before.0[At(kind, Digest(last)) := last], before.1[Digest(last) := last])
  }

  /** A policy is given for a reference exactly if a lookup among the digests of the given ones succeeds. */
  lemma GivenExactly(reference: string, policies: seq<Bytes>)
    ensures PolicyGiven(reference, policies) <==>
              && HexBytes(reference).Some?
              && exists j :: 0 <= j < |policies| && Digest(policies[j]) == Reference(HexBytes(reference).value)
  {
    if PolicyGiven(reference, policies) {
      var j :| 0 <= j < |policies| && Fits(reference, policies[j]);
      ReferenceFits(reference, policies[j]);
    }
    if HexBytes(reference).Some? {
      if j :| 0 <= j < |policies| && Digest(policies[j]) == Reference(HexBytes(reference).value) {
        ReferenceFits(reference, policies[j]);
      }
    }
  }

  /** Every reference of the manifest is the hex form of the digest of a policy that comes with it. */
  ghost predicate AllPresent(manifest: Bytes, policies: seq<Bytes>) {
    && ParseManifest(manifest).Some?
    && forall reference :: reference in ParseManifest(manifest).value.policies ==> PresentAs(reference, policies)
  }

  ghost predicate PresentAs(reference: string, policies: seq<Bytes>) {
    exists j :: 0 <= j < |policies| && HexBytes(reference) == Some(Digest(policies[j]))
  }

  lemma AllPresentComplete(manifest: Bytes, policies: seq<Bytes>)
    ensures AllPresent(manifest, policies) ==> PoliciesComplete(manifest, policies)
  {
    if AllPresent(manifest, policies) {
      forall reference | reference in ParseManifest(manifest).value.policies
        ensures PolicyGiven(reference, policies)
      {
        assert PresentAs(reference, policies);
        var j :| 0 <= j < |policies| && HexBytes(reference) == Some(Digest(policies[j]));
        FitsOne(reference, policies[j], policies[j]);
      }
    }
  }

  datatype UpdateOutcome = UpdateOutcome(kv: Store, cache: Cache, latest: LatestTransition, error: GuardError)

  /** UpdateState without its own state cell: the writes, in order, up to the first failure. */
  function UpdateSpec(kv: Store, cache: Cache, base: Option<LatestTransition>, key: Key, manifest: Bytes,
                      policies: seq<Bytes>, nonce: nat): (r: UpdateOutcome)
  {
    var t := Transition(Digest(manifest), if base.Some? then base.value.tip else ZeroHash());
    var tip := TransitionDigest(t);
    var latest := LatestTransition(tip, Sign(key, tip, nonce));
    if ParseManifest(manifest).None? then UpdateOutcome(kv, cache, latest, InvalidManifest)
    else
      var (kv1, cache1) := PutAll(kv, cache, Policies, policies);
      if !PoliciesComplete(manifest, policies) then UpdateOutcome(kv1, cache1, latest, MissingPolicy)
      else
        var kv3 := kv1[At(ManifestsKind, Digest(manifest)) := manifest][At(Transitions, tip) := Marshal(t)];
        var cache3 := cache1[Digest(manifest) := manifest][tip := Marshal(t)];
        if Current(kv3) != (if base.Some? then MarshalLatest(base.value) else [])
        then UpdateOutcome(kv3, cache3, latest, ConcurrentUpdate)
        else UpdateOutcome(kv3[Latest := MarshalLatest(latest)], cache3, latest, NoError)
  }

  lemma {:induction false} PutAllHolds(kv: Store, cache: Cache, kind: Kind, blobs: seq<Bytes>)
    ensures var kv' := PutAll(kv, cache, kind, blobs).0;
            && (forall i :: 0 <= i < |blobs| ==>
                At(kind, Digest(blobs[i])) in kv' && kv'[At(kind, Digest(blobs[i]))] == blobs[i])
            && OnlyBlobsAdded(kv, kv')
  {
    if blobs != [] {
      var n := |blobs| - 1;
      PutAllHolds(kv, cache, kind, blobs[..n]);
      forall i | 0 <= i < n
        ensures var kv' := PutAll(kv, cache, kind, blobs).0;
                At(kind, Digest(blobs[i])) in kv' && kv'[At(kind, Digest(blobs[i]))] == blobs[i]
      {
        assert blobs[..n][i] == blobs[i];
        if Digest(blobs[i]) == Digest(blobs[n]) {
          DigestInjective(blobs[i], blobs[n]);
        }
      }
    }
  }

  /** Nothing is removed, `transitions/latest` stays, and what is new or different digests to its key. */
  ghost predicate OnlyBlobsAdded(kv: Store, kv': Store) {
    && (Latest in kv <==> Latest in kv') && (Latest in kv ==> kv'[Latest] == kv[Latest])
    && kv.Keys <= kv'.Keys
    && forall kind, h {:trigger At(kind, h)} ::
         At(kind, h) in kv' && !(At(kind, h) in kv && kv'[At(kind, h)] == kv[At(kind, h)]) ==>
           Digest(kv'[At(kind, h)]) == h
  }

  /** The manifest, its policies and a transition to it from the position `tip` are in the store. */
  ghost predicate UpdateStored(kv: Store, manifest: Bytes, policies: seq<Bytes>, tip: Hash) {
    var t := Digest(manifest) + tip;
    && At(ManifestsKind, Digest(manifest)) in kv && kv[At(ManifestsKind, Digest(manifest))] == manifest
    && At(Transitions, Digest(t)) in kv && kv[At(Transitions, Digest(t))] == t
    && forall i :: 0 <= i < |policies| ==>
         At(Policies, Digest(policies[i])) in kv && kv[At(Policies, Digest(policies[i]))] == policies[i]
  }

  /** When UpdateState succeeds, which error it reports otherwise, and what it has done to the store. */
  lemma UpdateEffect(kv: Store, cache: Cache, base: Option<LatestTransition>, key: Key, manifest: Bytes,
                     policies: seq<Bytes>, nonce: nat)
    ensures var o := UpdateSpec(kv, cache, base, key, manifest, policies, nonce);
            var tip := if base.Some? then base.value.tip else ZeroHash();
            var before := if base.Some? then base.value.tip + base.value.signature else [];
            && o.error == (if ParseManifest(manifest).None? then InvalidManifest
                           else if !PoliciesComplete(manifest, policies) then MissingPolicy
                           else if Current(kv) != before then ConcurrentUpdate
                           else NoError)
            && (o.error != NoError ==> OnlyBlobsAdded(kv, o.kv))
            && (o.error == NoError ==>
                && UpdateStored(o.kv, manifest, policies, tip)
                && o.latest.tip == Digest(Digest(manifest) + tip)
                && Verify(key, o.latest.tip, o.latest.signature)
                && Latest in o.kv && o.kv[Latest] == o.latest.tip + o.latest.signature
                && OnlyBlobsAdded(kv - {Latest}, o.kv - {Latest}))
  {
    PutAllHolds(kv, cache, Policies, policies);
  }

  datatype WalkOutcome = WalkOutcome(cache: Cache, path: Option<seq<Hash>>)

  /** WalkTransitions with the cache in front of the store: the digests met, newest first. */
  ghost function CachedWalk(kv: Store, cache: Cache, h: Hash): (o: WalkOutcome)
    requires CacheSound(cache)
    ensures CacheSound(o.cache)
    decreases h[0]
  {
    if h == ZeroHash() then WalkOutcome(cache, Some([]))
    else
      var data := Fetch(kv, cache, Transitions, h);
      var cache' := Remember(cache, h, data);
      if data.None? || |data.value| != 64 then WalkOutcome(cache', None)
      else
        assert h[0] == DigestOctet(Sha256, data.value, 0);
        assert data.value[32..][0] == data.value[32];
        var rest := CachedWalk(kv, cache', data.value[32..]);
        WalkOutcome(rest.cache, if rest.path.None? then None else Some([h] + rest.path.value))
  }

  /** A walk that succeeds on the store alone succeeds with a cache, and meets the same. */
  lemma {:induction false} CachedWalkAgrees(kv: Store, cache: Cache, h: Hash)
    requires CacheSound(cache) && Visited(kv, h).Some?
    ensures CachedWalk(kv, cache, h).path == Visited(kv, h)
    decreases h[0]
  {
    if h != ZeroHash() {
      CachedReadAgrees(kv, cache, Transitions, h);
      var data := Fetch(kv, map[], Transitions, h).value;
      assert h[0] == DigestOctet(Sha256, data, 0);
      assert data[32..][0] == data[32];
      CachedWalkAgrees(kv, Remember(cache, h, Some(data)), data[32..]);
    }
  }

  datatype ResetOutcome = ResetOutcome(cache: Cache, next: Option<State>, error: GuardError)

  /** ResetState without its own state cell. Nothing is written. */
  ghost function ResetSpec(kv: Store, cache: Cache, source: Source, allowInsecure: bool): (o: ResetOutcome)
    requires CacheSound(cache) && source.HasOffer()
    ensures CacheSound(o.cache)
  {
    match UnmarshalLatest(Current(kv))
    case None => ResetOutcome(cache, None, Unreadable)
    case Some(insecure) =>
      var cache1 := Remember(cache, insecure.tip, Fetch(kv, cache, Transitions, insecure.tip));
      match FetchTransition(kv, cache, insecure.tip)
      case None => ResetOutcome(cache1, None, Unreadable)
      case Some(t) =>
        var cache2 := Remember(cache1, t.manifestHash, Fetch(kv, cache1, ManifestsKind, t.manifestHash));
        match Fetch(kv, cache1, ManifestsKind, t.manifestHash)
        case None => ResetOutcome(cache2, None, Unreadable)
        case Some(manifest) =>
          if ParseManifest(manifest).None? then ResetOutcome(cache2, None, InvalidManifest)
          else if !Authorized(Recovery(0, None, source), allowInsecure, ParseManifest(manifest).value)
          then ResetOutcome(cache2, None, NotAuthorized)
          else if !Verify(source.Offer().SigningKey(), insecure.tip, insecure.signature)
          then ResetOutcome(cache2, None, Unreadable)
          else
            var walk := CachedWalk(kv, cache2, insecure.tip);
            if walk.path.None? then ResetOutcome(walk.cache, None, Unreadable)
            else ResetOutcome(walk.cache, Some(State(source.Offer(), manifest, insecure, |walk.path.value|)), NoError)
  }

  ghost predicate Names(manifests: seq<Bytes>, reference: string) {
    exists i :: 0 <= i < |manifests| && ParseManifest(manifests[i]).Some?
                && reference in ParseManifest(manifests[i]).value.policies
  }

  /** Exactly the policies that some manifest names, each matching its reference. */
  ghost predicate PoliciesOf(manifests: seq<Bytes>, policies: map<string, Bytes>) {
    && (forall reference :: reference in policies <==> Names(manifests, reference))
    && (forall reference :: reference in policies ==>
          Fits(reference, policies[reference]))
  }

  /** Any history that leads to `h`, continued by `newer`, leads to `tip`. */
  ghost predicate Continues(h: Hash, newer: seq<Bytes>, tip: Hash) {
    forall older :: Tip(older) == h ==> Tip(older + newer) == tip
  }

  /** The cache when the first `n` peers have been asked in vain. */
  ghost function AfterAttempts(kv: Store, cache: Cache, offers: seq<Seeds>, n: nat, allowInsecure: bool): (r: Cache)
    requires CacheSound(cache) && n <= |offers|
    ensures CacheSound(r)
  {
    if n == 0 then cache
    else ResetSpec(kv, AfterAttempts(kv, cache, offers, n - 1, allowInsecure), Peers([offers[n - 1]]),
                   allowInsecure).cache
  }

  /** What comes of asking one peer after those in front of it. */
  ghost function Attempt(kv: Store, cache: Cache, offers: seq<Seeds>, i: nat, allowInsecure: bool): (o: ResetOutcome)
    requires CacheSound(cache) && i < |offers|
  {
    ResetSpec(kv, AfterAttempts(kv, cache, offers, i, allowInsecure), Peers([offers[i]]), allowInsecure)
  }

  ghost predicate AllRefused(kv: Store, cache: Cache, offers: seq<Seeds>, n: nat, allowInsecure: bool)
    requires CacheSound(cache) && n <= |offers|
  {
    forall i :: 0 <= i < n ==> Attempt(kv, cache, offers, i, allowInsecure).next.None?
  }

  ghost predicate FirstAccepted(kv: Store, cache: Cache, offers: seq<Seeds>, i: int, allowInsecure: bool)
    requires CacheSound(cache)
  {
    && 0 <= i < |offers| && AllRefused(kv, cache, offers, i, allowInsecure)
    && Attempt(kv, cache, offers, i, allowInsecure).next.Some?
  }

  /** An attempt leaves its cache to the next. */
  lemma AttemptLeaves(kv: Store, cache: Cache, offers: seq<Seeds>, i: nat, allowInsecure: bool)
    requires CacheSound(cache) && i < |offers|
    ensures Attempt(kv, cache, offers, i, allowInsecure)
         == ResetSpec(kv, AfterAttempts(kv, cache, offers, i, allowInsecure), Peers([offers[i]]), allowInsecure)
    ensures Attempt(kv, cache, offers, i, allowInsecure).cache == AfterAttempts(kv, cache, offers, i + 1, allowInsecure)
  {
  }

  /** One that is refused is one more; one that is accepted is the first. */
  lemma AttemptCounts(kv: Store, cache: Cache, offers: seq<Seeds>, i: nat, allowInsecure: bool)
    requires CacheSound(cache) && i < |offers| && AllRefused(kv, cache, offers, i, allowInsecure)
    ensures if Attempt(kv, cache, offers, i, allowInsecure).next.None?
            then AllRefused(kv, cache, offers, i + 1, allowInsecure)
            else FirstAccepted(kv, cache, offers, i, allowInsecure)
  {
    forall j | 0 <= j < i
      ensures Attempt(kv, cache, offers, j, allowInsecure).next.None?
    {
    }
  }

  // ---- The guard ----

  class Guard {
    var state: StateRef?
    const hist: History

    ghost predicate Valid()
      reads this, hist
    {
      hist.Valid()
    }

    constructor (hist: History)
      requires hist.Valid()
      ensures Valid() && this.hist == hist && state == null
    {
      this.hist := hist;
      state := null;
    }

    static function LatestOf(s: StateRef?): (r: Option<LatestTransition>) {
      if s == null then None else Some(s.state.latest)
    }

    static function GenerationOf(s: StateRef?): (r: nat) {
      if s == null then 0 else s.state.generation
    }

    method GetState() returns (s: StateRef?, error: GuardError)
      ensures s == state
      ensures error == if state == null then (if Latest in hist.store.kv then StaleState else NoState)
                       else if state.stale then StaleState else NoError
    {
      s := state;
      if s == null {
        var hasLatest := hist.store.Has(Latest);
        return null, if hasLatest then StaleState else NoState;
      }
      return s, if s.stale then StaleState else NoError;
    }

    method UpdateState(oldState: StateRef?, seeds: Seeds, manifest: Bytes, policies: seq<Bytes>, nonce: nat)
      returns (next: StateRef?, error: GuardError)
      requires Valid()
      modifies this`state, hist, hist.store
      ensures Valid()
      ensures var o :=
                UpdateSpec(old(hist.store.kv), old(hist.cache), LatestOf(oldState), seeds.SigningKey(), manifest,
                           policies, nonce);
              && hist.store.kv == o.kv && hist.cache == o.cache && error == o.error
              && (error == NoError ==>
                    && next != null && fresh(next) && !next.stale
                    && next.state == State(seeds, manifest, o.latest,
                                           if oldState == null then 1 else oldState.state.generation + 1)
                    && state == if old(state) == oldState then next else old(state))
      ensures error != NoError ==> next == null && state == old(state)
      ensures error == MissingPolicy <==> ParseManifest(manifest).Some? && !PoliciesComplete(manifest, policies)
      ensures AllPresent(manifest, policies) ==> error != MissingPolicy
    {
      AllPresentComplete(manifest, policies);
      var parsed := ParseManifest(manifest);
      if parsed.None? {
        return null, InvalidManifest;
      }
      var policyMap := StoreAll(policies);
      var complete := AllGiven(parsed.value.policies, policyMap, policies);
      if !complete {
        return null, MissingPolicy;
      }

      var manifestHash := hist.SetContentAddressed(ManifestsKind, manifest);
      var transition := Transition(manifestHash, if oldState == null then ZeroHash() else oldState.state.latest.tip);
      var transitionHash := hist.SetTransition(transition);
      var swapped, latest := hist.SetLatest(LatestOf(oldState), transitionHash, seeds.SigningKey(), nonce);
      if !swapped {
        return null, ConcurrentUpdate;
      }
      next := new StateRef(State(seeds, manifest, latest, GenerationOf(oldState) + 1));
      if state == oldState {
        state := next;
      }
      error := NoError;
    }

    /** The loop of UpdateState that stores the policies. */
    method StoreAll(policies: seq<Bytes>) returns (policyMap: map<Hash, Bytes>)
      requires Valid()
      modifies hist, hist.store
      ensures Valid()
      ensures (hist.store.kv, hist.cache) == PutAll(old(hist.store.kv), old(hist.cache), Policies, policies)
      ensures forall h :: h in policyMap <==> exists j :: 0 <= j < |policies| && Digest(policies[j]) == h
    {
      policyMap := map[];
      for i := 0 to |policies|
        invariant hist.Valid()
        invariant (hist.store.kv, hist.cache) == PutAll(old(hist.store.kv), old(hist.cache), Policies, policies[..i])
        invariant forall h :: h in policyMap <==> exists j :: 0 <= j < i && Digest(policies[j]) == h
      {
        assert policies[..i + 1][..i] == policies[..i];
        var policyHash := hist.SetContentAddressed(Policies, policies[i]);
        policyMap := policyMap[policyHash := policies[i]];
      }
      assert policies[..|policies|] == policies;
    }

    /** The loop of UpdateState that looks up the policies that the manifest names. */
    static method AllGiven(names: set<string>, policyMap: map<Hash, Bytes>, ghost policies: seq<Bytes>)
      returns (ok: bool)
      requires forall h :: h in policyMap <==> exists j :: 0 <= j < |policies| && Digest(policies[j]) == h
      ensures ok <==> forall reference :: reference in names ==> PolicyGiven(reference, policies)
    {
      forall reference
        ensures PolicyGiven(reference, policies) <==>
                  HexBytes(reference).Some? && Reference(HexBytes(reference).value) in policyMap
      {
        GivenExactly(reference, policies);
      }
      var references := names;
      while references != {}
        invariant references <= names
        invariant forall reference :: reference in names - references ==> PolicyGiven(reference, policies)
      {
        var reference :| reference in references;
        var decoded := HexBytes(reference);
        if decoded.None? || Reference(decoded.value) !in policyMap {
          assert !PolicyGiven(reference, policies);
          return false;
        }
        references := references - {reference};
      }
      return true;
    }

    method ResetState(oldState: StateRef?, source: Source, allowInsecure: bool)
      returns (next: StateRef?, error: GuardError)
      requires Valid() && source.HasOffer()
      modifies this`state, hist
      ensures Valid()
      ensures var o := ResetSpec(hist.store.kv, old(hist.cache), source, allowInsecure);
              && hist.cache == o.cache
              && (o.next.None? ==> next == null && error == o.error && state == old(state))
              && (o.next.Some? && old(state) != oldState ==>
                  next == null && error == ConcurrentUpdate && state == old(state))
              && (o.next.Some? && old(state) == oldState ==>
                    next != null && fresh(next) && next.state == o.next.value && !next.stale
                    && error == NoError && state == next)
    {
      var insecureLatest := hist.GetLatestInsecure();
      if insecureLatest.Failure? {
        return null, Unreadable;
      }
      var transition := hist.GetTransition(insecureLatest.value.tip);
      if transition.Failure? {
        return null, Unreadable;
      }
      var manifest := hist.GetContentAddressed(ManifestsKind, transition.value.manifestHash);
      if manifest.Failure? {
        return null, Unreadable;
      }
      var parsed := ParseManifest(manifest.value);
      if parsed.None? {
        return null, InvalidManifest;
      }
      if !Authorized(Recovery(0, None, source), allowInsecure, parsed.value) {
        return null, NotAuthorized;
      }
      var latest := hist.GetLatest(source.Offer().SigningKey());
      if latest.Failure? {
        return null, Unreadable;
      }
      if insecureLatest.value.tip != latest.value.tip {
        return null, ConcurrentUpdate;
      }
      var generation, walked := CountTransitions(latest.value.tip);
      if !walked {
        return null, Unreadable;
      }
      var nextState := new StateRef(State(source.Offer(), manifest.value, latest.value, generation));
      if state != oldState {
        return null, ConcurrentUpdate;
      }
      state := nextState;
      return nextState, NoError;
    }

    /** WalkTransitions, counting. */
    method CountTransitions(tip: Hash) returns (count: nat, ok: bool)
      requires hist.Valid()
      modifies hist
      ensures hist.Valid()
      ensures var o := CachedWalk(hist.store.kv, old(hist.cache), tip);
              hist.cache == o.cache && (ok <==> o.path.Some?) && (ok ==> count == |o.path.value|)
    {
      count := 0;
      var h := tip;
      while h != ZeroHash()
        invariant hist.Valid()
        invariant var o, rest :=
                    CachedWalk(hist.store.kv, old(hist.cache), tip), CachedWalk(hist.store.kv, hist.cache, h);
                  && rest.cache == o.cache && (o.path.Some? <==> rest.path.Some?)
                  && (o.path.Some? ==> |o.path.value| == count + |rest.path.value|)
        decreases h[0]
      {
        var t := hist.GetTransition(h);
        if t.Failure? {
          return 0, false;
        }
        PreviousIsSmaller(t.value);
        TransitionCodec(t.value, Marshal(t.value));
        count := count + 1;
        h := t.value.previous;
      }
      ok := true;
    }

    /** One notification of WatchHistory. */
    method Notified(target: Hash)
      requires Valid()
      modifies hist, state
      ensures Valid() && state == old(state)
      ensures state == null ==> hist.cache == old(hist.cache)
      ensures state != null ==>
                var o := CachedWalk(hist.store.kv, old(hist.cache), state.state.latest.tip);
                && hist.cache == o.cache
                && state.stale == (old(state.stale) || (o.path.Some? && target !in o.path.value))
    {
      var s := state;
      if s == null {
        return;
      }
      var stateInAncestors := false;
      var h := s.state.latest.tip;
      ghost var o := CachedWalk(hist.store.kv, hist.cache, h);
      while h != ZeroHash()
        invariant hist.Valid() && s.stale == old(s.stale)
        invariant var rest := CachedWalk(hist.store.kv, hist.cache, h);
                  && rest.cache == o.cache && (o.path.Some? <==> rest.path.Some?)
                  && (o.path.Some? ==> (target in o.path.value <==> stateInAncestors || target in rest.path.value))
        decreases h[0]
      {
        var t := hist.GetTransition(h);
        if t.Failure? {
          return;
        }
        PreviousIsSmaller(t.value);
        TransitionCodec(t.value, Marshal(t.value));
        if h == target {
          stateInAncestors := true;
        }
        h := t.value.previous;
      }
      if !stateInAncestors {
        s.stale := true;
      }
    }

    /** The manifests of the current state's history, oldest first, and the policies they name.
        Whatever the store and the cache hold, the answer is the history the state commits to. */
    method GetHistory() returns (manifests: seq<Bytes>, policies: map<string, Bytes>, error: GuardError)
      requires Valid()
      modifies hist
      ensures Valid()
      ensures state == null ==> error == if Latest in hist.store.kv then StaleState else NoState
      ensures state != null ==> (error == StaleState <==> state.stale)
      ensures error != NoError ==> manifests == [] && policies == map[]
      ensures error == NoError ==> Tip(manifests) == state.state.latest.tip && PoliciesOf(manifests, policies)
      ensures error == NoError ==> forall reference, policy ::
                Names(manifests, reference) && HexBytes(reference) == Some(Digest(policy)) ==>
                  policies[reference] == policy
      ensures state != null && !state.stale && HistoryOf(hist.store.kv, state.state.latest.tip).Some? ==>
                error == NoError && manifests == HistoryOf(hist.store.kv, state.state.latest.tip).value
    {
      manifests, policies := [], map[];
      var s, stateError := GetState();
      if stateError != NoError {
        return [], map[], stateError;
      }
      var tip := s.state.latest.tip;
      var h := tip;
      ContinuesNothing(tip);
      while h != ZeroHash()
        invariant hist.Valid() && PoliciesOf(manifests, policies)
        invariant Continues(h, Backwards(manifests), tip)
        invariant HistoryOf(hist.store.kv, tip).Some? ==>
                    && HistoryOf(hist.store.kv, h).Some?
                    && HistoryOf(hist.store.kv, tip).value == HistoryOf(hist.store.kv, h).value + Backwards(manifests)
        decreases h[0]
      {
        var previous, manifest, entryError;
        previous, manifest, policies, entryError := ReadEntry(h, policies);
        if entryError != NoError {
          return [], map[], entryError;
        }
        NamesAppend(manifests, manifest);
        ContinuesStep(previous, manifest, Backwards(manifests), tip);
        BackwardsAppend(manifests, manifest);
        manifests := manifests + [manifest];
        PreviousIsSmaller(Transition(Digest(manifest), previous));
        h := previous;
      }
      assert Tip([] + Backwards(manifests)) == tip;
      assert [] + Backwards(manifests) == Backwards(manifests);
      forall reference
        ensures Names(manifests, reference) <==> Names(Backwards(manifests), reference)
      {
        NamesBackwards(manifests, reference);
      }
      manifests := Backwards(manifests);
      error := NoError;
      forall reference, policy | Names(manifests, reference) && HexBytes(reference) == Some(Digest(policy))
        ensures policies[reference] == policy
      {
        FitsOne(reference, policy, policies[reference]);
      }
    }

    /** What GetHistory does for one transition: the manifest it commits to and its policies. */
    method ReadEntry(h: Hash, known: map<string, Bytes>)
      returns (previous: Hash, manifest: Bytes, policies: map<string, Bytes>, error: GuardError)
      requires hist.Valid() && h != ZeroHash()
      modifies hist
      ensures hist.Valid()
      ensures error in {NoError, Unreadable, InvalidManifest}
      ensures error == NoError ==>
                && h == TransitionDigest(Transition(Digest(manifest), previous))
                && ParseManifest(manifest).Some?
                && policies.Keys == known.Keys + ParseManifest(manifest).value.policies
                && (forall reference :: reference in known ==> policies[reference] == known[reference])
                && (forall reference :: reference in policies && reference !in known ==>
                      Fits(reference, policies[reference]))
      ensures HistoryOf(hist.store.kv, h).Some? ==>
                && error == NoError
                && HistoryOf(hist.store.kv, previous).Some?
                && HistoryOf(hist.store.kv, h).value == HistoryOf(hist.store.kv, previous).value + [manifest]
    {
      previous, manifest, policies, error := ZeroHash(), [], known, Unreadable;
      HistoryEntry(hist.store.kv, hist.cache, h);
      var t := hist.GetTransition(h);
      if t.Failure? {
        return;
      }
      previous := t.value.previous;
      var data := hist.GetContentAddressed(ManifestsKind, t.value.manifestHash);
      if data.Failure? {
        return;
      }
      manifest := data.value;
      var parsed := ParseManifest(manifest);
      if parsed.None? {
        error := InvalidManifest;
        return;
      }
      var ok;
      policies, ok := CollectPolicies(parsed.value.policies, known);
      if ok {
        error := NoError;
      }
    }

    /** The policies of one manifest; those already collected are not read again. */
    method CollectPolicies(references: set<string>, known: map<string, Bytes>)
      returns (policies: map<string, Bytes>, ok: bool)
      requires hist.Valid()
      modifies hist
      ensures hist.Valid()
      ensures ok ==> policies.Keys == known.Keys + references
      ensures ok ==> forall reference :: reference in known ==> policies[reference] == known[reference]
      ensures ok ==> forall reference :: reference in policies && reference !in known ==>
                       Fits(reference, policies[reference])
      ensures (forall reference :: reference in references ==> PolicyFound(hist.store.kv, reference)) ==> ok
    {
      policies := known;
      var todo := references;
      while todo != {}
        invariant hist.Valid() && todo <= references
        invariant policies.Keys == known.Keys + (references - todo)
        invariant forall reference :: reference in known ==> policies[reference] == known[reference]
        invariant forall reference :: reference in policies && reference !in known ==>
                    Fits(reference, policies[reference])
      {
        var reference :| reference in todo;
        todo := todo - {reference};
        if reference in policies {
          continue;
        }
        var decoded := HexBytes(reference);
        if decoded.None? {
          return policies, false;
        }
        if PolicyFound(hist.store.kv, reference) {
          CachedReadAgrees(hist.store.kv, hist.cache, Policies, Reference(decoded.value));
        }
        var policy := hist.GetContentAddressed(Policies, Reference(decoded.value));
        if policy.Failure? {
          return policies, false;
        }
        ReferenceFits(reference, policy.value);
        policies := policies[reference := policy.value];
      }
      ok := true;
    }

    /** One round of peer recovery. Each peer that is asked offers a seed and salt; the first offer that is
        accepted decides the state, and if there is none, every peer has been asked. */
    method RecoverOnce(offers: seq<Seeds>, allowInsecure: bool) returns (error: GuardError)
      requires Valid()
      modifies this`state, hist
      ensures Valid()
      ensures var needed := if old(state) == null then Latest in hist.store.kv else old(state.stale);
              var kv, cache := hist.store.kv, old(hist.cache);
              && (!needed ==> error == NoError && state == old(state) && hist.cache == old(hist.cache))
              && (needed && offers == [] ==> error == NoPeers)
              && (needed && error != NoError ==>
                  && AllRefused(kv, cache, offers, |offers|, allowInsecure) && state == old(state)
                  && hist.cache == AfterAttempts(kv, cache, offers, |offers|, allowInsecure))
              && (needed && error == NoError ==>
                  && state != null && fresh(state) && !state.stale
                  && exists i :: && FirstAccepted(kv, cache, offers, i, allowInsecure)
                                 && Attempt(kv, cache, offers, i, allowInsecure).next == Some(state.state)
                                 && hist.cache == Attempt(kv, cache, offers, i, allowInsecure).cache)
    {
      var oldState, stateError := GetState();
      if stateError != StaleState {
        return NoError;
      }
      ghost var kv, cache := hist.store.kv, hist.cache;
      error := NoPeers;
      for i := 0 to |offers|
        invariant hist.Valid() && state == oldState && error != NoError && (i == 0 ==> error == NoPeers)
        invariant AllRefused(kv, cache, offers, i, allowInsecure)
        invariant hist.cache == AfterAttempts(kv, cache, offers, i, allowInsecure)
      {
        error := AskPeer(oldState, offers, i, allowInsecure, cache);
        if error == NoError {
          return;
        }
      }
    }

    /** One attempt of RecoverOnce. */
    method AskPeer(oldState: StateRef?, offers: seq<Seeds>, i: nat, allowInsecure: bool, ghost cache: Cache)
      returns (error: GuardError)
      requires Valid() && state == oldState && i < |offers| && CacheSound(cache)
      requires hist.cache == AfterAttempts(hist.store.kv, cache, offers, i, allowInsecure)
      modifies this`state, hist
      ensures Valid()
      ensures var kv := hist.store.kv;
              && (error != NoError ==>
                  && (AllRefused(kv, cache, offers, i, allowInsecure) ==>
                      AllRefused(kv, cache, offers, i + 1, allowInsecure))
                  && state == oldState
                  && hist.cache == AfterAttempts(kv, cache, offers, i + 1, allowInsecure))
              && (error == NoError ==>
                  && (AllRefused(kv, cache, offers, i, allowInsecure) ==>
                      FirstAccepted(kv, cache, offers, i, allowInsecure))
                  && state != null && fresh(state) && !state.stale
                  && Attempt(kv, cache, offers, i, allowInsecure).next == Some(state.state)
                  && hist.cache == Attempt(kv, cache, offers, i, allowInsecure).cache)
    {
      var next;
      next, error := ResetState(oldState, Peers([offers[i]]), allowInsecure);
      AttemptLeaves(hist.store.kv, cache, offers, i, allowInsecure);
      if AllRefused(hist.store.kv, cache, offers, i, allowInsecure) {
        AttemptCounts(hist.store.kv, cache, offers, i, allowInsecure);
      }
    }
  }

  /** What GetHistory needs of one entry, if the store alone has all of it. */
  lemma HistoryEntry(kv: Store, cache: Cache, h: Hash)
    requires CacheSound(cache) && h != ZeroHash()
    ensures HistoryOf(kv, h).Some? ==>
              && FetchTransition(kv, cache, h).Some?
              && var t := FetchTransition(kv, cache, h).value;
              && Fetch(kv, map[], ManifestsKind, t.manifestHash).Some?
              && var manifest := Fetch(kv, map[], ManifestsKind, t.manifestHash).value;
              && ParseManifest(manifest).Some?
              && (forall reference :: reference in ParseManifest(manifest).value.policies ==>
                  PolicyFound(kv, reference))
              && HistoryOf(kv, t.previous).Some?
              && HistoryOf(kv, h).value == HistoryOf(kv, t.previous).value + [manifest]
              && (forall cache' :: CacheSound(cache') ==>
                    Fetch(kv, cache', ManifestsKind, t.manifestHash) == Fetch(kv, map[], ManifestsKind, t.manifestHash))
  {
    if HistoryOf(kv, h).Some? {
      CachedReadAgrees(kv, cache, Transitions, h);
      var t := FetchTransition(kv, cache, h).value;
      forall cache' | CacheSound(cache')
        ensures Fetch(kv, cache', ManifestsKind, t.manifestHash) == Fetch(kv, map[], ManifestsKind, t.manifestHash)
      {
        CachedReadAgrees(kv, cache', ManifestsKind, t.manifestHash);
      }
    }
  }

  /** The digest of a transition is larger than the digest it refers to. */
  lemma PreviousIsSmaller(t: Transition)
    ensures TransitionDigest(t)[0] decreases to t.previous[0]
  {
    assert TransitionDigest(t)[0] == DigestOctet(Sha256, Marshal(t), 0);
    assert t.previous[0] == Marshal(t)[32];
  }

  lemma ContinuesNothing(tip: Hash)
    ensures Continues(tip, Backwards([]), tip)
  {
    forall older | Tip(older) == tip
      ensures Tip(older + Backwards([])) == tip
    {
      assert older + Backwards([]) == older;
    }
  }

  lemma ContinuesStep(previous: Hash, manifest: Bytes, newer: seq<Bytes>, tip: Hash)
    requires Continues(TransitionDigest(Transition(Digest(manifest), previous)), newer, tip)
    ensures Continues(previous, [manifest] + newer, tip)
  {
    forall older | Tip(older) == previous
      ensures Tip(older + ([manifest] + newer)) == tip
    {
      assert (older + [manifest])[..|older|] == older;
      assert LastTransition(older + [manifest]) == Transition(Digest(manifest), previous);
      assert older + ([manifest] + newer) == (older + [manifest]) + newer;
    }
  }

  lemma NamesAppend(manifests: seq<Bytes>, manifest: Bytes)
    requires ParseManifest(manifest).Some?
    ensures forall reference :: Names(manifests + [manifest], reference) <==>
                                  Names(manifests, reference) || reference in ParseManifest(manifest).value.policies
  {
    forall reference
      ensures Names(manifests + [manifest], reference) <==>
                Names(manifests, reference) || reference in ParseManifest(manifest).value.policies
    {
      var longer := manifests + [manifest];
      if Names(manifests, reference) {
        var i :| 0 <= i < |manifests| && ParseManifest(manifests[i]).Some?
                 && reference in ParseManifest(manifests[i]).value.policies;
        assert longer[i] == manifests[i];
      }
      assert longer[|manifests|] == manifest;
    }
  }

  lemma NamesBackwards(manifests: seq<Bytes>, reference: string)
    ensures Names(manifests, reference) <==> Names(Backwards(manifests), reference)
  {
    var n := |manifests|;
    if Names(manifests, reference) {
      var i :| 0 <= i < n && ParseManifest(manifests[i]).Some?
          && reference in ParseManifest(manifests[i]).value.policies;
      assert Backwards(manifests)[n - 1 - i] == manifests[i];
    }
    if Names(Backwards(manifests), reference) {
      var i :| 0 <= i < n && ParseManifest(Backwards(manifests)[i]).Some?
               && reference in ParseManifest(Backwards(manifests)[i]).value.policies;
      assert Backwards(manifests)[i] == manifests[n - 1 - i];
    }
  }
}
