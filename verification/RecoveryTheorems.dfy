/** Which recoveries succeed, and what they arrive at. */
module RecoveryTheorems {
  import opened Ideal
  import opened Chain
  import opened Manifests
  import opened Protocol
  import opened History
  import opened Guard
  import opened ProtocolInvariant
  import opened ProtocolSteps
  import opened ProtocolEffects
  import opened ProtocolTheorems
  import opened Solo
  import opened SoloRequests

  /** The source may recover the deployment: it has the right seed and salt, and if it is a user, it is a
      seedshare owner of the latest manifest, which fits the Coordinator's setting. */
  ghost predicate MayRecover(w: World, source: Source, allowInsecure: bool) {
    && w.log != [] && |w.log| == |w.records|
    && source.HasOffer() && source.Offer() == w.records[0].seeds
    && |source.Offer().seed| >= 32 && |source.Offer().salt| == 32
    && ParseManifest(w.log[|w.log| - 1]).Some?
    && var m := ParseManifest(w.log[|w.log| - 1]).value;
    source.User? ==> RightLevel(allowInsecure, m) && PeerListed(m.seedshareOwners, source.peer)
  }

  /** Why a recovery fails: what is asked for last is the seed and salt of the deployment. */
  ghost function WhyNot(w: World, source: Source, allowInsecure: bool): (error: GuardError)
    requires source.HasOffer() && (w.log != [] ==> ParseManifest(w.log[|w.log| - 1]).Some?)
  {
    if w.log == [] then Unreadable
    else
      var m := ParseManifest(w.log[|w.log| - 1]).value;
      if |source.Offer().seed| < 32 || |source.Offer().salt| != 32
         || (source.User? && !(RightLevel(allowInsecure, m) && PeerListed(m.seedshareOwners, source.peer)))
      then NotAuthorized
      else Unreadable
  }

  /** What the reads of a recovery find when nothing changes in between. */
  lemma RecoveryReads(w: World, cache: Cache)
    requires Inv(w) && CacheSound(cache) && w.log != []
    ensures var n := |w.log|;
            var l, t := w.records[n - 1].value, Transition(Digest(w.log[n - 1]), TipAt(w, n - 1));
            && l.tip == TipAt(w, n)
            && UnmarshalLatest(Current(w.kv)) == Some(l)
            && FetchTransition(w.kv, cache, l.tip) == Some(t)
            && Fetch(w.kv, cache, ManifestsKind, t.manifestHash) == Some(w.log[n - 1])
            && ParseManifest(w.log[n - 1]).Some?
            && CachedWalk(w.kv, cache, l.tip).path == Some(Positions(w, n))
  {
    var n := |w.log|;
    var l, t := w.records[n - 1].value, Transition(Digest(w.log[n - 1]), TipAt(w, n - 1));
    assert EntryRecorded(w, n - 1);
    LatestCodec(l, Current(w.kv));
    StoredTransition(w, n - 1);
    CachedReadAgrees(w.kv, cache, Transitions, l.tip);
    TransitionCodec(t, Marshal(t));
    StoredPolicies(w, n - 1);
    CachedReadAgrees(w.kv, cache, ManifestsKind, t.manifestHash);
    VisitedAt(w, n);
    CachedWalkAgrees(w.kv, cache, l.tip);
  }

  /** Only the right seed and salt verify the latest transition. */
  lemma OnlyTheSeedsVerify(w: World, seeds: Seeds)
    requires Inv(w) && w.log != []
    ensures var l := w.records[|w.log| - 1].value;
            Verify(seeds.SigningKey(), l.tip, l.signature) <==> seeds == w.records[0].seeds
  {
    assert EntryRecorded(w, |w.log| - 1);
    var l := w.records[|w.log| - 1].value;
    if Verify(seeds.SigningKey(), l.tip, l.signature) {
      SignatureBinds(seeds.SigningKey(), l.tip, w.records[0].seeds.SigningKey(), l.tip, l.signature);
    }
  }

  /** An uninterrupted recovery succeeds exactly if its source may recover, and then it arrives at the latest
      state. */
  lemma RecoveryOutcome(w: World, cache: Cache, source: Source, allowInsecure: bool)
    requires Inv(w) && CacheSound(cache) && source.HasOffer()
    ensures var o := ResetSpec(w.kv, cache, source, allowInsecure);
            && (o.next.Some? <==> MayRecover(w, source, allowInsecure))
            && (o.next.Some? ==> o.next.value == State(source.Offer(), w.log[|w.log| - 1],
                                                       w.records[|w.log| - 1].value, |w.log|))
            && (w.log != [] ==> ParseManifest(w.log[|w.log| - 1]).Some?)
            && (o.next.None? ==> o.error == WhyNot(w, source, allowInsecure))
  {
    if w.log != [] {
      if source.User? && ParseManifest(w.log[|w.log| - 1]).Some? {
        PeerExactly(ParseManifest(w.log[|w.log| - 1]).value.seedshareOwners, source.peer);
      }
      RecoveryReads(w, cache);
      OnlyTheSeedsVerify(w, source.Offer());
      var n := |w.log|;
      var l, t := w.records[n - 1].value, Transition(Digest(w.log[n - 1]), TipAt(w, n - 1));
      var cache1 := Remember(cache, l.tip, Fetch(w.kv, cache, Transitions, l.tip));
      RecoveryReads(w, cache1);
      var cache2 := Remember(cache1, t.manifestHash, Fetch(w.kv, cache1, ManifestsKind, t.manifestHash));
      RecoveryReads(w, cache2);
    }
  }

  /** In any reachable world, a recovery that is needed and is not interrupted installs the latest state if its
      source may recover, and leaves the Coordinator as it is otherwise. */
  lemma RecoverySucceedsExactly(events: seq<Event>, tid: nat, choice: Choice) returns (n: nat)
    requires tid in Exec(events).threads && Exec(events).threads[tid].ResetLoad?
    requires var w := Exec(events); var c := w.threads[tid].coord; c in w.coords && SeenStale(w, c)
    ensures var w, w' := Exec(events), Exec(events + Repeated(tid, choice, n));
            var c, source := w.threads[tid].coord, w.threads[tid].source;
            && c in w'.coords && tid !in w'.threads
            && |w.log| == |w.records|
            && if MayRecover(w, source, w.coords[c].allowInsecure) then
                 && w'.coords[c].cell == Some(|w.objs|) && |w'.objs| == |w.objs| + 1
                 && w'.objs[|w.objs|]
                     == State(source.Offer(), w.log[|w.log| - 1], w.records[|w.log| - 1].value, |w.log|)
               else w'.coords[c].cell == w.coords[c].cell && w'.objs == w.objs
  {
    ExecInv(events);
    var w := Exec(events);
    n := RecoverRun(events, tid, choice);
    var c, source := w.threads[tid].coord, w.threads[tid].source;
    RecoveryOutcome(w, w.coords[c].cache, source, w.coords[c].allowInsecure);
  }

  // ---- Recovery from peers ----

  /** A round of peer recovery in any world that keeps the invariant, with whatever the cache holds: a peer is
      accepted exactly if it offers the seed and salt of the deployment, after whichever other peers it is asked. So
      the round succeeds exactly if one of the peers offers them, and it ends in the latest state. */
  lemma AttemptExactly(w: World, cache: Cache, offers: seq<Seeds>, i: nat, allowInsecure: bool)
    requires Inv(w) && CacheSound(cache) && i < |offers|
    ensures var next := Attempt(w.kv, cache, offers, i, allowInsecure).next;
            && (next.Some? <==> MayRecover(w, Peers([offers[i]]), allowInsecure))
            && (next.Some? ==> next.value == State(w.records[0].seeds, w.log[|w.log| - 1],
                                                   w.records[|w.log| - 1].value, |w.log|))
  {
    RecoveryOutcome(w, AfterAttempts(w.kv, cache, offers, i, allowInsecure), Peers([offers[i]]), allowInsecure);
  }

  lemma RoundExactly(w: World, cache: Cache, offers: seq<Seeds>, allowInsecure: bool)
    requires Inv(w) && CacheSound(cache)
    ensures AllRefused(w.kv, cache, offers, |offers|, allowInsecure)
       <==> !exists i :: 0 <= i < |offers| && MayRecover(w, Peers([offers[i]]), allowInsecure)
    ensures forall i :: FirstAccepted(w.kv, cache, offers, i, allowInsecure) ==>
                          Attempt(w.kv, cache, offers, i, allowInsecure).next
                          == Some(State(w.records[0].seeds, w.log[|w.log| - 1], w.records[|w.log| - 1].value, |w.log|))
  {
    forall i | 0 <= i < |offers|
      ensures var next := Attempt(w.kv, cache, offers, i, allowInsecure).next;
              && (next.Some? <==> MayRecover(w, Peers([offers[i]]), allowInsecure))
              && (next.Some? ==> next.value == State(w.records[0].seeds, w.log[|w.log| - 1],
                                                     w.records[|w.log| - 1].value, |w.log|))
    {
      AttemptExactly(w, cache, offers, i, allowInsecure);
    }
  }

  // ---- A round of peer recovery as steps ----

  /** A round of peer recovery starts, and it is needed. */
  ghost predicate AsksPeers(w: World, tid: nat) {
    && tid in w.threads && w.threads[tid].ResetLoad? && w.threads[tid].source.Peers?
    && w.threads[tid].coord in w.coords && SeenStale(w, w.threads[tid].coord)
  }

  function NextPeers(tid: nat, k: nat): (events: seq<Event>) {
    seq(k, _ => NextPeer(tid))
  }

  lemma OneNext(w: World, tid: nat, r: Recovery)
    requires tid in w.threads && w.threads[tid] == ReadLatest(r) && r.source.Peers? && |r.source.offers| > 1
    ensures Step(w, NextPeer(tid)) == Goto(w, tid, ReadLatest(r.(source := Peers(r.source.offers[1..]))))
  {
  }

  lemma {:induction false} AskedNext(events: seq<Event>, tid: nat, r: Recovery, k: nat)
    requires tid in Exec(events).threads && Exec(events).threads[tid] == ReadLatest(r)
    requires r.source.Peers? && k < |r.source.offers|
    ensures Exec(events + NextPeers(tid, k))
         == Goto(Exec(events), tid, ReadLatest(r.(source := Peers(r.source.offers[k..]))))
  {
    if k == 0 {
      assert events + NextPeers(tid, 0) == events;
      assert r.source.offers[0..] == r.source.offers;
    } else {
      AskedNext(events, tid, r, k - 1);
      var before := events + NextPeers(tid, k - 1);
      var r' := r.(source := Peers(r.source.offers[k - 1..]));
      OneNext(Exec(before), tid, r');
      ExecOneMore(before, NextPeer(tid));
      assert events + NextPeers(tid, k) == before + [NextPeer(tid)];
      assert r.source.offers[k - 1..][1..] == r.source.offers[k..];
    }
  }

  /** The events of a round that arrives at peer `k`, and of the attempt with that peer. */
  function RoundEvents(tid: nat, choice: Choice, k: nat, n: nat): (events: seq<Event>) {
    Repeated(tid, choice, 2) + NextPeers(tid, k) + Repeated(tid, choice, n)
  }

  lemma RoundStarts(events: seq<Event>, tid: nat, choice: Choice, n: nat)
    requires AsksPeers(Exec(events), tid) && n == 2
    ensures var w := Exec(events);
            var c, source := w.threads[tid].coord, w.threads[tid].source;
            ReadOn(w, Exec(events + Repeated(tid, choice, n)), tid, c, w.coords[c].cache,
                   ReadLatest(Recovery(c, w.coords[c].cell, source)))
  {
    var w := Exec(events);
    var run := RunAfter(events, tid, choice);
    RunAfterIsAlone(events, tid, choice);
    var c := w.threads[tid].coord;
    ResetGuardAlone(run, tid, c, w.threads[tid].source, w.coords[c].cache, choice, 0);
    assert run(n) == Exec(events + Repeated(tid, choice, n));
  }

  lemma RoundArrives(events: seq<Event>, tid: nat, choice: Choice, k: nat)
    requires AsksPeers(Exec(events), tid) && k < |Exec(events).threads[tid].source.offers|
    ensures var w := Exec(events);
            var c, offers := w.threads[tid].coord, w.threads[tid].source.offers;
            ReadOn(w, Exec(events + Repeated(tid, choice, 2) + NextPeers(tid, k)), tid, c, w.coords[c].cache,
                   ReadLatest(Recovery(c, w.coords[c].cell, Peers(offers[k..]))))
  {
    var w := Exec(events);
    var c, source := w.threads[tid].coord, w.threads[tid].source;
    RoundStarts(events, tid, choice, 2);
    AskedNext(events + Repeated(tid, choice, 2), tid, Recovery(c, w.coords[c].cell, source), k);
  }

  lemma RoundAttempt(events: seq<Event>, tid: nat, choice: Choice, k: nat) returns (n: nat)
    requires AsksPeers(Exec(events), tid) && k < |Exec(events).threads[tid].source.offers|
    ensures var w, w' := Exec(events), Exec(events + RoundEvents(tid, choice, k, n));
            var c, source := w.threads[tid].coord, Peers(w.threads[tid].source.offers[k..]);
            && CacheSound(w.coords[c].cache)
            && Ends(w, w', tid, Recovery(c, w.coords[c].cell, source),
                    ResetSpec(w.kv, w.coords[c].cache, source, w.coords[c].allowInsecure))
  {
    var w := Exec(events);
    var c := w.threads[tid].coord;
    var r := Recovery(c, w.coords[c].cell, Peers(w.threads[tid].source.offers[k..]));
    var arrived := events + Repeated(tid, choice, 2) + NextPeers(tid, k);
    RoundArrives(events, tid, choice, k);
    n := RecoveryRun(arrived, tid, choice);
    assert events + RoundEvents(tid, choice, k, n) == arrived + Repeated(tid, choice, n);
    ReachableCoordinator(events, tid);
    EndsFrom(w, Exec(arrived), Exec(arrived + Repeated(tid, choice, n)), tid, r, w.coords[c].cache, ReadLatest(r),
             ResetSpec(w.kv, w.coords[c].cache, r.source, w.coords[c].allowInsecure));
  }

  lemma FirstOfferCounts(w: World, offers: seq<Seeds>, allowInsecure: bool)
    requires offers != []
    ensures MayRecover(w, Peers(offers), allowInsecure) <==> MayRecover(w, Peers([offers[0]]), allowInsecure)
  {
  }

  /** Whichever peer it is that holds the seed and salt of the deployment, a round can get to it and then installs
      the latest state; with any other peer the attempt leaves the Coordinator as it is. */
  lemma AnyPeerCanHelp(events: seq<Event>, tid: nat, choice: Choice, k: nat) returns (n: nat)
    requires AsksPeers(Exec(events), tid) && k < |Exec(events).threads[tid].source.offers|
    ensures var w, w' := Exec(events), Exec(events + RoundEvents(tid, choice, k, n));
            var c, offers := w.threads[tid].coord, w.threads[tid].source.offers;
            && c in w'.coords && tid !in w'.threads && |w.log| == |w.records|
            && if MayRecover(w, Peers([offers[k]]), w.coords[c].allowInsecure) then
                 && w'.coords[c].cell == Some(|w.objs|)
                 && w'.objs
                     == w.objs + [State(offers[k], w.log[|w.log| - 1], w.records[|w.log| - 1].value, |w.log|)]
               else w'.coords[c].cell == w.coords[c].cell && w'.objs == w.objs
  {
    ExecInv(events);
    var w := Exec(events);
    var c, source := w.threads[tid].coord, Peers(w.threads[tid].source.offers[k..]);
    n := RoundAttempt(events, tid, choice, k);
    FirstOfferCounts(w, source.offers, w.coords[c].allowInsecure);
    RecoveryOutcome(w, w.coords[c].cache, source, w.coords[c].allowInsecure);
  }
}
