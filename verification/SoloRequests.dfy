/** Whole requests that run uninterrupted: from the first load of a Coordinator's state on, they do what the
  * methods of the server, of the recovery and of the watcher say.
  */
module SoloRequests {
  import opened Ideal
  import opened Chain
  import opened Manifests
  import opened Protocol
  import opened Guard
  import opened UserApi
  import opened ProtocolInvariant
  import opened ProtocolSteps
  import opened ProtocolTheorems
  import opened Solo

  ghost function CellState(w: World, c: nat): (s: Option<State>)
    requires c in w.coords && (w.coords[c].cell.Some? ==> w.coords[c].cell.value < |w.objs|)
  {
    if w.coords[c].cell.None? then None else Some(w.objs[w.coords[c].cell.value])
  }

  /** What GetState reports as stale. */
  ghost predicate SeenStale(w: World, c: nat)
    requires c in w.coords
  {
    if w.coords[c].cell.None? then Latest in w.kv else w.coords[c].cell.value in w.stale
  }

  ghost predicate CellExists(w: World, c: nat) {
    c in w.coords && (w.coords[c].cell.Some? ==> w.coords[c].cell.value < |w.objs|)
  }

  /** The request has ended and has left everything as it was. */
  ghost predicate Refused(w: World, w': World, tid: nat, c: nat) {
    c in w.coords && EndsIn(w, w', tid, c, w.coords[c].cell, w.kv, w.coords[c].cache, None)
  }

  // ---- SetManifest ----

  /** The update that a SetManifest call starts once it is accepted. */
  ghost function UpdateOf(w: World, c: nat, req: Request, drawn: Seeds): (u: Update)
    requires CellExists(w, c)
  {
    var seeds := if CellState(w, c).None? then drawn else CellState(w, c).value.seeds;
    Update(c, w.coords[c].cell, seeds, req, w.coords[c].allowInsecure)
  }

  ghost predicate SetAccepted(w: World, c: nat, req: Request)
    requires CellExists(w, c)
  {
    !SeenStale(w, c) && Decide(CellState(w, c), w.coords[c].allowInsecure, req) == Ok
  }

  lemma SetLoadAlone(run: Run, tid: nat, c: nat, req: Request, cache: Cache, choice: Choice, i: nat)
    requires Alone(run, tid, choice) && AtStep(run(i), tid, SetLoad(c, req), cache)
    ensures ReadOn(run(i), run(i + 1), tid, c, cache,
                   match run(i).coords[c].cell case None => SetProbe(c, req) case Some(a) => SetFlag(c, req, a))
    ensures run(i + 1).stale == run(i).stale
  {
    assert Linked(run, tid, choice, i);
  }

  lemma SetFlagAlone(run: Run, tid: nat, c: nat, req: Request, a: Addr, cache: Cache, choice: Choice, i: nat)
    requires Alone(run, tid, choice) && AtStep(run(i), tid, SetFlag(c, req, a), cache)
    requires run(i).coords[c].cell == Some(a) && a < |run(i).objs|
    ensures CellExists(run(i), c)
    ensures if SetAccepted(run(i), c, req)
            then ReadOn(run(i), run(i + 1), tid, c, cache, StorePolicies(UpdateOf(run(i), c, req, choice.seeds), 0))
            else Refused(run(i), run(i + 1), tid, c)
  {
    assert Linked(run, tid, choice, i);
  }

  lemma SetProbeAlone(run: Run, tid: nat, c: nat, req: Request, cache: Cache, choice: Choice, i: nat)
    requires Alone(run, tid, choice) && AtStep(run(i), tid, SetProbe(c, req), cache)
    requires run(i).coords[c].cell == None && choice.seeds.Valid()
    ensures CellExists(run(i), c)
    ensures if SetAccepted(run(i), c, req)
            then ReadOn(run(i), run(i + 1), tid, c, cache, StorePolicies(UpdateOf(run(i), c, req, choice.seeds), 0))
            else Refused(run(i), run(i + 1), tid, c)
  {
    assert Linked(run, tid, choice, i);
  }

  /** What SetManifest decides on depends on the state of its Coordinator only. */
  lemma SameDecision(w: World, w1: World, tid: nat, c: nat, req: Request, cache: Cache, t: Thread, drawn: Seeds)
    requires CellExists(w, c) && ReadOn(w, w1, tid, c, cache, t) && w1.stale == w.stale
    ensures CellExists(w1, c) && CellState(w1, c) == CellState(w, c)
    ensures SetAccepted(w1, c, req) == SetAccepted(w, c, req)
            && UpdateOf(w1, c, req, drawn) == UpdateOf(w, c, req, drawn)
    ensures SeenStale(w1, c) == SeenStale(w, c)
  {
  }

  lemma ReadOnTwice(w: World, w1: World, w2: World, tid: nat, c: nat, cache: Cache, t1: Thread, t2: Thread)
    requires ReadOn(w, w1, tid, c, cache, t1) && ReadOn(w1, w2, tid, c, cache, t2)
    ensures ReadOn(w, w2, tid, c, cache, t2)
  {
  }

  lemma RefusedFrom(w: World, w1: World, w2: World, tid: nat, c: nat, cache: Cache, t: Thread)
    requires ReadOn(w, w1, tid, c, cache, t) && c in w.coords && w.coords[c].cache == cache && Refused(w1, w2, tid, c)
    ensures Refused(w, w2, tid, c)
  {
  }

  /** The checks of SetManifest: two steps. */
  lemma SetGuardAlone(run: Run, tid: nat, c: nat, req: Request, cache: Cache, choice: Choice, i: nat)
    requires Alone(run, tid, choice) && AtStep(run(i), tid, SetLoad(c, req), cache)
    requires CellExists(run(i), c) && choice.seeds.Valid()
    ensures if SetAccepted(run(i), c, req)
            then ReadOn(run(i), run(i + 2), tid, c, cache, StorePolicies(UpdateOf(run(i), c, req, choice.seeds), 0))
            else Refused(run(i), run(i + 2), tid, c)
  {
    SetLoadAlone(run, tid, c, req, cache, choice, i);
    var t := run(i + 1).threads[tid];
    SameDecision(run(i), run(i + 1), tid, c, req, cache, t, choice.seeds);
    if run(i).coords[c].cell.Some? {
      SetFlagAlone(run, tid, c, req, run(i).coords[c].cell.value, cache, choice, i + 1);
    } else {
      SetProbeAlone(run, tid, c, req, cache, choice, i + 1);
    }
    if SetAccepted(run(i), c, req) {
      ReadOnTwice(run(i), run(i + 1), run(i + 2), tid, c, cache, t,
                  StorePolicies(UpdateOf(run(i), c, req, choice.seeds), 0));
    } else {
      RefusedFrom(run(i), run(i + 1), run(i + 2), tid, c, cache, t);
    }
  }

  lemma SpecifiedFrom(w: World, w1: World, w': World, tid: nat, u: Update, cache: Cache, t: Thread, nonce: nat)
    requires u.coord in w.coords && w.coords[u.coord].cache == cache
    requires u.previous.Some? ==> u.previous.value < |w.objs|
    requires ReadOn(w, w1, tid, u.coord, cache, t) && AsSpecified(w1, w', tid, u, nonce)
    ensures AsSpecified(w, w', tid, u, nonce)
  {
  }

  lemma AcceptedParses(w: World, c: nat, req: Request)
    requires CellExists(w, c) && SetAccepted(w, c, req)
    ensures ParseManifest(req.manifest).Some?
  {
  }

  /** The whole of SetManifest. */
  lemma SetManifestAlone(run: Run, tid: nat, c: nat, req: Request, cache: Cache, choice: Choice, i: nat)
    returns (j: nat)
    requires Alone(run, tid, choice) && AtStep(run(i), tid, SetLoad(c, req), cache)
    requires CellExists(run(i), c) && choice.seeds.Valid()
    ensures if SetAccepted(run(i), c, req)
            then AsSpecified(run(i), run(j), tid, UpdateOf(run(i), c, req, choice.seeds), choice.nonce)
            else Refused(run(i), run(j), tid, c)
  {
    SetGuardAlone(run, tid, c, req, cache, choice, i);
    j := i + 2;
    if SetAccepted(run(i), c, req) {
      AcceptedParses(run(i), c, req);
      var u := UpdateOf(run(i), c, req, choice.seeds);
      UpdateAlone(run, tid, u, choice, i + 2);
      j := i + 2 + |u.request.policies| + 5;
      SpecifiedFrom(run(i), run(i + 2), run(j), tid, u, cache, StorePolicies(u, 0), choice.nonce);
    }
  }

  // ---- Recover and RecoverOnce, one source ----

  lemma ResetGuardAlone(run: Run, tid: nat, c: nat, source: Source, cache: Cache, choice: Choice, i: nat)
    requires Alone(run, tid, choice) && AtStep(run(i), tid, ResetLoad(c, source), cache)
    ensures if SeenStale(run(i), c)
            then ReadOn(run(i), run(i + 2), tid, c, cache, ReadLatest(Recovery(c, run(i).coords[c].cell, source)))
            else Refused(run(i), run(i + 2), tid, c)
  {
    assert Linked(run, tid, choice, i) && Linked(run, tid, choice, i + 1);
  }

  /** The whole of Recover, or of one attempt of RecoverOnce. */
  lemma RecoverAlone(run: Run, tid: nat, c: nat, source: Source, cache: Cache, choice: Choice, i: nat) returns (j: nat)
    requires Alone(run, tid, choice) && AtStep(run(i), tid, ResetLoad(c, source), cache)
    requires source.HasOffer() && CacheSound(cache)
    ensures if SeenStale(run(i), c)
            then Ends(run(i), run(j), tid, Recovery(c, run(i).coords[c].cell, source),
                      ResetSpec(run(i).kv, cache, source, run(i).coords[c].allowInsecure))
            else Refused(run(i), run(j), tid, c)
  {
    ResetGuardAlone(run, tid, c, source, cache, choice, i);
    j := i + 2;
    if SeenStale(run(i), c) {
      var r := Recovery(c, run(i).coords[c].cell, source);
      j := ResetAlone(run, tid, r, cache, choice, i + 2);
      EndsFrom(run(i), run(i + 2), run(j), tid, r, cache, ReadLatest(r),
               ResetSpec(run(i).kv, cache, source, run(i).coords[c].allowInsecure));
    }
  }

  // ---- One notification of a watcher ----

  /** The walk from a state has ended, and the state is marked stale exactly if the walk has succeeded without
      meeting the target. */
  ghost predicate Watched(w: World, w': World, tid: nat, c: nat, a: Addr, target: Hash, found: bool, o: WalkOutcome) {
    && tid !in w'.threads
    && c in w.coords && c in w'.coords
    && w'.kv == w.kv && w'.objs == w.objs && w'.coords[c].cell == w.coords[c].cell && w'.coords[c].cache == o.cache
    && w'.stale == if o.path.Some? && !found && target !in o.path.value then w.stale + {a} else w.stale
  }

  lemma WatchBackAlone(run: Run, tid: nat, c: nat, a: Addr, target: Hash, rank: nat, cursor: Hash, depth: nat,
                       found: bool, cache: Cache, choice: Choice, i: nat)
    requires Alone(run, tid, choice) && AtStep(run(i), tid, WatchWalk(c, a, target, rank, cursor, depth, found), cache)
    requires cursor != ZeroHash()
    ensures var w := run(i);
            var cache1 := Remember(cache, cursor, Fetch(w.kv, cache, Transitions, cursor));
            && run(i + 1).stale == w.stale
            && match FetchTransition(w.kv, cache, cursor)
               case None => Watched(w, run(i + 1), tid, c, a, target, found, WalkOutcome(cache1, None))
               case Some(t) => ReadOn(w, run(i + 1), tid, c, cache1,
                                      WatchWalk(c, a, target, rank, t.previous, depth + 1, found || cursor == target))
  {
    assert Linked(run, tid, choice, i);
  }

  lemma WatchEndAlone(run: Run, tid: nat, c: nat, a: Addr, target: Hash, rank: nat, depth: nat, found: bool,
                      cache: Cache, choice: Choice, i: nat)
    requires Alone(run, tid, choice)
             && AtStep(run(i), tid, WatchWalk(c, a, target, rank, ZeroHash(), depth, found), cache)
    ensures Watched(run(i), run(i + 1), tid, c, a, target, found, WalkOutcome(cache, Some([])))
  {
    assert Linked(run, tid, choice, i);
  }

  /** What the rest of a walk adds to the first transition. */
  lemma WatchedFrom(w: World, w1: World, w': World, tid: nat, c: nat, a: Addr, target: Hash, found: bool, h: Hash,
                    cache1: Cache, t: Thread, rest: WalkOutcome)
    requires ReadOn(w, w1, tid, c, cache1, t) && w1.stale == w.stale
    requires Watched(w1, w', tid, c, a, target, found || h == target, rest)
    ensures Watched(w, w', tid, c, a, target, found,
                    WalkOutcome(rest.cache, if rest.path.None? then None else Some([h] + rest.path.value)))
  {
  }

  lemma {:induction false} WatchWalkAlone(run: Run, tid: nat, c: nat, a: Addr, target: Hash, rank: nat, cursor: Hash,
                                          depth: nat, found: bool, cache: Cache, choice: Choice, i: nat)
    returns (j: nat)
    requires Alone(run, tid, choice) && AtStep(run(i), tid, WatchWalk(c, a, target, rank, cursor, depth, found), cache)
    requires CacheSound(cache)
    ensures Watched(run(i), run(j), tid, c, a, target, found, CachedWalk(run(i).kv, cache, cursor))
    decreases cursor[0]
  {
    j := i + 1;
    if cursor == ZeroHash() {
      WatchEndAlone(run, tid, c, a, target, rank, depth, found, cache, choice, i);
    } else {
      WatchBackAlone(run, tid, c, a, target, rank, cursor, depth, found, cache, choice, i);
      CachedWalkStep(run(i).kv, cache, cursor);
      var t := FetchTransition(run(i).kv, cache, cursor);
      if t.Some? {
        var cache1 := Remember(cache, cursor, Fetch(run(i).kv, cache, Transitions, cursor));
        var found' := found || cursor == target;
        var next := WatchWalk(c, a, target, rank, t.value.previous, depth + 1, found');
        j := WatchWalkAlone(run, tid, c, a, target, rank, t.value.previous, depth + 1, found', cache1, choice, i + 1);
        WatchedFrom(run(i), run(i + 1), run(j), tid, c, a, target, found, cursor, cache1, next,
                    CachedWalk(run(i).kv, cache1, t.value.previous));
      }
    }
  }

  lemma WatchLoadAlone(run: Run, tid: nat, c: nat, target: Hash, rank: nat, cache: Cache, choice: Choice, i: nat)
    requires Alone(run, tid, choice) && AtStep(run(i), tid, WatchLoad(c, target, rank), cache)
    requires CellExists(run(i), c)
    ensures run(i + 1).stale == run(i).stale
    ensures match run(i).coords[c].cell
            case None => Refused(run(i), run(i + 1), tid, c)
            case Some(a) => ReadOn(run(i), run(i + 1), tid, c, cache,
                                   WatchWalk(c, a, target, rank, run(i).objs[a].latest.tip, 0, false))
  {
    assert Linked(run, tid, choice, i);
  }

  lemma WatchedLater(w: World, w1: World, w': World, tid: nat, c: nat, a: Addr, target: Hash, cache: Cache, t: Thread,
                     o: WalkOutcome)
    requires ReadOn(w, w1, tid, c, cache, t) && w1.stale == w.stale && Watched(w1, w', tid, c, a, target, false, o)
    ensures Watched(w, w', tid, c, a, target, false, o)
  {
  }

  lemma NotificationAlone(run: Run, tid: nat, c: nat, target: Hash, rank: nat, cache: Cache, choice: Choice, i: nat)
    returns (j: nat)
    requires Alone(run, tid, choice) && AtStep(run(i), tid, WatchLoad(c, target, rank), cache)
    requires CellExists(run(i), c) && CacheSound(cache)
    ensures match run(i).coords[c].cell
            case None => Refused(run(i), run(j), tid, c) && run(j).stale == run(i).stale
            case Some(a) => Watched(run(i), run(j), tid, c, a, target, false,
                                    CachedWalk(run(i).kv, cache, run(i).objs[a].latest.tip))
  {
    WatchLoadAlone(run, tid, c, target, rank, cache, choice, i);
    j := i + 1;
    if run(i).coords[c].cell.Some? {
      var a := run(i).coords[c].cell.value;
      var tip := run(i).objs[a].latest.tip;
      j := WatchWalkAlone(run, tid, c, a, target, rank, tip, 0, false, cache, choice, i + 1);
      WatchedLater(run(i), run(i + 1), run(j), tid, c, a, target, cache, WatchWalk(c, a, target, rank, tip, 0, false),
                   CachedWalk(run(i).kv, cache, tip));
    }
  }

  // ---- What a request that runs alone leaves to the others ----

  /** Requests other than the one that runs are where they were. */
  ghost predicate OthersStay(w: World, w': World, tid: nat) {
    forall t :: t != tid ==> (t in w'.threads <==> t in w.threads) && (t in w.threads ==> w'.threads[t] == w.threads[t])
  }

  lemma StepKeepsOthers(w: World, tid: nat, choice: Choice)
    ensures OthersStay(w, Step(w, Advance(tid, choice)), tid)
  {
    if tid in w.threads && w.threads[tid].On() in w.coords {
      AdvanceOthers(w, tid, w.threads[tid], choice);
    }
  }

  lemma {:induction false} AloneKeepsOthers(run: Run, tid: nat, choice: Choice, n: nat)
    requires Alone(run, tid, choice)
    ensures OthersStay(run(0), run(n), tid)
  {
    if n > 0 {
      AloneKeepsOthers(run, tid, choice, n - 1);
      assert Linked(run, tid, choice, n - 1);
      StepKeepsOthers(run(n - 1), tid, choice);
    }
  }

  lemma StepKeepsFlags(w: World, tid: nat, choice: Choice)
    ensures SameFlags(w, Step(w, Advance(tid, choice)))
  {
    if tid in w.threads && w.threads[tid].On() in w.coords {
      AdvanceKeepsFlags(w, tid, w.threads[tid], choice);
    }
  }

  lemma {:induction false} AloneKeepsFlags(run: Run, tid: nat, choice: Choice, n: nat)
    requires Alone(run, tid, choice)
    ensures SameFlags(run(0), run(n))
  {
    if n > 0 {
      AloneKeepsFlags(run, tid, choice, n - 1);
      assert Linked(run, tid, choice, n - 1);
      StepKeepsFlags(run(n - 1), tid, choice);
    }
  }

  // ---- An update that succeeds, up to its local swap and to its end ----

  lemma {:induction false} PutAllKeepsLatest(kv: Store, cache: Cache, kind: Kind, blobs: seq<Bytes>)
    ensures Current(PutAll(kv, cache, kind, blobs).0) == Current(kv)
  {
    if blobs != [] {
      PutAllKeepsLatest(kv, cache, kind, blobs[..|blobs| - 1]);
    }
  }

  /** The reference to the latest transition that an update publishes. */
  ghost function PublishedBy(w: World, u: Update, nonce: nat): (latest: LatestTransition) {
    var tip := TransitionDigest(Transition(Digest(u.request.manifest), Base(w, u.previous)));
    LatestTransition(tip, Sign(u.seeds.SigningKey(), tip, nonce))
  }

  /** The update has been published, its local swap is still to come. */
  ghost predicate Pending(w: World, w': World, tid: nat, u: Update, nonce: nat) {
    && StateUntouched(w, w', u.coord)
    && tid in w'.threads && w'.threads[tid] == SwapState(u, PublishedBy(w, u, nonce))
    && Current(w'.kv) == MarshalLatest(PublishedBy(w, u, nonce))
  }

  lemma PublishAlone(run: Run, tid: nat, u: Update, latest: LatestTransition, choice: Choice, i: nat)
    requires Alone(run, tid, choice) && u.coord in run(i).coords
    requires tid in run(i).threads && run(i).threads[tid] == SwapLatest(u, latest.tip)
    requires latest.signature == Sign(u.seeds.SigningKey(), latest.tip, choice.nonce)
    requires Current(run(i).kv) == ExpectedLatest(run(i), u.previous)
    ensures StateUntouched(run(i), run(i + 1), u.coord)
    ensures tid in run(i + 1).threads && run(i + 1).threads[tid] == SwapState(u, latest)
    ensures Current(run(i + 1).kv) == MarshalLatest(latest)
  {
    assert Linked(run, tid, choice, i);
  }

  lemma PendingFrom(w: World, w0: World, w1: World, w': World, tid: nat, u: Update, nonce: nat)
    requires StateUntouched(w, w0, u.coord) && StateUntouched(w0, w1, u.coord) && StateUntouched(w1, w', u.coord)
    requires tid in w'.threads && w'.threads[tid] == SwapState(u, PublishedBy(w0, u, nonce))
    requires Current(w'.kv) == MarshalLatest(PublishedBy(w0, u, nonce))
    ensures Pending(w, w', tid, u, nonce)
  {
  }

  /** From the check of the policies on. */
  lemma CheckedPendingAlone(run: Run, w: World, tid: nat, u: Update, choice: Choice, i: nat)
    requires Alone(run, tid, choice) && PoliciesWritten(w, run(i), tid, u, |u.request.policies|)
    requires PoliciesComplete(u.request.manifest, u.request.policies)
    requires Current(run(i).kv) == ExpectedLatest(run(i), u.previous)
    ensures Pending(w, run(i + 4), tid, u, choice.nonce)
  {
    CheckAlone(run, tid, u, choice, i);
    WritesAlone(run, tid, u, choice, i + 1);
    PublishAlone(run, tid, u, PublishedBy(run(i + 1), u, choice.nonce), choice, i + 3);
    PendingFrom(w, run(i + 1), run(i + 3), run(i + 4), tid, u, choice.nonce);
  }

  /** An update that is accepted, complete, and based on the latest transition. */
  ghost predicate WillPublish(w: World, c: nat, req: Request)
    requires CellExists(w, c)
  {
    && SetAccepted(w, c, req) && PoliciesComplete(req.manifest, req.policies)
    && Current(w.kv) == ExpectedLatest(w, w.coords[c].cell)
  }

  lemma PoliciesKeepLatest(w: World, w0: World, tid: nat, u: Update, k: nat)
    requires k <= |u.request.policies| && PoliciesWritten(w, w0, tid, u, k)
    requires Current(w.kv) == ExpectedLatest(w, u.previous)
    ensures Current(w0.kv) == ExpectedLatest(w0, u.previous)
  {
    PutAllKeepsLatest(w.kv, w.coords[u.coord].cache, Policies, u.request.policies[..k]);
  }

  lemma PoliciesAloneKeepLatest(run: Run, tid: nat, u: Update, choice: Choice, i: nat)
    requires Alone(run, tid, choice) && u.coord in run(i).coords
    requires tid in run(i).threads && run(i).threads[tid] == StorePolicies(u, 0)
    requires Current(run(i).kv) == ExpectedLatest(run(i), u.previous)
    ensures var k := |u.request.policies|;
            && PoliciesWritten(run(i), run(i + k), tid, u, k)
            && Current(run(i + k).kv) == ExpectedLatest(run(i + k), u.previous)
  {
    var k := |u.request.policies|;
    PoliciesAlone(run, tid, u, choice, i, k);
    PoliciesKeepLatest(run(i), run(i + k), tid, u, k);
  }

  /** From the first policy on. */
  lemma AcceptedPendingAlone(run: Run, tid: nat, u: Update, choice: Choice, i: nat)
    requires Alone(run, tid, choice) && u.coord in run(i).coords
    requires tid in run(i).threads && run(i).threads[tid] == StorePolicies(u, 0)
    requires PoliciesComplete(u.request.manifest, u.request.policies)
    requires Current(run(i).kv) == ExpectedLatest(run(i), u.previous)
    ensures Pending(run(i), run(i + |u.request.policies| + 4), tid, u, choice.nonce)
  {
    PoliciesAloneKeepLatest(run, tid, u, choice, i);
    CheckedPendingAlone(run, run(i), tid, u, choice, i + |u.request.policies|);
  }

  lemma PendingEarlier(w: World, w0: World, w': World, tid: nat, cache: Cache, u: Update, nonce: nat)
    requires ReadOn(w, w0, tid, u.coord, cache, StorePolicies(u, 0)) && Pending(w0, w', tid, u, nonce)
    ensures Pending(w, w', tid, u, nonce)
  {
  }

  lemma PendingAlone(run: Run, tid: nat, c: nat, req: Request, choice: Choice) returns (n: nat)
    requires Alone(run, tid, choice) && CellExists(run(0), c) && choice.seeds.Valid()
    requires tid in run(0).threads && run(0).threads[tid] == SetLoad(c, req) && WillPublish(run(0), c, req)
    ensures Pending(run(0), run(n), tid, UpdateOf(run(0), c, req, choice.seeds), choice.nonce)
  {
    var cache := run(0).coords[c].cache;
    SetGuardAlone(run, tid, c, req, cache, choice, 0);
    var u := UpdateOf(run(0), c, req, choice.seeds);
    AcceptedPendingAlone(run, tid, u, choice, 2);
    n := 2 + |req.policies| + 4;
    PendingEarlier(run(0), run(2), run(n), tid, cache, u, choice.nonce);
  }

  /** The update has ended, and its state is the Coordinator's. */
  ghost predicate Completed(w: World, w': World, tid: nat, u: Update, nonce: nat) {
    && tid !in w'.threads
    && u.coord in w'.coords && w'.coords[u.coord].cell == Some(|w.objs|)
    && w'.objs == w.objs + [NewState(w, u, PublishedBy(w, u, nonce))]
    && Current(w'.kv) == MarshalLatest(PublishedBy(w, u, nonce))
  }

  lemma CompletedAlone(run: Run, w: World, tid: nat, u: Update, choice: Choice, i: nat)
    requires Alone(run, tid, choice) && Pending(w, run(i), tid, u, choice.nonce) && w.coords[u.coord].cell == u.previous
    ensures Completed(w, run(i + 1), tid, u, choice.nonce)
  {
    assert Linked(run, tid, choice, i);
  }

  // ---- In reachable worlds ----

  lemma ReachableCoordinator(events: seq<Event>, tid: nat)
    requires tid in Exec(events).threads
    ensures var w := Exec(events); var c := w.threads[tid].On(); CellExists(w, c) && CacheSound(w.coords[c].cache)
  {
    ExecInv(events);
    var w := Exec(events);
    assert ThreadOk(w, tid, w.threads[tid]);
  }

  /** SetManifest, uninterrupted, is the method of the server. */
  lemma SetManifestRun(events: seq<Event>, tid: nat, choice: Choice) returns (n: nat)
    requires tid in Exec(events).threads && Exec(events).threads[tid].SetLoad? && choice.seeds.Valid()
    ensures var w, w' := Exec(events), Exec(events + Repeated(tid, choice, n));
            var c, req := w.threads[tid].coord, w.threads[tid].request;
            && CellExists(w, c)
            && if SetAccepted(w, c, req) then AsSpecified(w, w', tid, UpdateOf(w, c, req, choice.seeds), choice.nonce)
               else Refused(w, w', tid, c)
  {
    ReachableCoordinator(events, tid);
    var w := Exec(events);
    var run := RunAfter(events, tid, choice);
    RunAfterIsAlone(events, tid, choice);
    var c := w.threads[tid].coord;
    n := SetManifestAlone(run, tid, c, w.threads[tid].request, w.coords[c].cache, choice, 0);
  }

  /** Recover, and an attempt of RecoverOnce, uninterrupted, are the methods of the server and of the guard. */
  lemma RecoverRun(events: seq<Event>, tid: nat, choice: Choice) returns (n: nat)
    requires tid in Exec(events).threads && Exec(events).threads[tid].ResetLoad?
    ensures var w, w' := Exec(events), Exec(events + Repeated(tid, choice, n));
            var c, source := w.threads[tid].coord, w.threads[tid].source;
            && c in w.coords && source.HasOffer() && CacheSound(w.coords[c].cache)
            && if SeenStale(w, c)
               then Ends(w, w', tid, Recovery(c, w.coords[c].cell, source),
                         ResetSpec(w.kv, w.coords[c].cache, source, w.coords[c].allowInsecure))
               else Refused(w, w', tid, c)
  {
    ReachableCoordinator(events, tid);
    ExecInv(events);
    var w := Exec(events);
    assert ThreadOk(w, tid, w.threads[tid]);
    var run := RunAfter(events, tid, choice);
    RunAfterIsAlone(events, tid, choice);
    var c := w.threads[tid].coord;
    n := RecoverAlone(run, tid, c, w.threads[tid].source, w.coords[c].cache, choice, 0);
  }

  /** One notification, uninterrupted, is the method of the guard. */
  lemma NotificationRun(events: seq<Event>, tid: nat, choice: Choice) returns (n: nat)
    requires tid in Exec(events).threads && Exec(events).threads[tid].WatchLoad?
    ensures var w, w' := Exec(events), Exec(events + Repeated(tid, choice, n));
            var c, target := w.threads[tid].coord, w.threads[tid].target;
            && CellExists(w, c) && CacheSound(w.coords[c].cache)
            && match w.coords[c].cell
               case None => Refused(w, w', tid, c) && w'.stale == w.stale
               case Some(a) => Watched(w, w', tid, c, a, target, false,
                                       CachedWalk(w.kv, w.coords[c].cache, w.objs[a].latest.tip))
  {
    ReachableCoordinator(events, tid);
    var w := Exec(events);
    var run := RunAfter(events, tid, choice);
    RunAfterIsAlone(events, tid, choice);
    var c := w.threads[tid].coord;
    n := NotificationAlone(run, tid, c, w.threads[tid].target, w.threads[tid].rank, w.coords[c].cache, choice, 0);
  }
}
