/** Two runs: one in which an update loses its local swap, and one in which a Coordinator ends up with a manifest
  * that does not fit its setting.
  */
module SampleRuns {
  import opened Ideal
  import opened Chain
  import opened Manifests
  import opened Protocol
  import opened Guard
  import opened ProtocolInvariant
  import opened ProtocolSteps
  import opened ProtocolEffects
  import opened ProtocolTheorems
  import opened Solo
  import opened SoloRequests
  import opened RecoveryTheorems
  import opened LostSwaps
  import opened SettingTheorems

  // ---- The first update ----

  /** A manifest that a Coordinator accepts as the first one. */
  ghost predicate Settable(allowInsecure: bool, req: Request) {
    && ParseManifest(req.manifest).Some?
    && GuardInitial(allowInsecure, ParseManifest(req.manifest).value, req) == Ok
    && PoliciesComplete(req.manifest, req.policies)
  }

  function Started(allowInsecure: bool, req: Request): (events: seq<Event>) {
    [Boot(0, allowInsecure), StartSet(1, 0, req)]
  }

  lemma StartedWorld(allowInsecure: bool, req: Request)
    ensures var w := Exec(Started(allowInsecure, req));
            && w.threads == map[1 := SetLoad(0, req)] && w.kv == map[] && w.objs == [] && w.stale == {}
            && w.coords == map[0 := Coordinator(None, map[], allowInsecure)]
  {
    var boot := Boot(0, allowInsecure);
    ExecOneMore([], boot);
    assert [] + [boot] == [boot];
    assert Exec([boot]).coords == map[0 := Coordinator(None, map[], allowInsecure)];
    ExecOneMore([boot], StartSet(1, 0, req));
    assert [boot] + [StartSet(1, 0, req)] == Started(allowInsecure, req);
  }

  /** The history is determined by what `transitions/latest` names. */
  lemma HistoryIs(events: seq<Event>, manifests: seq<Bytes>)
    requires LatestTip(Exec(events).kv) == Tip(manifests)
    ensures Exec(events).log == manifests && Inv(Exec(events))
  {
    LatestTipIs(events);
    var w := Exec(events);
    assert w.log[..|w.log|] == w.log;
    TipInjective(w.log, manifests);
  }

  lemma TipOfNext(manifests: seq<Bytes>, manifest: Bytes)
    ensures Tip(manifests + [manifest]) == TransitionDigest(Transition(Digest(manifest), Tip(manifests)))
  {
    assert (manifests + [manifest])[..|manifests|] == manifests;
    assert LastTransition(manifests + [manifest]) == Transition(Digest(manifest), Tip(manifests));
  }

  lemma LatestTipOf(kv: Store, latest: LatestTransition)
    requires Current(kv) == MarshalLatest(latest) && latest.signature != []
    ensures LatestTip(kv) == latest.tip
  {
    LatestCodec(latest, Current(kv));
  }

  /** One Coordinator, no request in flight, and a history of one manifest that the Coordinator holds. */
  ghost predicate FirstHeld(w: World, allowInsecure: bool, manifest: Bytes, seeds: Seeds) {
    && w.threads == map[]
    && w.log == [manifest] && Inv(w)
    && |w.objs| == 1 && w.objs[0].manifest == manifest && w.objs[0].seeds == seeds && w.objs[0].generation == 1
    && Current(w.kv) == MarshalLatest(w.objs[0].latest) && w.objs[0].latest.tip == Tip([manifest])
    && w.coords.Keys == {0} && w.coords[0].cell == Some(0) && w.coords[0].allowInsecure == allowInsecure
  }

  /** What a completed first update leaves behind. */
  ghost predicate FirstState(w: World, manifest: Bytes, seeds: Seeds) {
    && w.log == [manifest] && Inv(w)
    && |w.objs| == 1 && w.objs[0].manifest == manifest && w.objs[0].seeds == seeds && w.objs[0].generation == 1
    && Current(w.kv) == MarshalLatest(w.objs[0].latest) && w.objs[0].latest.tip == Tip([manifest])
    && 0 in w.coords && w.coords[0].cell == Some(0)
  }

  lemma FirstCompleted(events: seq<Event>, w: World, u: Update, nonce: nat)
    requires Completed(w, Exec(events), 1, u, nonce) && w.objs == [] && u.previous == None && u.coord == 0
    ensures FirstState(Exec(events), u.request.manifest, u.seeds)
  {
    var latest := PublishedBy(w, u, nonce);
    TipOfNext([], u.request.manifest);
    assert [] + [u.request.manifest] == [u.request.manifest];
    LatestTipOf(Exec(events).kv, latest);
    HistoryIs(events, [u.request.manifest]);
  }

  lemma FirstAlone(w: World, w': World, allowInsecure: bool, manifest: Bytes, seeds: Seeds)
    requires w.threads.Keys == {1} && w.coords == map[0 := Coordinator(None, map[], allowInsecure)]
    requires OthersStay(w, w', 1) && SameFlags(w, w') && 1 !in w'.threads && FirstState(w', manifest, seeds)
    ensures FirstHeld(w', allowInsecure, manifest, seeds)
  {
    forall t
      ensures t !in w'.threads
    {
      assert t == 1 || t !in w.threads;
    }
    assert w'.threads == map[];
  }

  /** The first update as a run from a started world. */
  lemma FirstRunAlone(run: Run, req: Request, choice: Choice) returns (n: nat)
    requires Alone(run, 1, choice) && choice.seeds.Valid()
    requires run(0).threads == map[1 := SetLoad(0, req)] && run(0).kv == map[] && run(0).objs == []
    requires 0 in run(0).coords && run(0).coords[0].cell == None
    requires Settable(run(0).coords[0].allowInsecure, req)
    ensures var u := UpdateOf(run(0), 0, req, choice.seeds);
            && u.previous == None && u.seeds == choice.seeds
            && Completed(run(0), run(n), 1, u, choice.nonce)
  {
    var k := PendingAlone(run, 1, 0, req, choice);
    CompletedAlone(run, run(0), 1, UpdateOf(run(0), 0, req, choice.seeds), choice, k);
    n := k + 1;
  }

  /** A first SetManifest call that runs to its end. */
  lemma FirstUpdate(allowInsecure: bool, req: Request, choice: Choice) returns (n: nat)
    requires Settable(allowInsecure, req) && choice.seeds.Valid()
    ensures FirstHeld(Exec(Started(allowInsecure, req) + Repeated(1, choice, n)), allowInsecure, req.manifest,
                      choice.seeds)
  {
    var started := Started(allowInsecure, req);
    StartedWorld(allowInsecure, req);
    var run := RunAfter(started, 1, choice);
    RunAfterIsAlone(started, 1, choice);
    var w := run(0);
    n := FirstRunAlone(run, req, choice);
    AloneKeepsOthers(run, 1, choice, n);
    AloneKeepsFlags(run, 1, choice, n);
    var events := started + Repeated(1, choice, n);
    assert run(n) == Exec(events);
    FirstCompleted(events, w, UpdateOf(w, 0, req, choice.seeds), choice.nonce);
    FirstAlone(w, Exec(events), allowInsecure, req.manifest, choice.seeds);
  }

  // ---- A second update, published but not yet swapped in ----

  /** A second manifest that is accepted on top of the first. */
  ghost predicate SettableNext(allowInsecure: bool, first: Request, req: Request) {
    && ParseManifest(first.manifest).Some? && ParseManifest(req.manifest).Some?
    && GuardUpdate(allowInsecure, ParseManifest(first.manifest).value, Tip([first.manifest]),
                   ParseManifest(req.manifest).value, req) == Ok
    && PoliciesComplete(req.manifest, req.policies)
  }

  ghost predicate SecondPending(w: World, allowInsecure: bool, first: Bytes, second: Request, seeds: Seeds) {
    && w.threads.Keys == {2} && w.threads[2].SwapState?
    && w.threads[2].u.coord == 0 && w.threads[2].u.previous == Some(0) && w.threads[2].u.request == second
    && w.log == [first, second.manifest] && Inv(w)
    && |w.objs| == 1 && w.objs[0].seeds == seeds && w.objs[0].generation == 1
    && w.coords.Keys == {0} && w.coords[0].cell == Some(0) && w.coords[0].allowInsecure == allowInsecure
  }

  lemma NotStaleYet(w: World, allowInsecure: bool, manifest: Bytes, seeds: Seeds)
    requires FirstHeld(w, allowInsecure, manifest, seeds)
    ensures 0 !in w.stale
  {
  }

  lemma SecondStarts(events: seq<Event>, allowInsecure: bool, first: Request, req: Request, seeds: Seeds)
    requires FirstHeld(Exec(events), allowInsecure, first.manifest, seeds) && SettableNext(allowInsecure, first, req)
    ensures var w, w' := Exec(events), Exec(events + [StartSet(2, 0, req)]);
            && w' == Goto(w, 2, SetLoad(0, req))
            && CellExists(w', 0) && WillPublish(w', 0, req)
  {
    NotStaleYet(Exec(events), allowInsecure, first.manifest, seeds);
    ExecOneMore(events, StartSet(2, 0, req));
  }

  lemma SecondLog(events: seq<Event>, w: World, u: Update, nonce: nat, first: Bytes)
    requires Pending(w, Exec(events), 2, u, nonce) && Base(w, u.previous) == Tip([first])
    ensures Exec(events).log == [first, u.request.manifest] && Inv(Exec(events))
  {
    TipOfNext([first], u.request.manifest);
    assert [first] + [u.request.manifest] == [first, u.request.manifest];
    LatestTipOf(Exec(events).kv, PublishedBy(w, u, nonce));
    HistoryIs(events, [first, u.request.manifest]);
  }

  lemma SecondAlone(w: World, w1: World, w': World, allowInsecure: bool, first: Bytes, req: Request, seeds: Seeds,
                    u: Update, nonce: nat)
    requires FirstHeld(w, allowInsecure, first, seeds) && w1 == Goto(w, 2, SetLoad(0, req))
    requires OthersStay(w1, w', 2) && SameFlags(w1, w') && Pending(w1, w', 2, u, nonce)
    requires u.coord == 0 && u.previous == Some(0) && u.request == req
    requires w'.log == [first, req.manifest] && Inv(w')
    ensures SecondPending(w', allowInsecure, first, req, seeds)
  {
    forall t
      ensures t in w'.threads <==> t == 2
    {
      assert t == 2 || t !in w1.threads;
    }
    assert w'.threads.Keys == {2};
  }

  lemma SecondUpdate(events: seq<Event>, allowInsecure: bool, first: Request, req: Request, seeds: Seeds,
                     choice: Choice) returns (n: nat)
    requires FirstHeld(Exec(events), allowInsecure, first.manifest, seeds) && choice.seeds.Valid()
    requires SettableNext(allowInsecure, first, req)
    ensures SecondPending(Exec(events + [StartSet(2, 0, req)] + Repeated(2, choice, n)), allowInsecure,
                          first.manifest, req, seeds)
  {
    var started := events + [StartSet(2, 0, req)];
    SecondStarts(events, allowInsecure, first, req, seeds);
    var run := RunAfter(started, 2, choice);
    RunAfterIsAlone(started, 2, choice);
    var w := run(0);
    var u := UpdateOf(w, 0, req, choice.seeds);
    n := PendingAlone(run, 2, 0, req, choice);
    AloneKeepsOthers(run, 2, choice, n);
    AloneKeepsFlags(run, 2, choice, n);
    var all := started + Repeated(2, choice, n);
    assert run(n) == Exec(all);
    SecondLog(all, w, u, choice.nonce, first.manifest);
    SecondAlone(Exec(events), w, Exec(all), allowInsecure, first.manifest, req, seeds, u, choice.nonce);
  }

  // ---- The notification of the second update ----

  /** An uninterrupted notification marks the state exactly if what it is about is newer. */
  lemma NotificationMarks(events: seq<Event>, tid: nat, choice: Choice) returns (n: nat)
    requires tid in Exec(events).threads && Exec(events).threads[tid].WatchLoad?
    requires var w := Exec(events);
             var c := w.threads[tid].coord;
             c in w.coords && w.coords[c].cell.Some?
    ensures var w, w' := Exec(events), Exec(events + Repeated(tid, choice, n));
            var c, rank := w.threads[tid].coord, w.threads[tid].rank;
            var a := w.coords[c].cell.value;
            && a < |w.objs|
            && tid !in w'.threads && w'.kv == w.kv && w'.objs == w.objs
            && c in w'.coords && w'.coords[c].cell == Some(a)
            && w'.stale == if w.objs[a].generation < rank then w.stale + {a} else w.stale
  {
    var w := Exec(events);
    var c, rank := w.threads[tid].coord, w.threads[tid].rank;
    n := NotificationRun(events, tid, choice);
    ExecInv(events);
    assert ThreadOk(w, tid, w.threads[tid]);
    var a := w.coords[c].cell.value;
    WalkMeets(w, w.coords[c].cache, a, rank);
  }

  /** The walk from a held state meets the positions up to its own. */
  lemma WalkMeets(w: World, cache: Cache, a: Addr, rank: nat)
    requires Inv(w) && CacheSound(cache) && a < |w.objs| && 1 <= rank <= |w.log|
    ensures var path := CachedWalk(w.kv, cache, w.objs[a].latest.tip).path;
            path.Some? && (TipAt(w, rank) in path.value <==> rank <= w.objs[a].generation)
  {
    BaseIs(w, Some(a));
    var g := w.objs[a].generation;
    VisitedAt(w, g);
    CachedWalkAgrees(w.kv, cache, w.objs[a].latest.tip);
    AncestorAt(w, rank, g);
  }

  ghost predicate SecondNoticed(w: World, allowInsecure: bool, first: Bytes, second: Request, seeds: Seeds) {
    SecondPending(w, allowInsecure, first, second, seeds) && 0 in w.stale
  }

  lemma NoticedAlone(w: World, w1: World, w': World, t: Thread, allowInsecure: bool, first: Bytes, second: Request,
                     seeds: Seeds)
    requires SecondPending(w, allowInsecure, first, second, seeds) && w1 == Goto(w, 3, t)
    requires OthersStay(w1, w', 3) && SameFlags(w1, w') && 3 !in w'.threads
    requires w'.objs == w.objs && 0 in w'.coords && w'.coords[0].cell == Some(0) && 0 in w'.stale
    requires w'.log == w.log && Inv(w')
    ensures SecondNoticed(w', allowInsecure, first, second, seeds) && w'.threads[2] == w.threads[2]
  {
    assert 2 in w1.threads;
    forall t
      ensures t in w'.threads <==> t == 2
    {
      assert t == 3 || (t in w1.threads <==> t == 2);
    }
    assert w'.threads.Keys == {2};
  }

  lemma NotificationStarts(events: seq<Event>, allowInsecure: bool, first: Bytes, second: Request, seeds: Seeds)
    requires SecondPending(Exec(events), allowInsecure, first, second, seeds)
    ensures var w, w' := Exec(events), Exec(events + [Notify(3, 0, 2)]);
            |w.records| == 2 && w' == Goto(w, 3, WatchLoad(0, w.records[1].value.tip, 2))
  {
    ExecOneMore(events, Notify(3, 0, 2));
  }

  lemma Noticed(events: seq<Event>, allowInsecure: bool, first: Bytes, second: Request, seeds: Seeds, choice: Choice)
    returns (n: nat)
    requires SecondPending(Exec(events), allowInsecure, first, second, seeds)
    ensures var all := events + [Notify(3, 0, 2)] + Repeated(3, choice, n);
            && SecondNoticed(Exec(all), allowInsecure, first, second, seeds)
            && Exec(all).threads[2] == Exec(events).threads[2]
  {
    var told := events + [Notify(3, 0, 2)];
    NotificationStarts(events, allowInsecure, first, second, seeds);
    var w, w1 := Exec(events), Exec(told);
    n := NotificationMarks(told, 3, choice);
    var run := RunAfter(told, 3, choice);
    RunAfterIsAlone(told, 3, choice);
    AloneKeepsOthers(run, 3, choice, n);
    AloneKeepsFlags(run, 3, choice, n);
    var all := told + Repeated(3, choice, n);
    assert run(n) == Exec(all) && run(0) == w1;
    SameHistory(told, all);
    ExecInv(all);
    NoticedAlone(w, w1, Exec(all), w1.threads[3], allowInsecure, first, second, seeds);
  }

  lemma SameHistory(events: seq<Event>, all: seq<Event>)
    requires Exec(all).kv == Exec(events).kv
    ensures Exec(all).log == Exec(events).log
  {
    LatestTipIs(events);
    LatestTipIs(all);
    assert Exec(events).log[..|Exec(events).log|] == Exec(events).log;
    assert Exec(all).log[..|Exec(all).log|] == Exec(all).log;
    TipInjective(Exec(all).log, Exec(events).log);
  }

  // ---- The recovery ----

  lemma RecoveredMeanwhile(events: seq<Event>, allowInsecure: bool, first: Bytes, second: Request, seeds: Seeds,
                           peer: Option<Bytes>, choice: Choice) returns (n: nat)
    requires SecondNoticed(Exec(events), allowInsecure, first, second, seeds) && seeds.Valid()
    requires ParseManifest(second.manifest).Some?
    requires RightLevel(allowInsecure, ParseManifest(second.manifest).value)
    requires PeerListed(ParseManifest(second.manifest).value.seedshareOwners, peer)
    ensures var all := events + [StartReset(4, 0, User(seeds, peer))] + Repeated(4, choice, n);
            && Waiting(Exec(all), 2, Exec(events).threads[2]) && Lost(Exec(all), Exec(events).threads[2])
  {
    var w := Exec(events);
    var source := User(seeds, peer);
    var started := events + [StartReset(4, 0, source)];
    ExecOneMore(events, StartReset(4, 0, source));
    var w1 := Exec(started);
    assert w1.threads[4] == ResetLoad(0, source);
    assert StateOk(w, w.objs[0]);
    assert MayRecover(w1, source, allowInsecure);
    n := RecoverySucceedsExactly(started, 4, choice);
    var run := RunAfter(started, 4, choice);
    RunAfterIsAlone(started, 4, choice);
    AloneKeepsOthers(run, 4, choice, n);
  }

  /** The run of a lost swap: a first update runs to its end, a second one is published, the Coordinator is
      notified of it, and a seedshare owner recovers with the seed and salt of the held state, all before the second
      update makes its local swap. */
  ghost function LostSwapRun(allowInsecure: bool, first: Request, second: Request, peer: Option<Bytes>, choice: Choice,
                             n1: nat, n2: nat, n3: nat, n4: nat): (events: seq<Event>)
  {
    Started(allowInsecure, first) + Repeated(1, choice, n1)
    + [StartSet(2, 0, second)] + Repeated(2, choice, n2)
    + [Notify(3, 0, 2)] + Repeated(3, choice, n3)
    + [StartReset(4, 0, User(choice.seeds, peer))] + Repeated(4, choice, n4)
  }

  /** For all manifests that are accepted one after the other, and every seedshare owner. */
  lemma SwapLostToRecovery(allowInsecure: bool, first: Request, second: Request, peer: Option<Bytes>, choice: Choice)
    returns (n1: nat, n2: nat, n3: nat, n4: nat)
    requires Settable(allowInsecure, first) && SettableNext(allowInsecure, first, second) && choice.seeds.Valid()
    requires PeerListed(ParseManifest(second.manifest).value.seedshareOwners, peer)
    ensures FirstHeld(Exec(Started(allowInsecure, first) + Repeated(1, choice, n1)), allowInsecure, first.manifest,
                      choice.seeds)
    ensures var w := Exec(LostSwapRun(allowInsecure, first, second, peer, choice, n1, n2, n3, n4));
            && 2 in w.threads && w.threads[2].SwapState? && w.threads[2].u.request == second
            && Lost(w, w.threads[2])
  {
    n1 := FirstUpdate(allowInsecure, first, choice);
    var e1 := Started(allowInsecure, first) + Repeated(1, choice, n1);
    n2 := SecondUpdate(e1, allowInsecure, first, second, choice.seeds, choice);
    var e2 := e1 + [StartSet(2, 0, second)] + Repeated(2, choice, n2);
    n3 := Noticed(e2, allowInsecure, first.manifest, second, choice.seeds, choice);
    var e3 := e2 + [Notify(3, 0, 2)] + Repeated(3, choice, n3);
    n4 := RecoveredMeanwhile(e3, allowInsecure, first.manifest, second, choice.seeds, peer, choice);
    RunInParts(allowInsecure, first, second, peer, choice, n1, n2, n3, n4);
  }

  lemma RunInParts(allowInsecure: bool, first: Request, second: Request, peer: Option<Bytes>, choice: Choice,
                   n1: nat, n2: nat, n3: nat, n4: nat)
    ensures var e1 := Started(allowInsecure, first) + Repeated(1, choice, n1);
            var e2 := e1 + [StartSet(2, 0, second)] + Repeated(2, choice, n2);
            var e3 := e2 + [Notify(3, 0, 2)] + Repeated(3, choice, n3);
            LostSwapRun(allowInsecure, first, second, peer, choice, n1, n2, n3, n4)
            == e3 + [StartReset(4, 0, User(choice.seeds, peer))] + Repeated(4, choice, n4)
  {
  }

  // ---- A manifest that does not fit ----

  lemma OtherSettingRejects(allowInsecure: bool, manifest: Bytes)
    requires FitsSetting(allowInsecure, manifest)
    ensures !FitsSetting(!allowInsecure, manifest)
  {
  }

  lemma SecondCoordinatorStarts(events: seq<Event>, allowInsecure: bool, manifest: Bytes, seeds: Seeds)
    requires FirstHeld(Exec(events), allowInsecure, manifest, seeds) && seeds.Valid()
    ensures var source := Peers([seeds]);
            var w, w' := Exec(events), Exec(events + [Boot(1, !allowInsecure)] + [StartReset(2, 1, source)]);
            && 2 in w'.threads && w'.threads[2] == ResetLoad(1, source)
            && w'.log == w.log && w'.kv == w.kv && w'.objs == w.objs
            && 1 in w'.coords && w'.coords[1] == Coordinator(None, map[], !allowInsecure)
            && SeenStale(w', 1) && MayRecover(w', source, false)
  {
    ExecOneMore(events, Boot(1, !allowInsecure));
    ExecOneMore(events + [Boot(1, !allowInsecure)], StartReset(2, 1, Peers([seeds])));
    var w := Exec(events);
    assert StateOk(w, w.objs[0]) && EntryStored(w, 0);
  }

  /** A Coordinator sets a first manifest; another one, with the opposite setting, starts and recovers with the seed
      and salt that the first one holds: it then holds a manifest that it would refuse to set. */
  lemma RecoveredManifestDoesNotFit(allowInsecure: bool, first: Request, choice: Choice)
    returns (n1: nat, n2: nat, events: seq<Event>)
    requires Settable(allowInsecure, first) && choice.seeds.Valid()
    ensures events == Started(allowInsecure, first) + Repeated(1, choice, n1)
                      + [Boot(1, !allowInsecure)] + [StartReset(2, 1, Peers([choice.seeds]))] + Repeated(2, choice, n2)
    ensures FirstHeld(Exec(Started(allowInsecure, first) + Repeated(1, choice, n1)), allowInsecure, first.manifest,
                      choice.seeds)
    ensures var w := Exec(events);
            && 1 in w.coords && w.coords[1].cell.Some? && w.coords[1].cell.value < |w.objs|
            && w.coords[1].allowInsecure == !allowInsecure
            && w.objs[w.coords[1].cell.value].manifest == first.manifest
            && !FitsSetting(w.coords[1].allowInsecure, first.manifest)
  {
    n1 := FirstUpdate(allowInsecure, first, choice);
    var e1 := Started(allowInsecure, first) + Repeated(1, choice, n1);
    SecondCoordinatorStarts(e1, allowInsecure, first.manifest, choice.seeds);
    var e2 := e1 + [Boot(1, !allowInsecure)] + [StartReset(2, 1, Peers([choice.seeds]))];
    n2 := RecoverySucceedsExactly(e2, 2, choice);
    var run := RunAfter(e2, 2, choice);
    RunAfterIsAlone(e2, 2, choice);
    AloneKeepsFlags(run, 2, choice, n2);
    OtherSettingRejects(allowInsecure, first.manifest);
    events := e2 + Repeated(2, choice, n2);
  }
}
