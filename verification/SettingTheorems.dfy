/** Which manifests fit the security setting of the Coordinator that holds them. */
module SettingTheorems {
  import opened Ideal
  import opened Manifests
  import opened Protocol
  import opened ProtocolInvariant
  import opened ProtocolSteps
  import opened ProtocolEffects
  import opened ProtocolTheorems
  import opened Solo
  import opened SoloRequests
  import opened RecoveryTheorems

  ghost predicate FitsSetting(allowInsecure: bool, manifest: Bytes) {
    ParseManifest(manifest).Some? && RightLevel(allowInsecure, ParseManifest(manifest).value)
  }

  /** The event installs a state that was recovered from a peer. */
  ghost predicate InstallsFromPeer(w: World, e: Event) {
    Installs(w, e) && w.threads[e.tid].InstallState? && w.threads[e.tid].r.source.Peers?
  }

  /** The states that were recovered from peers. */
  ghost function FromPeers(events: seq<Event>): (addrs: set<Addr>) {
    if events == [] then {}
    else
      var w, e := Exec(events[..|events| - 1]), events[|events| - 1];
      FromPeers(events[..|events| - 1]) + (if InstallsFromPeer(w, e) then {|w.objs|} else {})
  }

  /** What a request has checked against the setting of its Coordinator. */
  ghost predicate ThreadFits(allowInsecure: bool, t: Thread) {
    if t.StorePolicies? || t.StoreManifest? || t.StoreTransition? || t.SwapLatest? || t.SwapState? then
      FitsSetting(allowInsecure, t.u.request.manifest)
    else if t.ReadVerified? || t.CountTransitions? || t.InstallState? then
      t.r.source.User? ==> FitsSetting(allowInsecure, t.manifest)
    else true
  }

  ghost predicate ThreadFitsIn(w: World, tid: nat) {
    tid in w.threads && w.threads[tid].On() in w.coords ==>
      ThreadFits(w.coords[w.threads[tid].On()].allowInsecure, w.threads[tid])
  }

  /** What a Coordinator holds fits its setting, unless it is among the states from peers. */
  ghost predicate CellFits(w: World, c: nat, peers: set<Addr>) {
    c in w.coords && w.coords[c].cell.Some? ==>
      var a := w.coords[c].cell.value;
      a < |w.objs| && (a !in peers ==> FitsSetting(w.coords[c].allowInsecure, w.objs[a].manifest))
  }

  ghost predicate AllFit(w: World, peers: set<Addr>) {
    (forall tid :: tid in w.threads ==> ThreadFitsIn(w, tid)) && (forall c :: c in w.coords ==> CellFits(w, c, peers))
  }

  // ---- One step ----

  /** Where a request is after a step, if it goes on: on the same Coordinator, with its checks. */
  ghost predicate GoesOnFitting(w': World, tid: nat, c: nat, allowInsecure: bool) {
    tid in w'.threads ==> w'.threads[tid].On() == c && ThreadFits(allowInsecure, w'.threads[tid])
  }

  lemma GuardFits(w: World, tid: nat, t: Thread, choice: Choice)
    requires t.On() in w.coords && (t.SetFlag? || t.SetProbe?)
    ensures GoesOnFitting(AdvanceThread(w, tid, t, choice), tid, t.On(), w.coords[t.On()].allowInsecure)
  {
  }

  lemma UpdateFits(w: World, tid: nat, t: Thread, choice: Choice)
    requires t.On() in w.coords && ThreadFits(w.coords[t.On()].allowInsecure, t)
    requires t.StorePolicies? || t.StoreManifest? || t.StoreTransition? || t.SwapLatest? || t.SwapState?
    ensures GoesOnFitting(AdvanceThread(w, tid, t, choice), tid, t.On(), w.coords[t.On()].allowInsecure)
  {
  }

  lemma AuthorizedFits(w: World, tid: nat, t: Thread, choice: Choice)
    requires t.On() in w.coords && t.ReadManifest?
    ensures GoesOnFitting(AdvanceThread(w, tid, t, choice), tid, t.On(), w.coords[t.On()].allowInsecure)
  {
  }

  lemma VerifiedFits(w: World, tid: nat, t: Thread, choice: Choice)
    requires tid in w.threads && w.threads[tid] == t && t.On() in w.coords
    requires ThreadFits(w.coords[t.On()].allowInsecure, t)
    requires t.ReadVerified? || t.CountTransitions? || t.InstallState?
    ensures GoesOnFitting(AdvanceThread(w, tid, t, choice), tid, t.On(), w.coords[t.On()].allowInsecure)
  {
  }

  lemma OtherFits(w: World, tid: nat, t: Thread, choice: Choice)
    requires t.On() in w.coords && !t.SetFlag? && !t.SetProbe? && !t.ReadManifest?
    requires !(t.StorePolicies? || t.StoreManifest? || t.StoreTransition? || t.SwapLatest? || t.SwapState?)
    requires !(t.ReadVerified? || t.CountTransitions? || t.InstallState?)
    ensures GoesOnFitting(AdvanceThread(w, tid, t, choice), tid, t.On(), w.coords[t.On()].allowInsecure)
  {
  }

  lemma AdvanceFits(w: World, tid: nat, t: Thread, choice: Choice)
    requires tid in w.threads && w.threads[tid] == t && t.On() in w.coords
    requires ThreadFits(w.coords[t.On()].allowInsecure, t)
    ensures GoesOnFitting(AdvanceThread(w, tid, t, choice), tid, t.On(), w.coords[t.On()].allowInsecure)
  {
    if t.SetFlag? || t.SetProbe? {
      GuardFits(w, tid, t, choice);
    } else if t.StorePolicies? || t.StoreManifest? || t.StoreTransition? || t.SwapLatest? || t.SwapState? {
      UpdateFits(w, tid, t, choice);
    } else if t.ReadManifest? {
      AuthorizedFits(w, tid, t, choice);
    } else if t.ReadVerified? || t.CountTransitions? || t.InstallState? {
      VerifiedFits(w, tid, t, choice);
    } else {
      OtherFits(w, tid, t, choice);
    }
  }

  lemma ThreadsFitAfter(w: World, w': World, tid: nat, c: nat)
    requires forall i :: i in w.threads ==> ThreadFitsIn(w, i)
    requires c in w.coords && OthersStay(w, w', tid) && SameFlags(w, w')
    requires GoesOnFitting(w', tid, c, w.coords[c].allowInsecure)
    ensures forall i :: i in w'.threads ==> ThreadFitsIn(w', i)
  {
    forall i | i in w'.threads
      ensures ThreadFitsIn(w', i)
    {
      if i != tid {
        assert i in w.threads && ThreadFitsIn(w, i);
      }
    }
  }

  lemma StepFitsThreads(w: World, e: Event)
    requires Inv(w) && forall i :: i in w.threads ==> ThreadFitsIn(w, i)
    ensures forall i :: i in Step(w, e).threads ==> ThreadFitsIn(Step(w, e), i)
  {
    if e.Advance? {
      if e.tid in w.threads && w.threads[e.tid].On() in w.coords {
        assert ThreadFitsIn(w, e.tid);
        AdvanceFits(w, e.tid, w.threads[e.tid], e.choice);
        StepKeepsOthers(w, e.tid, e.choice);
        StepKeepsFlags(w, e.tid, e.choice);
        ThreadsFitAfter(w, Step(w, e), e.tid, w.threads[e.tid].On());
      }
    } else {
      StartsFit(w, e);
    }
  }

  lemma StartsFit(w: World, e: Event)
    requires !e.Advance? && forall i :: i in w.threads ==> ThreadFitsIn(w, i)
    ensures forall i :: i in Step(w, e).threads ==> ThreadFitsIn(Step(w, e), i)
  {
    var w' := Step(w, e);
    forall i | i in w'.threads
      ensures ThreadFitsIn(w', i)
    {
      if i in w.threads && w'.threads[i] == w.threads[i] {
        assert ThreadFitsIn(w, i);
      }
    }
  }

  lemma StepFitsCells(w: World, e: Event, c: nat, peers: set<Addr>)
    requires Inv(w) && AllFit(w, peers) && c in Step(w, e).coords
    ensures CellFits(Step(w, e), c, peers + (if InstallsFromPeer(w, e) then {|w.objs|} else {}))
  {
    if e.Boot? && e.coord == c {
    } else if !Installs(w, e) {
      KeptCellFits(w, e, c, peers);
    } else {
      NewCellFits(w, e, c, peers);
    }
  }

  lemma FlagsStay(w: World, e: Event, c: nat)
    requires c in Step(w, e).coords && !(e.Boot? && e.coord == c)
    ensures c in w.coords && Step(w, e).coords[c].allowInsecure == w.coords[c].allowInsecure
  {
    if e.Advance? {
      StepKeepsFlags(w, e.tid, e.choice);
    }
  }

  lemma KeptCellFits(w: World, e: Event, c: nat, peers: set<Addr>)
    requires AllFit(w, peers) && c in Step(w, e).coords && !(e.Boot? && e.coord == c) && !Installs(w, e)
    ensures CellFits(Step(w, e), c, peers)
  {
    FlagsStay(w, e, c);
    ObjectsUnchanged(w, e);
    assert CellFits(w, c, peers);
  }

  lemma InstalledState(w: World, e: Event)
    requires Inv(w) && Installs(w, e)
    ensures var t, w' := w.threads[e.tid], Step(w, e);
            && |w'.objs| == |w.objs| + 1 && w.objs <= w'.objs
            && w'.objs[|w.objs|].manifest == if t.SwapState? then t.u.request.manifest else t.manifest
  {
    assert ThreadOk(w, e.tid, w.threads[e.tid]);
  }

  lemma NewCellFits(w: World, e: Event, c: nat, peers: set<Addr>)
    requires Inv(w) && AllFit(w, peers) && c in Step(w, e).coords && Installs(w, e)
    ensures CellFits(Step(w, e), c, peers + (if InstallsFromPeer(w, e) then {|w.objs|} else {}))
  {
    FlagsStay(w, e, c);
    InstallIsNewer(w, e);
    InstalledState(w, e);
    assert CellFits(w, c, peers) && ThreadFitsIn(w, e.tid);
  }

  // ---- All runs ----

  lemma {:induction false} FitsInv(events: seq<Event>)
    ensures AllFit(Exec(events), FromPeers(events))
  {
    if events != [] {
      var front, e := events[..|events| - 1], events[|events| - 1];
      FitsInv(front);
      ExecInv(front);
      var w := Exec(front);
      StepFitsThreads(w, e);
      forall c | c in Step(w, e).coords
        ensures CellFits(Step(w, e), c, FromPeers(events))
      {
        StepFitsCells(w, e, c, FromPeers(front));
      }
    }
  }

  /** What a Coordinator holds after its own updates and after recoveries by users fits its setting, in every run,
      whatever the settings of the others. */
  lemma HeldManifestFits(events: seq<Event>, c: nat)
    requires c in Exec(events).coords && Exec(events).coords[c].cell.Some?
    requires Exec(events).coords[c].cell.value !in FromPeers(events)
    ensures var w := Exec(events); var a := w.coords[c].cell.value;
            a < |w.objs| && FitsSetting(w.coords[c].allowInsecure, w.objs[a].manifest)
  {
    FitsInv(events);
    assert CellFits(Exec(events), c, FromPeers(events));
  }

  /** A recovery from a peer looks at seed and salt only: it succeeds whatever the setting, and what the Coordinator
      then holds fits its setting exactly if the latest manifest does. */
  lemma PeerRecoveryFitsExactly(events: seq<Event>, tid: nat, choice: Choice) returns (n: nat)
    requires tid in Exec(events).threads && Exec(events).threads[tid].ResetLoad?
    requires Exec(events).threads[tid].source.Peers?
    requires var w := Exec(events); var c := w.threads[tid].coord; c in w.coords && SeenStale(w, c)
    requires MayRecover(Exec(events), Exec(events).threads[tid].source, false)
    ensures var w, w' := Exec(events), Exec(events + Repeated(tid, choice, n));
            var c := w.threads[tid].coord;
            && c in w'.coords && w'.coords[c].cell.Some? && w'.coords[c].cell.value < |w'.objs| && w.log != []
            && w'.coords[c].allowInsecure == w.coords[c].allowInsecure
            && (FitsSetting(w'.coords[c].allowInsecure, w'.objs[w'.coords[c].cell.value].manifest)
                <==> FitsSetting(w.coords[c].allowInsecure, w.log[|w.log| - 1]))
  {
    n := RecoverySucceedsExactly(events, tid, choice);
    var run := RunAfter(events, tid, choice);
    RunAfterIsAlone(events, tid, choice);
    AloneKeepsFlags(run, tid, choice, n);
  }
}
