/** What holds in every run of any number of Coordinators. */
module ProtocolTheorems {
  import opened Ideal
  import opened Chain
  import opened Manifests
  import opened Protocol
  import opened ProtocolInvariant
  import opened ProtocolSteps
  import opened ProtocolEffects
  import opened Walks

  // ---- The history as the store shows it ----

  ghost function Positions(w: World, k: nat): (r: seq<Hash>)
    requires k <= |w.log|
  {
    seq(k, i requires 0 <= i < k => TipAt(w, k - i))
  }

  lemma StoredTransition(w: World, k: nat)
    requires Inv(w) && k < |w.log|
    ensures var t := Transition(Digest(w.log[k]), TipAt(w, k));
            && TipAt(w, k + 1) == TransitionDigest(t)
            && At(Transitions, TransitionDigest(t)) in w.kv
            && w.kv[At(Transitions, TransitionDigest(t))] == Marshal(t)
  {
    TipAtStep(w, k);
    assert EntryStored(w, k);
    var t := Transition(Digest(w.log[k]), TipAt(w, k));
    assert Digest(w.kv[At(Transitions, TransitionDigest(t))]) == TransitionDigest(t);
    DigestInjective(w.kv[At(Transitions, TransitionDigest(t))], Marshal(t));
  }

  lemma {:induction false} VisitedAt(w: World, k: nat)
    requires Inv(w) && k <= |w.log|
    ensures Visited(w.kv, TipAt(w, k)) == Some(Positions(w, k))
  {
    if k > 0 {
      VisitedAt(w, k - 1);
      StoredTransition(w, k - 1);
      VisitedStep(w.kv, Transition(Digest(w.log[k - 1]), TipAt(w, k - 1)));
      assert Positions(w, k) == [TipAt(w, k)] + Positions(w, k - 1);
    }
  }

  lemma AncestorAt(w: World, i: nat, k: nat)
    requires Inv(w) && 1 <= i <= |w.log| && k <= |w.log|
    ensures Ancestor(w.kv, TipAt(w, i), TipAt(w, k)) <==> i <= k
  {
    VisitedAt(w, k);
    if i <= k {
      assert Positions(w, k)[k - i] == TipAt(w, i);
    } else if TipAt(w, i) in Positions(w, k) {
      var j :| 0 <= j < k && Positions(w, k)[j] == TipAt(w, i);
      TipAtInjective(w, i, k - j);
    }
  }

  lemma StoredPolicies(w: World, k: nat)
    requires Inv(w) && k < |w.log|
    ensures ParseManifest(w.log[k]).Some?
    ensures forall reference :: reference in ParseManifest(w.log[k]).value.policies ==> PolicyFound(w.kv, reference)
    ensures Fetch(w.kv, map[], ManifestsKind, Digest(w.log[k])) == Some(w.log[k])
  {
    assert EntryStored(w, k);
    DigestInjective(w.kv[At(ManifestsKind, Digest(w.log[k]))], w.log[k]);
  }

  lemma {:induction false} HistoryAt(w: World, k: nat)
    requires Inv(w) && k <= |w.log|
    ensures HistoryOf(w.kv, TipAt(w, k)) == Some(w.log[..k])
  {
    if k > 0 {
      HistoryAt(w, k - 1);
      StoredTransition(w, k - 1);
      StoredPolicies(w, k - 1);
      var t := Transition(Digest(w.log[k - 1]), TipAt(w, k - 1));
      DigestNotZero(Marshal(t));
      TransitionCodec(t, Marshal(t));
      assert w.log[..k] == w.log[..k - 1] + [w.log[k - 1]];
    }
  }

  /** The transition that `transitions/latest` names, all-zero before the first SetManifest. */
  ghost function LatestTip(kv: Store): (r: Hash) {
    match UnmarshalLatest(Current(kv))
    case None => ZeroHash()
    case Some(l) => l.tip
  }

  lemma LatestTipIs(events: seq<Event>)
    ensures var w := Exec(events); Inv(w) && LatestTip(w.kv) == TipAt(w, |w.log|)
  {
    LatestIs(events);
  }

  /** The history variable is what a reader of the store finds: starting from `transitions/latest`,
      every transition, manifest and policy is there, and the manifests are the logged ones. */
  lemma LatestHistory(events: seq<Event>)
    ensures var w := Exec(events); HistoryOf(w.kv, LatestTip(w.kv)) == Some(w.log)
  {
    LatestTipIs(events);
    HistoryAt(Exec(events), |Exec(events).log|);
    assert Exec(events).log[..|Exec(events).log|] == Exec(events).log;
  }

  // ---- Linear history ----

  lemma MovedLatestAppends(w: World, e: Event)
    requires Current(Step(w, e).kv) != Current(w.kv)
    ensures |Step(w, e).log| == |w.log| + 1
  {
    if !Publishes(w, e) {
      LatestUnchanged(w, e);
    }
  }

  /** `tip` names a persisted transition that follows `previous` and whose manifest is persisted. */
  ghost predicate Succeeds(kv: Store, tip: Hash, previous: Hash) {
    exists t :: && TransitionDigest(t) == tip
                && t.previous == previous
                && Fetch(kv, map[], Transitions, tip) == Some(Marshal(t))
                && Fetch(kv, map[], ManifestsKind, t.manifestHash).Some?
  }

  lemma PositionSucceeds(w: World, k: nat)
    requires Inv(w) && k < |w.log|
    ensures Succeeds(w.kv, TipAt(w, k + 1), TipAt(w, k))
  {
    StoredTransition(w, k);
    StoredPolicies(w, k);
    var t := Transition(Digest(w.log[k]), TipAt(w, k));
    assert TransitionDigest(t) == TipAt(w, k + 1);
  }

  /** Whenever `transitions/latest` changes, the transition it now names is persisted, and its predecessor is
      exactly the transition it named before. */
  lemma EachValueSucceedsTheReplaced(events: seq<Event>, e: Event)
    requires Current(Exec(events + [e]).kv) != Current(Exec(events).kv)
    ensures var kv, kv' := Exec(events).kv, Exec(events + [e]).kv; Succeeds(kv', LatestTip(kv'), LatestTip(kv))
  {
    assert (events + [e])[..|events|] == events;
    var w, w' := Exec(events), Exec(events + [e]);
    MovedLatestAppends(w, e);
    LatestTipIs(events);
    LatestTipIs(events + [e]);
    RunGrows(events, [e]);
    TipAtGrows(w, w', |w.log|);
    PositionSucceeds(w', |w.log|);
  }

  lemma NothingNewBetween(w0: World, w1: World, w2: World)
    requires Grows(w0, w1) && Grows(w1, w2)
    requires TipAt(w2, |w2.log|) == TipAt(w0, |w0.log|)
    ensures w1.log == w0.log
  {
    TipAtGrows(w0, w2, |w0.log|);
    TipAtInjective(w2, |w2.log|, |w0.log|);
    assert w1.log[..|w0.log|] == w0.log;
  }

  /** A transition that `transitions/latest` has left is never named again. */
  lemma LatestNeverReturns(events: seq<Event>, between: seq<Event>, after: seq<Event>)
    requires LatestTip(Exec(events + between + after).kv) == LatestTip(Exec(events).kv)
    ensures LatestTip(Exec(events + between).kv) == LatestTip(Exec(events).kv)
    ensures Exec(events + between).log == Exec(events).log
  {
    RunGrows(events, between);
    RunGrows(events + between, after);
    LatestTipIs(events);
    LatestTipIs(events + between);
    LatestTipIs(events + between + after);
    NothingNewBetween(Exec(events), Exec(events + between), Exec(events + between + after));
  }

  /** What was ever published stays an ancestor of whatever is the latest transition later. */
  lemma PublishedForever(events: seq<Event>, more: seq<Event>)
    ensures var w, w' := Exec(events), Exec(events + more);
            && (w.log != [] ==> Ancestor(w'.kv, LatestTip(w.kv), LatestTip(w'.kv)))
            && w.log <= w'.log
            && HistoryOf(w'.kv, LatestTip(w'.kv)) == Some(w'.log)
  {
    var w, w' := Exec(events), Exec(events + more);
    RunGrows(events, more);
    LatestTipIs(events);
    LatestTipIs(events + more);
    LatestHistory(events + more);
    if w.log != [] {
      TipAtGrows(w, w', |w.log|);
      AncestorAt(w', |w.log|, |w'.log|);
    }
  }

  /** The transition that a published value names builds on the transition before it. */
  lemma PublishedBase(w: World, k: nat, t: Transition)
    requires Inv(w) && k < |w.records| && TransitionDigest(t) == w.records[k].value.tip
    ensures k < |w.log| && t == Transition(Digest(w.log[k]), TipAt(w, k))
  {
    assert EntryRecorded(w, k);
    TipAtStep(w, k);
    TransitionDigestInjective(t, Transition(Digest(w.log[k]), TipAt(w, k)));
  }

  /** Of all updates that build on the same transition, on whatever Coordinators and whenever, at most one
      gets past SetLatest. */
  lemma OneWinner(events: seq<Event>, i: nat, j: nat, t: Transition, u: Transition)
    requires i < |Exec(events).records| && j < |Exec(events).records|
    requires TransitionDigest(t) == Exec(events).records[i].value.tip
    requires TransitionDigest(u) == Exec(events).records[j].value.tip
    requires t.previous == u.previous
    ensures i == j
  {
    ExecInv(events);
    var w := Exec(events);
    PublishedBase(w, i, t);
    PublishedBase(w, j, u);
    TipAtInjective(w, i, j);
  }

  /** An update whose base has been built on already is going to fail in SetLatest. */
  lemma LateUpdateFails(events: seq<Event>, tid: nat, k: nat, t: Transition)
    requires tid in Exec(events).threads && Exec(events).threads[tid].SwapLatest? && k < |Exec(events).records|
    requires TransitionDigest(t) == Exec(events).records[k].value.tip
    requires t.previous == Base(Exec(events), Exec(events).threads[tid].u.previous)
    ensures Current(Exec(events).kv) != ExpectedLatest(Exec(events), Exec(events).threads[tid].u.previous)
  {
    ExecInv(events);
    var w := Exec(events);
    var previous := w.threads[tid].u.previous;
    assert ThreadOk(w, tid, w.threads[tid]);
    PublishedBase(w, k, t);
    BaseIs(w, previous);
    TipAtInjective(w, k, Generation(w, previous));
    if Current(w.kv) == ExpectedLatest(w, previous) {
      PublishableIsNewest(w, w.threads[tid].u);
    }
  }

  /** In particular, at most one of them is past SetLatest at a time. */
  lemma OneWinnerInFlight(events: seq<Event>, i: nat, j: nat)
    requires var w := Exec(events);
             && i in w.threads && j in w.threads && w.threads[i].SwapState? && w.threads[j].SwapState?
             && Base(w, w.threads[i].u.previous) == Base(w, w.threads[j].u.previous)
    ensures i == j
  {
    ExecInv(events);
    var w := Exec(events);
    assert ThreadOk(w, i, w.threads[i]) && ThreadOk(w, j, w.threads[j]);
    BaseIs(w, w.threads[i].u.previous);
    BaseIs(w, w.threads[j].u.previous);
    TipAtInjective(w, Generation(w, w.threads[i].u.previous), Generation(w, w.threads[j].u.previous));
  }

  lemma BaseIs(w: World, a: Option<Addr>)
    requires Inv(w)
    ensures Generation(w, a) <= |w.log| && Base(w, a) == TipAt(w, Generation(w, a))
  {
    if a.Some? && a.value < |w.objs| {
      assert StateOk(w, w.objs[a.value]) && EntryRecorded(w, w.objs[a.value].generation - 1);
    }
  }

  /** No value of `transitions/latest` is replaced twice. */
  lemma ReplacedOnce(events: seq<Event>, i: nat, j: nat)
    requires i < |Exec(events).records| && j < |Exec(events).records|
    requires Exec(events).records[i].replaced == Exec(events).records[j].replaced
    ensures i == j
  {
    ExecInv(events);
    var w := Exec(events);
    assert EntryRecorded(w, i) && EntryRecorded(w, j);
    if i > 0 && j > 0 {
      assert EntryRecorded(w, i - 1) && EntryRecorded(w, j - 1);
      assert w.records[i].replaced[..32] == TipAt(w, i) && w.records[j].replaced[..32] == TipAt(w, j);
      TipAtInjective(w, i, j);
    }
  }

  // ---- Held states ----

  /** A state whose transition has `n` transitions behind and including it, which commit to the
      manifests `log`, the state's own last. */
  ghost predicate Describes(kv: Store, s: State, log: seq<Bytes>) {
    && |log| == s.generation >= 1
    && log[s.generation - 1] == s.manifest
    && HistoryOf(kv, s.latest.tip) == Some(log)
    && Visited(kv, s.latest.tip).Some? && |Visited(kv, s.latest.tip).value| == s.generation
    && s.latest.tip == TransitionDigest(LastTransition(log))
  }

  lemma HeldState(w: World, a: Addr)
    requires Inv(w) && a < |w.objs|
    ensures w.objs[a].generation <= |w.log| && Describes(w.kv, w.objs[a], w.log[..w.objs[a].generation])
  {
    var s := w.objs[a];
    assert StateOk(w, s) && EntryRecorded(w, s.generation - 1);
    VisitedAt(w, s.generation);
    HistoryAt(w, s.generation);
  }

  /** Every State object, however it came about: its transition is an ancestor of the latest one, its
      generation is the number of transitions a walk meets, its manifest is the one the transition
      commits to, and GetHistory finds everything there is to find. */
  lemma HeldStates(events: seq<Event>, a: Addr)
    requires a < |Exec(events).objs|
    ensures var w := Exec(events); var s := w.objs[a];
            && Ancestor(w.kv, s.latest.tip, LatestTip(w.kv))
            && s.generation <= |w.log|
            && Describes(w.kv, s, w.log[..s.generation])
  {
    LatestTipIs(events);
    var w := Exec(events);
    HeldState(w, a);
    BaseIs(w, Some(a));
    AncestorAt(w, w.objs[a].generation, |w.log|);
  }

  /** A state stays readable: later stores give the same answer. */
  lemma HeldHistoryIsStable(events: seq<Event>, more: seq<Event>, a: Addr)
    requires a < |Exec(events).objs|
    ensures var w, w' := Exec(events), Exec(events + more);
            && a < |w'.objs| && w'.objs[a] == w.objs[a]
            && HistoryOf(w'.kv, w.objs[a].latest.tip) == HistoryOf(w.kv, w.objs[a].latest.tip)
  {
    var w, w' := Exec(events), Exec(events + more);
    RunGrows(events, more);
    assert Inv(w) && Inv(w') by {
      ExecInv(events);
      ExecInv(events + more);
    }
    HeldState(w, a);
    HeldState(w', a);
    var n := w.objs[a].generation;
    assert w'.log[..n] == w.log[..n];
  }

  /** All states of all Coordinators, from updates, user recovery and peer recovery alike, carry
      the seed and salt of the first SetManifest that won. */
  lemma SeedAgreement(events: seq<Event>, a: Addr)
    requires a < |Exec(events).objs|
    ensures |Exec(events).records| > 0
    ensures Exec(events).objs[a].seeds == Exec(events).records[0].seeds
  {
    ExecInv(events);
    assert StateOk(Exec(events), Exec(events).objs[a]);
  }

  /** And the winner's seeds never change, nor does who won. */
  lemma FirstRecordIsFixed(events: seq<Event>, more: seq<Event>)
    requires Exec(events).records != []
    ensures Exec(events + more).records != [] && Exec(events + more).records[0] == Exec(events).records[0]
  {
    RunGrows(events, more);
  }

  // ---- One Coordinator's cell ----

  /** A Coordinator that does not restart only ever moves on to a state with a longer history that
      extends the one it had. */
  lemma CellMovesForward(events: seq<Event>, e: Event, c: nat)
    requires c in Exec(events).coords && Exec(events).coords[c].cell.Some? && !(e.Boot? && e.coord == c)
    ensures var w, w' := Exec(events), Exec(events + [e]);
            && c in w'.coords && w'.coords[c].cell.Some?
            && var a, b := w.coords[c].cell.value, w'.coords[c].cell.value;
            && a < |w.objs| && b < |w'.objs|
            && (a == b || (&& w'.objs[b].generation > w.objs[a].generation
                           && Ancestor(w'.kv, w.objs[a].latest.tip, w'.objs[b].latest.tip)))
  {
    assert (events + [e])[..|events|] == events;
    var w, w' := Exec(events), Exec(events + [e]);
    ExecInv(events);
    ExecInv(events + [e]);
    StepGrows(w, e);
    var a := w.coords[c].cell.value;
    if !Installs(w, e) {
      ObjectsUnchanged(w, e);
    } else {
      InstallIsNewer(w, e);
      var b := w'.coords[c].cell.value;
      if a != b {
        assert StateOk(w', w'.objs[a]) && StateOk(w', w'.objs[b]);
        BaseIs(w', Some(a));
        BaseIs(w', Some(b));
        AncestorAt(w', w'.objs[a].generation, w'.objs[b].generation);
      }
    }
  }

  /** The State object an event creates is newer than the state it is swapped against. */
  lemma InstallIsNewer(w: World, e: Event)
    requires Inv(w) && Installs(w, e)
    ensures var t, w' := w.threads[e.tid], Step(w, e);
            var expected := if t.SwapState? then t.u.previous else t.r.previous;
            && |w'.objs| == |w.objs| + 1
            && w'.objs[|w.objs|].generation > Generation(w, expected)
            && w'.coords.Keys == w.coords.Keys
            && (forall d :: d in w.coords && d != t.On() ==> w'.coords[d].cell == w.coords[d].cell)
            && w'.coords[t.On()].cell
                == (if w.coords[t.On()].cell == expected then Some(|w.objs|) else w.coords[t.On()].cell)
  {
    assert ThreadOk(w, e.tid, w.threads[e.tid]);
  }

  lemma SupersededBy(w: World, tid: nat, t: Thread)
    requires Inv(w) && ThreadOk(w, tid, t) && CellOk(w, t) && t.SwapState? && w.coords[t.u.coord].cell != t.u.previous
    ensures w.coords[t.u.coord].cell.Some? && w.coords[t.u.coord].cell.value < |w.objs|
    ensures var n := Generation(w, w.coords[t.u.coord].cell);
            exists k :: 1 <= k <= n <= |w.log| && t.latest.tip == TipAt(w, k)
  {
    var n := Generation(w, t.u.previous);
    assert EntryRecorded(w, n);
    assert StateOk(w, w.objs[w.coords[t.u.coord].cell.value]);
  }

  /** When SetLatest has succeeded but the swap of the Coordinator's own cell is going to fail,
      the current state already builds on the intermediate state that is handed back. */
  lemma LostSwapIsSuperseded(events: seq<Event>, tid: nat)
    requires tid in Exec(events).threads && Exec(events).threads[tid].SwapState?
    requires var w := Exec(events);
             var u := w.threads[tid].u;
             u.coord in w.coords && w.coords[u.coord].cell != u.previous
    ensures var w := Exec(events); var t := w.threads[tid];
            && w.coords[t.u.coord].cell.Some? && w.coords[t.u.coord].cell.value < |w.objs|
            && Ancestor(w.kv, t.latest.tip, w.objs[w.coords[t.u.coord].cell.value].latest.tip)
  {
    ExecInv(events);
    var w := Exec(events);
    var t := w.threads[tid];
    SupersededBy(w, tid, t);
    BaseIs(w, w.coords[t.u.coord].cell);
    var n := Generation(w, w.coords[t.u.coord].cell);
    var k :| 1 <= k <= n <= |w.log| && t.latest.tip == TipAt(w, k);
    AncestorAt(w, k, n);
  }

  // ---- Staleness ----

  /** The transition of a stale state is a strict ancestor of the latest one. */
  lemma StaleMeansOutdated(events: seq<Event>, a: Addr)
    requires a in Exec(events).stale
    ensures var w := Exec(events);
            && a < |w.objs|
            && Ancestor(w.kv, w.objs[a].latest.tip, LatestTip(w.kv))
            && w.objs[a].latest.tip != LatestTip(w.kv)
  {
    LatestTipIs(events);
    var w := Exec(events);
    HeldStates(events, a);
    BaseIs(w, Some(a));
    if w.objs[a].latest.tip == LatestTip(w.kv) {
      TipAtInjective(w, w.objs[a].generation, |w.log|);
    }
  }

  /** At the end of its walk the watcher marks the state stale exactly if the transition it was
      notified about is not among the state's own transition and its ancestors; the notified
      transition is then a strict descendant. */
  lemma MarkedExactlyByDescendants(events: seq<Event>, e: Event)
    requires e.Advance? && e.tid in Exec(events).threads
    requires var t := Exec(events).threads[e.tid]; t.WatchWalk? && t.cursor == ZeroHash()
    ensures var w, w' := Exec(events), Exec(events + [e]); var t := w.threads[e.tid];
            && t.watched < |w.objs|
            && var tip := w.objs[t.watched].latest.tip;
            && (Ancestor(w.kv, t.target, tip) ==> w'.stale == w.stale)
            && (!Ancestor(w.kv, t.target, tip) ==>
                  w'.stale == w.stale + {t.watched} && Ancestor(w.kv, tip, t.target) && tip != t.target)
            && Ancestor(w.kv, t.target, LatestTip(w.kv))
  {
    assert (events + [e])[..|events|] == events;
    LatestTipIs(events);
    var w := Exec(events);
    var t := w.threads[e.tid];
    assert ThreadOk(w, e.tid, t);
    var n := w.objs[t.watched].generation;
    TipAtInjective(w, n - t.depth, 0);
    BaseIs(w, Some(t.watched));
    AncestorAt(w, t.rank, n);
    AncestorAt(w, n, t.rank);
    AncestorAt(w, t.rank, |w.log|);
  }

  // ---- Authorised evolution ----

  /** Each manifest but the first was vouched for by a workload owner key of the manifest right
      before it, at exactly that position, although the check and the write are many steps apart. */
  lemma AuthorisedEvolution(events: seq<Event>, k: nat)
    requires 0 < k < |Exec(events).log|
    ensures var w := Exec(events);
            && k < |w.records| && w.records[k].request.manifest == w.log[k]
            && ParseManifest(w.log[k - 1]).Some? && ParseManifest(w.log[k]).Some?
            && var owners := ParseManifest(w.log[k - 1]).value.workloadOwners;
            && (exists i :: 0 <= i < |owners| && Vouches(owners[i], Tip(w.log[..k]), w.records[k].request))
            && ParseManifest(w.log[k]).value.seedshareOwners == ParseManifest(w.log[k - 1]).value.seedshareOwners
  {
    ExecInv(events);
    var w := Exec(events);
    assert Accepted(w, k);
    UpdateNeedsOwner(w.records[k].allowInsecure, ParseManifest(w.log[k - 1]).value, TipAt(w, k),
                     ParseManifest(w.log[k]).value, w.records[k].request);
  }

  /** Without workload owners the history is frozen, forever and for every Coordinator. */
  lemma FrozenWithoutOwners(events: seq<Event>, more: seq<Event>)
    requires var log := Exec(events).log;
             log != [] && ParseManifest(log[|log| - 1]).Some?
                 && ParseManifest(log[|log| - 1]).value.workloadOwners == []
    ensures Exec(events + more).log == Exec(events).log
    ensures LatestTip(Exec(events + more).kv) == LatestTip(Exec(events).kv)
  {
    RunGrows(events, more);
    var w, w' := Exec(events), Exec(events + more);
    if |w'.log| > |w.log| {
      AuthorisedEvolution(events + more, |w.log|);
    }
    LatestTipIs(events);
    LatestTipIs(events + more);
  }

  lemma {:induction false} SeedshareOwnersNeverChange(events: seq<Event>, k: nat)
    requires k < |Exec(events).log|
    ensures ParseManifest(Exec(events).log[0]).Some? && ParseManifest(Exec(events).log[k]).Some?
    ensures ParseManifest(Exec(events).log[k]).value.seedshareOwners
              == ParseManifest(Exec(events).log[0]).value.seedshareOwners
  {
    ExecInv(events);
    assert Accepted(Exec(events), k) && Accepted(Exec(events), 0);
    if k > 0 {
      AuthorisedEvolution(events, k);
      SeedshareOwnersNeverChange(events, k - 1);
    }
  }

  /** A detached signature gets at most one manifest into the history. */
  lemma SignatureAppliesOnce(events: seq<Event>, i: nat, j: nat)
    requires i < |Exec(events).records| && j < |Exec(events).records|
    requires Exec(events).records[i].request.signature == Exec(events).records[j].request.signature
    requires Exec(events).records[i].request.signature.Some? && Exec(events).records[i].request.signature.value != []
    ensures i == j
  {
    ExecInv(events);
    var w := Exec(events);
    var keys1 := SigningKeys(w, i);
    var keys2 := SigningKeys(w, j);
    SignatureFixesManifestAndPosition(keys1, TipAt(w, i), w.records[i].request, keys2, TipAt(w, j),
                                      w.records[j].request);
    TipAtInjective(w, i, j);
  }

  /** The keys that the signature of an accepted request was checked against. */
  lemma SigningKeys(w: World, k: nat) returns (keys: seq<string>)
    requires Inv(w) && k < |w.records|
    requires w.records[k].request.signature.Some? && w.records[k].request.signature.value != []
    ensures ValidateSignature(keys, TipAt(w, k), w.records[k].request) == Accept
  {
    assert Accepted(w, k);
    var from := if k == 0 then 0 else k - 1;
    keys := ParseManifest(w.log[from]).value.workloadOwners;
  }

  // ---- Equal settings ----

  ghost predicate UniformBoots(events: seq<Event>, flag: bool) {
    forall i :: 0 <= i < |events| && events[i].Boot? ==> events[i].allowInsecure == flag
  }

  ghost predicate ThreadSetting(t: Thread, flag: bool) {
    t.StorePolicies? || t.StoreManifest? || t.StoreTransition? || t.SwapLatest? || t.SwapState? ==>
        t.u.allowInsecure == flag
  }

  ghost predicate Setting(w: World, flag: bool) {
    && (forall c :: c in w.coords ==> w.coords[c].allowInsecure == flag)
    && (forall tid :: tid in w.threads ==> ThreadSetting(w.threads[tid], flag))
    && (forall k :: 0 <= k < |w.records| ==> w.records[k].allowInsecure == flag)
  }

  ghost predicate SameFlags(w: World, w': World) {
    && w'.coords.Keys == w.coords.Keys
    && forall c :: c in w.coords ==> w'.coords[c].allowInsecure == w.coords[c].allowInsecure
  }

  lemma UpdateKeepsFlags(w: World, tid: nat, t: Thread, choice: Choice)
    requires t.On() in w.coords
    requires t.StorePolicies? || t.StoreManifest? || t.StoreTransition? || t.SwapLatest? || t.SwapState?
    ensures SameFlags(w, AdvanceThread(w, tid, t, choice))
  {
  }

  lemma ReadKeepsFlags(w: World, tid: nat, t: Thread, choice: Choice)
    requires t.On() in w.coords && (t.ReadTransition? || t.ReadManifest?)
    ensures SameFlags(w, AdvanceThread(w, tid, t, choice))
  {
  }

  lemma WalkKeepsFlags(w: World, tid: nat, t: Thread, choice: Choice)
    requires t.On() in w.coords && (t.CountTransitions? || t.WatchWalk? || t.InstallState?)
    ensures SameFlags(w, AdvanceThread(w, tid, t, choice))
  {
  }

  lemma PlainKeepsFlags(w: World, tid: nat, t: Thread, choice: Choice)
    requires t.On() in w.coords
    requires !(t.StorePolicies? || t.StoreManifest? || t.StoreTransition? || t.SwapLatest? || t.SwapState?)
    requires !(t.ReadTransition? || t.ReadManifest? || t.CountTransitions? || t.WatchWalk? || t.InstallState?)
    ensures AdvanceThread(w, tid, t, choice).coords == w.coords
  {
  }

  lemma AdvanceKeepsFlags(w: World, tid: nat, t: Thread, choice: Choice)
    requires t.On() in w.coords
    ensures SameFlags(w, AdvanceThread(w, tid, t, choice))
  {
    if t.StorePolicies? || t.StoreManifest? || t.StoreTransition? || t.SwapLatest? || t.SwapState? {
      UpdateKeepsFlags(w, tid, t, choice);
    } else if t.ReadTransition? || t.ReadManifest? {
      ReadKeepsFlags(w, tid, t, choice);
    } else if t.CountTransitions? || t.WatchWalk? || t.InstallState? {
      WalkKeepsFlags(w, tid, t, choice);
    } else {
      PlainKeepsFlags(w, tid, t, choice);
    }
  }

  lemma AdvanceOthers(w: World, tid: nat, t: Thread, choice: Choice)
    requires t.On() in w.coords && tid in w.threads
    ensures OnlyThread(w, AdvanceThread(w, tid, t, choice), tid)
  {
  }

  lemma AdvanceThreadSetting(w: World, tid: nat, t: Thread, choice: Choice, flag: bool)
    requires tid in w.threads && w.threads[tid] == t && t.On() in w.coords
    requires ThreadSetting(t, flag) && w.coords[t.On()].allowInsecure == flag
    ensures var w' := AdvanceThread(w, tid, t, choice); tid in w'.threads ==> ThreadSetting(w'.threads[tid], flag)
  {
  }

  lemma AdvanceKeepsSetting(w: World, tid: nat, t: Thread, choice: Choice, flag: bool)
    requires Setting(w, flag) && tid in w.threads && w.threads[tid] == t && t.On() in w.coords
    ensures Setting(AdvanceThread(w, tid, t, choice), flag)
  {
    assert ThreadSetting(t, flag);
    AdvanceKeepsFlags(w, tid, t, choice);
    AdvanceOthers(w, tid, t, choice);
    AdvanceThreadSetting(w, tid, t, choice, flag);
    if !t.SwapLatest? || Current(w.kv) != ExpectedLatest(w, t.u.previous) {
      AdvanceKeepsHistory(w, tid, t, choice);
    }
  }

  lemma {:induction false} UniformSetting(events: seq<Event>, flag: bool)
    requires UniformBoots(events, flag)
    ensures Setting(Exec(events), flag)
  {
    if events != [] {
      var w, e := Exec(events[..|events| - 1]), events[|events| - 1];
      UniformSetting(events[..|events| - 1], flag);
      if e.Advance? && e.tid in w.threads && w.threads[e.tid].On() in w.coords {
        AdvanceKeepsSetting(w, e.tid, w.threads[e.tid], e.choice, flag);
      }
    }
  }

  /** With equal settings of all Coordinators, secure and insecure manifests never share a history. */
  lemma SecurityLevelIsUniform(events: seq<Event>, flag: bool, k: nat)
    requires UniformBoots(events, flag) && k < |Exec(events).log|
    ensures ParseManifest(Exec(events).log[k]).Some?
    ensures var m := ParseManifest(Exec(events).log[k]).value; m.hasInsecure == flag && !(m.hasInsecure && m.hasSecure)
  {
    ExecInv(events);
    UniformSetting(events, flag);
    assert Accepted(Exec(events), k);
  }

  // ---- The tree of stored transitions ----

  /** Failed updates leave transitions behind, but each of them follows a published one. */
  ghost predicate OneStepOff(w: World, h: Hash, manifestHash: Hash, j: nat) {
    && j <= |w.log|
    && At(Transitions, h) in w.kv
    && w.kv[At(Transitions, h)] == Marshal(Transition(manifestHash, TipAt(w, j)))
  }

  ghost predicate Attached(w: World, h: Hash) {
    exists manifestHash, j :: OneStepOff(w, h, manifestHash, j)
  }

  ghost predicate TreeOk(w: World) {
    forall h :: At(Transitions, h) in w.kv ==> Attached(w, h)
  }

  lemma AttachedGrows(w: World, w': World, h: Hash)
    requires Attached(w, h) && Grows(w, w')
    ensures Attached(w', h)
  {
    var manifestHash, j :| OneStepOff(w, h, manifestHash, j);
    TipAtGrows(w, w', j);
    assert OneStepOff(w', h, manifestHash, j);
  }

  lemma AdvanceKeepsTransitions(w: World, tid: nat, t: Thread, choice: Choice, h: Hash)
    requires t.On() in w.coords && !t.StoreTransition? && At(Transitions, h) in AdvanceThread(w, tid, t, choice).kv
    ensures At(Transitions, h) in w.kv
  {
  }

  lemma TreeStep(w: World, e: Event, h: Hash)
    requires Inv(w) && TreeOk(w) && At(Transitions, h) in Step(w, e).kv
    ensures Attached(Step(w, e), h)
  {
    var w' := Step(w, e);
    StepGrows(w, e);
    if At(Transitions, h) in w.kv {
      AttachedGrows(w, w', h);
    } else {
      var t := w.threads[e.tid];
      if !t.StoreTransition? {
        AdvanceKeepsTransitions(w, e.tid, t, e.choice, h);
      } else {
        BaseIs(w, t.u.previous);
        TipAtGrows(w, w', Generation(w, t.u.previous));
        assert OneStepOff(w', h, t.manifestHash, Generation(w, t.u.previous));
      }
    }
  }

  lemma {:induction false} TreeInv(events: seq<Event>)
    ensures TreeOk(Exec(events))
  {
    if events != [] {
      var w, e := Exec(events[..|events| - 1]), events[|events| - 1];
      TreeInv(events[..|events| - 1]);
      ExecInv(events[..|events| - 1]);
      forall h | At(Transitions, h) in Step(w, e).kv
        ensures Attached(Step(w, e), h)
      {
        TreeStep(w, e, h);
      }
    }
  }

  /** The path from a stored transition to the root. */
  lemma PathOf(w: World, h: Hash, manifestHash: Hash, n: nat)
    requires Inv(w) && OneStepOff(w, h, manifestHash, n)
    ensures h == TransitionDigest(Transition(manifestHash, TipAt(w, n)))
    ensures Visited(w.kv, h) == Some([h] + Positions(w, n))
  {
    assert Digest(w.kv[At(Transitions, h)]) == h;
    VisitedAt(w, n);
    VisitedStep(w.kv, Transition(manifestHash, TipAt(w, n)));
  }

  lemma PathDistinct(w: World, h: Hash, manifestHash: Hash, n: nat, i: nat, j: nat)
    requires Inv(w) && OneStepOff(w, h, manifestHash, n) && h == TransitionDigest(Transition(manifestHash, TipAt(w, n)))
    requires i < j <= n
    ensures ([h] + Positions(w, n))[i] != ([h] + Positions(w, n))[j]
  {
    var path := [h] + Positions(w, n);
    if path[i] == path[j] {
      if i == 0 {
        TipAtStep(w, n - j);
        TransitionDigestInjective(Transition(manifestHash, TipAt(w, n)),
                                  Transition(Digest(w.log[n - j]), TipAt(w, n - j)));
        TipAtInjective(w, n, n - j);
      } else {
        TipAtInjective(w, n - i + 1, n - j + 1);
      }
    }
  }

  lemma WhereAttached(events: seq<Event>, h: Hash) returns (manifestHash: Hash, n: nat)
    requires At(Transitions, h) in Exec(events).kv
    ensures OneStepOff(Exec(events), h, manifestHash, n)
  {
    TreeInv(events);
    assert Attached(Exec(events), h);
    manifestHash, n :| OneStepOff(Exec(events), h, manifestHash, n);
  }

  ghost predicate AllDistinct(path: seq<Hash>) {
    forall i, j :: 0 <= i < j < |path| ==> path[i] != path[j]
  }

  lemma PathAllDistinct(w: World, h: Hash, manifestHash: Hash, n: nat)
    requires Inv(w) && OneStepOff(w, h, manifestHash, n) && h == TransitionDigest(Transition(manifestHash, TipAt(w, n)))
    ensures AllDistinct([h] + Positions(w, n))
  {
    var path := [h] + Positions(w, n);
    forall i, j | 0 <= i < j < |path|
      ensures path[i] != path[j]
    {
      PathDistinct(w, h, manifestHash, n, i, j);
    }
  }

  lemma PathPublished(w: World, h: Hash, n: nat, i: nat)
    requires Inv(w) && n <= |w.log| && 0 < i <= n
    ensures Ancestor(w.kv, ([h] + Positions(w, n))[i], TipAt(w, |w.log|))
  {
    AncestorAt(w, n - i + 1, |w.log|);
  }

  /** The ancestry of any stored transition, published or orphaned, is complete and acyclic, and
      apart from the transition itself it consists of published transitions. */
  lemma StoredAncestry(events: seq<Event>, h: Hash)
    requires At(Transitions, h) in Exec(events).kv
    ensures var w := Exec(events);
            && Visited(w.kv, h).Some?
            && var path := Visited(w.kv, h).value;
            && path != [] && path[0] == h
            && AllDistinct(path)
            && (forall i :: 0 < i < |path| ==> Ancestor(w.kv, path[i], LatestTip(w.kv)))
  {
    LatestTipIs(events);
    var w := Exec(events);
    var manifestHash, n := WhereAttached(events, h);
    PathOf(w, h, manifestHash, n);
    PathAllDistinct(w, h, manifestHash, n);
    forall i | 0 < i < |[h] + Positions(w, n)|
      ensures Ancestor(w.kv, ([h] + Positions(w, n))[i], LatestTip(w.kv))
    {
      PathPublished(w, h, n, i);
    }
  }
}
