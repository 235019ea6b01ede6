/** Every event preserves the invariant. */
module ProtocolSteps {
  import opened Ideal
  import opened Chain
  import opened Manifests
  import opened Protocol
  import opened ProtocolInvariant

  /** One thread moved on or ended; the others are where they were. */
  ghost predicate OnlyThread(w: World, w': World, tid: nat) {
    || w'.threads == w.threads - {tid}
    || (tid in w'.threads && w'.threads == w.threads[tid := w'.threads[tid]])
  }

  /** Nothing but content, caches and one thread has changed. */
  ghost predicate Plain(w: World, w': World, tid: nat) {
    && w'.objs == w.objs && w'.log == w.log && w'.records == w.records && w'.stale == w.stale
    && StoreGrows(w.kv, w'.kv) && ContentOk(w'.kv)
    && (Latest in w'.kv <==> Latest in w.kv) && (Latest in w.kv ==> w'.kv[Latest] == w.kv[Latest])
    && w'.coords.Keys == w.coords.Keys
    && (forall c :: c in w.coords ==> w'.coords[c].cell == w.coords[c].cell)
    && CachesOk(w')
    && OnlyThread(w, w', tid)
  }

  lemma EntriesKept(w: World, w': World)
    requires HistoryOk(w) && StoreGrows(w.kv, w'.kv) && w.log <= w'.log && w.records <= w'.records
    requires |w'.log| == |w'.records|
    ensures forall k :: 0 <= k < |w.log| ==> EntryStored(w', k) && Accepted(w', k) && EntryRecorded(w', k)
  {
    forall k | 0 <= k < |w.log|
      ensures EntryStored(w', k) && Accepted(w', k) && EntryRecorded(w', k)
    {
      assert EntryStored(w, k) && Accepted(w, k) && EntryRecorded(w, k);
      TipAtGrows(w, w', k);
      TipAtGrows(w, w', k + 1);
    }
  }

  lemma HistoryKept(w: World, w': World)
    requires HistoryOk(w) && StoreGrows(w.kv, w'.kv) && w'.log == w.log && w'.records == w.records
    requires (Latest in w'.kv <==> Latest in w.kv) && (Latest in w.kv ==> w'.kv[Latest] == w.kv[Latest])
    ensures HistoryOk(w')
  {
    EntriesKept(w, w');
  }

  lemma ThreadsKept(w: World, w': World, tid: nat)
    requires ThreadsOk(w) && Grows(w, w') && |w'.log| == |w'.records|
    requires w.coords.Keys <= w'.coords.Keys
    requires OnlyThread(w, w', tid)
    requires tid in w'.threads ==> ThreadOk(w', tid, w'.threads[tid])
    ensures ThreadsOk(w')
  {
    forall i | i in w'.threads
      ensures ThreadOk(w', i, w'.threads[i])
    {
      if i != tid {
        assert i in w.threads && w'.threads[i] == w.threads[i];
        ThreadOkGrows(w, w', i, w.threads[i]);
      }
    }
  }

  lemma StatesKept(w: World, w': World)
    requires StatesOk(w) && Grows(w, w') && |w'.log| == |w'.records| && w'.objs == w.objs
    requires forall c :: c in w'.coords && w'.coords[c].cell.Some? ==>
               c in w.coords && w'.coords[c].cell == w.coords[c].cell
    ensures StatesOk(w')
  {
    forall a | 0 <= a < |w'.objs|
      ensures StateOk(w', w'.objs[a])
    {
      StateOkGrows(w, w', w.objs[a]);
    }
  }

  lemma PlainStep(w: World, w': World, tid: nat)
    requires Inv(w) && Plain(w, w', tid)
    requires tid in w'.threads ==> ThreadOk(w', tid, w'.threads[tid]) && CellOk(w, w'.threads[tid])
    ensures Inv(w')
  {
    HistoryKept(w, w');
    assert Grows(w, w');
    ThreadsKept(w, w', tid);
    StatesKept(w, w');
    forall i | i in w'.threads
      ensures CellOk(w', w'.threads[i])
    {
      if i != tid {
        assert i in w.threads && CellOk(w, w.threads[i]);
      }
    }
  }

  // ---- The plain building blocks ----


  lemma StopKeeps(w: World, tid: nat)
    requires Inv(w)
    ensures Inv(Stop(w, tid))
  {
    PlainStep(w, Stop(w, tid), tid);
  }

  lemma GotoKeeps(w: World, tid: nat, t: Thread)
    requires Inv(w) && ThreadOk(w, tid, t) && CellOk(w, t)
    ensures Inv(Goto(w, tid, t))
  {
    var w' := Goto(w, tid, t);
    ThreadOkGrows(w, w', tid, t);
    PlainStep(w, w', tid);
  }

  lemma PutIsPlain(w: World, c: nat, kind: Kind, data: Bytes, tid: nat, t: Thread)
    requires Inv(w) && c in w.coords
    ensures var w' := Goto(Put(w, c, kind, data), tid, t);
            Plain(w, w', tid) && Grows(w, w') && Stored(w', kind, Digest(data))
  {
    var w' := Goto(Put(w, c, kind, data), tid, t);
    forall p | p in w.kv
      ensures p in w'.kv && (p.At? ==> w'.kv[p] == w.kv[p])
    {
      if p == At(kind, Digest(data)) {
        assert Digest(w.kv[At(kind, Digest(data))]) == Digest(data);
        DigestInjective(w.kv[p], data);
      }
    }
  }

  lemma ReadAnswer(w: World, c: nat, kind: Kind, h: Hash)
    requires ContentOk(w.kv) && CachesOk(w) && c in w.coords
    ensures Read(w, c, kind, h).Some? ==> Digest(Read(w, c, kind, h).value) == h
    ensures Stored(w, kind, h) ==> Read(w, c, kind, h).Some?
  {
    assert CacheSound(w.coords[c].cache);
  }

  lemma ReadKeepsCaches(w: World, c: nat, kind: Kind, h: Hash)
    requires Inv(w) && c in w.coords
    ensures CachesOk(AfterRead(w, c, kind, h))
  {
    ReadAnswer(w, c, kind, h);
    assert CacheSound(w.coords[c].cache);
    assert CacheSound(Remember(w.coords[c].cache, h, Read(w, c, kind, h)));
  }

  lemma StopAfterReadKeeps(w: World, c: nat, kind: Kind, h: Hash, tid: nat)
    requires Inv(w) && c in w.coords
    ensures Inv(Stop(AfterRead(w, c, kind, h), tid))
  {
    ReadKeepsCaches(w, c, kind, h);
    PlainStep(w, Stop(AfterRead(w, c, kind, h), tid), tid);
  }

  lemma GotoAfterReadKeeps(w: World, c: nat, kind: Kind, h: Hash, tid: nat, t: Thread)
    requires Inv(w) && c in w.coords && ThreadOk(w, tid, t) && CellOk(w, t)
    ensures Inv(Goto(AfterRead(w, c, kind, h), tid, t))
  {
    ReadKeepsCaches(w, c, kind, h);
    var w' := Goto(AfterRead(w, c, kind, h), tid, t);
    ThreadOkGrows(w, w', tid, t);
    PlainStep(w, w', tid);
  }

  /** A stored transition decodes to what its digest was computed from. */
  lemma FetchedTransition(w: World, c: nat, t: Transition)
    requires ContentOk(w.kv) && CachesOk(w) && c in w.coords
    requires Stored(w, Transitions, TransitionDigest(t))
    ensures FetchTransition(w.kv, w.coords[c].cache, TransitionDigest(t)) == Some(t)
  {
    ReadAnswer(w, c, Transitions, TransitionDigest(t));
    DigestInjective(Read(w, c, Transitions, TransitionDigest(t)).value, Marshal(t));
    TransitionCodec(t, Marshal(t));
  }

  /** Walking one transition back from a position of the history leads to the position before. */
  lemma FetchedAt(w: World, c: nat, k: nat)
    requires Inv(w) && c in w.coords && 1 <= k <= |w.log|
    ensures TipAt(w, k) != ZeroHash()
    ensures FetchTransition(w.kv, w.coords[c].cache, TipAt(w, k))
         == Some(Transition(Digest(w.log[k - 1]), TipAt(w, k - 1)))
  {
    TipAtStep(w, k - 1);
    assert EntryStored(w, k - 1);
    var t := Transition(Digest(w.log[k - 1]), TipAt(w, k - 1));
    DigestNotZero(Marshal(t));
    FetchedTransition(w, c, t);
  }

  // ---- SetManifest and UpdateState up to SetLatest ----

  lemma GivenPoliciesStored(w: World, u: Update)
    requires PoliciesComplete(u.request.manifest, u.request.policies)
    requires forall i :: 0 <= i < |u.request.policies| ==> Stored(w, Policies, Digest(u.request.policies[i]))
    ensures PoliciesStored(w, ParseManifest(u.request.manifest).value)
  {
    forall reference | reference in ParseManifest(u.request.manifest).value.policies
      ensures HexBytes(reference).Some? && Stored(w, Policies, Reference(HexBytes(reference).value))
    {
      assert PolicyGiven(reference, u.request.policies);
      var i :| 0 <= i < |u.request.policies| && Fits(reference, u.request.policies[i]);
      ReferenceFits(reference, u.request.policies[i]);
    }
  }

  lemma PolicyPutKeeps(w: World, tid: nat, u: Update, next: nat)
    requires Inv(w) && ThreadOk(w, tid, StorePolicies(u, next)) && CellOk(w, StorePolicies(u, next))
    requires next < |u.request.policies|
    ensures Inv(Goto(Put(w, u.coord, Policies, u.request.policies[next]), tid, StorePolicies(u, next + 1)))
  {
    var t' := StorePolicies(u, next + 1);
    PutIsPlain(w, u.coord, Policies, u.request.policies[next], tid, t');
    var w' := Goto(Put(w, u.coord, Policies, u.request.policies[next]), tid, t');
    UpdateThreadOkGrows(w, w', tid, StorePolicies(u, next));
    PlainStep(w, w', tid);
  }

  lemma StoreNextPolicyKeeps(w: World, tid: nat, u: Update, next: nat)
    requires Inv(w) && tid in w.threads && w.threads[tid] == StorePolicies(u, next)
    ensures Inv(StoreNextPolicy(w, tid, u, next))
  {
    assert ThreadOk(w, tid, StorePolicies(u, next)) && CellOk(w, StorePolicies(u, next));
    if next < |u.request.policies| {
      PolicyPutKeeps(w, tid, u, next);
    } else if PoliciesComplete(u.request.manifest, u.request.policies) {
      GivenPoliciesStored(w, u);
      GotoKeeps(w, tid, StoreManifest(u));
    } else {
      StopKeeps(w, tid);
    }
  }

  lemma StoreManifestKeeps(w: World, tid: nat, t: Thread, choice: Choice)
    requires Inv(w) && tid in w.threads && w.threads[tid] == t && t.StoreManifest?
    requires t.On() in w.coords
    ensures Inv(AdvanceThread(w, tid, t, choice))
  {
    assert ThreadOk(w, tid, t) && CellOk(w, t);
    PutIsPlain(w, t.u.coord, ManifestsKind, t.u.request.manifest, tid,
               StoreTransition(t.u, Digest(t.u.request.manifest)));
    var w' := AdvanceThread(w, tid, t, choice);
    UpdateThreadOkGrows(w, w', tid, t);
    PlainStep(w, w', tid);
  }

  lemma StoreTransitionKeeps(w: World, tid: nat, t: Thread, choice: Choice)
    requires Inv(w) && tid in w.threads && w.threads[tid] == t && t.StoreTransition?
    requires t.On() in w.coords
    ensures Inv(AdvanceThread(w, tid, t, choice))
  {
    assert ThreadOk(w, tid, t) && CellOk(w, t);
    var data := Marshal(Transition(t.manifestHash, Base(w, t.u.previous)));
    PutIsPlain(w, t.u.coord, Transitions, data, tid, SwapLatest(t.u, Digest(data)));
    var w' := AdvanceThread(w, tid, t, choice);
    UpdateThreadOkGrows(w, w', tid, t);
    PlainStep(w, w', tid);
  }

  lemma GuardedUpdateKeeps(w: World, tid: nat, t: Thread, choice: Choice)
    requires Inv(w) && tid in w.threads && w.threads[tid] == t && t.SetFlag?
    requires t.On() in w.coords
    ensures Inv(AdvanceThread(w, tid, t, choice))
  {
    assert ThreadOk(w, tid, t) && CellOk(w, t);
    var w' := AdvanceThread(w, tid, t, choice);
    if w' == Stop(w, tid) {
      StopKeeps(w, tid);
    } else {
      GotoKeeps(w, tid, w'.threads[tid]);
    }
  }

  lemma GuardedInitialKeeps(w: World, tid: nat, t: Thread, choice: Choice)
    requires Inv(w) && tid in w.threads && w.threads[tid] == t && t.SetProbe?
    requires t.On() in w.coords
    ensures Inv(AdvanceThread(w, tid, t, choice))
  {
    assert ThreadOk(w, tid, t) && CellOk(w, t);
    var w' := AdvanceThread(w, tid, t, choice);
    if w' == Stop(w, tid) {
      StopKeeps(w, tid);
    } else {
      GotoKeeps(w, tid, w'.threads[tid]);
    }
  }

  // ---- SetLatest ----

  /** The comparison in SetLatest can only succeed against the newest entry, and then the cell
      of the Coordinator is still the one the update started from. */
  lemma PublishableIsNewest(w: World, u: Update)
    requires Inv(w) && UpdateOk(w, u) && Current(w.kv) == ExpectedLatest(w, u.previous)
    ensures Generation(w, u.previous) == |w.log|
    ensures Base(w, u.previous) == TipAt(w, |w.log|)
    ensures u.previous.Some? ==> w.log != [] && w.objs[u.previous.value].manifest == w.log[|w.log| - 1]
  {
    assert w.log[..|w.log|] == w.log;
    if w.log != [] {
      var last := |w.log| - 1;
      assert EntryRecorded(w, last);
      var l := w.records[last].value;
      assert Current(w.kv)[..32] == l.tip;
      if u.previous.Some? {
        var s := w.objs[u.previous.value];
        assert StateOk(w, s);
        assert EntryRecorded(w, s.generation - 1);
        assert ExpectedLatest(w, u.previous)[..32] == s.latest.tip;
        TipAtInjective(w, |w.log|, s.generation);
      }
    }
  }

  /** The new entry is complete, and was let in by the guard evaluated against the entry it
      replaces, however long ago that evaluation was. */
  lemma NewEntry(w: World, w': World, tid: nat, u: Update, latest: LatestTransition, nonce: nat)
    requires Inv(w) && UpdateThreadOk(w, tid, SwapLatest(u, latest.tip))
    requires latest.signature == Sign(u.seeds.SigningKey(), latest.tip, nonce)
    requires Current(w.kv) == ExpectedLatest(w, u.previous)
    requires w' == Publish(w, tid, u, latest)
    ensures var n := |w.log|; EntryStored(w', n) && Accepted(w', n) && EntryRecorded(w', n)
  {
    PublishableIsNewest(w, u);
    var n := |w.log|;
    assert w'.log[..n] == w.log && w.log[..n] == w.log;
    TipAtStep(w', n);
    if n > 0 {
      assert EntryRecorded(w, n - 1) && StateOk(w, w.objs[u.previous.value]);
    }
  }

  lemma PublishGrows(w: World, w': World, tid: nat, u: Update, latest: LatestTransition)
    requires ContentOk(w.kv) && Current(w.kv) == ExpectedLatest(w, u.previous)
    requires w' == Publish(w, tid, u, latest)
    ensures Grows(w, w') && ContentOk(w'.kv)
  {
  }

  lemma PublishedHistory(w: World, w': World, tid: nat, u: Update, latest: LatestTransition, nonce: nat)
    requires Inv(w) && UpdateThreadOk(w, tid, SwapLatest(u, latest.tip))
    requires latest.signature == Sign(u.seeds.SigningKey(), latest.tip, nonce)
    requires Current(w.kv) == ExpectedLatest(w, u.previous)
    requires w' == Publish(w, tid, u, latest)
    ensures HistoryOk(w')
  {
    PublishGrows(w, w', tid, u, latest);
    EntriesKept(w, w');
    NewEntry(w, w', tid, u, latest, nonce);
  }

  lemma PublishedThread(w: World, w': World, tid: nat, u: Update, latest: LatestTransition)
    requires Inv(w) && UpdateThreadOk(w, tid, SwapLatest(u, latest.tip)) && u.coord in w.coords
    requires Current(w.kv) == ExpectedLatest(w, u.previous)
    requires w' == Publish(w, tid, u, latest)
    ensures ThreadOk(w', tid, SwapState(u, latest))
  {
    PublishableIsNewest(w, u);
    if u.previous.Some? {
      assert StateOk(w, w.objs[u.previous.value]);
    }
  }

  lemma CellsKept(w: World, w': World, tid: nat)
    requires StatesOk(w) && ThreadsOk(w) && CellsOk(w)
    requires OnlyThread(w, w', tid) && w.objs == w'.objs && w.coords == w'.coords
    requires tid in w'.threads ==> CellOk(w', w'.threads[tid])
    ensures CellsOk(w')
  {
    forall i | i in w'.threads
      ensures CellOk(w', w'.threads[i])
    {
      if i != tid {
        assert i in w.threads && CellOk(w, w.threads[i]);
      }
    }
  }

  /** Nothing of the Coordinators has changed but one thread. */
  lemma LongerHistory(w: World, w': World, tid: nat)
    requires Inv(w) && Grows(w, w') && ContentOk(w'.kv) && HistoryOk(w')
    requires w'.objs == w.objs && w'.coords == w.coords && w'.stale == w.stale && OnlyThread(w, w', tid)
    requires tid in w'.threads ==> ThreadOk(w', tid, w'.threads[tid]) && CellOk(w', w'.threads[tid])
    ensures Inv(w')
  {
    StatesKept(w, w');
    ThreadsKept(w, w', tid);
    CellsKept(w, w', tid);
  }

  lemma PublishKeeps(w: World, tid: nat, u: Update, latest: LatestTransition, nonce: nat)
    requires Inv(w) && ThreadOk(w, tid, SwapLatest(u, latest.tip)) && CellOk(w, SwapLatest(u, latest.tip))
    requires latest.signature == Sign(u.seeds.SigningKey(), latest.tip, nonce)
    ensures Inv(Publish(w, tid, u, latest))
  {
    var w' := Publish(w, tid, u, latest);
    if Current(w.kv) != ExpectedLatest(w, u.previous) {
      StopKeeps(w, tid);
    } else {
      PublishGrows(w, w', tid, u, latest);
      PublishedHistory(w, w', tid, u, latest, nonce);
      PublishedThread(w, w', tid, u, latest);
      LongerHistory(w, w', tid);
    }
  }

  // ---- A Coordinator's own cell ----

  lemma LoadedExists(w: World, i: nat, t: Thread)
    requires ThreadOk(w, i, t) && Loaded(t).Some? && Loaded(t).value.Some?
    ensures Loaded(t).value.value < |w.objs|
  {
  }

  /** An update that relied on the replaced cell content now finds something newer. */
  lemma InstalledCell(w: World, w': World, tid: nat, c: nat, expected: Option<Addr>, s: State, t: Thread)
    requires c in w.coords && CellOk(w, t)
    requires forall d :: d in w.coords && w.coords[d].cell.Some? ==> w.coords[d].cell.value < |w.objs|
    requires Loaded(t).Some? && Loaded(t).value.Some? ==> Loaded(t).value.value < |w.objs|
    requires s.generation > Generation(w, expected)
    requires w' == Stop(Install(w, c, expected, s), tid)
    ensures CellOk(w', t)
  {
    if t.On() in w.coords && Loaded(t).Some? {
      if t.On() == c && w.coords[c].cell == expected {
        assert w'.coords[c].cell == Some(|w.objs|);
        assert Generation(w', w'.coords[c].cell) == s.generation;
      } else {
        assert w'.coords[t.On()].cell == w.coords[t.On()].cell;
      }
    }
  }

  /** A new State object that continues the history is harmless if it is newer than the state it
      is swapped against. */
  lemma InstallKeeps(w: World, tid: nat, c: nat, expected: Option<Addr>, s: State)
    requires Inv(w) && tid in w.threads && c in w.coords && w.threads[tid].On() == c
    requires StateOk(w, s)
    requires s.generation > Generation(w, expected)
    ensures Inv(Stop(Install(w, c, expected, s), tid))
  {
    var w' := Stop(Install(w, c, expected, s), tid);
    HistoryKept(w, w');
    ThreadsKept(w, w', tid);
    forall a | 0 <= a < |w'.objs|
      ensures StateOk(w', w'.objs[a])
    {
      StateOkGrows(w, w', w'.objs[a]);
    }
    forall i | i in w'.threads
      ensures CellOk(w', w'.threads[i])
    {
      var t := w.threads[i];
      assert ThreadOk(w, i, t) && CellOk(w, t);
      if Loaded(t).Some? && Loaded(t).value.Some? {
        LoadedExists(w, i, t);
      }
      InstalledCell(w, w', tid, c, expected, s, t);
    }
  }

  lemma SwapStateKeeps(w: World, tid: nat, t: Thread, choice: Choice)
    requires Inv(w) && tid in w.threads && w.threads[tid] == t && t.SwapState?
    requires t.On() in w.coords
    ensures Inv(AdvanceThread(w, tid, t, choice))
  {
    assert ThreadOk(w, tid, t);
    var u := t.u;
    var s := State(u.seeds, u.request.manifest, t.latest, Generation(w, u.previous) + 1);
    assert StateOk(w, s);
    InstallKeeps(w, tid, u.coord, u.previous, s);
  }

  lemma InstallStateKeeps(w: World, tid: nat, t: Thread, choice: Choice)
    requires Inv(w) && tid in w.threads && w.threads[tid] == t && t.InstallState?
    requires t.On() in w.coords
    ensures Inv(AdvanceThread(w, tid, t, choice))
  {
    assert ThreadOk(w, tid, t);
    var s := State(t.r.source.Offer(), t.manifest, t.latest, t.count);
    assert StateOk(w, s);
    InstallKeeps(w, tid, t.r.coord, t.r.previous, s);
  }

  // ---- ResetState ----

  lemma ResetLoadKeeps(w: World, tid: nat, t: Thread, choice: Choice)
    requires Inv(w) && tid in w.threads && w.threads[tid] == t && t.ResetLoad?
    requires t.On() in w.coords
    ensures Inv(AdvanceThread(w, tid, t, choice))
  {
    assert ThreadOk(w, tid, t);
    match w.coords[t.coord].cell
    case None => GotoKeeps(w, tid, ResetProbe(t.coord, t.source));
    case Some(a) => GotoKeeps(w, tid, ResetFlag(t.coord, t.source, a));
  }

  lemma ResetFlagKeeps(w: World, tid: nat, t: Thread, choice: Choice)
    requires Inv(w) && tid in w.threads && w.threads[tid] == t && t.ResetFlag?
    requires t.On() in w.coords
    ensures Inv(AdvanceThread(w, tid, t, choice))
  {
    assert ThreadOk(w, tid, t);
    if t.loaded in w.stale {
      GotoKeeps(w, tid, ReadLatest(Recovery(t.coord, Some(t.loaded), t.source)));
    } else {
      StopKeeps(w, tid);
    }
  }

  lemma ResetProbeKeeps(w: World, tid: nat, t: Thread, choice: Choice)
    requires Inv(w) && tid in w.threads && w.threads[tid] == t && t.ResetProbe?
    requires t.On() in w.coords
    ensures Inv(AdvanceThread(w, tid, t, choice))
  {
    assert ThreadOk(w, tid, t);
    if Latest in w.kv {
      GotoKeeps(w, tid, ReadLatest(Recovery(t.coord, None, t.source)));
    } else {
      StopKeeps(w, tid);
    }
  }

  lemma ReadLatestKeeps(w: World, tid: nat, t: Thread, choice: Choice)
    requires Inv(w) && tid in w.threads && w.threads[tid] == t && t.ReadLatest?
    requires t.On() in w.coords
    ensures Inv(AdvanceThread(w, tid, t, choice))
  {
    assert ThreadOk(w, tid, t);
    match UnmarshalLatest(Current(w.kv))
    case None => StopKeeps(w, tid);
    case Some(l) => GotoKeeps(w, tid, ReadTransition(t.r, l.tip));
  }

  lemma LoadTransitionKeeps(w: World, tid: nat, t: Thread, choice: Choice)
    requires Inv(w) && tid in w.threads && w.threads[tid] == t && t.ReadTransition?
    requires t.On() in w.coords
    ensures Inv(AdvanceThread(w, tid, t, choice))
  {
    assert ThreadOk(w, tid, t);
    var c := t.r.coord;
    match FetchTransition(w.kv, w.coords[c].cache, t.tip)
    case None => StopAfterReadKeeps(w, c, Transitions, t.tip, tid);
    case Some(transition) =>
      ReadAnswer(w, c, Transitions, t.tip);
      TransitionCodec(transition, Read(w, c, Transitions, t.tip).value);
      GotoAfterReadKeeps(w, c, Transitions, t.tip, tid, ReadManifest(t.r, t.tip, transition));
  }

  lemma LoadAndAuthorizeKeeps(w: World, tid: nat, t: Thread, choice: Choice)
    requires Inv(w) && tid in w.threads && w.threads[tid] == t && t.ReadManifest?
    requires t.On() in w.coords
    ensures Inv(AdvanceThread(w, tid, t, choice))
  {
    assert ThreadOk(w, tid, t);
    var c, h := t.r.coord, t.transition.manifestHash;
    ReadAnswer(w, c, ManifestsKind, h);
    var w' := AdvanceThread(w, tid, t, choice);
    if w' == Stop(AfterRead(w, c, ManifestsKind, h), tid) {
      StopAfterReadKeeps(w, c, ManifestsKind, h, tid);
    } else {
      var manifest := Read(w, c, ManifestsKind, h).value;
      GotoAfterReadKeeps(w, c, ManifestsKind, h, tid, ReadVerified(t.r, t.tip, t.transition, manifest));
    }
  }

  /** The verified value names the newest entry, whose manifest is the one that was authorised,
      and the key that verifies it is the key of the first SetManifest. */
  lemma VerifiedRead(w: World, r: Recovery, transition: Transition, manifest: Bytes, l: LatestTransition)
    requires HistoryOk(w) && RecoveryOk(w, r)
    requires transition.manifestHash == Digest(manifest)
    requires UnmarshalLatest(Current(w.kv)) == Some(l)
    requires Verify(r.source.Offer().SigningKey(), l.tip, l.signature) && l.tip == TransitionDigest(transition)
    ensures ReadOk(w, r, l, manifest, |w.log|) && l.tip == TipAt(w, |w.log|)
  {
    var n := |w.log|;
    assert EntryRecorded(w, n - 1) && EntryRecorded(w, 0);
    var newest := w.records[n - 1];
    LatestCodec(l, Current(w.kv));
    LatestCodec(newest.value, Current(w.kv));
    SignatureBinds(r.source.Offer().SigningKey(), l.tip, newest.seeds.SigningKey(), l.tip, l.signature);
    TipAtStep(w, n - 1);
    TransitionDigestInjective(transition, Transition(Digest(w.log[n - 1]), TipAt(w, n - 1)));
    DigestInjective(manifest, w.log[n - 1]);
  }

  lemma ReadAgainKeeps(w: World, tid: nat, t: Thread, choice: Choice)
    requires Inv(w) && tid in w.threads && w.threads[tid] == t && t.ReadVerified?
    requires t.On() in w.coords
    ensures Inv(AdvanceThread(w, tid, t, choice))
  {
    assert ThreadOk(w, tid, t);
    match UnmarshalLatest(Current(w.kv))
    case None => StopKeeps(w, tid);
    case Some(l) =>
      if Verify(t.r.source.Offer().SigningKey(), l.tip, l.signature) && l.tip == t.tip {
        VerifiedRead(w, t.r, t.transition, t.manifest, l);
        GotoKeeps(w, tid, CountTransitions(t.r, l, t.manifest, l.tip, 0, |w.log|));
      } else {
        StopKeeps(w, tid);
      }
  }

  lemma CountStepOk(w: World, tid: nat, t: Thread)
    requires t.CountTransitions? && ThreadOk(w, tid, t) && t.count < t.rank
    ensures ThreadOk(w, tid,
                     CountTransitions(t.r, t.latest, t.manifest, TipAt(w, t.rank - t.count - 1), t.count + 1, t.rank))
  {
  }

  lemma CountBackKeeps(w: World, tid: nat, t: Thread)
    requires Inv(w) && t.CountTransitions? && ThreadOk(w, tid, t) && t.count < t.rank
    ensures Inv(CountNext(w, tid, t.r, t.latest, t.manifest, t.cursor, t.count, t.rank))
  {
    var t' := CountTransitions(t.r, t.latest, t.manifest, TipAt(w, t.rank - t.count - 1), t.count + 1, t.rank);
    CountStepOk(w, tid, t);
    assert CountNext(w, tid, t.r, t.latest, t.manifest, t.cursor, t.count, t.rank)
        == Goto(AfterRead(w, t.r.coord, Transitions, t.cursor), tid, t') by {
      FetchedAt(w, t.r.coord, t.rank - t.count);
    }
    GotoAfterReadKeeps(w, t.r.coord, Transitions, t.cursor, tid, t');
  }

  lemma CountEndKeeps(w: World, tid: nat, t: Thread)
    requires Inv(w) && t.CountTransitions? && ThreadOk(w, tid, t) && t.count == t.rank
    ensures Inv(CountNext(w, tid, t.r, t.latest, t.manifest, t.cursor, t.count, t.rank))
  {
    GotoKeeps(w, tid, InstallState(t.r, t.latest, t.manifest, t.count, t.rank));
  }

  lemma CountNextKeeps(w: World, tid: nat, t: Thread, choice: Choice)
    requires Inv(w) && tid in w.threads && w.threads[tid] == t && t.CountTransitions?
    requires t.On() in w.coords
    ensures Inv(AdvanceThread(w, tid, t, choice))
  {
    assert ThreadOk(w, tid, t);
    if t.count == t.rank {
      CountEndKeeps(w, tid, t);
    } else {
      CountBackKeeps(w, tid, t);
    }
  }

  // ---- WatchHistory ----

  lemma WatchLoadKeeps(w: World, tid: nat, t: Thread, choice: Choice)
    requires Inv(w) && tid in w.threads && w.threads[tid] == t && t.WatchLoad?
    requires t.On() in w.coords
    ensures Inv(AdvanceThread(w, tid, t, choice))
  {
    assert ThreadOk(w, tid, t);
    match w.coords[t.coord].cell
    case None => StopKeeps(w, tid);
    case Some(a) =>
      assert StateOk(w, w.objs[a]) && EntryRecorded(w, w.objs[a].generation - 1);
      GotoKeeps(w, tid, WatchWalk(t.coord, a, t.target, t.rank, Base(w, Some(a)), 0, false));
  }

  lemma MarkStaleKeeps(w: World, tid: nat, a: Addr)
    requires Inv(w) && a < |w.objs| && w.objs[a].generation < |w.log|
    ensures Inv(Stop(w.(stale := w.stale + {a}), tid))
  {
    var w' := Stop(w.(stale := w.stale + {a}), tid);
    HistoryKept(w, w');
    ThreadsKept(w, w', tid);
    StatesKept(w, w');
    forall i | i in w'.threads
      ensures CellOk(w', w'.threads[i])
    {
      assert CellOk(w, w.threads[i]);
    }
  }

  /** The thread that the watcher's walk turns into when it takes one step back. */
  lemma WatchStepOk(w: World, tid: nat, t: Thread)
    requires Inv(w) && t.WatchWalk? && ThreadOk(w, tid, t) && t.depth < w.objs[t.watched].generation
    ensures ThreadOk(w, tid, WatchWalk(t.coord, t.watched, t.target, t.rank,
                                       TipAt(w, w.objs[t.watched].generation - t.depth - 1), t.depth + 1,
                                       t.found || t.cursor == t.target))
  {
    if t.cursor == t.target {
      TipAtInjective(w, w.objs[t.watched].generation - t.depth, t.rank);
    }
  }

  lemma WatchBackIs(w: World, tid: nat, t: Thread)
    requires Inv(w) && t.WatchWalk? && ThreadOk(w, tid, t) && t.depth < w.objs[t.watched].generation
    ensures WatchNext(w, tid, t.coord, t.watched, t.target, t.rank, t.cursor, t.depth, t.found)
         == Goto(AfterRead(w, t.coord, Transitions, t.cursor), tid,
                 WatchWalk(t.coord, t.watched, t.target, t.rank, TipAt(w, w.objs[t.watched].generation - t.depth - 1),
                           t.depth + 1, t.found || t.cursor == t.target))
  {
    FetchedAt(w, t.coord, w.objs[t.watched].generation - t.depth);
  }

  lemma WatchBackKeeps(w: World, tid: nat, t: Thread)
    requires Inv(w) && t.WatchWalk? && ThreadOk(w, tid, t) && t.depth < w.objs[t.watched].generation
    ensures Inv(WatchNext(w, tid, t.coord, t.watched, t.target, t.rank, t.cursor, t.depth, t.found))
  {
    var t' := WatchWalk(t.coord, t.watched, t.target, t.rank, TipAt(w, w.objs[t.watched].generation - t.depth - 1),
                        t.depth + 1, t.found || t.cursor == t.target);
    WatchStepOk(w, tid, t);
    GotoAfterReadKeeps(w, t.coord, Transitions, t.cursor, tid, t');
    WatchBackIs(w, tid, t);
  }

  lemma WatchEndKeeps(w: World, tid: nat, t: Thread)
    requires Inv(w) && t.WatchWalk? && ThreadOk(w, tid, t) && t.depth == w.objs[t.watched].generation
    ensures Inv(WatchNext(w, tid, t.coord, t.watched, t.target, t.rank, t.cursor, t.depth, t.found))
  {
    if t.found {
      StopKeeps(w, tid);
    } else {
      MarkStaleKeeps(w, tid, t.watched);
    }
  }

  lemma WatchNextKeeps(w: World, tid: nat, t: Thread, choice: Choice)
    requires Inv(w) && tid in w.threads && w.threads[tid] == t && t.WatchWalk?
    requires t.On() in w.coords
    ensures Inv(AdvanceThread(w, tid, t, choice))
  {
    assert ThreadOk(w, tid, t);
    if t.depth == w.objs[t.watched].generation {
      WatchEndKeeps(w, tid, t);
    } else {
      WatchBackKeeps(w, tid, t);
    }
  }

  // ---- All events ----

  lemma LoadForSetKeeps(w: World, tid: nat, t: Thread, choice: Choice)
    requires Inv(w) && tid in w.threads && w.threads[tid] == t && t.SetLoad?
    requires t.On() in w.coords
    ensures Inv(AdvanceThread(w, tid, t, choice))
  {
    GotoKeeps(w, tid, AdvanceThread(w, tid, t, choice).threads[tid]);
  }

  lemma AdvanceKeeps(w: World, tid: nat, choice: Choice)
    requires Inv(w) && tid in w.threads && w.threads[tid].On() in w.coords
    ensures Inv(AdvanceThread(w, tid, w.threads[tid], choice))
  {
    var t := w.threads[tid];
    assert ThreadOk(w, tid, t) && CellOk(w, t);
    match t
    case SetLoad(_, _) => LoadForSetKeeps(w, tid, t, choice);
    case SetFlag(_, _, _) => GuardedUpdateKeeps(w, tid, t, choice);
    case SetProbe(_, _) => GuardedInitialKeeps(w, tid, t, choice);
    case StorePolicies(u, next) => StoreNextPolicyKeeps(w, tid, u, next);
    case StoreManifest(_) => StoreManifestKeeps(w, tid, t, choice);
    case StoreTransition(_, _) => StoreTransitionKeeps(w, tid, t, choice);
    case SwapLatest(u, tip) =>
      PublishKeeps(w, tid, u, LatestTransition(tip, Sign(u.seeds.SigningKey(), tip, choice.nonce)), choice.nonce);
    case SwapState(_, _) => SwapStateKeeps(w, tid, t, choice);
    case ReadTransition(_, _) => LoadTransitionKeeps(w, tid, t, choice);
    case ReadManifest(_, _, _) => LoadAndAuthorizeKeeps(w, tid, t, choice);
    case ReadVerified(_, _, _, _) => ReadAgainKeeps(w, tid, t, choice);
    case CountTransitions(_, _, _, _, _, _) => CountNextKeeps(w, tid, t, choice);
    case InstallState(_, _, _, _, _) => InstallStateKeeps(w, tid, t, choice);
    case WatchLoad(_, _, _) => WatchLoadKeeps(w, tid, t, choice);
    case WatchWalk(_, _, _, _, _, _, _) => WatchNextKeeps(w, tid, t, choice);
    case ResetLoad(_, _) => ResetLoadKeeps(w, tid, t, choice);
    case ResetFlag(_, _, _) => ResetFlagKeeps(w, tid, t, choice);
    case ResetProbe(_, _) => ResetProbeKeeps(w, tid, t, choice);
    case ReadLatest(_) => ReadLatestKeeps(w, tid, t, choice);
  }

  lemma BootKeeps(w: World, c: nat, allowInsecure: bool)
    requires Inv(w)
    ensures Inv(Step(w, Boot(c, allowInsecure)))
  {
    var w' := Step(w, Boot(c, allowInsecure));
    HistoryKept(w, w');
    StatesKept(w, w');
    forall tid | tid in w'.threads
      ensures ThreadOk(w', tid, w'.threads[tid]) && CellOk(w', w'.threads[tid])
    {
      assert ThreadOk(w, tid, w.threads[tid]) && CellOk(w, w.threads[tid]);
      ThreadOkGrows(w, w', tid, w.threads[tid]);
    }
  }

  lemma NotifyKeeps(w: World, tid: nat, c: nat, rank: nat)
    requires Inv(w)
    ensures Inv(Step(w, Notify(tid, c, rank)))
  {
    if c in w.coords && tid !in w.threads && 1 <= rank <= |w.records| {
      assert EntryRecorded(w, rank - 1);
      GotoKeeps(w, tid, WatchLoad(c, w.records[rank - 1].value.tip, rank));
    }
  }

  lemma NextPeerKeeps(w: World, tid: nat, t: Thread)
    requires Inv(w) && tid in w.threads && w.threads[tid] == t
    ensures Inv(TryNextPeer(w, tid, t))
  {
    assert ThreadOk(w, tid, t);
    if (t.ReadLatest? || t.ReadTransition? || t.ReadManifest? || t.ReadVerified? || t.CountTransitions?
        || t.InstallState?)
       && t.r.source.Peers? && |t.r.source.offers| > 1 {
      assert RecoveryOk(w, t.r);
      GotoKeeps(w, tid, ReadLatest(t.r.(source := Peers(t.r.source.offers[1..]))));
    }
  }

  lemma StepKeeps(w: World, e: Event)
    requires Inv(w)
    ensures Inv(Step(w, e))
  {
    match e
    case Boot(c, allowInsecure) => BootKeeps(w, c, allowInsecure);
    case StartSet(tid, c, request) =>
      if c in w.coords && tid !in w.threads {
        GotoKeeps(w, tid, SetLoad(c, request));
      }
    case StartReset(tid, c, source) =>
      if c in w.coords && tid !in w.threads && source.HasOffer() {
        GotoKeeps(w, tid, ResetLoad(c, source));
      }
    case Notify(tid, c, rank) => NotifyKeeps(w, tid, c, rank);
    case Advance(tid, choice) =>
      if tid in w.threads && w.threads[tid].On() in w.coords {
        AdvanceKeeps(w, tid, choice);
      }
    case NextPeer(tid) =>
      if tid in w.threads {
        NextPeerKeeps(w, tid, w.threads[tid]);
      }
    case Abandon(tid) => StopKeeps(w, tid);
  }

  /** In every run, at every moment. */
  lemma {:induction false} ExecInv(events: seq<Event>)
    ensures Inv(Exec(events))
  {
    if events != [] {
      ExecInv(events[..|events| - 1]);
      StepKeeps(Exec(events[..|events| - 1]), events[|events| - 1]);
    }
  }
}
