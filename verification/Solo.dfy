/** The methods of the guard are uninterrupted runs of the step system: what `UpdateSpec` and
  * `ResetSpec` say about one call is what the steps of one request do when no other request gets
  * in between.
  */
module Solo {
  import opened Ideal
  import opened Chain
  import opened Manifests
  import opened Protocol
  import opened Guard
  import opened ProtocolInvariant
  import opened ProtocolSteps
  import opened ProtocolEffects

  /** The worlds of one request running alone. */
  type Run = nat -> World

  ghost predicate Linked(run: Run, tid: nat, choice: Choice, i: nat) {
    run(i + 1) == Step(run(i), Advance(tid, choice))
  }

  ghost predicate Alone(run: Run, tid: nat, choice: Choice) {
    forall i: nat :: Linked(run, tid, choice, i)
  }

  function Repeated(tid: nat, choice: Choice, n: nat): (r: seq<Event>) {
    seq(n, i => Advance(tid, choice))
  }

  /** After any events, letting one request run alone is such a run. */
  ghost function RunAfter(events: seq<Event>, tid: nat, choice: Choice): (r: Run) {
    (i: nat) => Exec(events + Repeated(tid, choice, i))
  }

  lemma RunAfterIsAlone(events: seq<Event>, tid: nat, choice: Choice)
    ensures RunAfter(events, tid, choice)(0) == Exec(events)
    ensures Alone(RunAfter(events, tid, choice), tid, choice)
  {
    assert events + Repeated(tid, choice, 0) == events;
    forall i: nat
      ensures Linked(RunAfter(events, tid, choice), tid, choice, i)
    {
      assert events + Repeated(tid, choice, i + 1) == (events + Repeated(tid, choice, i)) + [Advance(tid, choice)];
      ExecOneMore(events + Repeated(tid, choice, i), Advance(tid, choice));
    }
  }

  lemma {:induction false} StoppedStays(run: Run, tid: nat, choice: Choice, i: nat, n: nat)
    requires Alone(run, tid, choice) && tid !in run(i).threads
    ensures run(i + n) == run(i)
  {
    if n > 0 {
      StoppedStays(run, tid, choice, i, n - 1);
      assert Linked(run, tid, choice, i + n - 1);
    }
  }

  ghost predicate StateUntouched(w: World, w': World, c: nat) {
    && w'.objs == w.objs
    && c in w.coords && c in w'.coords && w'.coords[c].cell == w.coords[c].cell
  }

  /** A request of one Coordinator has ended and left these contents behind, and a new State
      object, swapped in if the cell still was what it started from. */
  ghost predicate EndsIn(w: World, w': World, tid: nat, c: nat, previous: Option<Addr>, kv: Store, cache: Cache,
                         installed: Option<State>)
  {
    && tid !in w'.threads
    && c in w.coords && c in w'.coords
    && w'.kv == kv && w'.coords[c].cache == cache
    && match installed
       case None => w'.objs == w.objs && w'.coords[c].cell == w.coords[c].cell
       case Some(s) =>
         && w'.objs == w.objs + [s]
         && w'.coords[c].cell == if w.coords[c].cell == previous then Some(|w.objs|) else w.coords[c].cell
  }

  // ---- UpdateState ----

  ghost function BaseLatest(w: World, a: Option<Addr>): (r: Option<LatestTransition>)
    requires a.Some? ==> a.value < |w.objs|
  {
    if a.None? then None else Some(w.objs[a.value].latest)
  }

  ghost function NewState(w: World, u: Update, latest: LatestTransition): (r: State) {
    State(u.seeds, u.request.manifest, latest, Generation(w, u.previous) + 1)
  }

  ghost predicate AsSpecified(w: World, w': World, tid: nat, u: Update, nonce: nat)
    requires u.coord in w.coords && (u.previous.Some? ==> u.previous.value < |w.objs|)
  {
    var o := UpdateSpec(w.kv, w.coords[u.coord].cache, BaseLatest(w, u.previous), u.seeds.SigningKey(),
                        u.request.manifest, u.request.policies, nonce);
    EndsIn(w, w', tid, u.coord, u.previous, o.kv, o.cache,
           if o.error == NoError then Some(NewState(w, u, o.latest)) else None)
  }

  /** The first policies have been written. */
  ghost predicate PoliciesWritten(w: World, w0: World, tid: nat, u: Update, n: nat)
    requires n <= |u.request.policies|
  {
    && StateUntouched(w, w0, u.coord)
    && tid in w0.threads && w0.threads[tid] == StorePolicies(u, n)
    && (w0.kv, w0.coords[u.coord].cache) == PutAll(w.kv, w.coords[u.coord].cache, Policies, u.request.policies[..n])
  }

  ghost predicate PolicyWritten(w: World, w': World, tid: nat, u: Update, k: nat)
    requires k < |u.request.policies|
  {
    var policy := u.request.policies[k];
    && StateUntouched(w, w', u.coord)
    && tid in w'.threads && w'.threads[tid] == StorePolicies(u, k + 1)
    && w'.kv == w.kv[At(Policies, Digest(policy)) := policy]
    && w'.coords[u.coord].cache == w.coords[u.coord].cache[Digest(policy) := policy]
  }

  lemma PolicyAlone(run: Run, tid: nat, u: Update, choice: Choice, i: nat, k: nat)
    requires Alone(run, tid, choice) && u.coord in run(i).coords && k < |u.request.policies|
    requires tid in run(i).threads && run(i).threads[tid] == StorePolicies(u, k)
    ensures PolicyWritten(run(i), run(i + 1), tid, u, k)
  {
    assert Linked(run, tid, choice, i);
  }

  lemma OneMorePolicy(w: World, w0: World, w1: World, tid: nat, u: Update, k: nat)
    requires k < |u.request.policies|
    requires PoliciesWritten(w, w0, tid, u, k) && PolicyWritten(w0, w1, tid, u, k)
    ensures PoliciesWritten(w, w1, tid, u, k + 1)
  {
    assert u.request.policies[..k + 1][..k] == u.request.policies[..k];
  }

  lemma {:induction false} PoliciesAlone(run: Run, tid: nat, u: Update, choice: Choice, i: nat, n: nat)
    requires Alone(run, tid, choice) && u.coord in run(i).coords && n <= |u.request.policies|
    requires tid in run(i).threads && run(i).threads[tid] == StorePolicies(u, 0)
    ensures PoliciesWritten(run(i), run(i + n), tid, u, n)
  {
    if n > 0 {
      PoliciesAlone(run, tid, u, choice, i, n - 1);
      PolicyAlone(run, tid, u, choice, i + n - 1, n - 1);
      OneMorePolicy(run(i), run(i + n - 1), run(i + n), tid, u, n - 1);
    }
  }

  /** The state and the request after the manifest and the transition have been written. */
  ghost predicate Written(w: World, w': World, tid: nat, u: Update) {
    var t := Transition(Digest(u.request.manifest), Base(w, u.previous));
    var tip := TransitionDigest(t);
    && StateUntouched(w, w', u.coord)
    && tid in w'.threads && w'.threads[tid] == SwapLatest(u, tip)
    && w'.kv
        == w.kv[At(ManifestsKind, Digest(u.request.manifest)) := u.request.manifest][At(Transitions, tip) := Marshal(t)]
    && w'.coords[u.coord].cache
       == w.coords[u.coord].cache[Digest(u.request.manifest) := u.request.manifest][tip := Marshal(t)]
  }

  lemma WritesAlone(run: Run, tid: nat, u: Update, choice: Choice, i: nat)
    requires Alone(run, tid, choice) && u.coord in run(i).coords
    requires tid in run(i).threads && run(i).threads[tid] == StoreManifest(u)
    ensures Written(run(i), run(i + 2), tid, u)
  {
    assert Linked(run, tid, choice, i) && Linked(run, tid, choice, i + 1);
  }

  /** Both compare-and-swap operations. */
  lemma SwapsAlone(run: Run, tid: nat, u: Update, tip: Hash, choice: Choice, i: nat)
    requires Alone(run, tid, choice) && u.coord in run(i).coords
    requires tid in run(i).threads && run(i).threads[tid] == SwapLatest(u, tip)
    ensures var w := run(i);
            var latest := LatestTransition(tip, Sign(u.seeds.SigningKey(), tip, choice.nonce));
            var won := Current(w.kv) == ExpectedLatest(w, u.previous);
            EndsIn(w, run(i + 2), tid, u.coord, u.previous,
                   if won then w.kv[Latest := MarshalLatest(latest)] else w.kv, w.coords[u.coord].cache,
                   if won then Some(NewState(w, u, latest)) else None)
  {
    assert Linked(run, tid, choice, i) && Linked(run, tid, choice, i + 1);
  }

  lemma CheckAlone(run: Run, tid: nat, u: Update, choice: Choice, i: nat)
    requires Alone(run, tid, choice) && u.coord in run(i).coords
    requires tid in run(i).threads && run(i).threads[tid] == StorePolicies(u, |u.request.policies|)
    ensures run(i + 1) == if PoliciesComplete(u.request.manifest, u.request.policies)
                          then Goto(run(i), tid, StoreManifest(u)) else Stop(run(i), tid)
  {
    assert Linked(run, tid, choice, i);
  }

  lemma RejectedAlone(run: Run, w: World, tid: nat, u: Update, choice: Choice, j: nat)
    requires Alone(run, tid, choice) && PoliciesWritten(w, run(j), tid, u, |u.request.policies|)
    requires run(j + 1) == Stop(run(j), tid)
    requires u.previous.Some? ==> u.previous.value < |w.objs|
    requires ParseManifest(u.request.manifest).Some? && !PoliciesComplete(u.request.manifest, u.request.policies)
    ensures AsSpecified(w, run(j + 5), tid, u, choice.nonce)
  {
    StoppedStays(run, tid, choice, j + 1, 4);
    assert u.request.policies[..|u.request.policies|] == u.request.policies;
  }

  lemma PublishedAsSpecified(w: World, w0: World, w1: World, w': World, tid: nat, u: Update, nonce: nat)
    requires PoliciesWritten(w, w0, tid, u, |u.request.policies|) && (u.previous.Some? ==> u.previous.value < |w.objs|)
    requires PoliciesComplete(u.request.manifest, u.request.policies)
    requires Written(Goto(w0, tid, StoreManifest(u)), w1, tid, u)
    requires var tip := TransitionDigest(Transition(Digest(u.request.manifest), Base(w, u.previous)));
             var latest := LatestTransition(tip, Sign(u.seeds.SigningKey(), tip, nonce));
             var won := Current(w1.kv) == ExpectedLatest(w1, u.previous);
             EndsIn(w1, w', tid, u.coord, u.previous,
                    if won then w1.kv[Latest := MarshalLatest(latest)] else w1.kv, w1.coords[u.coord].cache,
                    if won then Some(NewState(w1, u, latest)) else None)
    ensures AsSpecified(w, w', tid, u, nonce)
  {
    assert u.request.policies[..|u.request.policies|] == u.request.policies;
  }

  lemma RestAlone(run: Run, w: World, tid: nat, u: Update, choice: Choice, j: nat)
    requires Alone(run, tid, choice) && PoliciesWritten(w, run(j), tid, u, |u.request.policies|)
    requires run(j + 1) == Goto(run(j), tid, StoreManifest(u))
    requires u.previous.Some? ==> u.previous.value < |w.objs|
    requires PoliciesComplete(u.request.manifest, u.request.policies)
    ensures AsSpecified(w, run(j + 5), tid, u, choice.nonce)
  {
    WritesAlone(run, tid, u, choice, j + 1);
    var tip := run(j + 3).threads[tid].tip;
    SwapsAlone(run, tid, u, tip, choice, j + 3);
    PublishedAsSpecified(w, run(j), run(j + 3), run(j + 5), tid, u, choice.nonce);
  }

  /** UpdateState, uninterrupted, is the method of the guard. */
  lemma UpdateAlone(run: Run, tid: nat, u: Update, choice: Choice, i: nat)
    requires Alone(run, tid, choice) && u.coord in run(i).coords
    requires tid in run(i).threads && run(i).threads[tid] == StorePolicies(u, 0)
    requires u.previous.Some? ==> u.previous.value < |run(i).objs|
    requires ParseManifest(u.request.manifest).Some?
    ensures AsSpecified(run(i), run(i + |u.request.policies| + 5), tid, u, choice.nonce)
  {
    var n := |u.request.policies|;
    PoliciesAlone(run, tid, u, choice, i, n);
    CheckAlone(run, tid, u, choice, i + n);
    if PoliciesComplete(u.request.manifest, u.request.policies) {
      RestAlone(run, run(i), tid, u, choice, i + n);
    } else {
      RejectedAlone(run, run(i), tid, u, choice, i + n);
    }
  }

  // ---- ResetState ----

  /** The world after one read of a recovery that goes on as `t`. */
  ghost predicate ReadOn(w: World, w1: World, tid: nat, c: nat, cache: Cache, t: Thread) {
    && StateUntouched(w, w1, c)
    && w1.kv == w.kv && w1.coords[c].cache == cache && w1.coords[c].allowInsecure == w.coords[c].allowInsecure
    && tid in w1.threads && w1.threads[tid] == t
  }

  /** A recovery has ended as a function of what it read says. */
  ghost predicate Ends(w: World, w': World, tid: nat, r: Recovery, o: ResetOutcome) {
    EndsIn(w, w', tid, r.coord, r.previous, w.kv, o.cache, o.next)
  }

  /** A request of a Coordinator is about to take the step `t`. */
  ghost predicate AtStep(w: World, tid: nat, t: Thread, cache: Cache) {
    && tid in w.threads && w.threads[tid] == t
    && t.On() in w.coords && w.coords[t.On()].cache == cache
  }

  lemma EndsFrom(w: World, w1: World, w': World, tid: nat, r: Recovery, cache: Cache, t: Thread, o: ResetOutcome)
    requires ReadOn(w, w1, tid, r.coord, cache, t) && Ends(w1, w', tid, r, o)
    ensures Ends(w, w', tid, r, o)
  {
  }

  ghost function Counted(r: Recovery, l: LatestTransition, manifest: Bytes, count: nat, o: WalkOutcome)
    : (result: ResetOutcome)
    requires r.source.HasOffer()
  {
    if o.path.None? then ResetOutcome(o.cache, None, Unreadable)
    else ResetOutcome(o.cache, Some(State(r.source.Offer(), manifest, l, count + |o.path.value|)), NoError)
  }

  /** One step of a walk through the cache. */
  lemma CachedWalkStep(kv: Store, cache: Cache, h: Hash)
    requires CacheSound(cache) && h != ZeroHash()
    ensures var cache1 := Remember(cache, h, Fetch(kv, cache, Transitions, h));
            && CacheSound(cache1)
            && match FetchTransition(kv, cache, h)
               case None => CachedWalk(kv, cache, h) == WalkOutcome(cache1, None)
               case Some(t) =>
                 var rest := CachedWalk(kv, cache1, t.previous);
                 && (h[0] decreases to t.previous[0])
                 && CachedWalk(kv, cache, h)
                    == WalkOutcome(rest.cache, if rest.path.None? then None else Some([h] + rest.path.value))
  {
    if FetchTransition(kv, cache, h).Some? {
      var data := Fetch(kv, cache, Transitions, h).value;
      TransitionCodec(FetchTransition(kv, cache, h).value, data);
      PreviousIsSmaller(FetchTransition(kv, cache, h).value);
    }
  }

  lemma CountBackAlone(run: Run, tid: nat, r: Recovery, l: LatestTransition, manifest: Bytes, cursor: Hash, count: nat,
                       rank: nat, cache: Cache, choice: Choice, i: nat)
    requires Alone(run, tid, choice)
             && AtStep(run(i), tid, CountTransitions(r, l, manifest, cursor, count, rank), cache)
    requires cursor != ZeroHash() && r.source.HasOffer()
    ensures var w := run(i);
            var cache1 := Remember(cache, cursor, Fetch(w.kv, cache, Transitions, cursor));
            match FetchTransition(w.kv, cache, cursor)
            case None => Ends(w, run(i + 1), tid, r, ResetOutcome(cache1, None, Unreadable))
            case Some(t) => ReadOn(w, run(i + 1), tid, r.coord, cache1,
                                   CountTransitions(r, l, manifest, t.previous, count + 1, rank))
  {
    assert Linked(run, tid, choice, i);
  }

  lemma CountEndAlone(run: Run, tid: nat, r: Recovery, l: LatestTransition, manifest: Bytes, count: nat, rank: nat,
                      cache: Cache, choice: Choice, i: nat)
    requires Alone(run, tid, choice)
             && AtStep(run(i), tid, CountTransitions(r, l, manifest, ZeroHash(), count, rank), cache)
    requires r.source.HasOffer()
    ensures Ends(run(i), run(i + 2), tid, r,
                 ResetOutcome(cache, Some(State(r.source.Offer(), manifest, l, count)), NoError))
  {
    assert Linked(run, tid, choice, i) && Linked(run, tid, choice, i + 1);
  }

  /** What the rest of a count adds to what has been counted. */
  lemma CountOn(w: World, w1: World, w': World, tid: nat, r: Recovery, l: LatestTransition, manifest: Bytes, h: Hash,
                t: Thread, count: nat, cache1: Cache, rest: WalkOutcome)
    requires r.source.HasOffer() && ReadOn(w, w1, tid, r.coord, cache1, t)
    requires Ends(w1, w', tid, r, Counted(r, l, manifest, count + 1, rest))
    ensures Ends(w, w', tid, r,
                 Counted(r, l, manifest, count,
                         WalkOutcome(rest.cache, if rest.path.None? then None else Some([h] + rest.path.value))))
  {
  }

  lemma {:induction false} CountAlone(run: Run, tid: nat, r: Recovery, l: LatestTransition, manifest: Bytes,
                                      cursor: Hash, count: nat, rank: nat, cache: Cache, choice: Choice,
                                      i: nat) returns (j: nat)
    requires Alone(run, tid, choice)
             && AtStep(run(i), tid, CountTransitions(r, l, manifest, cursor, count, rank), cache)
    requires r.source.HasOffer() && CacheSound(cache)
    ensures Ends(run(i), run(j), tid, r, Counted(r, l, manifest, count, CachedWalk(run(i).kv, cache, cursor)))
    decreases cursor[0]
  {
    if cursor == ZeroHash() {
      CountEndAlone(run, tid, r, l, manifest, count, rank, cache, choice, i);
      j := i + 2;
    } else {
      CountBackAlone(run, tid, r, l, manifest, cursor, count, rank, cache, choice, i);
      CachedWalkStep(run(i).kv, cache, cursor);
      j := i + 1;
      var t := FetchTransition(run(i).kv, cache, cursor);
      if t.Some? {
        var cache1 := Remember(cache, cursor, Fetch(run(i).kv, cache, Transitions, cursor));
        var next := CountTransitions(r, l, manifest, t.value.previous, count + 1, rank);
        j := CountAlone(run, tid, r, l, manifest, t.value.previous, count + 1, rank, cache1, choice, i + 1);
        CountOn(run(i), run(i + 1), run(j), tid, r, l, manifest, cursor, next, count, cache1,
                CachedWalk(run(i).kv, cache1, t.value.previous));
      }
    }
  }

  lemma ReadLatestAlone(run: Run, tid: nat, r: Recovery, cache: Cache, choice: Choice, i: nat)
    requires Alone(run, tid, choice) && AtStep(run(i), tid, ReadLatest(r), cache)
    ensures var w := run(i);
            match UnmarshalLatest(Current(w.kv))
            case None => Ends(w, run(i + 1), tid, r, ResetOutcome(cache, None, Unreadable))
            case Some(l) => ReadOn(w, run(i + 1), tid, r.coord, cache, ReadTransition(r, l.tip))
  {
    assert Linked(run, tid, choice, i);
  }

  lemma ReadTransitionAlone(run: Run, tid: nat, r: Recovery, tip: Hash, cache: Cache, choice: Choice, i: nat)
    requires Alone(run, tid, choice) && AtStep(run(i), tid, ReadTransition(r, tip), cache)
    ensures var w := run(i);
            var cache1 := Remember(cache, tip, Fetch(w.kv, cache, Transitions, tip));
            match FetchTransition(w.kv, cache, tip)
            case None => Ends(w, run(i + 1), tid, r, ResetOutcome(cache1, None, Unreadable))
            case Some(t) => ReadOn(w, run(i + 1), tid, r.coord, cache1, ReadManifest(r, tip, t))
  {
    assert Linked(run, tid, choice, i);
  }

  lemma ReadManifestAlone(run: Run, tid: nat, r: Recovery, tip: Hash, t: Transition, cache: Cache, choice: Choice,
                          i: nat)
    requires Alone(run, tid, choice) && AtStep(run(i), tid, ReadManifest(r, tip, t), cache)
    ensures var w := run(i);
            var manifest := Fetch(w.kv, cache, ManifestsKind, t.manifestHash);
            var cache1 := Remember(cache, t.manifestHash, manifest);
            if manifest.Some? && ParseManifest(manifest.value).Some?
               && Authorized(r, w.coords[r.coord].allowInsecure, ParseManifest(manifest.value).value)
            then ReadOn(w, run(i + 1), tid, r.coord, cache1, ReadVerified(r, tip, t, manifest.value))
            else Ends(w, run(i + 1), tid, r, ResetOutcome(cache1, None, Unreadable))
  {
    assert Linked(run, tid, choice, i);
  }

  lemma ReadVerifiedAlone(run: Run, tid: nat, r: Recovery, l: LatestTransition, t: Transition, manifest: Bytes,
                          cache: Cache, choice: Choice, i: nat)
    requires Alone(run, tid, choice) && AtStep(run(i), tid, ReadVerified(r, l.tip, t, manifest), cache)
    requires r.source.HasOffer() && UnmarshalLatest(Current(run(i).kv)) == Some(l)
    ensures var w := run(i);
            if Verify(r.source.Offer().SigningKey(), l.tip, l.signature)
            then ReadOn(w, run(i + 1), tid, r.coord, cache, CountTransitions(r, l, manifest, l.tip, 0, |w.log|))
            else Ends(w, run(i + 1), tid, r, ResetOutcome(cache, None, Unreadable))
  {
    assert Linked(run, tid, choice, i);
  }

  /** The rest of the specification after the first, second and third read. */
  ghost function VerifiedOutcome(kv: Store, cache: Cache, r: Recovery, l: LatestTransition, manifest: Bytes)
    : (result: ResetOutcome)
    requires CacheSound(cache) && r.source.HasOffer()
  {
    if !Verify(r.source.Offer().SigningKey(), l.tip, l.signature) then ResetOutcome(cache, None, Unreadable)
    else Counted(r, l, manifest, 0, CachedWalk(kv, cache, l.tip))
  }

  ghost function ManifestOutcome(kv: Store, cache: Cache, r: Recovery, allowInsecure: bool, l: LatestTransition,
                                 t: Transition): (result: ResetOutcome)
    requires CacheSound(cache) && r.source.HasOffer()
  {
    var manifest := Fetch(kv, cache, ManifestsKind, t.manifestHash);
    var cache' := Remember(cache, t.manifestHash, manifest);
    if manifest.None? || ParseManifest(manifest.value).None?
       || !Authorized(r, allowInsecure, ParseManifest(manifest.value).value)
    then ResetOutcome(cache', None, Unreadable)
    else VerifiedOutcome(kv, cache', r, l, manifest.value)
  }

  ghost function TransitionOutcome(kv: Store, cache: Cache, r: Recovery, allowInsecure: bool, l: LatestTransition)
    : (result: ResetOutcome)
    requires CacheSound(cache) && r.source.HasOffer()
  {
    var cache' := Remember(cache, l.tip, Fetch(kv, cache, Transitions, l.tip));
    match FetchTransition(kv, cache, l.tip)
    case None => ResetOutcome(cache', None, Unreadable)
    case Some(t) => ManifestOutcome(kv, cache', r, allowInsecure, l, t)
  }

  lemma ResetSpecReads(kv: Store, cache: Cache, r: Recovery, allowInsecure: bool)
    requires CacheSound(cache) && r.source.HasOffer()
    ensures var o := ResetSpec(kv, cache, r.source, allowInsecure);
            match UnmarshalLatest(Current(kv))
            case None => o.cache == cache && o.next == None
            case Some(l) => o.next == TransitionOutcome(kv, cache, r, allowInsecure, l).next
                            && o.cache == TransitionOutcome(kv, cache, r, allowInsecure, l).cache
  {
  }

  lemma VerifiedAlone(run: Run, tid: nat, r: Recovery, l: LatestTransition, t: Transition, manifest: Bytes,
                      cache: Cache, choice: Choice, i: nat) returns (j: nat)
    requires Alone(run, tid, choice) && AtStep(run(i), tid, ReadVerified(r, l.tip, t, manifest), cache)
    requires r.source.HasOffer() && CacheSound(cache) && UnmarshalLatest(Current(run(i).kv)) == Some(l)
    ensures Ends(run(i), run(j), tid, r, VerifiedOutcome(run(i).kv, cache, r, l, manifest))
  {
    ReadVerifiedAlone(run, tid, r, l, t, manifest, cache, choice, i);
    j := i + 1;
    if Verify(r.source.Offer().SigningKey(), l.tip, l.signature) {
      j := CountAlone(run, tid, r, l, manifest, l.tip, 0, |run(i).log|, cache, choice, i + 1);
      EndsFrom(run(i), run(i + 1), run(j), tid, r, cache, CountTransitions(r, l, manifest, l.tip, 0, |run(i).log|),
               VerifiedOutcome(run(i).kv, cache, r, l, manifest));
    }
  }

  lemma ManifestAlone(run: Run, tid: nat, r: Recovery, l: LatestTransition, t: Transition, cache: Cache, choice: Choice,
                      i: nat)
    returns (j: nat)
    requires Alone(run, tid, choice) && AtStep(run(i), tid, ReadManifest(r, l.tip, t), cache)
    requires r.source.HasOffer() && CacheSound(cache) && UnmarshalLatest(Current(run(i).kv)) == Some(l)
    ensures Ends(run(i), run(j), tid, r,
                 ManifestOutcome(run(i).kv, cache, r, run(i).coords[r.coord].allowInsecure, l, t))
  {
    ReadManifestAlone(run, tid, r, l.tip, t, cache, choice, i);
    j := i + 1;
    var manifest := Fetch(run(i).kv, cache, ManifestsKind, t.manifestHash);
    var cache1 := Remember(cache, t.manifestHash, manifest);
    if tid in run(i + 1).threads {
      j := VerifiedAlone(run, tid, r, l, t, manifest.value, cache1, choice, i + 1);
      EndsFrom(run(i), run(i + 1), run(j), tid, r, cache1, ReadVerified(r, l.tip, t, manifest.value),
               VerifiedOutcome(run(i).kv, cache1, r, l, manifest.value));
    }
  }

  lemma TransitionAlone(run: Run, tid: nat, r: Recovery, l: LatestTransition, cache: Cache, choice: Choice, i: nat)
    returns (j: nat)
    requires Alone(run, tid, choice) && AtStep(run(i), tid, ReadTransition(r, l.tip), cache)
    requires r.source.HasOffer() && CacheSound(cache) && UnmarshalLatest(Current(run(i).kv)) == Some(l)
    ensures Ends(run(i), run(j), tid, r,
                 TransitionOutcome(run(i).kv, cache, r, run(i).coords[r.coord].allowInsecure, l))
  {
    ReadTransitionAlone(run, tid, r, l.tip, cache, choice, i);
    j := i + 1;
    var cache1 := Remember(cache, l.tip, Fetch(run(i).kv, cache, Transitions, l.tip));
    var t := FetchTransition(run(i).kv, cache, l.tip);
    if t.Some? {
      j := ManifestAlone(run, tid, r, l, t.value, cache1, choice, i + 1);
      EndsFrom(run(i), run(i + 1), run(j), tid, r, cache1, ReadManifest(r, l.tip, t.value),
               ManifestOutcome(run(i).kv, cache1, r, run(i).coords[r.coord].allowInsecure, l, t.value));
    }
  }

  /** ResetState, uninterrupted, is the method of the guard. */
  lemma ResetAlone(run: Run, tid: nat, r: Recovery, cache: Cache, choice: Choice, i: nat) returns (j: nat)
    requires Alone(run, tid, choice) && AtStep(run(i), tid, ReadLatest(r), cache)
    requires r.source.HasOffer() && CacheSound(cache)
    ensures Ends(run(i), run(j), tid, r, ResetSpec(run(i).kv, cache, r.source, run(i).coords[r.coord].allowInsecure))
  {
    ReadLatestAlone(run, tid, r, cache, choice, i);
    ResetSpecReads(run(i).kv, cache, r, run(i).coords[r.coord].allowInsecure);
    j := i + 1;
    var l := UnmarshalLatest(Current(run(i).kv));
    if l.Some? {
      j := TransitionAlone(run, tid, r, l.value, cache, choice, i + 1);
      EndsFrom(run(i), run(i + 1), run(j), tid, r, cache, ReadTransition(r, l.value.tip),
               TransitionOutcome(run(i).kv, cache, r, run(i).coords[r.coord].allowInsecure, l.value));
    }
  }

  // ---- In reachable worlds ----

  /** A request that has passed its guard and is not interrupted does what the methods of the guard do. */
  lemma UpdateRun(events: seq<Event>, tid: nat, choice: Choice)
    requires var w := Exec(events); tid in w.threads && w.threads[tid].StorePolicies? && w.threads[tid].next == 0
    ensures var w, u := Exec(events), Exec(events).threads[tid].u;
            && u.coord in w.coords && (u.previous.Some? ==> u.previous.value < |w.objs|)
            && AsSpecified(w, Exec(events + Repeated(tid, choice, |u.request.policies| + 5)), tid, u, choice.nonce)
  {
    ExecInv(events);
    var w := Exec(events);
    var run := RunAfter(events, tid, choice);
    RunAfterIsAlone(events, tid, choice);
    assert ThreadOk(w, tid, w.threads[tid]);
    UpdateAlone(run, tid, w.threads[tid].u, choice, 0);
  }

  lemma RecoveryRun(events: seq<Event>, tid: nat, choice: Choice) returns (n: nat)
    requires var w := Exec(events); tid in w.threads && w.threads[tid].ReadLatest?
    ensures var w, r := Exec(events), Exec(events).threads[tid].r;
            && r.coord in w.coords && r.source.HasOffer() && CacheSound(w.coords[r.coord].cache)
            && Ends(w, Exec(events + Repeated(tid, choice, n)), tid, r,
                    ResetSpec(w.kv, w.coords[r.coord].cache, r.source, w.coords[r.coord].allowInsecure))
  {
    ExecInv(events);
    var w := Exec(events);
    var run := RunAfter(events, tid, choice);
    RunAfterIsAlone(events, tid, choice);
    assert ThreadOk(w, tid, w.threads[tid]);
    var r := w.threads[tid].r;
    n := ResetAlone(run, tid, r, w.coords[r.coord].cache, choice, 0);
  }
}
