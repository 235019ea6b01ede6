/** The inductive invariant of the step system.
  *
  * A held State is described by its generation: it is the prefix of that length of the history.
  * The transition tree in the store is walked along a single branch, and the position on it
  * serves as the rank of a transition.
  */
module ProtocolInvariant {
  import opened Ideal
  import opened Chain
  import opened Manifests
  import opened Protocol

  // ---- The invariant ----

  ghost predicate Stored(w: World, kind: Kind, h: Hash) {
    At(kind, h) in w.kv
  }

  ghost function TipAt(w: World, k: nat): (r: Hash)
    requires k <= |w.log|
  {
    Tip(w.log[..k])
  }

  ghost predicate ContentOk(kv: Store) {
    forall kind, h :: At(kind, h) in kv ==> Digest(kv[At(kind, h)]) == h
  }

  ghost predicate CachesOk(w: World) {
    forall c :: c in w.coords ==> CacheSound(w.coords[c].cache)
  }

  ghost predicate PoliciesStored(w: World, m: Manifest) {
    forall reference :: reference in m.policies ==>
                          HexBytes(reference).Some? && Stored(w, Policies, Reference(HexBytes(reference).value))
  }

  /** Everything an entry of the history consists of is in the store. */
  ghost predicate EntryStored(w: World, k: nat)
    requires k < |w.log|
  {
    && Stored(w, ManifestsKind, Digest(w.log[k]))
    && Stored(w, Transitions, TipAt(w, k + 1))
    && ParseManifest(w.log[k]).Some?
    && PoliciesStored(w, ParseManifest(w.log[k]).value)
  }

  /** The guard that let an entry in, evaluated against the entry right before it. */
  ghost predicate Accepted(w: World, k: nat)
    requires k < |w.log| == |w.records|
  {
    var rec := w.records[k];
    && rec.request.manifest == w.log[k]
    && ParseManifest(w.log[k]).Some?
    && var m := ParseManifest(w.log[k]).value;
    if k == 0 then GuardInitial(rec.allowInsecure, m, rec.request) == Ok
    else
      && ParseManifest(w.log[k - 1]).Some?
      && GuardUpdate(rec.allowInsecure, ParseManifest(w.log[k - 1]).value, TipAt(w, k), m, rec.request) == Ok
  }

  ghost predicate EntryRecorded(w: World, k: nat)
    requires k < |w.log| == |w.records|
  {
    var rec := w.records[k];
    && rec.seeds == w.records[0].seeds
    && rec.value.tip == TipAt(w, k + 1)
    && Verify(rec.seeds.SigningKey(), rec.value.tip, rec.value.signature)
    && rec.replaced == (if k == 0 then [] else MarshalLatest(w.records[k - 1].value))
  }

  ghost predicate HistoryOk(w: World) {
    && |w.log| == |w.records|
    && (forall k :: 0 <= k < |w.log| ==> EntryStored(w, k) && Accepted(w, k) && EntryRecorded(w, k))
    && (w.log == [] ==> Latest !in w.kv)
    && (w.log != [] ==> Latest in w.kv && w.kv[Latest] == MarshalLatest(w.records[|w.records| - 1].value))
  }

  ghost predicate StateOk(w: World, s: State) {
    && 1 <= s.generation <= |w.log| == |w.records|
    && s.latest == w.records[s.generation - 1].value
    && s.manifest == w.log[s.generation - 1]
    && s.seeds == w.records[0].seeds
  }

  ghost predicate StatesOk(w: World) {
    && (forall a :: 0 <= a < |w.objs| ==> StateOk(w, w.objs[a]))
    && (forall c :: c in w.coords && w.coords[c].cell.Some? ==> w.coords[c].cell.value < |w.objs|)
  }

  /** A stale state is strictly behind. */
  ghost predicate StaleOk(w: World) {
    forall a :: a in w.stale ==> a < |w.objs| && w.objs[a].generation < |w.log|
  }

  ghost predicate UpdateOk(w: World, u: Update) {
    && ParseManifest(u.request.manifest).Some?
    && var m := ParseManifest(u.request.manifest).value;
    match u.previous
    case None => GuardInitial(u.allowInsecure, m, u.request) == Ok
    case Some(a) =>
      && a < |w.objs|
      && u.seeds == w.objs[a].seeds
      && ParseManifest(w.objs[a].manifest).Some?
      && GuardUpdate(u.allowInsecure, ParseManifest(w.objs[a].manifest).value, w.objs[a].latest.tip, m, u.request) == Ok
  }

  /** A recovery is only under way when something newer than its old state is persisted. */
  ghost predicate RecoveryOk(w: World, r: Recovery) {
    && r.source.HasOffer()
    && (r.previous.Some? ==> r.previous.value in w.stale && r.previous.value < |w.objs|)
    && Generation(w, r.previous) < |w.log|
  }

  /** What is known about the entry of the given rank once it has been read and verified. */
  ghost predicate ReadOk(w: World, r: Recovery, latest: LatestTransition, manifest: Bytes, rank: nat) {
    && Generation(w, r.previous) < rank <= |w.log| == |w.records|
    && latest == w.records[rank - 1].value
    && manifest == w.log[rank - 1]
    && r.source.HasOffer()
    && r.source.Offer() == w.records[0].seeds
  }

  ghost predicate UpdateThreadOk(w: World, tid: nat, t: Thread)
    requires t.StorePolicies? || t.StoreManifest? || t.StoreTransition? || t.SwapLatest? || t.SwapState?
  {
    && UpdateOk(w, t.u)
    && match t
       case StorePolicies(u, next) =>
         && next <= |u.request.policies|
         && forall i :: 0 <= i < next ==> Stored(w, Policies, Digest(u.request.policies[i]))
       case StoreManifest(u) => PoliciesStored(w, ParseManifest(u.request.manifest).value)
       case StoreTransition(u, manifestHash) =>
         && PoliciesStored(w, ParseManifest(u.request.manifest).value)
         && manifestHash == Digest(u.request.manifest)
         && Stored(w, ManifestsKind, manifestHash)
       case SwapLatest(u, tip) =>
         && PoliciesStored(w, ParseManifest(u.request.manifest).value)
         && Stored(w, ManifestsKind, Digest(u.request.manifest))
         && tip == TransitionDigest(Transition(Digest(u.request.manifest), Base(w, u.previous)))
         && Stored(w, Transitions, tip)
       case SwapState(u, latest) =>
         var n := Generation(w, u.previous);
         && n < |w.log| == |w.records|
         && w.log[n] == u.request.manifest
         && w.records[n].value == latest
         && w.records[n].author == tid
         && u.seeds == w.records[0].seeds
  }

  ghost predicate ThreadOk(w: World, tid: nat, t: Thread) {
    && t.On() in w.coords
    && match t
       case SetLoad(_, _) => true
       case SetFlag(_, _, a) => a < |w.objs|
       case SetProbe(_, _) => true
       case ResetLoad(_, source) => source.HasOffer()
       case ResetFlag(_, source, a) => source.HasOffer() && a < |w.objs|
       case ResetProbe(_, source) => source.HasOffer()
       case ReadLatest(r) => RecoveryOk(w, r)
       case ReadTransition(r, _) => RecoveryOk(w, r)
       case ReadManifest(r, tip, transition) => RecoveryOk(w, r) && tip == TransitionDigest(transition)
       case ReadVerified(r, tip, transition, manifest) =>
         && RecoveryOk(w, r)
         && tip == TransitionDigest(transition)
         && transition.manifestHash == Digest(manifest)
       case CountTransitions(r, latest, manifest, cursor, count, rank) =>
         && RecoveryOk(w, r)
         && ReadOk(w, r, latest, manifest, rank)
         && count <= rank
         && cursor == TipAt(w, rank - count)
       case InstallState(r, latest, manifest, count, rank) =>
         RecoveryOk(w, r) && ReadOk(w, r, latest, manifest, rank) && count == rank
       case WatchLoad(_, target, rank) =>
         1 <= rank <= |w.log| && target == TipAt(w, rank)
       case WatchWalk(_, a, target, rank, cursor, depth, found) =>
         && a < |w.objs|
         && 1 <= rank <= |w.log| && target == TipAt(w, rank)
         && depth <= w.objs[a].generation <= |w.log|
         && cursor == TipAt(w, w.objs[a].generation - depth)
         && (found <==> w.objs[a].generation - depth < rank <= w.objs[a].generation)
       case _ => UpdateThreadOk(w, tid, t)
  }

  ghost predicate ThreadsOk(w: World) {
    forall tid :: tid in w.threads ==> ThreadOk(w, tid, w.threads[tid])
  }

  /** The cell content an update has loaded and expects to find again. */
  function Loaded(t: Thread): (r: Option<Option<Addr>>) {
    match t
    case SetFlag(_, _, a) => Some(Some(a))
    case SetProbe(_, _) => Some(None)
    case StorePolicies(u, _) => Some(u.previous)
    case StoreManifest(u) => Some(u.previous)
    case StoreTransition(u, _) => Some(u.previous)
    case SwapLatest(u, _) => Some(u.previous)
    case SwapState(u, _) => Some(u.previous)
    case _ => None
  }

  /** Once an update has loaded the cell, it can only change to something newer. */
  ghost predicate CellOk(w: World, t: Thread) {
    t.On() in w.coords && Loaded(t).Some? ==>
      || w.coords[t.On()].cell == Loaded(t).value
      || (w.coords[t.On()].cell.Some? && Generation(w, w.coords[t.On()].cell) > Generation(w, Loaded(t).value))
  }

  ghost predicate CellsOk(w: World) {
    forall tid :: tid in w.threads ==> CellOk(w, w.threads[tid])
  }

  ghost predicate Inv(w: World) {
    && ContentOk(w.kv)
    && CachesOk(w)
    && HistoryOk(w)
    && StatesOk(w)
    && StaleOk(w)
    && ThreadsOk(w)
    && CellsOk(w)
  }

  // ---- What only ever grows ----

  ghost predicate StoreGrows(kv: Store, kv': Store) {
    forall p :: p in kv ==> p in kv' && (p.At? ==> kv'[p] == kv[p])
  }

  /** Persisted content, State objects, the history and the stale flags only grow. */
  ghost predicate Grows(w: World, w': World) {
    && StoreGrows(w.kv, w'.kv)
    && w.objs <= w'.objs
    && w.log <= w'.log
    && w.records <= w'.records
    && w.stale <= w'.stale
  }

  lemma TipAtGrows(w: World, w': World, k: nat)
    requires w.log <= w'.log && k <= |w.log|
    ensures TipAt(w', k) == TipAt(w, k)
  {
    assert w'.log[..k] == w.log[..k];
  }

  lemma TipAtInjective(w: World, i: nat, j: nat)
    requires i <= |w.log| && j <= |w.log| && TipAt(w, i) == TipAt(w, j)
    ensures i == j
  {
    TipInjective(w.log[..i], w.log[..j]);
  }

  lemma TipAtStep(w: World, k: nat)
    requires k < |w.log|
    ensures TipAt(w, k + 1) == TransitionDigest(Transition(Digest(w.log[k]), TipAt(w, k)))
  {
    assert w.log[..k + 1][..k] == w.log[..k];
    assert LastTransition(w.log[..k + 1]) == Transition(Digest(w.log[k]), TipAt(w, k));
  }

  lemma StateOkGrows(w: World, w': World, s: State)
    requires StateOk(w, s) && Grows(w, w') && |w'.log| == |w'.records|
    ensures StateOk(w', s)
  {
  }

  lemma UpdateThreadOkGrows(w: World, w': World, tid: nat, t: Thread)
    requires t.StorePolicies? || t.StoreManifest? || t.StoreTransition? || t.SwapLatest? || t.SwapState?
    requires UpdateThreadOk(w, tid, t) && Grows(w, w') && |w'.log| == |w'.records|
    ensures UpdateThreadOk(w', tid, t)
  {
  }

  lemma ThreadOkGrows(w: World, w': World, tid: nat, t: Thread)
    requires ThreadOk(w, tid, t) && Grows(w, w') && |w'.log| == |w'.records| && t.On() in w'.coords
    ensures ThreadOk(w', tid, t)
  {
    match t
    case CountTransitions(r, latest, manifest, cursor, count, rank) => TipAtGrows(w, w', rank - count);
    case WatchLoad(_, target, rank) => TipAtGrows(w, w', rank);
    case WatchWalk(_, a, target, rank, cursor, depth, found) =>
      TipAtGrows(w, w', rank);
      TipAtGrows(w, w', w.objs[a].generation - depth);
    case StorePolicies(_, _) => UpdateThreadOkGrows(w, w', tid, t);
    case StoreManifest(_) => UpdateThreadOkGrows(w, w', tid, t);
    case StoreTransition(_, _) => UpdateThreadOkGrows(w, w', tid, t);
    case SwapLatest(_, _) => UpdateThreadOkGrows(w, w', tid, t);
    case SwapState(_, _) => UpdateThreadOkGrows(w, w', tid, t);
    case _ =>
  }
}
