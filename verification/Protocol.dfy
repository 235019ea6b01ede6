/** Any number of Coordinators over one key-value store, as a step system.
  *
  * Every store access, every load, flag read and compare-and-swap of a Coordinator's state
  * cell is a step of its own. Requests of all Coordinators interleave freely, and may be
  * abandoned between any two steps. `Exec` runs an arbitrary sequence of events; an event that is
  * not possible in the current world leaves it unchanged.
  */
module Protocol {
  import opened Ideal
  import opened Chain
  import opened Manifests

  datatype Kind = Policies | ManifestsKind | Transitions

  /** Keys of the store: content-addressed entries and `transitions/latest`. */
  datatype Path = At(kind: Kind, hash: Hash) | Latest

  type Store = map<Path, Bytes>
  type Cache = map<Hash, Bytes>

  /** Identity of a State object. The state cell of a Coordinator is compared by address. */
  type Addr = nat

  datatype Seeds = Seeds(seed: Bytes, salt: Bytes) {
    predicate Valid() { |salt| == 32 && |seed| >= 32 }
    function SigningKey(): (key: Key) { TransactionKey(seed, salt) }
  }

  /** The immutable part of a State object; the stale flags are kept in `World.stale`. */
  datatype State = State(seeds: Seeds, manifest: Bytes, latest: LatestTransition, generation: nat)

  datatype Coordinator = Coordinator(cell: Option<Addr>, cache: Cache, allowInsecure: bool)

  /** The arguments of UpdateState, and the Coordinator that runs it. */
  datatype Update = Update(coord: nat, previous: Option<Addr>, seeds: Seeds, request: Request, allowInsecure: bool)

  /** Where the secrets of a recovery come from: the user, or a list of peers still to be tried.
      What a peer answers is arbitrary. */
  datatype Source =
    | User(given: Seeds, peer: Option<Bytes>)
    | Peers(offers: seq<Seeds>)
  {
    predicate HasOffer() { Peers? ==> offers != [] }
    function Offer(): (seeds: Seeds) requires HasOffer() { if User? then given else offers[0] }
  }

  datatype Recovery = Recovery(coord: nat, previous: Option<Addr>, source: Source)

  /** A request in flight: where it is in its code, with its local variables. `rank` is a history
      variable, the length of the history up to the transition the request has read. */
  datatype Thread =
    // SetManifest
    | SetLoad(coord: nat, request: Request)
    | SetFlag(coord: nat, request: Request, loaded: Addr)
    | SetProbe(coord: nat, request: Request)
    // UpdateState
    | StorePolicies(u: Update, next: nat)
    | StoreManifest(u: Update)
    | StoreTransition(u: Update, manifestHash: Hash)
    | SwapLatest(u: Update, tip: Hash)
    | SwapState(u: Update, latest: LatestTransition)
    // Recover and RecoverOnce
    | ResetLoad(coord: nat, source: Source)
    | ResetFlag(coord: nat, source: Source, loaded: Addr)
    | ResetProbe(coord: nat, source: Source)
    // ResetState
    | ReadLatest(r: Recovery)
    | ReadTransition(r: Recovery, tip: Hash)
    | ReadManifest(r: Recovery, tip: Hash, transition: Transition)
    | ReadVerified(r: Recovery, tip: Hash, transition: Transition, manifest: Bytes)
    | CountTransitions(r: Recovery, latest: LatestTransition, manifest: Bytes, cursor: Hash, count: nat, rank: nat)
    | InstallState(r: Recovery, latest: LatestTransition, manifest: Bytes, count: nat, rank: nat)
    // WatchHistory, one notification
    | WatchLoad(coord: nat, target: Hash, rank: nat)
    | WatchWalk(coord: nat, watched: Addr, target: Hash, rank: nat, cursor: Hash, depth: nat, found: bool)
  {
    function On(): (r: nat) {
      if StorePolicies? || StoreManifest? || StoreTransition? || SwapLatest? || SwapState? then u.coord
      else if ReadLatest? || ReadTransition? || ReadManifest? || ReadVerified? || CountTransitions?
          || InstallState? then r.coord
      else coord
    }
  }

  /** How an entry of the history came about: the request that was in flight as `author`, and the
      value that `transitions/latest` took. */
  datatype Record = Record(author: nat, request: Request, allowInsecure: bool, seeds: Seeds,
                           replaced: Bytes, value: LatestTransition)

  /** `log` (the manifests whose publication succeeded) and `records` are history variables: no
      step reads them, except that a watcher may be told any value `transitions/latest` ever had. */
  datatype World = World(
    kv: Store,
    objs: seq<State>,
    stale: set<Addr>,
    coords: map<nat, Coordinator>,
    threads: map<nat, Thread>,
    log: seq<Bytes>,
    records: seq<Record>)

  /** Values drawn at random by a step. */
  datatype Choice = Choice(nonce: nat, seeds: Seeds)

  datatype Event =
    | Boot(coord: nat, allowInsecure: bool)
    | StartSet(tid: nat, coord: nat, request: Request)
    | StartReset(tid: nat, coord: nat, source: Source)
    | Notify(tid: nat, coord: nat, rank: nat)
    | Advance(tid: nat, choice: Choice)
    | NextPeer(tid: nat)
    | Abandon(tid: nat)

  const INIT := World(map[], [], {}, map[], map[], [], [])

  ghost function Exec(events: seq<Event>): (r: World) {
    if events == [] then INIT else Step(Exec(events[..|events| - 1]), events[|events| - 1])
  }

  // ---- Store and cache ----

  function Current(kv: Store): (r: Bytes) {
    if Latest in kv then kv[Latest] else []
  }

  /** Reading by content: the cache answers first; what the store answers must match the key. */
  function Fetch(kv: Store, cache: Cache, kind: Kind, h: Hash): (r: Option<Bytes>) {
    if h in cache then Some(cache[h])
    else if At(kind, h) in kv && Digest(kv[At(kind, h)]) == h then Some(kv[At(kind, h)])
    else None
  }

  /** The cache after a read: what was read is remembered. */
  function Remember(cache: Cache, h: Hash, data: Option<Bytes>): (r: Cache) {
    if data.Some? then cache[h := data.value] else cache
  }

  /** One cache serves manifests, policies and transitions; whatever is in it digests to its key. */
  ghost predicate CacheSound(cache: Cache) {
    forall h :: h in cache ==> Digest(cache[h]) == h
  }

  function FetchTransition(kv: Store, cache: Cache, h: Hash): (r: Option<Transition>) {
    match Fetch(kv, cache, Transitions, h)
    case None => None
    case Some(data) => Unmarshal(data)
  }

  // ---- Updates of one part of the world ----

  function Goto(w: World, tid: nat, t: Thread): (r: World) {
    w.(threads := w.threads[tid := t])
  }

  function Stop(w: World, tid: nat): (r: World) {
    w.(threads := w.threads - {tid})
  }

  function Put(w: World, c: nat, kind: Kind, data: Bytes): (r: World)
    requires c in w.coords
  {
    var h := Digest(data);
    w.(kv := w.kv[At(kind, h) := data],
       coords := w.coords[c := w.coords[c].(cache := w.coords[c].cache[h := data])])
  }

  /** A read of a Coordinator and what it leaves in the cache. */
  function Read(w: World, c: nat, kind: Kind, h: Hash): (r: Option<Bytes>)
    requires c in w.coords
  {
    Fetch(w.kv, w.coords[c].cache, kind, h)
  }

  function AfterRead(w: World, c: nat, kind: Kind, h: Hash): (r: World)
    requires c in w.coords
  {
    w.(coords := w.coords[c := w.coords[c].(cache := Remember(w.coords[c].cache, h, Read(w, c, kind, h)))])
  }

  /** Allocates a State object and swaps it in if the cell is still `expected`. */
  function Install(w: World, c: nat, expected: Option<Addr>, s: State): (r: World)
    requires c in w.coords
  {
    var cell := if w.coords[c].cell == expected then Some(|w.objs|) else w.coords[c].cell;
    w.(objs := w.objs + [s], coords := w.coords[c := w.coords[c].(cell := cell)])
  }

  function Generation(w: World, a: Option<Addr>): (r: nat) {
    if a.Some? && a.value < |w.objs| then w.objs[a.value].generation else 0
  }

  /** The tip an update builds on. */
  function Base(w: World, a: Option<Addr>): (r: Hash) {
    if a.Some? && a.value < |w.objs| then w.objs[a.value].latest.tip else ZeroHash()
  }

  /** What SetLatest expects to find. */
  function ExpectedLatest(w: World, a: Option<Addr>): (r: Bytes) {
    if a.Some? && a.value < |w.objs| then MarshalLatest(w.objs[a.value].latest) else []
  }

  /** The requests in flight may differ, nothing else. */
  ghost predicate ThreadsOnly(w: World, w': World) {
    w' == w.(threads := w'.threads)
  }

  /** The caches may differ as well. */
  ghost predicate ReadsOnly(w: World, w': World) {
    && w' == w.(threads := w'.threads, coords := w'.coords)
    && w'.coords.Keys == w.coords.Keys
    && forall c :: c in w.coords ==> w'.coords[c].(cache := w.coords[c].cache) == w.coords[c]
  }

  // ---- Steps ----

  function Step(w: World, e: Event): (r: World) {
    match e
    case Boot(c, allowInsecure) =>
      // Start, or crash and restart: memory is lost, requests in flight die.
      w.(coords := w.coords[c := Coordinator(None, map[], allowInsecure)],
         threads := map tid | tid in w.threads && w.threads[tid].On() != c :: w.threads[tid])
    case StartSet(tid, c, request) =>
      if c in w.coords && tid !in w.threads then Goto(w, tid, SetLoad(c, request)) else w
    case StartReset(tid, c, source) =>
      if c in w.coords && tid !in w.threads && source.HasOffer() then Goto(w, tid, ResetLoad(c, source)) else w
    case Notify(tid, c, rank) =>
      // Notifications may be late, repeated and out of order.
      if c in w.coords && tid !in w.threads && 1 <= rank <= |w.records|
      then Goto(w, tid, WatchLoad(c, w.records[rank - 1].value.tip, rank))
      else w
    case Advance(tid, choice) =>
      if tid in w.threads && w.threads[tid].On() in w.coords then AdvanceThread(w, tid, w.threads[tid], choice) else w
    case NextPeer(tid) =>
      if tid in w.threads then TryNextPeer(w, tid, w.threads[tid]) else w
    case Abandon(tid) => Stop(w, tid)
  }

  function AdvanceThread(w: World, tid: nat, t: Thread, choice: Choice): (r: World)
    requires t.On() in w.coords
  {
    match t
    case SetLoad(c, request) => LoadForSet(w, tid, c, request)
    case SetFlag(c, request, a) => GuardedUpdate(w, tid, c, request, a)
    case SetProbe(c, request) => GuardedInitial(w, tid, c, request, choice.seeds)
    case StorePolicies(u, next) => StoreNextPolicy(w, tid, u, next)
    case StoreManifest(u) =>
      Goto(Put(w, u.coord, ManifestsKind, u.request.manifest), tid, StoreTransition(u, Digest(u.request.manifest)))
    case StoreTransition(u, manifestHash) =>
      var data := Marshal(Transition(manifestHash, Base(w, u.previous)));
      Goto(Put(w, u.coord, Transitions, data), tid, SwapLatest(u, Digest(data)))
    case SwapLatest(u, tip) => Publish(w, tid, u, LatestTransition(tip, Sign(u.seeds.SigningKey(), tip, choice.nonce)))
    case SwapState(u, latest) =>
      Stop(Install(w, u.coord, u.previous,
                   State(u.seeds, u.request.manifest, latest, Generation(w, u.previous) + 1)), tid)
    case ResetLoad(c, source) =>
      Goto(w, tid, if w.coords[c].cell.Some? then ResetFlag(c, source, w.coords[c].cell.value)
           else ResetProbe(c, source))
    case ResetFlag(c, source, a) =>
      if a in w.stale then Goto(w, tid, ReadLatest(Recovery(c, Some(a), source))) else Stop(w, tid)
    case ResetProbe(c, source) =>
      if Latest in w.kv then Goto(w, tid, ReadLatest(Recovery(c, None, source))) else Stop(w, tid)
    case ReadLatest(r) =>
      (match UnmarshalLatest(Current(w.kv))
       case None => Stop(w, tid)
       case Some(l) => Goto(w, tid, ReadTransition(r, l.tip)))
    case ReadTransition(r, tip) => LoadTransition(w, tid, r, tip)
    case ReadManifest(r, tip, transition) => LoadAndAuthorize(w, tid, r, tip, transition)
    case ReadVerified(r, tip, transition, manifest) => ReadAgain(w, tid, r, tip, manifest)
    case CountTransitions(r, latest, manifest, cursor, count, rank) =>
      CountNext(w, tid, r, latest, manifest, cursor, count, rank)
    case InstallState(r, latest, manifest, count, rank) =>
      if r.source.HasOffer()
      then Stop(Install(w, r.coord, r.previous, State(r.source.Offer(), manifest, latest, count)), tid)
      else w
    case WatchLoad(c, target, rank) =>
      (match w.coords[c].cell
       case None => Stop(w, tid)
       case Some(a) => Goto(w, tid, WatchWalk(c, a, target, rank, Base(w, Some(a)), 0, false)))
    case WatchWalk(c, a, target, rank, cursor, depth, found) =>
      WatchNext(w, tid, c, a, target, rank, cursor, depth, found)
  }

  function LoadForSet(w: World, tid: nat, c: nat, request: Request): (w': World)
    requires c in w.coords
    ensures ThreadsOnly(w, w')
  {
    match w.coords[c].cell
    case None => Goto(w, tid, SetProbe(c, request))
    case Some(a) => Goto(w, tid, SetFlag(c, request, a))
  }

  /** SetManifest on top of a state: reads the stale flag, then decides without further reads. */
  function GuardedUpdate(w: World, tid: nat, c: nat, request: Request, a: Addr): (w': World)
    requires c in w.coords
    ensures ThreadsOnly(w, w')
  {
    if a in w.stale || a >= |w.objs| then Stop(w, tid)
    else
      var s := w.objs[a];
      match (ParseManifest(s.manifest), ParseManifest(request.manifest))
      case (Some(current), Some(m)) =>
        if GuardUpdate(w.coords[c].allowInsecure, current, s.latest.tip, m, request) == Ok
        then Goto(w, tid, StorePolicies(Update(c, Some(a), s.seeds, request, w.coords[c].allowInsecure), 0))
        else Stop(w, tid)
      case _ => Stop(w, tid)
  }

  /** The first SetManifest: nothing persisted yet, seed and salt are drawn at random. */
  function GuardedInitial(w: World, tid: nat, c: nat, request: Request, seeds: Seeds): (w': World)
    requires c in w.coords
    ensures ThreadsOnly(w, w')
  {
    if Latest in w.kv || !seeds.Valid() then Stop(w, tid)
    else
      match ParseManifest(request.manifest)
      case None => Stop(w, tid)
      case Some(m) =>
        if GuardInitial(w.coords[c].allowInsecure, m, request) == Ok
        then Goto(w, tid, StorePolicies(Update(c, None, seeds, request, w.coords[c].allowInsecure), 0))
        else Stop(w, tid)
  }

  predicate PolicyGiven(reference: string, policies: seq<Bytes>) {
    exists i :: 0 <= i < |policies| && Fits(reference, policies[i])
  }

  /** Every policy the manifest names came with it. */
  predicate PoliciesComplete(manifest: Bytes, policies: seq<Bytes>) {
    && ParseManifest(manifest).Some?
    && forall reference :: reference in ParseManifest(manifest).value.policies ==> PolicyGiven(reference, policies)
  }

  function StoreNextPolicy(w: World, tid: nat, u: Update, next: nat): (w': World)
    requires u.coord in w.coords
    ensures ReadsOnly(w.(kv := w'.kv), w')
  {
    if next < |u.request.policies| then
      Goto(Put(w, u.coord, Policies, u.request.policies[next]), tid, StorePolicies(u, next + 1))
    else if PoliciesComplete(u.request.manifest, u.request.policies) then Goto(w, tid, StoreManifest(u))
    else Stop(w, tid)
  }

  /** SetLatest: the compare-and-swap that decides which of several concurrent updates wins. */
  function Publish(w: World, tid: nat, u: Update, latest: LatestTransition): (r: World) {
    var expected := ExpectedLatest(w, u.previous);
    if Current(w.kv) == expected then
      Goto(w, tid, SwapState(u, latest)).(
        kv := w.kv[Latest := MarshalLatest(latest)],
        log := w.log + [u.request.manifest],
        records := w.records + [Record(tid, u.request, u.allowInsecure, u.seeds, expected, latest)])
    else Stop(w, tid)
  }

  function LoadTransition(w: World, tid: nat, r: Recovery, tip: Hash): (w': World)
    requires r.coord in w.coords
    ensures ReadsOnly(w, w')
  {
    match FetchTransition(w.kv, w.coords[r.coord].cache, tip)
    case None => Stop(AfterRead(w, r.coord, Transitions, tip), tid)
    case Some(transition) => Goto(AfterRead(w, r.coord, Transitions, tip), tid, ReadManifest(r, tip, transition))
  }

  /** Only a seed share owner of the manifest may recover as a user, and only a manifest that fits
      the Coordinator's setting. Peer recovery does not look at that setting. */
  predicate Authorized(r: Recovery, allowInsecure: bool, m: Manifest) {
    && r.source.HasOffer()
    && r.source.Offer().Valid()
    && (r.source.User? ==> SecurityAccepted(allowInsecure, m) && ValidatePeer(m.seedshareOwners, r.source.peer))
  }

  function LoadAndAuthorize(w: World, tid: nat, r: Recovery, tip: Hash, transition: Transition): (w': World)
    requires r.coord in w.coords
    ensures ReadsOnly(w, w')
  {
    var read := AfterRead(w, r.coord, ManifestsKind, transition.manifestHash);
    match Read(w, r.coord, ManifestsKind, transition.manifestHash)
    case None => Stop(read, tid)
    case Some(manifest) =>
      match ParseManifest(manifest)
      case None => Stop(read, tid)
      case Some(m) =>
        if Authorized(r, w.coords[r.coord].allowInsecure, m)
        then Goto(read, tid, ReadVerified(r, tip, transition, manifest))
        else Stop(read, tid)
  }

  /** The second read of `transitions/latest`, now verified with the recovered key. */
  function ReadAgain(w: World, tid: nat, r: Recovery, tip: Hash, manifest: Bytes): (w': World)
    ensures ThreadsOnly(w, w')
  {
    match UnmarshalLatest(Current(w.kv))
    case None => Stop(w, tid)
    case Some(l) =>
      if r.source.HasOffer() && Verify(r.source.Offer().SigningKey(), l.tip, l.signature) && l.tip == tip
      then Goto(w, tid, CountTransitions(r, l, manifest, l.tip, 0, |w.log|))
      else Stop(w, tid)
  }

  function CountNext(w: World, tid: nat, r: Recovery, latest: LatestTransition, manifest: Bytes, cursor: Hash,
                     count: nat, rank: nat): (w': World)
    requires r.coord in w.coords
    ensures ReadsOnly(w, w')
  {
    if cursor == ZeroHash() then Goto(w, tid, InstallState(r, latest, manifest, count, rank))
    else
      var read := AfterRead(w, r.coord, Transitions, cursor);
      match FetchTransition(w.kv, w.coords[r.coord].cache, cursor)
      case None => Stop(read, tid)
      case Some(transition) =>
        Goto(read, tid, CountTransitions(r, latest, manifest, transition.previous, count + 1, rank))
  }

  /** One iteration of the watcher's walk; at the root the state is marked stale unless the
      notified transition was met on the way. */
  function WatchNext(w: World, tid: nat, c: nat, a: Addr, target: Hash, rank: nat, cursor: Hash, depth: nat,
                     found: bool): (w': World)
    requires c in w.coords
    ensures ReadsOnly(w.(stale := w'.stale), w')
  {
    if cursor == ZeroHash() then Stop(if found then w else w.(stale := w.stale + {a}), tid)
    else
      var read := AfterRead(w, c, Transitions, cursor);
      match FetchTransition(w.kv, w.coords[c].cache, cursor)
      case None => Stop(read, tid)
      case Some(transition) =>
        Goto(read, tid, WatchWalk(c, a, target, rank, transition.previous, depth + 1, found || cursor == target))
  }

  /** RecoverOnce: when an attempt fails, the next peer is tried with the same old state. */
  function TryNextPeer(w: World, tid: nat, t: Thread): (w': World)
    ensures ThreadsOnly(w, w')
  {
    if (t.ReadLatest? || t.ReadTransition? || t.ReadManifest? || t.ReadVerified? || t.CountTransitions?
        || t.InstallState?)
       && t.r.source.Peers? && |t.r.source.offers| > 1
    then Goto(w, tid, ReadLatest(t.r.(source := Peers(t.r.source.offers[1..]))))
    else w
  }
}
