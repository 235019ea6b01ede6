/** The calls of workload owners and seed share owners, on top of the guard. */
module UserApi {
  import opened Ideal
  import opened Chain
  import opened Manifests
  import opened Protocol
  import opened Guard

  datatype Recovered = Done | NothingToRecover | AlreadyRecovered | PeersAvailable | ResetFailed(error: GuardError)

  function StateOf(s: StateRef?): (state: Option<State>) {
    if s == null then None else Some(s.state)
  }

  /** What a SetManifest call is told before anything is written. */
  function Decide(s: Option<State>, allowInsecure: bool, req: Request): (code: Code) {
    match ParseManifest(req.manifest)
    case None => InvalidArgument
    case Some(m) =>
      match s
      case None => GuardInitial(allowInsecure, m, req)
      case Some(state) =>
        match ParseManifest(state.manifest)
        case None => Internal
        case Some(current) => GuardUpdate(allowInsecure, current, state.latest.tip, m, req)
  }

  /** When a SetManifest call gets past the checks: the manifest parses and is of the right level; the first one is
      signed by one of its own owners if it is signed, and its owners can be given shares of the seed; for a later
      one an owner of the current manifest vouches, and it keeps the seedshare owners; and the call is meant for
      this position of the history. */
  ghost predicate Permitted(s: Option<State>, allowInsecure: bool, req: Request) {
    && ParseManifest(req.manifest).Some?
    && var m := ParseManifest(req.manifest).value;
    && RightLevel(allowInsecure, m)
    && match s
       case None =>
         && (req.signature.Some? ==> Signed(req) && OwnersVouch(m.workloadOwners, ZeroHash(), req))
         && SharesEncryptable(m.seedshareOwners) && MeantFor(req, ZeroHash())
       case Some(state) =>
         && ParseManifest(state.manifest).Some?
         && var current := ParseManifest(state.manifest).value;
         && OwnersVouch(current.workloadOwners, state.latest.tip, req)
         && current.seedshareOwners == m.seedshareOwners && MeantFor(req, state.latest.tip)
  }

  lemma DecideExactly(s: Option<State>, allowInsecure: bool, req: Request)
    ensures Decide(s, allowInsecure, req) == Ok <==> Permitted(s, allowInsecure, req)
  {
    if ParseManifest(req.manifest).Some? {
      var m := ParseManifest(req.manifest).value;
      if s.None? {
        InitialAnswer(allowInsecure, m, req);
      } else if ParseManifest(s.value.manifest).Some? {
        UpdateAnswer(allowInsecure, ParseManifest(s.value.manifest).value, s.value.latest.tip, m, req);
      }
    }
  }

  class Server {
    const guard: Guard
    const allowInsecure: bool

    constructor (guard: Guard, allowInsecure: bool)
      ensures this.guard == guard && this.allowInsecure == allowInsecure
    {
      this.guard := guard;
      this.allowInsecure := allowInsecure;
    }

    /** `drawn` is the seed and salt drawn for a first manifest. A state holds its manifest parsed. */
    method SetManifest(req: Request, drawn: Seeds, nonce: nat) returns (code: Code, next: StateRef?)
      requires guard.Valid() && drawn.Valid()
      requires guard.state != null ==> ParseManifest(guard.state.state.manifest).Some?
      modifies guard`state, guard.hist, guard.hist.store
      ensures guard.Valid()
      ensures var s, kv := old(guard.state), old(guard.hist.store.kv);
              if (s == null && Latest in kv) || (s != null && old(guard.state.stale)) then
                code == FailedPrecondition && Unchanged(guard, s, kv, old(guard.hist.cache)) && next == null
              else if Decide(StateOf(s), allowInsecure, req) != Ok then
                && code == Decide(StateOf(s), allowInsecure, req) && next == null
                && Unchanged(guard, s, kv, old(guard.hist.cache))
              else
                var seeds := if s == null then drawn else s.state.seeds;
                var o := UpdateSpec(kv, old(guard.hist.cache), Guard.LatestOf(s), seeds.SigningKey(), req.manifest,
                                    req.policies, nonce);
                && guard.hist.store.kv == o.kv && guard.hist.cache == o.cache
                && code == (match o.error
                            case NoError => Ok
                            case ConcurrentUpdate => FailedPrecondition
                            case _ => Internal)
                && (code == Ok ==> next != null && guard.state == next && !next.stale
                                   && next.state == State(seeds, req.manifest, o.latest,
                                                          if s == null then 1 else s.state.generation + 1))
                && (code != Ok ==> next == null && guard.state == s)
      ensures code == Ok <==>
                && (if old(guard.state) == null then Latest !in old(guard.hist.store.kv) else !old(guard.state.stale))
                && Permitted(StateOf(old(guard.state)), allowInsecure, req)
                && PoliciesComplete(req.manifest, req.policies)
                && Current(old(guard.hist.store.kv))
                == if old(guard.state) == null then [] else MarshalLatest(old(guard.state).state.latest)
      ensures code == Ok && old(guard.state) != null ==> OwnerBehind(old(guard.state), req)
    {
      DecideExactly(StateOf(guard.state), allowInsecure, req);
      UpdateEffect(guard.hist.store.kv, guard.hist.cache, Guard.LatestOf(guard.state),
                   (if guard.state == null then drawn else guard.state.state.seeds).SigningKey(), req.manifest,
                   req.policies, nonce);
      next := null;
      var oldState, stateError := guard.GetState();
      if stateError == StaleState {
        return FailedPrecondition, null;
      }
      var parsed := ParseManifest(req.manifest);
      if parsed.None? {
        return InvalidArgument, null;
      }
      var m := parsed.value;
      var seeds;
      if oldState != null {
        var oldManifest := ParseManifest(oldState.state.manifest).value;
        var tip := oldState.state.latest.tip;
        var verdict := ValidateSignature(oldManifest.workloadOwners, tip, req);
        if verdict == Deny {
          return PermissionDenied, null;
        } else if verdict == NoSignature {
          if !ValidatePeer(oldManifest.workloadOwners, req.peer) {
            return PermissionDenied, null;
          }
        }
        seeds := oldState.state.seeds;
        if oldManifest.seedshareOwners != m.seedshareOwners {
          return PermissionDenied, null;
        }
        if req.previous.Some? && tip != req.previous.value {
          return FailedPrecondition, null;
        }
      } else {
        if req.signature.Some? && ValidateSignature(m.workloadOwners, ZeroHash(), req) != Accept {
          return PermissionDenied, null;
        }
        if req.previous.Some? && req.previous.value != ZeroHash() {
          return FailedPrecondition, null;
        }
        if !SharesEncryptable(m.seedshareOwners) {
          return InvalidArgument, null;
        }
        seeds := drawn;
      }
      if !SecurityAccepted(allowInsecure, m) {
        return InvalidArgument, null;
      }
      if oldState != null {
        var oldManifest := ParseManifest(oldState.state.manifest).value;
        UpdateNeedsOwner(allowInsecure, oldManifest, oldState.state.latest.tip, m, req);
        assert OwnerBehind(oldState, req);
      }
      var updateError;
      next, updateError := guard.UpdateState(oldState, seeds, req.manifest, req.policies, nonce);
      if updateError != NoError {
        return if updateError == ConcurrentUpdate then FailedPrecondition else Internal, null;
      }
      return Ok, next;
    }

    /** `peer` is the public key of the caller; `recoveredPeers` is how many peers could help instead. */
    method Recover(given: Seeds, peer: Option<Bytes>, force: bool, recoveredPeers: nat) returns (r: Recovered)
      requires guard.Valid()
      modifies guard`state, guard.hist
      ensures guard.Valid()
      ensures var s := old(guard.state);
              var o := ResetSpec(guard.hist.store.kv, old(guard.hist.cache), User(given, peer), allowInsecure);
              if s == null && Latest !in guard.hist.store.kv then
                r == NothingToRecover && guard.state == s && guard.hist.cache == old(guard.hist.cache)
              else if s != null && !old(guard.state.stale) then
                r == AlreadyRecovered && guard.state == s && guard.hist.cache == old(guard.hist.cache)
              else if !force && recoveredPeers > 0 then
                r == PeersAvailable && guard.state == s && guard.hist.cache == old(guard.hist.cache)
              else if o.next.None? then
                r == ResetFailed(o.error) && guard.state == s && guard.hist.cache == o.cache
              else
                && r == Done && Installed(guard, o.next.value) && fresh(guard.state)
                && guard.hist.cache == o.cache
    {
      var oldState, stateError := guard.GetState();
      if stateError == NoState {
        return NothingToRecover;
      } else if stateError != StaleState {
        return AlreadyRecovered;
      }
      if !force {
        if recoveredPeers > 0 {
          return PeersAvailable;
        }
      }
      var next, error := guard.ResetState(oldState, User(given, peer), allowInsecure);
      if error != NoError {
        return ResetFailed(error);
      }
      return Done;
    }
  }

  ghost predicate Installed(guard: Guard, s: State)
    reads guard, guard.state
  {
    guard.state != null && guard.state.state == s && !guard.state.stale
  }

  ghost predicate Unchanged(guard: Guard, s: StateRef?, kv: Store, cache: Cache)
    reads guard, guard.hist, guard.hist.store
  {
    guard.state == s && guard.hist.store.kv == kv && guard.hist.cache == cache
  }

  /** An owner of the manifest that the state holds vouches for the call, at the state's position of the
      history, and the call does not touch the seedshare owners. */
  ghost predicate OwnerBehind(s: StateRef, req: Request) {
    && ParseManifest(s.state.manifest).Some? && ParseManifest(req.manifest).Some?
    && var current := ParseManifest(s.state.manifest).value;
    && (exists i :: 0 <= i < |current.workloadOwners| && Vouches(current.workloadOwners[i], s.state.latest.tip, req))
    && ParseManifest(req.manifest).value.seedshareOwners == current.seedshareOwners
  }
}
