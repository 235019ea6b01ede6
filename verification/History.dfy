/** The store and the History object on top of it, updated in place. */
module History {
  import opened Ideal
  import opened Chain
  import opened Protocol

  /** The documented contract of the key-value store. */
  class KeyValueStore {
    var kv: Store

    constructor ()
      ensures kv == map[]
    {
      kv := map[];
    }

    method Get(key: Path) returns (value: Option<Bytes>)
      ensures value == if key in kv then Some(kv[key]) else None
    {
      value := if key in kv then Some(kv[key]) else None;
    }

    method Set(key: Path, value: Bytes)
      modifies this
      ensures kv == old(kv)[key := value]
    {
      kv := kv[key := value];
    }

    method Has(key: Path) returns (present: bool)
      ensures present <==> key in kv
    {
      present := key in kv;
    }

    /** A missing key compares like an empty value. */
    method CompareAndSwap(key: Path, oldVal: Bytes, newVal: Bytes) returns (swapped: bool)
      modifies this
      ensures swapped <==> (if key in old(kv) then old(kv)[key] else []) == oldVal
      ensures kv == if swapped then old(kv)[key := newVal] else old(kv)
    {
      var current := if key in kv then kv[key] else [];
      swapped := current == oldVal;
      if swapped {
        kv := kv[key := newVal];
      }
    }
  }

  datatype ReadError = NotFound | HashMismatch(expected: Hash, actual: Hash) | InvalidLength | InvalidSignature

  datatype Result<+T> = Success(value: T) | Failure(error: ReadError)

  class History {
    const store: KeyValueStore
    var cache: Cache

    ghost predicate Valid()
      reads this
    {
      CacheSound(cache)
    }

    constructor (store: KeyValueStore)
      ensures Valid() && this.store == store && cache == map[]
    {
      this.store := store;
      cache := map[];
    }

    method GetContentAddressed(kind: Kind, hash: Hash) returns (r: Result<Bytes>)
      requires Valid()
      modifies this
      ensures Valid()
      ensures r.Success? <==> Fetch(store.kv, old(cache), kind, hash).Some?
      ensures r.Success? ==> r.value == Fetch(store.kv, old(cache), kind, hash).value && Digest(r.value) == hash
      ensures r.Failure? && r.error.NotFound? <==> hash !in old(cache) && At(kind, hash) !in store.kv
      ensures r.Failure? && !r.error.NotFound? ==>
                At(kind, hash) in store.kv && r.error == HashMismatch(hash, Digest(store.kv[At(kind, hash)]))
      ensures cache == Remember(old(cache), hash, Fetch(store.kv, old(cache), kind, hash))
    {
      if hash in cache {
        assert cache[hash := cache[hash]] == cache;
        return Success(cache[hash]);
      }
      var data := store.Get(At(kind, hash));
      if data.None? {
        return Failure(NotFound);
      }
      var dataHash := Digest(data.value);
      if hash != dataHash {
        return Failure(HashMismatch(hash, dataHash));
      }
      cache := cache[hash := data.value];
      return Success(data.value);
    }

    method SetContentAddressed(kind: Kind, data: Bytes) returns (hash: Hash)
      requires Valid()
      modifies this, store
      ensures Valid() && hash == Digest(data)
      ensures store.kv == old(store.kv)[At(kind, hash) := data]
      ensures cache == old(cache)[hash := data]
    {
      hash := Digest(data);
      store.Set(At(kind, hash), data);
      cache := cache[hash := data];
    }

    method GetTransition(hash: Hash) returns (r: Result<Transition>)
      requires Valid()
      modifies this
      ensures Valid()
      ensures r.Success? <==> FetchTransition(store.kv, old(cache), hash).Some?
      ensures r.Success? ==>
                r.value == FetchTransition(store.kv, old(cache), hash).value && TransitionDigest(r.value) == hash
      ensures r.Failure? && Fetch(store.kv, old(cache), Transitions, hash).Some? ==> r.error == InvalidLength
      ensures r.Failure? && r.error.NotFound? <==> hash !in old(cache) && At(Transitions, hash) !in store.kv
      ensures cache == Remember(old(cache), hash, Fetch(store.kv, old(cache), Transitions, hash))
    {
      var data := GetContentAddressed(Transitions, hash);
      if data.Failure? {
        return Failure(data.error);
      }
      var transition := Unmarshal(data.value);
      if transition.None? {
        return Failure(InvalidLength);
      }
      TransitionCodec(transition.value, data.value);
      return Success(transition.value);
    }

    method SetTransition(t: Transition) returns (hash: Hash)
      requires Valid()
      modifies this, store
      ensures Valid() && hash == TransitionDigest(t)
      ensures store.kv == old(store.kv)[At(Transitions, hash) := Marshal(t)]
      ensures cache == old(cache)[hash := Marshal(t)]
    {
      hash := SetContentAddressed(Transitions, Marshal(t));
    }

    method GetLatestInsecure() returns (r: Result<LatestTransition>)
      ensures r.Success? <==> UnmarshalLatest(Current(store.kv)).Some?
      ensures r.Success? ==> UnmarshalLatest(Current(store.kv)) == Some(r.value)
      ensures r.Failure? ==> r.error == if Latest in store.kv then InvalidLength else NotFound
    {
      var data := store.Get(Latest);
      if data.None? {
        return Failure(NotFound);
      }
      var latest := UnmarshalLatest(data.value);
      if latest.None? {
        return Failure(InvalidLength);
      }
      return Success(latest.value);
    }

    method GetLatest(key: Key) returns (r: Result<LatestTransition>)
      ensures r.Success? <==> UnmarshalLatest(Current(store.kv)).Some?
                              && var l := UnmarshalLatest(Current(store.kv)).value; Verify(key, l.tip, l.signature)
      ensures r.Success? ==> UnmarshalLatest(Current(store.kv)) == Some(r.value)
      ensures r.Failure? ==> r.error == if Latest !in store.kv then NotFound
                                        else if UnmarshalLatest(Current(store.kv)).None? then InvalidLength
                                        else InvalidSignature
    {
      r := GetLatestInsecure();
      if r.Success? && !Verify(key, r.value.tip, r.value.signature) {
        return Failure(InvalidSignature);
      }
    }

    /** Signs the new transition and swaps it in if the old one is still current. */
    method SetLatest(oldT: Option<LatestTransition>, tip: Hash, key: Key, nonce: nat)
      returns (swapped: bool, latest: LatestTransition)
      modifies store
      ensures latest == LatestTransition(tip, Sign(key, tip, nonce))
      ensures swapped <==> Current(old(store.kv)) == (if oldT.Some? then MarshalLatest(oldT.value) else [])
      ensures store.kv == if swapped then old(store.kv)[Latest := MarshalLatest(latest)] else old(store.kv)
    {
      latest := LatestTransition(tip, Sign(key, tip, nonce));
      var expected := if oldT.Some? then MarshalLatest(oldT.value) else [];
      swapped := store.CompareAndSwap(Latest, expected, MarshalLatest(latest));
    }
  }

  // ---- Cache transparency ----

  /** Whatever the store answers, the cache answers the same; it may answer more. */
  lemma CachedReadAgrees(kv: Store, cache: Cache, kind: Kind, h: Hash)
    requires CacheSound(cache)
    requires Fetch(kv, map[], kind, h).Some?
    ensures Fetch(kv, cache, kind, h) == Fetch(kv, map[], kind, h)
  {
    if h in cache {
      DigestInjective(cache[h], kv[At(kind, h)]);
    }
  }

  /** Use of one cache: reads and writes of all kinds, while the store is at any time replaced by
      anything, other writers and corruption included. */
  datatype Use = Reads(kind: Kind, hash: Hash) | Writes(kind: Kind, data: Bytes) | Foreign(kv: Store)

  datatype Session = Session(kv: Store, cache: Cache, answers: seq<Option<Bytes>>)

  function Run(uses: seq<Use>): (r: Session) {
    if uses == [] then Session(map[], map[], [])
    else
      var s := Run(uses[..|uses| - 1]);
      match uses[|uses| - 1]
      case Reads(kind, h) =>
        var answer := Fetch(s.kv, s.cache, kind, h);
        s.(cache := Remember(s.cache, h, answer), answers := s.answers + [answer])
      case Writes(kind, data) =>
        Session(s.kv[At(kind, Digest(data)) := data], s.cache[Digest(data) := data], s.answers + [Some(data)])
      case Foreign(kv) => s.(kv := kv, answers := s.answers + [None])
  }

  lemma {:induction false} RunKeepsCache(uses: seq<Use>)
    ensures CacheSound(Run(uses).cache)
    ensures |Run(uses).answers| == |uses|
  {
    if uses != [] {
      RunKeepsCache(uses[..|uses| - 1]);
    }
  }

  /** After any use whatsoever, an answered read digests to the hash asked for, and it is the
      store's own answer whenever the store has one. */
  lemma CacheIsTransparent(uses: seq<Use>, kind: Kind, h: Hash)
    ensures var s := Run(uses); var answer := Fetch(s.kv, s.cache, kind, h);
            && Run(uses + [Reads(kind, h)]).answers == s.answers + [answer]
            && (answer.Some? ==> Digest(answer.value) == h)
            && (Fetch(s.kv, map[], kind, h).Some? ==> answer == Fetch(s.kv, map[], kind, h))
  {
    assert (uses + [Reads(kind, h)])[..|uses|] == uses;
    RunKeepsCache(uses);
    var s := Run(uses);
    if Fetch(s.kv, map[], kind, h).Some? {
      CachedReadAgrees(s.kv, s.cache, kind, h);
    }
  }
}
