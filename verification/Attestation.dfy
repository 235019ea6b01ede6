/** Binding a Coordinator's history to hardware evidence: what the server puts into the report
  * data, what the client recomputes, and what an accepted response therefore proves.
  */
module Attestation {
  import opened Ideal
  import opened Chain
  import opened Manifests
  import opened Protocol
  import opened ProtocolSteps
  import opened ProtocolEffects
  import opened ProtocolTheorems
  import opened Walks
  import opened Guard

  datatype CoordinatorState = CoordinatorState(manifests: seq<Bytes>, policies: seq<Bytes>, rootCA: Bytes,
                                               meshCA: Bytes)

  /** A hardware report speaks for one platform and carries one report data field. */
  datatype Evidence = Evidence(platform: Bytes, reportData: Bytes)

  datatype Response = Response(evidence: Evidence, state: CoordinatorState)

  // Foreign checks of the latest manifest, and of a platform against it.
  const ManifestValid: Bytes -> bool
  const PlatformAccepted: (Bytes, Bytes) -> bool

  function ConstructReportData(nonce: Bytes, transitionDigest: Bytes, state: CoordinatorState): (r: Bytes)
    ensures |r| == 64
  {
    Digest(nonce + transitionDigest + Digest(state.rootCA) + Digest(state.meshCA)) + ZeroHash()
  }

  /** Equal report data: equal nonce, transition and certificates. */
  lemma ReportDataBinds(n1: Bytes, h1: Hash, s1: CoordinatorState, n2: Bytes, h2: Hash, s2: CoordinatorState)
    ensures ConstructReportData(n1, h1, s1) == ConstructReportData(n2, h2, s2)
       <==> n1 == n2 && h1 == h2 && s1.rootCA == s2.rootCA && s1.meshCA == s2.meshCA
  {
    if ConstructReportData(n1, h1, s1) == ConstructReportData(n2, h2, s2) {
      var d1 := n1 + h1 + Digest(s1.rootCA) + Digest(s1.meshCA);
      var d2 := n2 + h2 + Digest(s2.rootCA) + Digest(s2.meshCA);
      assert ConstructReportData(n1, h1, s1)[..32] == Digest(d1);
      assert ConstructReportData(n2, h2, s2)[..32] == Digest(d2);
      DigestInjective(d1, d2);
      var n := |n1|;
      assert n1 == d1[..n] && h1 == d1[n..n + 32] && Digest(s1.rootCA) == d1[n + 32..n + 64]
             && Digest(s1.meshCA) == d1[n + 64..];
      assert n2 == d2[..n] && h2 == d2[n..n + 32] && Digest(s2.rootCA) == d2[n + 32..n + 64]
             && Digest(s2.meshCA) == d2[n + 64..];
      DigestInjective(s1.rootCA, s2.rootCA);
      DigestInjective(s1.meshCA, s2.meshCA);
    }
  }

  /** Equal report data over the tips of two manifest lists: the lists are equal. */
  lemma ReportDataBindsHistory(n1: Bytes, s1: CoordinatorState, n2: Bytes, s2: CoordinatorState)
    ensures ConstructReportData(n1, Tip(s1.manifests), s1) == ConstructReportData(n2, Tip(s2.manifests), s2)
       <==> n1 == n2 && s1.(policies := s2.policies) == s2
  {
    ReportDataBinds(n1, Tip(s1.manifests), s1, n2, Tip(s2.manifests), s2);
    if Tip(s1.manifests) == Tip(s2.manifests) {
      TipInjective(s1.manifests, s2.manifests);
    }
  }

  // ---- The client ----

  datatype Verdict = Valid | NonceLength | NoManifests | BadManifest | BadEvidence

  ghost predicate Accepts(nonce: Bytes, resp: Response) {
    && |nonce| == 32
    && resp.state.manifests != []
    && var latest := resp.state.manifests[|resp.state.manifests| - 1];
    && ParseManifest(latest).Some? && ManifestValid(latest)
    && PlatformAccepted(latest, resp.evidence.platform)
    && resp.evidence.reportData == ConstructReportData(nonce, Tip(resp.state.manifests), resp.state)
  }

  method ValidateAttestation(nonce: Bytes, resp: Response) returns (v: Verdict)
    ensures v == Valid <==> Accepts(nonce, resp)
    ensures v == NonceLength <==> |nonce| != 32
    ensures v == NoManifests <==> |nonce| == 32 && resp.state.manifests == []
    ensures v == BadManifest <==>
              && |nonce| == 32 && resp.state.manifests != []
              && var latest := resp.state.manifests[|resp.state.manifests| - 1];
              !(ParseManifest(latest).Some? && ManifestValid(latest))
  {
    if |nonce| != 32 {
      return NonceLength;
    }
    var manifests := resp.state.manifests;
    if manifests == [] {
      return NoManifests;
    }
    var latest := manifests[|manifests| - 1];
    if ParseManifest(latest).None? || !ManifestValid(latest) {
      return BadManifest;
    }
    var transitions := BuildTransitionChain(manifests);
    var transitionDigest := TransitionDigest(transitions[|transitions| - 1]);
    var reportData := ConstructReportData(nonce, transitionDigest, resp.state);
    if !PlatformAccepted(latest, resp.evidence.platform) || resp.evidence.reportData != reportData {
      return BadEvidence;
    }
    return Valid;
  }

  // ---- The server ----

  /** The certificates of a state's CA; the mesh CA key is drawn when the State is created. */
  datatype CA = CA(rootCert: Bytes, meshCert: Bytes)

  datatype ServerError = Served | NeedsManifest | NeedsRecovery | NoHistory

  ghost predicate ServedFrom(resp: Response, nonce: Bytes, tip: Hash, ca: CA, platform: Bytes) {
    && resp.state.rootCA == ca.rootCert && resp.state.meshCA == ca.meshCert
    && resp.evidence == Evidence(platform, ConstructReportData(nonce, tip, resp.state))
  }

  ghost predicate Provided(policies: seq<Bytes>, reference: string) {
    exists policy :: policy in policies && Fits(reference, policy)
  }

  ghost predicate Justified(manifests: seq<Bytes>, policy: Bytes) {
    exists reference :: Names(manifests, reference) && Fits(reference, policy)
  }

  /** Every policy some manifest names, and nothing else. */
  ghost predicate PoliciesServed(manifests: seq<Bytes>, policies: seq<Bytes>) {
    && (forall reference {:trigger Provided(policies, reference)} ::
          Names(manifests, reference) ==> Provided(policies, reference))
    && (forall policy {:trigger Justified(manifests, policy)} :: policy in policies ==> Justified(manifests, policy))
  }

  ghost predicate AllNamed(manifests: seq<Bytes>, references: set<string>) {
    forall reference :: reference in references <==> Names(manifests, reference)
  }

  /** As many policies as references are named. */
  ghost predicate OnePerReference(manifests: seq<Bytes>, policies: seq<Bytes>) {
    exists references :: AllNamed(manifests, references) && |policies| == |references|
  }

  /** The guard has a state, and it has not been seen to be outdated. */
  ghost predicate UpToDate(guard: Guard)
    reads guard, guard.state
  {
    guard.state != null && !guard.state.stale
  }

  /** Two ordered reads of the guard's state: `now` is the guard at the first, `later` the same
      guard at the second, with whatever other requests did to it in between. */
  method GetResponse(now: Guard, later: Guard, cas: map<StateRef, CA>, nonce: Bytes, platform: Bytes)
    returns (resp: Option<Response>, error: ServerError)
    requires now.Valid() && later.Valid()
    requires now.state != null ==> now.state in cas
    modifies later.hist
    ensures error == Served <==> resp.Some?
    ensures error == NeedsManifest <==> old(now.state) == null && Latest !in old(now.hist.store.kv)
    ensures error == NeedsRecovery <==>
              if old(now.state) == null then Latest in old(now.hist.store.kv) else old(now.state.stale)
    ensures UpToDate(now) && UpToDate(later) && HistoryOf(later.hist.store.kv, later.state.state.latest.tip).Some? ==>
              && resp.Some?
              && resp.value.state.manifests == HistoryOf(later.hist.store.kv, later.state.state.latest.tip).value
    ensures resp.Some? ==>
              && now.state != null && later.state != null
              && ServedFrom(resp.value, nonce, now.state.state.latest.tip, cas[now.state], platform)
              && Tip(resp.value.state.manifests) == later.state.state.latest.tip
              && PoliciesServed(resp.value.state.manifests, resp.value.state.policies)
              && OnePerReference(resp.value.state.manifests, resp.value.state.policies)
  {
    var state, stateError := now.GetState();
    if stateError == NoState {
      return None, NeedsManifest;
    } else if stateError == StaleState {
      return None, NeedsRecovery;
    }
    var manifests, policyMap, historyError := later.GetHistory();
    if historyError != NoError {
      return None, NoHistory;
    }
    var ca := cas[state];
    var policies := ListPolicies(manifests, policyMap);
    var coordinatorState := CoordinatorState(manifests, policies, ca.rootCert, ca.meshCert);
    var reportData := ConstructReportData(nonce, state.state.latest.tip, coordinatorState);
    return Some(Response(Evidence(platform, reportData), coordinatorState)), Served;
  }

  /** The loop of GetResponse that lists the policies. */
  method ListPolicies(ghost manifests: seq<Bytes>, policyMap: map<string, Bytes>) returns (policies: seq<Bytes>)
    requires PoliciesOf(manifests, policyMap)
    ensures PoliciesServed(manifests, policies) && OnePerReference(manifests, policies)
  {
    policies := [];
    var references := policyMap.Keys;
    while references != {}
      invariant references <= policyMap.Keys && |policies| == |policyMap.Keys| - |references|
      invariant forall reference :: reference in policyMap && reference !in references ==>
                  policyMap[reference] in policies
      invariant forall policy :: policy in policies ==>
                  exists reference :: reference in policyMap && policyMap[reference] == policy
    {
      var reference :| reference in references;
      policies := policies + [policyMap[reference]];
      references := references - {reference};
    }
    ListedPolicies(manifests, policyMap, policies);
    assert AllNamed(manifests, policyMap.Keys);
  }

  lemma ListedPolicies(manifests: seq<Bytes>, policyMap: map<string, Bytes>, policies: seq<Bytes>)
    requires PoliciesOf(manifests, policyMap)
    requires forall reference :: reference in policyMap ==> policyMap[reference] in policies
    requires forall policy :: policy in policies ==>
               exists reference :: reference in policyMap && policyMap[reference] == policy
    ensures PoliciesServed(manifests, policies)
  {
    forall reference | Names(manifests, reference)
      ensures Provided(policies, reference)
    {
      assert Fits(reference, policyMap[reference]);
    }
    forall policy | policy in policies
      ensures Justified(manifests, policy)
    {
      var reference :| reference in policyMap && policyMap[reference] == policy;
      assert Names(manifests, reference) && Fits(reference, policy);
    }
  }

  // ---- Both ends ----

  /** Of the responses of a genuine server the client accepts, as far as the evidence goes, exactly
      those whose two reads saw the same transition. */
  lemma ReadsAgree(nonce: Bytes, resp: Response, tip: Hash, ca: CA, platform: Bytes)
    requires ServedFrom(resp, nonce, tip, ca, platform) && |nonce| == 32 && resp.state.manifests != []
    requires var latest := resp.state.manifests[|resp.state.manifests| - 1];
             ParseManifest(latest).Some? && ManifestValid(latest) && PlatformAccepted(latest, platform)
    ensures Accepts(nonce, resp) <==> Tip(resp.state.manifests) == tip
  {
    ReportDataBinds(nonce, tip, resp.state, nonce, Tip(resp.state.manifests), resp.state);
  }

  /** Evidence issued by a Coordinator of this deployment for state `a`, presented to a client with
      any nonce and any claims about the Coordinator: if the client accepts, then the nonce is the
      one the Coordinator was given, and the claimed manifests are that state's history, which is a
      prefix of the one history of the deployment; so are the certificates. Nothing is required of
      the second read. */
  lemma AcceptedHistoryIsGenuine(events: seq<Event>, a: Addr, served: Response, asked: Bytes, ca: CA, platform: Bytes,
                                 nonce: Bytes, claimed: CoordinatorState)
    requires a < |Exec(events).objs|
    requires ServedFrom(served, asked, Exec(events).objs[a].latest.tip, ca, platform)
    requires Accepts(nonce, Response(served.evidence, claimed))
    ensures var w := Exec(events);
            && nonce == asked
            && w.objs[a].generation <= |w.log|
            && claimed.manifests == w.log[..w.objs[a].generation]
            && claimed.manifests[|claimed.manifests| - 1] == w.objs[a].manifest
            && claimed.rootCA == ca.rootCert && claimed.meshCA == ca.meshCert
  {
    var w := Exec(events);
    var s := w.objs[a];
    HeldStates(events, a);
    ReportDataBinds(asked, s.latest.tip, served.state, nonce, Tip(claimed.manifests), claimed);
    assert Tip(w.log[..s.generation]) == s.latest.tip;
    TipInjective(claimed.manifests, w.log[..s.generation]);
  }

  /** A state that the Coordinator holds at both reads, whatever happens in between: its whole history is in the
      store, and the client accepts any response with that history and the certificates and evidence of that
      state, provided that the manifest is valid and the platform is one it allows. */
  lemma CurrentStateIsServed(events: seq<Event>, more: seq<Event>, a: Addr, nonce: Bytes, ca: CA, platform: Bytes)
    requires a < |Exec(events).objs| && |nonce| == 32
    requires var manifest := Exec(events).objs[a].manifest;
             ManifestValid(manifest) && PlatformAccepted(manifest, platform)
    ensures var w, s := Exec(events + more), Exec(events).objs[a];
            && a < |w.objs| && w.objs[a] == s
            && HistoryOf(w.kv, s.latest.tip).Some?
            && (forall resp ::
                  (ServedFrom(resp, nonce, s.latest.tip, ca, platform)
                   && Some(resp.state.manifests) == HistoryOf(w.kv, s.latest.tip)) ==> Accepts(nonce, resp))
  {
    RunGrows(events, more);
    HeldStates(events + more, a);
    ExecInv(events + more);
    var w, s := Exec(events + more), Exec(events).objs[a];
    StoredPolicies(w, s.generation - 1);
    forall resp | ServedFrom(resp, nonce, s.latest.tip, ca, platform)
                  && Some(resp.state.manifests) == HistoryOf(w.kv, s.latest.tip)
      ensures Accepts(nonce, resp)
    {
      ReadsAgree(nonce, resp, s.latest.tip, ca, platform);
    }
  }

  // ---- Policies ----

  /** The evidence does not speak of policies, and the client does not look at them: whatever it accepts, it
      accepts with policies that are not those of the manifests. */
  lemma ForeignPoliciesAreAccepted(nonce: Bytes, resp: Response) returns (foreign: seq<Bytes>)
    requires Accepts(nonce, resp)
    ensures Accepts(nonce, resp.(state := resp.state.(policies := foreign)))
    ensures !PoliciesServed(resp.state.manifests, foreign)
  {
    if reference :| Names(resp.state.manifests, reference) {
      foreign := [];
      assert !Provided(foreign, reference);
    } else {
      foreign := [[]];
      assert [] in foreign && !Justified(resp.state.manifests, []);
    }
  }

  lemma SamePolicies(manifests: seq<Bytes>, policies: seq<Bytes>, policies': seq<Bytes>, policy: Bytes)
    requires PoliciesServed(manifests, policies) && PoliciesServed(manifests, policies') && policy in policies
    ensures policy in policies'
  {
    assert Justified(manifests, policy);
    var reference :| Names(manifests, reference) && Fits(reference, policy);
    assert Provided(policies', reference);
    var policy' :| policy' in policies' && Fits(reference, policy');
    FitsOne(reference, policy, policy');
  }

  lemma ServedByTheSame(manifests: seq<Bytes>, policies: seq<Bytes>, policies': seq<Bytes>)
    requires PoliciesServed(manifests, policies)
    requires forall policy :: policy in policies <==> policy in policies'
    ensures PoliciesServed(manifests, policies')
  {
    forall reference | Names(manifests, reference)
      ensures Provided(policies', reference)
    {
      assert Provided(policies, reference);
      var policy :| policy in policies && Fits(reference, policy);
      assert policy in policies';
    }
    forall policy | policy in policies'
      ensures Justified(manifests, policy)
    {
      assert policy in policies;
    }
  }

  /** What a caller gains by checking the policies against the accepted manifests: they pass the check exactly
      if they are, as a set, the policies that the Coordinator served with that state's history. */
  lemma CheckedPoliciesAreGenuine(events: seq<Event>, a: Addr, served: Response, asked: Bytes, ca: CA, platform: Bytes,
                                  nonce: Bytes, claimed: CoordinatorState, genuine: seq<Bytes>)
    requires a < |Exec(events).objs|
    requires ServedFrom(served, asked, Exec(events).objs[a].latest.tip, ca, platform)
    requires Accepts(nonce, Response(served.evidence, claimed))
    requires Exec(events).objs[a].generation <= |Exec(events).log|
             && PoliciesServed(Exec(events).log[..Exec(events).objs[a].generation], genuine)
    ensures PoliciesServed(claimed.manifests, claimed.policies)
       <==> forall policy :: policy in claimed.policies <==> policy in genuine
  {
    AcceptedHistoryIsGenuine(events, a, served, asked, ca, platform, nonce, claimed);
    var manifests := claimed.manifests;
    if PoliciesServed(manifests, claimed.policies) {
      forall policy
        ensures policy in claimed.policies <==> policy in genuine
      {
        if policy in claimed.policies {
          SamePolicies(manifests, claimed.policies, genuine, policy);
        }
        if policy in genuine {
          SamePolicies(manifests, genuine, claimed.policies, policy);
        }
      }
    } else if forall policy :: policy in claimed.policies <==> policy in genuine {
      ServedByTheSame(manifests, genuine, claimed.policies);
    }
  }

  /** A Coordinator reads its state, then, any number of events later, its history: the client
      accepts if and only if no newer state was installed in between that the second read saw. */
  lemma RaceIsDetected(events: seq<Event>, more: seq<Event>, a: Addr, b: Addr, resp: Response, nonce: Bytes, ca: CA,
                       platform: Bytes)
    requires a < |Exec(events).objs| && b < |Exec(events + more).objs| && |nonce| == 32
    requires ServedFrom(resp, nonce, Exec(events).objs[a].latest.tip, ca, platform)
    requires HistoryOf(Exec(events + more).kv, Exec(events + more).objs[b].latest.tip) == Some(resp.state.manifests)
    requires ManifestValid(Exec(events + more).objs[b].manifest)
             && PlatformAccepted(Exec(events + more).objs[b].manifest, platform)
    ensures Accepts(nonce, resp) <==> Exec(events).objs[a].generation == Exec(events + more).objs[b].generation
  {
    var w := Exec(events + more);
    RunGrows(events, more);
    HeldStates(events + more, a);
    HeldStates(events + more, b);
    var m, n := w.objs[a].generation, w.objs[b].generation;
    ExecInv(events + more);
    StoredPolicies(w, n - 1);
    assert w.log[..n][n - 1] == w.log[n - 1];
    ReadsAgree(nonce, resp, w.objs[a].latest.tip, ca, platform);
    assert Tip(w.log[..m]) == w.objs[a].latest.tip;
    if Tip(w.log[..n]) == Tip(w.log[..m]) {
      TipInjective(w.log[..n], w.log[..m]);
      assert |w.log[..n]| == |w.log[..m]|;
    }
  }
}
