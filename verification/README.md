# Contrast: machine-checked properties

This project models the parts of Contrast that decide what a confidential deployment may become and
what its users can rely on, and proves their properties with Dafny 4.11. `dafny verify dfyconfig.toml`
checks all of it.

## What is modelled

**The manifest history.** Any number of Coordinators share one key-value store. Each has an
in-memory state that a request loads, and later replaces by compare-and-swap. `Protocol.dfy` is a step
system: every store access, every load of the state, every read of a stale flag and every
compare-and-swap is one step; requests of all Coordinators interleave, are abandoned between any two
steps, and Coordinators crash and restart with empty memory. `Exec(events)` is the world after an
arbitrary sequence of events, and all theorems about the protocol are about `Exec(events)` for all
event sequences. `ProtocolInvariant.dfy` and `ProtocolSteps.dfy` hold the inductive invariant (the
rank of a transition is its position in the history) and its preservation, one lemma per step;
`ProtocolTheorems.dfy` holds what follows. The log of manifests and the records about accepted
requests in a world are history variables that no step depends on; `LatestHistory` shows that the log
is what a reader of the store finds.

`History.dfy`, `Guard.dfy` and `UserApi.dfy` are the same code as objects that are updated in place, one method
per Go method, each proved against a function of the store and the cache it found. `Solo.dfy` and
`SoloRequests.dfy` connect the two views: a SetManifest call, a recovery from one source (Recover, or one attempt
of RecoverOnce) and one notification of a watcher, each from its first load of the state to its end, do in the step
system what the methods specify, provided that they are not interrupted. `RecoveryTheorems.dfy` says which
recoveries succeed, `LostSwaps.dfy` when an update loses its local swap, and `SettingTheorems.dfy` which manifests fit
the security setting of the Coordinator that holds them; `SampleRuns.dfy` has a run for each of the last two.
Which calls get past the checks of SetManifest is stated in `Manifests.dfy` by predicates over the whole list of keys.

**Attestation.** `Attestation.dfy`: the server reads its state and its history in two steps, the client
rebuilds the transition chain from the manifests it is shown. The theorems relate what a client
accepts to the states of the step system.

**SNP measurement.** `LittleEndian.dfy`, `Hexadecimal.dfy`, `Guids.dfy`, `Ovmf.dfy`, `SevHashes.dfy`, `Vmsa.dfy`,
`LaunchDigest.dfy`, `LaunchTheorems.dfy`: the firmware footer parser and its format, the pages that are measured, the
chained digest, its extension to more processors, and what one digest says about a guest. `WrittenFirmware.dfy` relates
what is measured to the firmware image as it is built, and `MeasuredPages.dfy` to the memory of the guest.

**ID blocks.** `IdBlock.dfy`, `KeyRecovery.dfy`, `KeyTheorems.dfy`, `KeyOrder.dfy`, `IdBlocks.dfy`: layouts and their
codecs, and ECDSA public key recovery (section 4.1.6 of SEC 1) proved against verification (section
4.1.4) over an abstract group. `SmallCurve.dfy` shows that the laws assumed of the group are consistent.

**Transit engine and ingress rules.** `Base64.dfy` (section 4 of RFC 4648), `Transit.dfy`, `Iptables.dfy`,
`IptablesTheorems.dfy`; `SampleLibrary.dfy` shows that the laws assumed of authenticated encryption and key
derivation are consistent.

## Idealisations

- Octets are symbolic (`Ideal.dfy`): an octet of a digest remembers what was hashed. So SHA-256 and
  SHA-384 are injective and never all-zero, and a digest cannot contain itself, which is why every walk
  terminates on every store whatsoever.
- A signature verifies for one key and one message only; signing is randomised.
- The transaction signing key is determined by seed and salt, and different seeds or salts give
  different keys.
- The store obeys its documented contract (internal/history/history.go:338-360); it is not rolled back.
  Watchers may be notified late, repeatedly and out of order, but only about values that
  `transitions/latest` has had.
- Manifest parsing, hex decoding of keys, the check for an ECDSA key, encryption of seed shares, the validation of
  a platform against a manifest and SHA-384 as a number are uninterpreted functions: every result
  holds whatever they do.
- What a peer hands out during recovery is arbitrary.
- For key recovery, the group laws and those of division and square roots are hypotheses
  (`KeyRecovery.Laws`).
- For the transit engine, three laws are hypotheses. Opening inverts sealing, and accepts nothing else
  (`Transit.AeadLaw`). A ciphertext determines key and associated data (`Transit.KeyAndDataBound`); AES-GCM gives
  this for ciphertexts that an honest Coordinator has sealed, but it does not commit to its key against someone who
  knows the keys. The keys derived from the two inputs that a statement compares do not collide
  (`Transit.DistinctKeys`).
- I/O failures are abandoned requests in the step system, and do not occur in the methods.

## Findings

- `recoverPublicKey` accepts r and s outside of the range that verification demands. A recovered key
  verifies if and only if both are in range (`KeyTheorems.RecoveredKeysVerify`);
  `SmallCurve.RecoveryAcceptsZero` is a signature for which it does not. The only caller passes (2, 1).
- `ExtendSNPLaunchDigest` fixes the guest features to 0x1. It agrees with the full computation if and
  only if there is one vCPU or the guest features are 0x1 (`LaunchTheorems.ExtendRefinesCalc`).
- The comment in service-mesh/iptables.go:26 speaks of cleaning the chains, but existing chains are kept as
  they are. So running again with the same entries changes nothing, and running again with other entries
  changes no decision either (`IptablesTheorems.FirstConfigurationWins`).
- The comment in coordinator/internal/stateguard/stateguard.go:342-347 says that when the local swap is lost, another
  update must have operated on the new state. It never is another update that takes the swap: the swap is lost if and
  only if a recovery of the same Coordinator, started from the same old state, has ended since SetLatest
  (`LostSwaps.SwapLostExactly`). `SampleRuns.SwapLostToRecovery` is such a run: a second update is published, the
  watcher marks the old state stale, and a seedshare owner recovers before the update makes its swap. What the comment
  concludes holds nevertheless: the current state contains the returned one's transition
  (`ProtocolTheorems.LostSwapIsSuperseded`). Both results need that recoveries start only after the old state was seen
  stale, as both callers ensure.
- Peer recovery does not look at the Coordinator's security setting
  (coordinator/internal/peerrecovery/recovery.go:137-170). What a Coordinator holds after its own updates and after
  recoveries by users always fits its setting (`SettingTheorems.HeldManifestFits`); after a recovery from a peer it
  does so if and only if the latest manifest does (`SettingTheorems.PeerRecoveryFitsExactly`), and
  `SampleRuns.RecoveredManifestDoesNotFit` is a run in which it does not.
- The comment in internal/idblock/idblock.go:358 says that any S is valid. Making ID blocks fails, even where 2 is an
  x-coordinate of the curve, if and only if the hash of the ID block is the discrete logarithm of a point
  there (`IdBlocks.BlocksFailExactly`); `SmallCurve.RecoveryCanFail` is an instance on a small curve.
- The two reads of `getResponse` are not atomic. If they see different transitions the response is
  useless but not harmful: the client rejects it (`Attestation.RaceIsDetected`).
- The report data does not cover the policies of a response, and the client returns them unchecked
  (sdk/verify.go:191-196): whatever response it accepts, it also accepts with policies that are not those of the
  manifests (`Attestation.ForeignPoliciesAreAccepted`). A caller that relies on them has to check that each policy
  has the digest of a reference that a manifest names, and that no reference is without one
  (`Attestation.PoliciesServed`); the policies pass exactly if they are the genuine ones
  (`Attestation.CheckedPoliciesAreGenuine`).
- The transit engine does not look at what precedes the first colon of a ciphertext, and stores the
  key version before it has looked at the rest (`Transit.AcceptedForms`, `Transit.CiphertextContainer.UnmarshalJSON`).

## Model

| member | source | states |
|---|---|---|
| ProtocolSteps.ExecInv | coordinator/internal/stateguard/stateguard.go:97-352 | The inductive invariant holds after every sequence of events: any interleaving of any number of Coordinators, with crashes and abandoned requests between any two steps |
| ProtocolTheorems.LatestHistory | coordinator/internal/stateguard/stateguard.go:356-400 | From `transitions/latest` every transition, manifest and named policy is found in the store, and the manifests are exactly those whose publication succeeded, in order |
| ProtocolTheorems.EachValueSucceedsTheReplaced | coordinator/internal/stateguard/stateguard.go:298-322 | Each new value of `transitions/latest` names a stored transition whose predecessor is exactly the transition named before |
| ProtocolTheorems.LatestNeverReturns | internal/history/history.go:120-128 | A transition that `transitions/latest` has left is never named again |
| ProtocolTheorems.PublishedForever | coordinator/internal/stateguard/stateguard.go:298-322 | What was once latest is an ancestor of whatever is latest later; the history only grows at its end |
| ProtocolTheorems.OneWinner | coordinator/internal/stateguard/stateguard.go:315-322 | Of all updates that build on the same transition, on whatever Coordinators and whenever, at most one gets past SetLatest: published values with the same base are the same |
| ProtocolTheorems.LateUpdateFails | coordinator/internal/stateguard/stateguard.go:315-322 | An update in flight whose base has been built on already fails in SetLatest |
| ProtocolTheorems.OneWinnerInFlight | coordinator/internal/stateguard/stateguard.go:315-341 | At any time, at most one update on a base is between SetLatest and its local swap |
| ProtocolTheorems.ReplacedOnce | internal/history/history.go:120-128 | No value of `transitions/latest` is replaced twice |
| ProtocolTheorems.HeldStates | coordinator/internal/stateguard/stateguard.go:206-231 | For every state ever held, from updates, user and peer recovery: its transition is an ancestor of the latest, its generation is the length of its chain, its manifest is the one its transition commits to, and its whole history is stored |
| ProtocolTheorems.HeldHistoryIsStable | coordinator/internal/stateguard/stateguard.go:356-400 | The history of a held state reads the same in all later worlds |
| ProtocolTheorems.SeedAgreement | coordinator/internal/stateguard/stateguard.go:192-204 | Every state ever held by any Coordinator carries the seed and salt of the first SetManifest that won, although recovering users and peers may hand out anything |
| ProtocolTheorems.FirstRecordIsFixed | coordinator/internal/userapi/userapi.go:121-161 | Who won first, and with which seed and salt, never changes |
| ProtocolTheorems.CellMovesForward | coordinator/internal/stateguard/stateguard.go:226-230 | A Coordinator that does not restart only moves on to states further along the chain |
| ProtocolTheorems.LostSwapIsSuperseded | coordinator/internal/stateguard/stateguard.go:341-349 | When SetLatest has succeeded but the local swap fails, the current state's chain contains the returned state's transition |
| ProtocolTheorems.StaleMeansOutdated | coordinator/internal/stateguard/stateguard.go:97-158 | A state marked stale has a transition that is a strict ancestor of the latest one |
| ProtocolTheorems.MarkedExactlyByDescendants | coordinator/internal/stateguard/stateguard.go:123-144 | At the end of a watcher's walk, the state is marked stale if and only if the notified transition is not among the state's own and its ancestors, however late or repeated the notification |
| ProtocolTheorems.AuthorisedEvolution | coordinator/internal/userapi/userapi.go:109-128 | Each manifest but the first was vouched for by a workload owner of its immediate predecessor, at exactly its position, despite the steps between check and write |
| ProtocolTheorems.FrozenWithoutOwners | coordinator/internal/userapi/userapi.go:300-306 | When the latest manifest has no workload owners, the history never changes again, on any Coordinator |
| ProtocolTheorems.SeedshareOwnersNeverChange | coordinator/internal/userapi/userapi.go:121-125 | All manifests of a history have the seedshare owners of the first |
| ProtocolTheorems.SignatureAppliesOnce | coordinator/internal/userapi/userapi.go:300-326 | One detached signature brings at most one manifest into the history |
| ProtocolTheorems.SecurityLevelIsUniform | coordinator/internal/userapi/userapi.go:258-272 | With equal settings of all Coordinators, all manifests of a history are secure, or all are insecure, and none is mixed |
| ProtocolTheorems.StoredAncestry | internal/history/history.go:173-185 | The ancestry of any stored transition, orphaned ones included, is complete and acyclic, and apart from the transition itself it is published |
| ProtocolTheorems.TreeInv | coordinator/internal/stateguard/stateguard.go:298-311 | Every transition in the store, also one that a failed update left behind, follows a published transition |
| ProtocolEffects.RunGrows | internal/history/history.go:206-214 | In every run, content-addressed entries, states, history and stale flags are never lost or changed |
| Chain.TransitionCodec | internal/history/history.go:253-268 | Octets decode to a transition if and only if they are its encoding; in particular only 64 octets do |
| Chain.LatestCodec | internal/history/history.go:282-302 | Octets decode to a signed reference if and only if they are its encoding and the signature is not empty |
| Chain.BuildTransitionChain | internal/history/history.go:365-378 | The chain has one transition per manifest, each committing to its manifest and all before it; its last digest is that of the whole list |
| Chain.TransitionsOfAt | internal/history/history.go:365-378 | The i-th transition of a chain commits to the i-th manifest and to the digest of the list before it |
| Chain.TipInjective | internal/history/history.go:365-378 | Different manifest lists have different last digests |
| Manifests.UpdateAnswer | coordinator/internal/userapi/userapi.go:109-128 | What the caller of SetManifest is told on top of a state, for every call: the call gets past the checks if and only if some workload owner vouches for it, by signature over exactly this manifest at exactly this position or, unsigned, as connected peer, wherever that owner is in the list as long as the keys up to it can be read, and seedshare owners, expected position and security level are right; otherwise which code |
| Manifests.InitialAnswer | coordinator/internal/userapi/userapi.go:129-160 | What the caller of the first SetManifest is told, for every call: a signature that is sent has to be one of an owner named by the manifest itself; otherwise which code |
| Manifests.PeerExactly | coordinator/internal/userapi/userapi.go:328-347 | The check of the connected peer passes if and only if its key is in the list, wherever it is, and all keys in front of it decode |
| Manifests.ReferenceFits | coordinator/internal/stateguard/stateguard.go:283-293 | Looking a policy up by a reference that is cut off or zero-padded finds exactly the policy whose digest agrees with the decoded reference in each of its 32 octets |
| Manifests.FitsOne | coordinator/internal/stateguard/stateguard.go:379-389 | A reference stands for one policy at most, and the hex form of a policy's digest for that policy |
| Manifests.UpdateNeedsOwner | coordinator/internal/userapi/userapi.go:109-128 | An accepted update has a workload owner of the current manifest behind it, by signature or as connected peer, keeps the seedshare owners and fits the Coordinator's setting |
| Manifests.SignatureFixesManifestAndPosition | coordinator/internal/userapi/userapi.go:300-326 | A detached signature accepted for one manifest at one history position is not accepted for another manifest or position, under whatever keys |
| History.KeyValueStore.CompareAndSwap | internal/history/history.go:338-360 | Swaps exactly if the current value equals the expected one, where a missing key counts as empty |
| History.History.GetContentAddressed | internal/history/history.go:187-204 | Whatever is returned digests to its key; a stored blob with another digest is a hash mismatch; what was read is cached |
| History.History.SetContentAddressed | internal/history/history.go:206-214 | Writes the blob under its digest, to store and cache |
| History.History.GetTransition | internal/history/history.go:71-81 | What is returned is a transition whose digest is the one asked for |
| History.History.GetLatest | internal/history/history.go:89-98 | Succeeds exactly if the stored value decodes and its signature verifies under the given key |
| History.History.SetLatest | internal/history/history.go:120-128 | Swaps in the signed new value exactly if the old one is still current; a nil old value means none |
| History.CachedReadAgrees | internal/history/history.go:187-234 | A cached read equals the store's answer whenever the store has one |
| History.CacheIsTransparent | internal/history/history.go:187-234 | After any sequence of reads and writes through one cache for all three kinds, and of foreign writes to the store, answers digest to their key and agree with the store |
| Guard.Guard.GetState | coordinator/internal/stateguard/stateguard.go:247-263 | Which state and which of the three outcomes: none, stale, current; without a state, a persisted latest transition means stale |
| Guard.Guard.UpdateState | coordinator/internal/stateguard/stateguard.go:269-352 | Store, cache, state and error after an update, for all its outcomes: what is written up to the first failure, the compare-and-swap on latest, and the local swap against the state the update started from; a policy counts as missing only if the manifest names one that did not come with it, and never if each reference is the hex form of the digest of a policy that did |
| Guard.UpdateEffect | coordinator/internal/stateguard/stateguard.go:269-322 | For every store: when an update succeeds, and which error it reports otherwise; after success manifest, policies and transition are stored under their digests and latest names the new transition with a signature that verifies; nothing is ever removed, and what is added digests to its key |
| Guard.Guard.ResetState | coordinator/internal/stateguard/stateguard.go:172-231 | State and error after a recovery, for all its outcomes; nothing is written to the store |
| Guard.Guard.CountTransitions | coordinator/internal/stateguard/stateguard.go:210-217 | Generation is the number of transitions a walk meets |
| Guard.Guard.Notified | coordinator/internal/stateguard/stateguard.go:123-144 | The state is marked stale exactly if the walk succeeds and does not meet the notified transition |
| Guard.Guard.GetHistory | coordinator/internal/stateguard/stateguard.go:356-400 | Whatever the store holds: if it succeeds, the manifests are the ones the state's transition commits to, and the policies are exactly those they name, for the hex form of a policy's digest that policy; it succeeds whenever the store has all of it; without a current state, which error |
| Walks.PolicyFoundExactly | coordinator/internal/stateguard/stateguard.go:379-389 | A policy is found exactly if a policy that the reference stands for is stored under its own digest |
| Guard.Guard.RecoverOnce | coordinator/internal/peerrecovery/recovery.go:82-107 | Nothing happens unless the state is stale; otherwise the peers are asked in order, each with the cache that the attempts before it left: the state is that of the first offer that is accepted, and if the round fails, every single peer has been refused |
| Guard.CachedWalkAgrees | internal/history/history.go:173-185 | A walk that succeeds on the store alone succeeds with a cache in front, and meets the same transitions |
| UserApi.Server.SetManifest | coordinator/internal/userapi/userapi.go:88-181 | Code and effect of every SetManifest call. It succeeds if and only if the state is current, the call is permitted, all policies that the manifest names are there and latest still is what the state refers to; refused calls change nothing, accepted ones do what UpdateState says with the right seeds, and a call that succeeds on top of a state has an owner of that state's manifest behind it |
| UserApi.DecideExactly | coordinator/internal/userapi/userapi.go:103-168 | For a first and for a later manifest: the checks are passed exactly by the calls that an owner vouches for, where one has to, with a manifest of the right level, unchanged seedshare owners and the right expected position |
| UserApi.Server.Recover | coordinator/internal/userapi/userapi.go:220-254 | Outcome and effect, on state and cache, of every Recover call, with and without force |
| Solo.UpdateRun | coordinator/internal/stateguard/stateguard.go:269-352 | In any reachable world, an update of the step system that runs on uninterrupted has the outcome of UpdateState |
| Solo.RecoveryRun | coordinator/internal/stateguard/stateguard.go:172-231 | In any reachable world, a recovery of the step system that runs on uninterrupted has the outcome of ResetState |
| SoloRequests.SetManifestRun | coordinator/internal/userapi/userapi.go:88-181 | In any reachable world, a SetManifest call of the step system that is not interrupted is refused, or has the outcome of UpdateState, exactly as the method says |
| SoloRequests.RecoverRun | coordinator/internal/userapi/userapi.go:220-254 | In any reachable world, a recovery request that is not interrupted does nothing unless the state is stale, and has the outcome of ResetState otherwise |
| SoloRequests.NotificationRun | coordinator/internal/stateguard/stateguard.go:123-144 | In any reachable world, a notification that is not interrupted leaves the cache and the stale flag as the method says |
| RecoveryTheorems.RecoveryOutcome | coordinator/internal/stateguard/stateguard.go:172-231 | A recovery succeeds if and only if its source has the deployment's seed and salt and, if it is a user, is a listed seedshare owner of a manifest of the right level, and then yields the latest state; otherwise which error |
| RecoveryTheorems.RecoverySucceedsExactly | coordinator/internal/userapi/userapi.go:220-254 | The same of a whole recovery request in any reachable world, and what the Coordinator then holds |
| RecoveryTheorems.RoundExactly | coordinator/internal/peerrecovery/recovery.go:82-107 | In every world that keeps the invariant, with any sound cache: a round of peer recovery fails if and only if none of the peers offers the deployment's seed and salt, wherever in the list, and otherwise ends in the latest state |
| RecoveryTheorems.AnyPeerCanHelp | coordinator/internal/peerrecovery/recovery.go:82-107 | As steps, in any reachable world: a round that gets to the k-th peer installs the latest state if and only if that peer offers the deployment's seed and salt |
| LostSwaps.SwapLostExactly | coordinator/internal/stateguard/stateguard.go:315-349 | From SetLatest on, while an update waits for its local swap, in any run: the swap is lost if and only if a recovery of the same Coordinator, from the same old state, has ended since |
| LostSwaps.NotLostAtFirst | coordinator/internal/stateguard/stateguard.go:315-341 | Right after SetLatest has succeeded, the Coordinator's state still is the one the update started from |
| SampleRuns.SwapLostToRecovery | coordinator/internal/stateguard/stateguard.go:341-349 | For any two manifests that are accepted one after the other, and any seedshare owner of the second: a run in which the second update loses its local swap to a recovery with the seed and salt of the held state |
| SampleRuns.NotificationMarks | coordinator/internal/stateguard/stateguard.go:123-144 | In any reachable world, a notification that is not interrupted marks the held state stale if and only if it is about a longer history |
| SettingTheorems.HeldManifestFits | coordinator/internal/userapi/userapi.go:258-272 | In any run, whatever the settings of other Coordinators: a held manifest that does not come from a peer fits the setting of the Coordinator that holds it |
| SettingTheorems.PeerRecoveryFitsExactly | coordinator/internal/peerrecovery/recovery.go:137-170 | A recovery from a peer with the right seed and salt succeeds whatever the setting, and the manifest then held fits the setting if and only if the latest manifest does |
| SampleRuns.RecoveredManifestDoesNotFit | coordinator/internal/peerrecovery/recovery.go:137-170 | For every first manifest: a run after which a Coordinator holds it although it would refuse to set it |
| Attestation.ReportDataBinds | apitypes/attest.go:99-114 | Report data are equal if and only if nonce, transition digest, root CA and mesh CA are |
| Attestation.ReportDataBindsHistory | apitypes/attest.go:99-114 | Over the chains of two manifest lists, report data are equal if and only if nonces, lists and certificates are |
| Attestation.ValidateAttestation | sdk/verify.go:151-198 | A response is valid if and only if nonce length, latest manifest, platform and recomputed report data are right, and otherwise which check fails |
| Attestation.GetResponse | coordinator/internal/httpapi/attest.go:44-86 | What is served: certificates and report data of the state of the first read, the history of the second with exactly the policies it names, one per reference. It is served whenever the state is current at both reads and its whole history is stored; and exactly when a manifest or a recovery is asked for instead |
| Attestation.ReadsAgree | coordinator/internal/httpapi/attest.go:44-86 | The client recomputes the server's report data if and only if both reads saw the same transition |
| Attestation.AcceptedHistoryIsGenuine | sdk/verify.go:184-198 | If a client accepts evidence of a Coordinator for one of its states, then the nonce is the one asked, the manifests are that state's history, a prefix of the one history of the deployment, and the certificates are that Coordinator's |
| Attestation.RaceIsDetected | coordinator/internal/httpapi/attest.go:44-86 | With any events between the two reads, the client accepts if and only if both states have the same generation |
| Attestation.CurrentStateIsServed | coordinator/internal/httpapi/attest.go:44-86 | A state that a Coordinator holds at both reads, with any events in between: its whole history is stored, and the client accepts what is served, if the manifest is valid and allows the platform |
| Attestation.ForeignPoliciesAreAccepted | sdk/verify.go:151-198 | Whatever response the client accepts, it also accepts with policies that are not those of its manifests |
| Attestation.CheckedPoliciesAreGenuine | sdk/verify.go:184-198 | The policies that come with an accepted response pass a check against its manifests if and only if they are, as a set, the policies served with that state's history |
| Guids.GuidBytesLE | internal/snp/sev_hashes.go:27-39 | The bytes of a GUID text, three groups reversed |
| Guids.GuidRoundTrip | internal/snp/ovmf.go:222-236 | The text of a GUID's bytes decodes to the bytes again |
| Guids.GuidRoundTripBack | internal/snp/sev_hashes.go:27-39 | The bytes of a canonical GUID text print as that text again |
| Hexadecimal.HexValueExactly | internal/snp/sev_hashes.go:27-39 | Which characters are hexadecimal digits of which value, in either case |
| Hexadecimal.DecodedHexExactly | internal/snp/sev_hashes.go:27-39 | Decoding yields the bytes of the pairs of digits in front of the first pair that is none |
| Ovmf.WrittenTableParses | internal/snp/ovmf.go:128-168 | A footer table written from any list of entries, behind any bytes and in front of any 32 bytes, parses to that list's table |
| Ovmf.ParsedTableWasWritten | internal/snp/ovmf.go:128-168 | Every image whose footer table parses was written so, from a list with that table |
| Ovmf.FrontMostWins | internal/snp/ovmf.go:153-166 | Of several entries with one GUID, the front-most is in the table |
| Ovmf.NothingElseInTable | internal/snp/ovmf.go:153-166 | The table has no GUID that no entry has |
| Ovmf.SplitFails | internal/snp/ovmf.go:152-166 | Which of the two errors the traversal ends in: behind the place of the error everything was written as entries, and the size there is too small, or larger than what is in front of it |
| WrittenFirmware.ResetAddressAsWritten | internal/snp/ovmf.go:113-122 | For every written image: the reset address is a number if and only if the front-most reset block of the image starts with its four bytes, lowest first |
| WrittenFirmware.HashTableAsWritten | internal/snp/ovmf.go:95-104 | The same for the address of the hash table |
| WrittenFirmware.FirmwareAsWritten | internal/snp/ovmf.go:128-217 | A written image parses to its entries and to a list of sections if and only if these are written as many bytes before its end as its front-most metadata entry says, or there is no such entry and no section |
| WrittenFirmware.WithoutFooter | internal/snp/ovmf.go:128-148 | An image that is too short, has another GUID in place of the footer or a size too small has an empty table, and that is no error |
| LittleEndian.FourBytes | internal/snp/ovmf.go:103-121 | The number that four bytes stand for |
| Ovmf.OVMF.ParseFooterTable | internal/snp/ovmf.go:128-168 | Table and error of the back-to-front traversal, if the declared table fits the image |
| Ovmf.OVMF.FindFooter | internal/snp/ovmf.go:129-150 | Where the table is, and that there is none without the footer GUID or with too small a size |
| Ovmf.SectionsRoundTrip | internal/snp/ovmf.go:171-217 | Metadata sections that are written to an offset are read from it |
| Ovmf.SectionsWereWritten | internal/snp/ovmf.go:171-217 | Whatever is read as metadata sections was written so, with signature, version 1 and room for all of them |
| Ovmf.OVMF.ParseSEVMetadata | internal/snp/ovmf.go:171-217 | Sections and error for every image and table |
| Ovmf.OVMF.HasMetadataSection | internal/snp/ovmf.go:85-92 | Whether there is a section of a type |
| Ovmf.NewOVMF | internal/snp/ovmf.go:56-73 | An image is refused exactly if one of its two parts does not parse; otherwise table, sections and start address |
| Vmsa.BuildVMSASaveArea | internal/snp/vmsa.go:130-201 | The page holds each field at its offset, no two fields overlap, and every other byte is zero |
| Vmsa.SaveAreaInjective | internal/snp/vmsa.go:130-201 | Equal pages have the same reset address, features and CPU signature |
| Vmsa.VMSAPages | internal/snp/vmsa.go:209-222 | One page per processor: the first starts at the boot address, all others at the given one |
| SevHashes.HashesBind | internal/snp/sev_hashes.go:49-73 | Equal hashes: equal kernel, initrd and command line |
| SevHashes.ConstructTable | internal/snp/sev_hashes.go:99-122 | The packed table, with its padding |
| SevHashes.ConstructPage | internal/snp/sev_hashes.go:125-130 | The table at its offset in a zero page, cut off at the end of the page |
| SevHashes.HashesInTable | internal/snp/sev_hashes.go:99-122 | Where in the table the three hashes are |
| SevHashes.PageBinds | internal/snp/sev_hashes.go:125-130 | If the page has room for the whole table, equal pages have equal hashes |
| LaunchDigest.GCTX.Update | internal/snp/gctx.go:52-73 | The digest becomes the hash of the 112-byte structure over the old digest and one page |
| LaunchDigest.GCTX.UpdateNormalPages | internal/snp/gctx.go:77-82 | Measures each page of page-aligned data at its address, which may wrap around |
| LaunchDigest.GCTX.UpdateZeroPages | internal/snp/gctx.go:90-94 | Measures as many zero pages as the length begins |
| LaunchDigest.PageInfoParts | internal/snp/gctx.go:52-73 | What is at which offset of the 112-byte structure |
| LaunchDigest.MeasurementBinds | internal/snp/gctx.go:51-111 | From the all-zero seed, equal digests have as many updates, with the same page type, address and contents at each position |
| LaunchDigest.ContinuationBinds | internal/snp/gctx.go:51-111 | From any common seed, equally long sequences of updates with equal digests are equal |
| LaunchDigest.UpdateSection | internal/snp/guest.go:103-141 | What each kind of metadata section adds, and every error |
| LaunchDigest.UpdateMetadataPages | internal/snp/guest.go:89-100 | All sections in order, the first error, and that a kernel needs a section for its hashes |
| LaunchDigest.CalcSNPLaunchDigest | internal/snp/guest.go:25-64 | The digest over image, metadata sections and processors, or the first error |
| LaunchDigest.ExtendSNPLaunchDigest | internal/snp/guest.go:72-85 | The seed continued by one page per further processor, with features 0x1; counts out of range are refused |
| LaunchTheorems.ExtendRefinesCalc | internal/snp/guest.go:72-85 | For every guest and count: extending the one-processor digest is computing the digest if and only if there is one processor or the features are 0x1 |
| LaunchTheorems.LaunchDigestBinds | internal/snp/guest.go:25-64 | Guests with one digest have the same image, number and kind of processors and features, agree on whether a kernel is measured, and, where the firmware has room for the hash table, on kernel, initrd and command line |
| WrittenFirmware.ProcessorsStartAsWritten | internal/snp/guest.go:52-61 | For every guest with a written image: the last pages of the measurement are one save area per processor; the first makes its processor start at 0xfffffff0, all others at the number in the front-most reset block of the image |
| MeasuredPages.ImageMeasuredBelow4GB | internal/snp/guest.go:36-41 | Each octet of the image is measured at its address in the guest: the image ends at 4 GB |
| MeasuredPages.SectionMeasured | internal/snp/guest.go:89-100 | Every metadata section of the firmware is part of the measurement |
| MeasuredPages.BlankSectionCovered | internal/snp/guest.go:108-139 | A blank section is measured as zero pages that cover it exactly: each address once, no page outside of it |
| MeasuredPages.PageTypes | internal/snp/guest.go:108-139 | Which section type is measured as which page type |
| MeasuredPages.HashSectionShowsFiles | internal/snp/guest.go:118-133 | The hash section is measured as one page that has, where the firmware looks for them, the digests of command line, initrd and kernel, each behind the GUID that says which it is |
| MeasuredPages.TableOctetByOctet | internal/snp/sev_hashes.go:125-130 | The page octet by octet, also for a table that crosses its end |
| MeasuredPages.LaunchSucceedsExactly | internal/snp/guest.go:25-64 | There is a launch digest if and only if the firmware parses into whole pages, names its reset address, has only known sections, and has room and an address for the hashes of a kernel that is loaded |
| IdBlock.SignatureCodec | internal/idblock/idblock.go:174-195 | Bytes decode to a signature if and only if they are its encoding |
| IdBlock.PublicKeyCodec | internal/idblock/idblock.go:206-228 | Bytes decode to a public key if and only if they are its encoding |
| IdBlock.BlockCodec | internal/idblock/idblock.go:48-71 | Bytes decode to an ID block if and only if they are its encoding |
| IdBlock.AuthenticationCodec | internal/idblock/idblock.go:98-163 | Bytes decode to an authentication block if and only if they are its encoding, nested parts and reserved bytes included |
| IdBlock.BlockLayout | internal/idblock/idblock.go:48-57 | What is at which offset of the ID block |
| IdBlock.KeyLayout | internal/idblock/idblock.go:174-217 | What is at which offset of a signature and of a public key |
| IdBlock.AuthenticationLayout | internal/idblock/idblock.go:98-132 | What is at which offset of the ID authentication block |
| IdBlock.IDBlock.UnmarshalBinary | internal/idblock/idblock.go:60-71 | Fills the receiver with what encodes to the data; data of another size leaves it alone |
| IdBlock.IDAuthentication.UnmarshalBinary | internal/idblock/idblock.go:135-163 | Fills the receiver with what encodes to the data; data of another size leaves it alone |
| KeyRecovery.RecoverPublicKey | internal/idblock/idblock.go:235-332 | Keys in sorted order, or which error, for all r, s and z |
| KeyTheorems.RecoveredKeysVerify | internal/idblock/idblock.go:235-332 | There is always a key to choose, and a returned key verifies if and only if r and s are in range |
| KeyTheorems.RecoveryIsComplete | internal/idblock/idblock.go:235-332 | Every key under which the signature verifies by way of a point with x-coordinate r is returned, unless a point there belongs to no key: then recovery fails |
| KeyTheorems.RecoveryFailsExactly | internal/idblock/idblock.go:256-320 | Which of the three errors is returned exactly when: r has no inverse; r is no x-coordinate of the curve; or for a point q there, z is s times the discrete logarithm of q |
| KeyTheorems.RootDoesNotMatter | internal/idblock/idblock.go:256-332 | The result does not depend on which square root the library returns |
| KeyTheorems.SortTwo | internal/idblock/idblock.go:323-329 | Two keys are sorted into the same order wherever they start, by their encodings |
| KeyTheorems.SortKeeps | internal/idblock/idblock.go:323-329 | Sorting permutes |
| KeyOrder.KeysInOrder | internal/idblock/idblock.go:323-329 | A key is sorted in front of another exactly if its x-coordinate is the smaller number, or x is equal and y is |
| KeyOrder.RecoveredInOrder | internal/idblock/idblock.go:323-332 | What is returned is in that order |
| SmallCurve.LawsAreConsistent | internal/idblock/idblock.go:235-332 | There is a curve for which all assumed laws hold |
| SmallCurve.RecoveryAcceptsZero | internal/idblock/idblock.go:256-260 | A signature with s = 0 for which keys are returned, none of which verifies |
| SmallCurve.RecoveryCanFail | internal/idblock/idblock.go:308-320 | A signature in range, on a small curve, for which one of the two points belongs to no key and recovery fails |
| IdBlocks.IDBlocksFromLaunchDigest | internal/idblock/idblock.go:337-409 | The blocks for a launch digest, or the error; the signature in them verifies under the key in them |
| IdBlocks.PlatformAcceptsBlocks | internal/idblock/idblock.go:337-409 | Whatever the launch digest: blocks that are made are of version 1 with algorithm 1 on curve P-384, carry a signature (2, 1) of the ID block that is valid under the key in the authentication block, the launch digest and policy asked for, and family, image and SVN 1, 2, 2 |
| IdBlocks.LeastKeyIsChosen | internal/idblock/idblock.go:380-407 | Of the recovered keys, the one in the authentication block is the one with the smallest coordinates |
| IdBlocks.BlocksExactlyIfRecovered | internal/idblock/idblock.go:374-383 | Blocks are made exactly if key recovery succeeds |
| IdBlocks.BlocksFailExactly | internal/idblock/idblock.go:357-383 | Blocks are made if and only if 2 is an x-coordinate of the curve and the hash of the ID block is not the discrete logarithm of a point there |
| IdBlocks.SameBlocks | internal/idblock/idblock.go:374-383 | The blocks do not depend on which square root the library returns |
| Base64.RoundTrip | coordinator/internal/transitengineapi/crypto.go:80-100 | Decoding inverts encoding, for all bytes |
| Base64.ValueExactly | coordinator/internal/transitengineapi/crypto.go:80-83 | Exactly the 64 digits of the alphabet have a value |
| Base64.Alphabet | coordinator/internal/transitengineapi/crypto.go:80-83 | The alphabet is that of section 4 of RFC 4648 |
| Base64.DecodedExactly | coordinator/internal/transitengineapi/crypto.go:80-83 | Without line breaks, exactly whole groups of digits with padding only at the end are decoded |
| Base64.BreaksAreIgnored | coordinator/internal/transitengineapi/crypto.go:80-83 | A line break anywhere makes no difference |
| Base64.PrintRoundTrip | coordinator/internal/transitengineapi/transitengineapi.go:325-338 | Reading a printed decimal number gives the number |
| Base64.NumberExactly | coordinator/internal/transitengineapi/transitengineapi.go:325-338 | A text is the digits of a number if and only if it is the printed number behind any number of zeros |
| Transit.UnmarshalMarshal | coordinator/internal/transitengineapi/crypto.go:66-100 | Unmarshalling the printed form gives back the container, for every 32-bit version, nonce of 12 bytes and ciphertext |
| Transit.UnmarshalMarshalAny | coordinator/internal/transitengineapi/crypto.go:66-100 | For containers with any nonce, this holds if and only if the nonce has 12 bytes |
| Transit.AcceptedForms | coordinator/internal/transitengineapi/crypto.go:66-91 | Exactly which texts are accepted as which container: anything without a separator, the printed version behind a v and any number of zeros, and base64 of nonce and ciphertext |
| Transit.CiphertextContainer.UnmarshalJSON | coordinator/internal/transitengineapi/crypto.go:66-91 | Container or error for every text, and which fields an error leaves changed |
| Transit.DerivationInfoInjective | internal/seedengine/seedengine.go:98-103 | Keys for different versions or names are derived from different inputs |
| Transit.EncryptsExactly | coordinator/internal/transitengineapi/transitengineapi.go:116-176 | Encryption succeeds if and only if there is a name, a state, and a key of 32 bytes that can be derived for version and name; what comes out carries version, nonce and the plaintext sealed under that key; otherwise which error |
| Transit.DecryptsExactly | coordinator/internal/transitengineapi/transitengineapi.go:178-247 | Decryption yields a plaintext if and only if the text carries what sealing that plaintext gives, under the key for the version in the text and the name of the request |
| Transit.DecryptAfterEncrypt | coordinator/internal/transitengineapi/transitengineapi.go:116-247 | What one Coordinator encrypts, any Coordinator of the deployment decrypts at any later time, under the same name and associated data; of the libraries this needs only that opening inverts sealing |
| Transit.DecryptsExactlyAsEncrypted | coordinator/internal/transitengineapi/transitengineapi.go:116-247 | What one Coordinator encrypts, any Coordinator of the deployment decrypts under a name and associated data if and only if they are those it was encrypted for, and then to the plaintext |
| Transit.OtherVersionIsRefused | coordinator/internal/transitengineapi/transitengineapi.go:213-224 | A ciphertext printed with another key version is not decrypted |
| Transit.OneNamePerText | coordinator/internal/transitengineapi/transitengineapi.go:178-247 | Whatever text is presented: if one Coordinator decrypts it under a name and associated data, any later one decrypts it under the same only, and to the same plaintext |
| SampleLibrary.LawsAreConsistent | coordinator/internal/transitengineapi/crypto.go:25-62 | There is a library for which all assumed laws hold, for any two derivation inputs |
| Iptables.IPTables.AppendIfMissing | service-mesh/iptables.go:32-69 | Appends a rule unless the chain has it; fails exactly on a missing chain |
| Iptables.IPTables.IngressIPTableRules | service-mesh/iptables.go:20-78 | From any tables, never fails and leaves the tables that the listed commands lead to |
| IptablesTheorems.IntendedExactly | service-mesh/iptables.go:43-75 | What is intended for a packet: exempt traffic passes; the first entry for the port decides between passing and 15007; ports without entry go to 15006 |
| IptablesTheorems.RulesMeanConfiguration | service-mesh/iptables.go:20-78 | From empty chains, first-match evaluation decides every packet as the first entry for its port says: pass, 15007, else 15006; local, established and other traffic is exempt |
| IptablesTheorems.SecondRunChangesNothing | service-mesh/iptables.go:20-78 | From any tables, running twice is running once |
| IptablesTheorems.InterruptedRunIsRepaired | service-mesh/iptables.go:20-78 | From any tables, a run after an interrupted run leads to the same tables as an uninterrupted one |
| IptablesTheorems.FirstConfigurationWins | service-mesh/iptables.go:26-29 | After a first configuration, a later one changes the decision for no packet |
| IptablesTheorems.PartialRulesNeverMisdirect | service-mesh/iptables.go:31-75 | At every point of the setup, each packet is treated as intended or bypasses the proxy; none is sent to the wrong proxy port |

## Left out

- TLS and attested TLS, X.509 issuing, gRPC and HTTP plumbing, Kubernetes clients, metrics, logging and command lines: library or I/O code.
- JSON, TOML and protobuf: manifests are parsed by an uninterpreted function, ciphertexts of the transit engine are modelled as the decoded JSON string. A JSON `null` as manifest is not distinguished from other manifests without owners and policies.
- SHA-2, ECDSA signing, RSA-OAEP, HKDF and AES-GCM themselves.
- A store that is rolled back or answers against its contract. `Guard.Guard.GetHistory` and the cache theorems hold for any store nevertheless.
- Mesh CA keys: they are drawn at random per state or handed out by a peer, and agreement between Coordinators is not claimed.
- Liveness, tickers, retries and the restart of watchers: only safety is modelled.
- Metrics gauges, `GetManifests` (the same reads as the attestation handler) and `UpdateUnmeasuredPages` (not used for QEMU).
- Manifest validation beyond the fields named in `Manifests.Manifest`.
- Kubernetes resource builders, Envoy configuration, egress configuration, cryptsetup and ext4, platform enumerations.
- Guard.Guard.Notified: one notification; the loop over the channel and its restart are not a method. The step system has arbitrarily many notifications.
- Guard.Guard.UpdateState: failures of the store and of creating a CA do not occur in the method; in the step system they are abandoned requests.
- Guard.Guard.ResetState: the method runs between other requests, so its two reads of the latest transition agree; their disagreement is in the step system.
- Guard.Guard.RecoverOnce: what a peer answers is a seed and salt; failing to reach a peer is an offer that is not accepted.
- SoloRequests.RecoverRun: one source; further peers of RecoverOnce are tried by separate events of the step system, and the checks for force and for other recovered peers are in the method only.
- UserApi.Server.SetManifest: the response with certificates and seed shares is not modelled; drawing seed and salt is a parameter.
- UserApi.Server.Recover: which status code a refused recovery is mapped to is not modelled.
- Attestation.GetResponse: the guard at the first and at the second read is given as two objects, because anything may happen to it in between; `Attestation.RaceIsDetected` quantifies over what does.
- Ovmf.OVMF.ParseFooterTable: requires the declared table to fit the bytes in front of it; slicing out of bounds is not modelled.
- Guids.GuidBytesLE: requires 16 bytes in front of the first decoding error; without them the source indexes out of bounds.
- LaunchTheorems.LaunchDigestBinds: does not speak of kernel, initrd and command line if the hash table crosses the end of its page, because how much a truncated digest says is outside of the idealisation.
- LaunchDigest.CalcSNPLaunchDigest: reading files is not modelled; a negative number of vCPUs is not.
- KeyTheorems.RecoveryIsComplete: does not cover keys whose checked point has x-coordinate r + n, which the source does not try either.
- KeyRecovery.RecoverPublicKey: arithmetic of big integers and of the curve is that of the libraries, in exact numbers; the stable sort of the library is an insertion sort.
- IdBlock.IDBlock.UnmarshalBinary: records are values that the receiver holds; a nil signature or key, which marshals as zeros, is not modelled.
- Transit.DecryptsExactlyAsEncrypted: handlers are functions of the state that they are given; authorization by certificate is not modelled, and an unparsable ciphertext and an empty name are one error.
- Iptables.IPTables.IngressIPTableRules: failures of the iptables command are interruptions, not results of the method, and rules of others in the PREROUTING chain are not part of the meaning theorems.
