# Verification models for the gateway

Dafny models of the gateway's model catalog, of its control-plane compilers and codecs, and of two of its live-probe
scripts, with machine-checked properties. `dafny verify dfyconfig.toml` checks everything.

| file | models |
|---|---|
| `Models.dfy`, `Snapshots.dfy`, `SnapshotStore.dfy` | model names and their normal form; freshness policies and snapshots; the last-success store and every sequence of calls on it |
| `CatalogDiff.dfy`, `DiffHistory.dfy`, `DiffLog.dfy` | one Preview comparison; whole applied histories and their closed form; the applied event log |
| `DiffRegistry.dfy`, `CatalogCycle.dfy` | the Preview/Apply registry under every interleaving; store and registry together |
| `Scheduler.dfy` | the singleflight discovery scheduler as a transition system |
| `Indexing.dfy`, `CredentialPools.dfy`, `EgressPolicies.dfy` | the two graph compilers against declarative specifications |
| `AssociatedData.dfy`, `ClientKeys.dfy`, `RevisionTokens.dfy` | three codecs with their inverses |
| `StreamProjection.dfy`, `ResumeRuns.dfy` | the stream and JSON decoders; resuming a probe run from its receipt |

How the models are set up:

- Lock sections are atomic steps. Time is an explicit input.
- Objects the code updates in place are classes, loops are methods, and each is proved equal to a specification
  function. The lemmas are about those functions.
- 64-bit ranges are subset types, and every checked addition keeps its overflow branch.
- Code outside the models (the source call, sealed secrets, HMAC, JSON decoding of call arguments, URL checks, the
  network) appears as an arbitrary function or as a step parameter, so every result holds for all of its behaviours.

Where the code and its comments differ, the models follow the code:

- A diff's events are not in one global model order. Additions come first, then absences, each in model order
  (`CatalogDiff.EventOrder`); `DiffHistory.EventsCanLeaveModelOrder` gives a pair of snapshots whose events are not in
  order, and `CatalogDiff.InModelOrderIff` says exactly when they are.
- `Added` is also reported for a model that returns after its removal (`DiffLog.AddedTwice`);
  `DiffLog.AddedExactlyWhen` says exactly when it is reported.
- A model that reappears while suspected becomes present without any event (`DiffLog.DiffReportsOnce`).
- A success recorded under a policy that expires in less than 24 hours can be refused with
  `RemovalDeadlineOverflow` (`DiffHistory.ShortExpiryCanOverflow`); `DiffHistory.RefusedExactlyWhen` says exactly when.
- The JSON decoder reports a text delta for an empty text, which no stream can carry
  (`StreamProjection.EmptyTextDiffers`); `StreamProjection.FaithfulStreamMatchesJson` gives
  the exact condition on the response for agreement.
- The stream decoder accepts messages with malformed content and items of unknown type, which the JSON decoder refuses
  (`StreamProjection.OnlyStreamAccepts`); `StreamProjection.StreamMatchesJson` says exactly when both accept.

## Model

| member | source | states |
|---|---|---|
| Models.NormalizeModels | crates/gateway-catalog/src/lib.rs:199-203 | sorting and then dropping adjacent repetitions yields the one strictly sorted list with the input's set of names |
| Models.StrictlySortedUnique | crates/gateway-catalog/src/lib.rs:199-203 | a strictly sorted list is determined by its set of names |
| Models.NormalizedCanonical | crates/gateway-catalog/src/lib.rs:199-203 | two answers have the same normal form exactly when they list the same names, and normalizing twice changes nothing |
| Models.BeforeIsLexicographic | crates/gateway-catalog/src/lib.rs:199-203 | names are ordered by their first differing character, a name before its extensions |
| Snapshots.TryNewPolicy | crates/gateway-catalog/src/lib.rs:246-265 | a policy is built exactly for 0 < fresh <= refresh-due < expiry and holds those three durations; each error has its exact condition |
| Snapshots.NewSnapshot | crates/gateway-catalog/src/lib.rs:329-356 | the step-by-step constructor records exactly the given names, sorted and once each, the target, version and time, and the three deadlines |
| Snapshots.SnapshotMeans | crates/gateway-catalog/src/lib.rs:329-356 | construction field by field, and the exact condition of each error |
| Snapshots.Durations | crates/gateway-catalog/src/lib.rs:210-214 | the durations in milliseconds, the default policy included |
| Snapshots.ConstructibleExactly | crates/gateway-catalog/src/lib.rs:329-356 | the snapshots callers can build are exactly those with a version, 0 <= observed < stale <= refresh-due < expires within i64, and a normal model list |
| Snapshots.SnapshotBuildsIffExpiryFits | crates/gateway-catalog/src/lib.rs:329-356 | under a valid policy only the expiry sum can overflow, and it alone decides construction |
| Snapshots.FreshnessOnlyAges | crates/gateway-catalog/src/lib.rs:407-437 | freshness only moves Fresh, Stale, Expired, changing exactly at the deadlines; Fresh means refresh not due, Expired means due |
| SnapshotStore.CatalogSnapshotStore.RecordSuccess | crates/gateway-catalog/src/lib.rs:519-545 | a success replaces its own target's snapshot by one that records exactly this answer at the next version or, when refused, changes nothing, and the contents stay those the calls so far leave |
| SnapshotStore.RecordedMeans | crates/gateway-catalog/src/lib.rs:519-545 | what recording yields field by field, and the exact condition of each of its four errors |
| SnapshotStore.CatalogSnapshotStore.RetainLastSuccessOnFailure | crates/gateway-catalog/src/lib.rs:557-562 | after any recording calls, a failure is answered with a snapshot that records the target's last accepted success, names, times and deadlines, numbered by how many were accepted |
| SnapshotStore.CatalogSnapshotStore.LastSuccess | crates/gateway-catalog/src/lib.rs:569-574 | the same for the plain lookup |
| SnapshotStore.CatalogSnapshotStore.StatusAt | crates/gateway-catalog/src/lib.rs:581-589 | the retained snapshot, Fresh exactly before its stale time, Expired exactly from its expiry, refresh due exactly from its due time; absent only for an unknown target, an error only for a clock before it |
| SnapshotStore.RetainsLastAccepted | crates/gateway-catalog/src/lib.rs:519-574 | after any calls a target retains exactly the names and times of its last accepted success, numbered by the count of accepted ones, with acceptance stated without versions or snapshots |
| SnapshotStore.AcceptedHistoryIsMonotone | crates/gateway-catalog/src/lib.rs:519-545 | accepted observation times never decrease, and what is retained is always constructible |
| SnapshotStore.TargetsAreIsolated | crates/gateway-catalog/src/lib.rs:477-545 | a target retains what its own calls alone would have left |
| CatalogDiff.MarkPresent | crates/gateway-catalog/src/lib.rs:955-968 | the first loop marks every listed model present and reports the unretained ones in model order |
| CatalogDiff.MarkMissing | crates/gateway-catalog/src/lib.rs:970-1032 | the second loop steps every omitted model and stops at the first overflow in model order |
| CatalogDiff.BuildCatalogDiff | crates/gateway-catalog/src/lib.rs:945-1035 | both loops together equal a pointwise, loop-free comparison: same states, same two event blocks, same error |
| CatalogDiff.BuildDiffSucceedsIff | crates/gateway-catalog/src/lib.rs:975-1003 | a comparison fails exactly when some omitted model overflows, with the error of such a model |
| CatalogDiff.EventOrder | crates/gateway-catalog/src/lib.rs:957-1034 | the events are exactly one addition per new model and then one absence per omitted model, each block strictly in model order |
| CatalogDiff.InModelOrderIff | crates/gateway-catalog/src/lib.rs:736-740 | the whole list is in model order exactly when every new model precedes every omitted one |
| DiffHistory.NextPointwise | crates/gateway-catalog/src/lib.rs:955-1034 | one accepted step changes each model on its own |
| DiffHistory.SerialBookkeeping | crates/gateway-catalog/src/lib.rs:815-872 | after any accepted history the generation is its length, the last version and time are stored, and versions and times only moved forward |
| DiffHistory.IncrementalEqualsClosedForm | crates/gateway-catalog/src/lib.rs:945-1035 | for every accepted history each model's stored state is the closed form: present, suspected with k misses since t1, or gone after three misses and 24 h |
| DiffHistory.MissesWithinGeneration | crates/gateway-catalog/src/lib.rs:1001-1003 | miss counts stay below the generation and deadlines are exactly 24 h after the first miss |
| DiffHistory.RefusedExactlyWhen | crates/gateway-catalog/src/lib.rs:815-872 | after any accepted history a snapshot is refused for exactly three reasons, each with its own condition; the generation and missing-count overflow branches are dead |
| DiffHistory.AcceptedIff | crates/gateway-catalog/src/lib.rs:930-1003 | exactly which histories are accepted in full |
| DiffHistory.LongExpiryNeverOverflows | crates/gateway-catalog/src/lib.rs:329-356 | snapshots of policies that last a day or longer, the default included, never overflow a removal deadline |
| DiffHistory.ShortExpiryCanOverflow | crates/gateway-catalog/src/lib.rs:977-980 | a constructible history that does overflow it under a shorter policy |
| DiffHistory.EventsCanLeaveModelOrder | crates/gateway-catalog/src/lib.rs:736-740 | a constructible pair of snapshots whose events are not in model order |
| DiffLog.DiffReportsOnce | crates/gateway-catalog/src/lib.rs:957-1031 | one comparison reports each model at most once, with the event its transition calls for |
| DiffLog.AddedExactlyWhen | crates/gateway-catalog/src/lib.rs:664-668 | an addition is reported exactly for listed models the accepted history never listed or has removed after three misses and 24 h |
| DiffLog.IssuedAddedExactlyWhen | crates/gateway-catalog/src/lib.rs:815-836 | the same for every preview of every interleaving, on the history it was made from |
| DiffLog.AddedTwice | crates/gateway-catalog/src/lib.rs:664-668 | a constructible history that reports one model as added twice |
| DiffLog.AppliedLogIsSerial | crates/gateway-catalog/src/lib.rs:815-872 | under every interleaving and copying of previews, the events that accepted applies return for a target are the serial log of its accepted snapshots |
| DiffLog.LogIsRead | crates/gateway-catalog/src/lib.rs:815-1034 | under every interleaving every model's part of the applied log is in the event language, and its end matches the stored state |
| DiffLog.LogLaw | crates/gateway-catalog/src/lib.rs:815-1034 | under every interleaving additions and removals alternate starting with an addition, and each removal completes its own run of suspicions 1, 2, ..., k - 1 with k >= 3 |
| DiffLog.ReplayRebuildsRetained | crates/gateway-catalog/src/lib.rs:815-1034 | under every interleaving, adding on Added and dropping on Removed over the applied log yields exactly the retained models |
| DiffRegistry.CatalogDiffRegistry.Preview | crates/gateway-catalog/src/lib.rs:815-836 | a preview is the pure comparison with the current state and changes nothing |
| DiffRegistry.CatalogDiffRegistry.Apply | crates/gateway-catalog/src/lib.rs:844-872 | an accepted apply installs the preview's state at the next generation for its target only and answers with that generation and its events; a refused one changes nothing |
| DiffRegistry.AcceptedApplyReadsCurrentState | crates/gateway-catalog/src/lib.rs:855-864 | in every reachable state an accepted apply acts on exactly the state its preview read |
| DiffRegistry.AnswerMeans | crates/gateway-catalog/src/lib.rs:855-872 | in every run an accepted apply answers with the target and version of its snapshot and the generation then stored, which counts the target's accepted snapshots |
| DiffRegistry.Serializable | crates/gateway-catalog/src/lib.rs:815-872 | under every interleaving each target equals the serial fold of its accepted snapshots, the generation counts them, and versions and times only move forward |
| DiffRegistry.StoredStateIsClosedForm | crates/gateway-catalog/src/lib.rs:815-1035 | under every interleaving each model's stored state is the closed form of the accepted history |
| DiffRegistry.AppliesIffUndisturbed | crates/gateway-catalog/src/lib.rs:856-862 | a preview applies later exactly when no apply for its target was accepted in between; a refusal is always StalePreview |
| CatalogCycle.RecordedPreviews | crates/gateway-catalog/src/lib.rs:519-545 | a recorded success never meets the version or clock refusal while its target's history is unchanged; only a removal deadline past the end of time can refuse it |
| CatalogCycle.RecordedSuccessApplies | crates/gateway-catalog/src/lib.rs:519-545 | record, later preview, later apply, undisturbed on its own target, succeeds whatever happens on other targets, exactly unless a model vanishes less than 24 h before the end of time; policies of a day or longer always succeed |
| Scheduler.ModelCatalogScheduler.Synchronize | crates/gateway-catalog/src/lib.rs:138-154 | the lock section keeps the invariant and leaves the caller on the one listed, unanswered flight for its target, spawning it only if none was listed |
| Scheduler.ModelCatalogScheduler.KeepAnswer | crates/gateway-catalog/src/lib.rs:166-166 | the spawned task keeps the answer's names sorted and once each, or the error as it is, and the invariant holds |
| Scheduler.ModelCatalogScheduler.RemoveFlight | crates/gateway-catalog/src/lib.rs:168-175 | the spawned task removes its own entry and nothing else, after which its target is not listed |
| Scheduler.ModelCatalogScheduler.SendResult | crates/gateway-catalog/src/lib.rs:177-180 | after removal the channel holds the names of the flight's own source answer, sorted and once each, or its error |
| Scheduler.RunKeepsInv | crates/gateway-catalog/src/lib.rs:134-197 | the inductive invariant holds in every reachable state |
| Scheduler.LookKeepsInv | crates/gateway-catalog/src/lib.rs:186-197 | a waiter never finds its channel closed without a value; the internal-error exit is dead when source calls return |
| Scheduler.SingleFlight | crates/gateway-catalog/src/lib.rs:134-184 | a target is listed exactly when one task for it has not removed itself, so at most one source call per target is open and the identity check always succeeds |
| Scheduler.DeliveredAnswer | crates/gateway-catalog/src/lib.rs:134-197 | a completed caller holds the names, sorted and once each, or the error, that the source returned in this run to one flight for the very target it asked for, published after it joined |
| Scheduler.SharersAgree | crates/gateway-catalog/src/lib.rs:177-197 | all completed callers of a flight hold the same value |
| Scheduler.SettledStays | crates/gateway-catalog/src/lib.rs:103-108 | a delivered answer is never replaced and a cancelled caller never receives one |
| Scheduler.WaiterIsServed | crates/gateway-catalog/src/lib.rs:103-108 | from every reachable state a waiter is served once its task proceeds, whatever others do or cancel in between |
| Scheduler.CancellationIsInvisible | crates/gateway-catalog/src/lib.rs:103-108 | cancelling any set of callers changes no flight, no source call and nothing another caller sees |
| CredentialPools.IndexUpstreams | crates/gateway-control/src/credential_pool_compiler.rs:153-163 | on success no identity repeats and the index answers like a search of the list; otherwise the error is the first fault in list order |
| CredentialPools.IndexEndpoints | crates/gateway-control/src/credential_pool_compiler.rs:165-179 | the same, an unresolved Upstream being reported before a repeated identity |
| CredentialPools.IndexCredentials | crates/gateway-control/src/credential_pool_compiler.rs:181-195 | the same for Credentials |
| CredentialPools.ContributionMeans | crates/gateway-control/src/credential_pool_compiler.rs:82-129 | one binding fails with exactly its declared fault and otherwise contributes its input exactly when eligible; both in-loop missing-Upstream errors are dead |
| CredentialPools.GatherBindings | crates/gateway-control/src/credential_pool_compiler.rs:77-134 | the loop gathers each Endpoint's inputs in configuration order when no binding has a fault, and otherwise returns the fault of the first binding that has one |
| CredentialPools.CompileExcluding | crates/gateway-control/src/credential_pool_compiler.rs:69-134 | compilation up to the pool constructors succeeds exactly on well-formed graphs whose eligible secrets open, and otherwise returns the first fault in the order Upstreams, Endpoints, Credentials, bindings |
| CredentialPools.RefusedIff | crates/gateway-control/src/credential_pool_compiler.rs:69-134 | some error is due exactly when the graph is malformed or an eligible secret does not open |
| CredentialPools.RefusalPhases | crates/gateway-control/src/credential_pool_compiler.rs:69-81 | repeated Upstreams are reported first, then Endpoint faults, then Credential faults, then binding faults |
| CredentialPools.RefusalNamesCause | crates/gateway-control/src/credential_pool_compiler.rs:82-129 | every error names a fault the configuration really has |
| CredentialPools.PoolMeans | crates/gateway-control/src/credential_pool_compiler.rs:82-134 | a pool has one input for each binding whose flags, status and exclusion admit it, in configuration order, with the binding's priority, weight and concurrency and the Credential's identity, kind, revision and opened secret |
| CredentialPools.PooledInputsShareUpstream | crates/gateway-control/src/credential_pool_compiler.rs:197-207 | every pooled input comes from an eligible binding whose Credential shares the Endpoint's Upstream |
| CredentialPools.ExcludingCompileRestrictsFull | crates/gateway-control/src/credential_pool_compiler.rs:55-101 | the excluding compile gathers the full compile's inputs minus the excluded Endpoints |
| CredentialPools.SwitchesCannotHideMalformed | crates/gateway-control/src/credential_pool_compiler.rs:45-50 | flags, statuses, secrets and exclusions do not change whether a graph is well-formed, and a malformed one is refused under all of them |
| EgressPolicies.ParseAllowlist | crates/gateway-control/src/egress_policy_compiler.rs:267-353 | an allowlist is accepted exactly when every value parses and no two parse alike, and nothing is lost |
| EgressPolicies.CompilePolicy | crates/gateway-control/src/egress_policy_compiler.rs:242-265 | a row compiles exactly to the policy it describes, or fails with its first faulty part |
| EgressPolicies.PolicyMeans | crates/gateway-control/src/egress_policy_compiler.rs:242-389 | which list feeds which field, and the redirect mode and limit, in both directions |
| EgressPolicies.EndpointCheckMeans | crates/gateway-control/src/egress_policy_compiler.rs:91-126 | after the first passes the Endpoint check is the declared fault; the second-pass missing-policy errors are dead |
| EgressPolicies.Compile | crates/gateway-control/src/egress_policy_compiler.rs:39-150 | accepts exactly the acceptable graphs, refuses others with the first fault in configuration order, and answers every Upstream with its row's policy |
| EgressPolicies.AcceptedMeans | crates/gateway-control/src/egress_policy_compiler.rs:39-133 | acceptance restated without row order: distinct identities and names, compiling policies, resolved references, policies for enabled Upstreams, accepted URLs |
| EgressPolicies.EveryReferenceAnswers | crates/gateway-control/src/egress_policy_compiler.rs:146-150 | after acceptance every Upstream with a reference has a policy and every live Endpoint's URL passed it |
| EgressPolicies.ReferencedPolicyIs | crates/gateway-control/src/egress_policy_compiler.rs:146-150 | the policy answered for an Upstream is compiled from the very row it names |
| EgressPolicies.RefusalNamesCause | crates/gateway-control/src/egress_policy_compiler.rs:39-133 | every error names a fault the configuration really has, and its subject |
| AssociatedData.Encode | crates/gateway-control/src/control_plane_service.rs:219-233 | the loop succeeds exactly when every segment fits in u32 and yields the domain followed by the delimited segments |
| AssociatedData.CredentialAssociatedData | crates/gateway-control/src/control_plane_service.rs:209-234 | the segments are the version, Credential and Upstream identities in that order, refused exactly when one is too long |
| AssociatedData.DelimitedShape | crates/gateway-control/src/control_plane_service.rs:227-232 | each segment follows its length |
| AssociatedData.Layout | crates/gateway-control/src/control_plane_service.rs:18-18 | the domain's bytes, and lengths with the highest byte first |
| AssociatedData.DecodeEncoded | crates/gateway-control/src/control_plane_service.rs:199-234 | a decoder reads back every encoding, whatever follows it |
| AssociatedData.EncodeDecoded | crates/gateway-control/src/control_plane_service.rs:199-234 | whatever decodes is the encoding of what was decoded |
| AssociatedData.EncodingIsPrefixFree | crates/gateway-control/src/control_plane_service.rs:199-204 | the encoding is injective and no encoding is a proper prefix of another |
| ClientKeys.EncodeLowerHex | crates/gateway-auth/src/client_key.rs:636-645 | the loop computes the hexadecimal text of the bytes |
| ClientKeys.HexAt | crates/gateway-auth/src/client_key.rs:636-645 | two lower-case digits for each byte, the high half first |
| ClientKeys.KeyShape | crates/gateway-auth/src/client_key.rs:479-481 | a key is `rgw_`, 16 digits, `_` and 64 digits |
| ClientKeys.HexUnhex | crates/gateway-auth/src/client_key.rs:636-652 | every lower-case hexadecimal text is the print of its bytes |
| ClientKeys.ParsePrinted | crates/gateway-auth/src/client_key.rs:615-634 | parsing a printed key returns its prefix |
| ClientKeys.AcceptedIffPrinted | crates/gateway-auth/src/client_key.rs:615-652 | the accepted strings are exactly the prints of an 8-byte prefix and a 32-byte secret |
| ClientKeys.PrefixAcceptedIff | crates/gateway-auth/src/client_key.rs:109-123 | the accepted stored prefixes are exactly the prints of 8 bytes |
| ClientKeys.PrintInjective | crates/gateway-auth/src/client_key.rs:479-483 | different keys print differently |
| ClientKeys.IssuedVerifiesUntilExpiry | crates/gateway-auth/src/client_key.rs:444-502 | for any digest the issued record holds the given identities, expiry and digest, and its key verifies at all times before expiry and at none from it on |
| ClientKeys.VerifiesOnlyWhen | crates/gateway-auth/src/client_key.rs:444-467 | verification says yes exactly to canonical keys of the record's prefix and digest while it is active and unexpired, fails only for a negative clock, and says no otherwise |
| ClientKeys.ClientKeyRecord.SetStatus | crates/gateway-auth/src/client_key.rs:301-312 | only the status changes, and an inactive record verifies for no key, digest or time |
| RevisionTokens.TokensRoundTrip | crates/gateway-control/src/management_mutation_service.rs:74-100 | rendering and parsing are inverse over all non-negative i64 revisions |
| RevisionTokens.TokenShape | crates/gateway-control/src/management_mutation_service.rs:74-100 | tokens are `rev-` and a decimal number without leading zeros |
| RevisionTokens.AcceptedIffRendered | crates/gateway-control/src/management_mutation_service.rs:80-100 | the accepted tokens are exactly the rendered ones |
| StreamProjection.CollapseMarkers | scripts/p12-06-openai-differential.py:96-102 | the loop computes the collapsed list |
| StreamProjection.CollapsePiecewise | scripts/p12-06-openai-differential.py:96-102 | collapsing is idempotent and can be done piecewise |
| StreamProjection.ObserveJson | scripts/p12-06-openai-differential.py:181-194 | the loop agrees with the fold over the items, errors and incomplete lifecycles included |
| StreamProjection.ItemVerdict | scripts/p12-06-openai-differential.py:105-140 | which items are accepted, and the exact condition of each refusal |
| StreamProjection.JsonVerdict | scripts/p12-06-openai-differential.py:181-194 | for every body: an incomplete lifecycle, the first faulty item, a missing call, or success with the terminal that says whether there was a call |
| StreamProjection.JsonProjectionIs | scripts/p12-06-openai-differential.py:181-194 | every accepted response is projected to one call, or to as many messages as it has |
| StreamProjection.ObserveStream | scripts/p12-06-openai-differential.py:197-280 | the read loop agrees with the fold over the events, errors included |
| StreamProjection.StreamVerdict | scripts/p12-06-openai-differential.py:197-280 | for every event list: the error of the first offending event, an incomplete stream, a missing call, or the collapsed markers of the events |
| StreamProjection.AcceptedStreamMeans | scripts/p12-06-openai-differential.py:230-273 | every accepted event list has a start, an end and an item or delta, no failure, no malformed event and no faulty delta, and a finished call exactly when one is expected |
| StreamProjection.StreamAcceptedIff | scripts/p12-06-openai-differential.py:227-273 | a sequential streaming of any items is accepted exactly when it announces an item and its messages and calls are messages only, whatever they hold, or one valid call |
| StreamProjection.StreamMatchesJson | scripts/p12-06-openai-differential.py:181-280 | for every response and every sequential streaming of it, with blank lines, repeated starts and reasoning items anywhere: if the JSON is accepted the stream is accepted exactly when it announces an item; if the stream is accepted the JSON is accepted exactly when each of its items is; if both are, the terminals are those of the mode, and the projections agree exactly when every message and call had a delta |
| StreamProjection.OnlyStreamAccepts | scripts/p12-06-openai-differential.py:113-117 | a message without content is accepted by the stream decoder alone |
| StreamProjection.FaithfulStreamMatchesJson | scripts/p12-06-openai-differential.py:104-280 | for every accepted response and every sequential streaming of its own texts and arguments, however split into deltas, the projections agree exactly when no message of the response is empty |
| StreamProjection.EmptyTextDiffers | scripts/p12-06-openai-differential.py:112-120 | an empty text makes the two projections differ |
| ResumeRuns.ResumeIndex | scripts/p12-08g1-live-e2e.py:452-478 | accepts exactly the receipts of failed runs, restarts at the failed probe with the passes kept, and reports the first fault otherwise |
| ResumeRuns.RunLoop | scripts/p12-08g1-live-e2e.py:507-520 | the loop equals the recursive run, rows, sends and failure flag alike |
| ResumeRuns.Execute | scripts/p12-08g1-live-e2e.py:498-531 | a fresh or resumed run writes the receipt of that run, with each row's probe and detail; a refused receipt gives the invalid-receipt error or that of its first faulty row |
| ResumeRuns.AttemptLaw | scripts/p12-08g1-live-e2e.py:507-520 | a run keeps earlier passes in place, sends once per new pass and failure, and completes or stops at the first failing probe |
| ResumeRuns.ChainLaw | scripts/p12-08g1-live-e2e.py:498-531 | along any chain of failed runs and resumptions every failed receipt is accepted, a complete one is not, and total sends equal passes plus failures |
| ResumeRuns.PassesStay | scripts/p12-08g1-live-e2e.py:498-531 | the passes of every receipt of a chain stay in place in all later ones |

## Left out

- Panicking or aborted discovery tasks: the model's source calls always return a value or an error.
- Lock poisoning, runtime scheduling and real clocks.
- Scheduler.WaiterIsServed: a statement about schedules in which the spawned task takes its steps; it does not claim that the runtime is fair.
- DiffRegistry.Serializable: about previews issued by the same registry, since a preview carries no registry identity.
- Models.NormalizeModels: model names are any strings; the constructor's refusal of an empty name is not modelled, and stability of the sort does not matter because equal names are identical.
- CredentialPools.CompileExcluding: stops before the pool constructors and treats associated data, secret opening and secret validation as one opaque step, so those three error sources share one error.
- EgressPolicies.CompilePolicy: scheme, host and CIDR parsing, the policy constructor and the URL check are opaque; JSON shapes are given as present or absent lists.
- ClientKeys.IssuedVerifiesUntilExpiry: HMAC initialization failures, randomness, zeroization and constant-time comparison are not modelled.
- StreamProjection.ObserveStream: usage shapes, timings, timeouts and the byte and event bounds are not modelled; an event's item is an object or absent.
- StreamProjection.StreamMatchesJson: about streams in which messages and calls do not overlap one another; all other items may overlap anything.
- ResumeRuns.Execute: reading and writing files and the probe requests themselves are not modelled; a receipt is read back as it was written.
- The fixed probe matrices themselves: the results hold for every matrix.
- Capability sets, catalog views, the management services' storage operations, the command line and the repository checkers.
