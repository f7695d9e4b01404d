# TensorCast control plane: a Dafny model

This project models the Python control plane of TensorCast and proves properties of it: how processes on one
machine elect the one that launches the store daemon, how the daemon client retries and streams, how publication
and realization records survive serialization, how configuration overrides are merged, and how two caches of
remote state stay consistent. `dafny verify dfyconfig.toml` verifies all of it.

## What is modelled

- **Auto-init election** (`AutoState`, `Election`, `ElectionSteps`, `AutoInit`, `ElectionSafety`,
  `ElectionRecovery`). The shared
  record of `tensorcast/startup.py` and the body of every `with file_lock(...)` block are methods of the class
  `AutoStateFile`, each proved equal to a function of the file content. `Election` makes them the steps of a
  transition system in which any number of processes call init again and again, observe arbitrary addresses outside
  the lock, launch, record, close, are interrupted, and crash at any point. `AutoInit.InitAuto` is the loop of one
  process and is proved to be an execution of that system.
  `ElectionSteps` says exactly what each step does, over every record and observation.
  The main results hold for every run, from any file left behind: mutual exclusion between claim and outcome; the
  outcome write replaces the writer's own claim; the exact list of record transitions; a bound on the number of
  elections; agreement on one daemon address; exact recovery, waiting and hash-enforcement conditions.
- **Client calls** (`RpcRetry`, `Feeds`). The retry loop runs against a script in which clock, outcomes, refresh times
  and jitter are arbitrary; the two stream generators return the requests they yield.
- **Publication and realization** (`Assembly`, `Base32`, `Publication`, `ReusePlan`, `RetainedClaim`).
- **Configuration overrides** (`Overrides`, `OverrideStore`). The laws are proved of a tree of values; the nested
  dictionaries that the loader updates in place are proved to hold that tree.
- **Cached state** (`CapabilityCache`, `Reconcile`).

## Where the code differs from its description

- The capability directory calls itself bounded in staleness (`tensorcast/capability_directory.py:37`). It is not:
  inside a backoff window an over-age list is returned silently. `CapabilityCache.OverAgeServedIff` gives the exact
  condition and `CapabilityCache.StalenessIsUnbounded` serves a list of any age.
- An auto-init process is meant to refuse a daemon started with another configuration. A process whose observation
  preceded the launch skips that comparison: `ElectionRecovery.StaleObservationSkipsHash` is such a run and
  `ElectionRecovery.ConnectDespiteHash` says exactly when it happens.
- One launch at a time depends on an assumption about explicit session ids: a context that closes with the id of a
  launch in progress deletes its record (`ElectionSafety.SharedSessionIdElectsTwo`), and exactly then
  (`ElectionSafety.CloseDeletesClaimIff`). The theorems about runs therefore exclude that step (`NoSharedSession`).
- The view feed tests the byte count of a memory view but advances by items, so it ends only for byte-sized items
  (`Feeds.ViewLoopEndsIff`).
- The waiting limit of a follower needs a positive start time in the record (`ElectionRecovery.TimeoutNeedsStartTime`).
- A FAILED record without an owner pid stays as long as no daemon is observed (`ElectionRecovery.LoneRecovery`). With one
  observed it is cleared only if that is the recorded address and it stops answering; the exact condition is
  `ElectionRecovery.FailedRecordClearedIff`.
- The text test for conflicting overrides and the tree builder can disagree when a value is a mapping
  (`Overrides.MappingValuesEscapeTheTest`); `Overrides.BuilderAgreesWithTextTestIff` says exactly when they agree.
- The reuse planner does not see build digests and can plan a direct copy that the target validator refuses
  (`ReusePlan.PlannedCopyIsRefused`); `ReusePlan.TargetAcceptsPlanIff` says exactly which plans a target accepts.

## Assumptions

A locked section is atomic, a dead pid stays dead and is not reused, all processes see one machine fingerprint, the
launched address is not empty, and time is real-valued. SHA-256, JSON, YAML, pydantic and protobuf are not modelled
beyond the field rules they enforce; manifest decoding, YAML parsing and the set of known configuration keys are
parameters. The proof assumes nothing about what a process observes outside the lock.

## Model

| member | source | states |
|---|---|---|
| AutoState.AutoStateFile.ElectLocked | tensorcast/startup.py:660-783 | the first locked section decides and writes exactly what `Decide` says of the record it read: reset, connect, wait, claim or raise |
| AutoState.AutoStateFile.RefreshLocked | tensorcast/startup.py:831-857 | the last locked section erases the record exactly when it is stale at the address that did not answer |
| AutoState.AutoStateFile.ClearIfMatches | tensorcast/startup.py:248-260 | a closing context deletes the file on a session or an address match |
| AutoState.AutoStateFile.PromoteReady | tensorcast/startup.py:263-284 | only a LISTENING record with the same session and address becomes READY |
| AutoState.AutoStateFile.ReadLocked | tensorcast/startup.py:227-238 | a missing file reads as the default record and the epoch is never negative |
| AutoInit.InitOnce | tensorcast/startup.py:646-913 | one iteration of the loop leaves the file and returns the outcome that the transition system gives |
| AutoInit.InitAuto | tensorcast/startup.py:646-913 | the whole loop of one process, whatever it observes, ends in the state of the specification loop, and reaches it by its own steps from a state in which init was not called yet |
| AutoInit.LoopIsARun | tensorcast/startup.py:646-913 | that loop is a run of the transition system made of the process's own steps |
| Text.StripIsMiddle | tensorcast/startup.py:663-673 | trimming takes only blanks and only from the two ends |
| ElectionSteps.ElectClaimsIff | tensorcast/startup.py:761-783 | a process claims exactly on an EMPTY record with no daemon observed; the claim has the next epoch, its own pid, fingerprint, hash and session, and is what is written |
| ElectionSteps.ElectRaisesIff | tensorcast/startup.py:673-760 | exactly when each of the four errors is raised, over all records and observations, and that the record then stays |
| ElectionSteps.ElectSleepsIff | tensorcast/startup.py:681-760 | exactly when the first locked section erases the record, and exactly when the process just waits |
| ElectionSteps.ElectConnectsIff | tensorcast/startup.py:696-764 | exactly when a process goes on to connect, and to which address |
| ElectionSteps.UnlockedSteps | tensorcast/startup.py:647-900 | observing, pinging, sleeping and launching move only their own process and leave the file |
| ElectionSteps.RereadIff | tensorcast/startup.py:806-859 | after a failed connection: another round exactly on STARTING, an attempt to erase exactly for a dead owner's record of that address, otherwise an error |
| ElectionSteps.RefreshErasesIff | tensorcast/startup.py:831-857 | the last locked section erases exactly a dead owner's record of the address that did not answer |
| ElectionSteps.CloseErasesIff | tensorcast/startup.py:248-260 | a close deletes the file exactly when it names the session or address of the context, whatever its status |
| ElectionSteps.CloseWithoutSession | tensorcast/startup.py:146-151 | an owner without a session leaves the file behind |
| ElectionSteps.PromoteIff | tensorcast/startup.py:263-284 | a promotion makes READY exactly the LISTENING record of its session and address and changes nothing else |
| ElectionSafety.LiveClaimSurvives | tensorcast/startup.py:682-857 | no step of another process, closing context or promoter changes the record of a live launch |
| ElectionSafety.MutualExclusion | tensorcast/startup.py:646-913 | in every run from any file, at most one live process is between its claim and its outcome, and the record on disk is its claim |
| ElectionSafety.OutcomeReplacesOwnClaim | tensorcast/startup.py:884-911 | the outcome write, made without re-reading, replaces the writer's own STARTING record: by it made READY with the launched address and session, or by it with only the status FAILED |
| ElectionSafety.ReadyWasLaunched | tensorcast/startup.py:898-911 | from no file, in every execution, a READY record names the address and session of a launch made by its owner |
| ElectionSafety.RecordTransitions | tensorcast/startup.py:682-911 | an election step leaves the record, erases one whose owner is dead, claims an EMPTY one with the next epoch, or finishes its own claim; nothing else |
| ElectionSafety.FailedRecordIsKept | tensorcast/startup.py:696-715 | no election step changes a FAILED record with a live owner |
| ElectionSafety.EpochNeverPassesOne | tensorcast/startup.py:218-224 | from no file, a reachable record has epoch 0 exactly when EMPTY and 1 otherwise |
| ElectionSafety.ElectionsArePaidFor | tensorcast/startup.py:766-783 | in every run the number of elections is at most one more than the number of crashes and closed contexts |
| ElectionSafety.OneSharedDaemon | tensorcast/startup.py:716-731 | from no file and without crash or close, owners agree on one address and every process that decides on a READY record connects to it |
| ElectionSafety.CloseDeletesClaimIff | tensorcast/startup.py:253-260 | during a launch, a closing context deletes the claim exactly when it carries the claim's session id |
| ElectionSafety.SharedSessionIdElectsTwo | tensorcast/startup.py:257-260 | a concrete execution with a shared explicit id ends with two leaders |
| ElectionRecovery.LoneRecovery | tensorcast/startup.py:682-859 | with no reachable daemon a lone process is elected at once from EMPTY, in its second iteration exactly from the recoverable records, and otherwise raises or leaves a live launch alone |
| ElectionRecovery.DeadOwnerNeverBlocks | tensorcast/startup.py:694-743 | a record whose owner pid is gone, or reused after a reboot, delays a lone process by at most one iteration |
| ElectionRecovery.FailedRecordClearedIff | tensorcast/startup.py:696-857 | over all observations, exactly when one iteration clears a FAILED record |
| ElectionRecovery.StaysInLoop | tensorcast/startup.py:738-817 | an iteration leaves a STARTING record and comes round again exactly when the launch is alive and in time, the hash agrees and no observed daemon answers |
| ElectionRecovery.WaitIsBounded | tensorcast/startup.py:738-817 | for any observations, a process goes round at most floor(timeout / 0.2) + 1 times on one STARTING record, waiting or failing to connect |
| ElectionRecovery.WaitBoundIsTight | tensorcast/startup.py:745-760 | a leader that never finishes makes a follower go round exactly that often |
| ElectionRecovery.TimeoutNeedsStartTime | tensorcast/startup.py:745-755 | the wait can time out exactly when the record carries a positive start time |
| ElectionRecovery.ConnectDespiteHash | tensorcast/startup.py:673-737 | exactly when a process connects although the recorded hash contradicts its own |
| ElectionRecovery.ConnectionsAreJustified | tensorcast/startup.py:673-737 | in every execution, a connection goes to the recorded address or, without one, to the observed address; decided on STARTING or LISTENING, or on READY at the observed address, it had an empty or equal hash |
| ElectionRecovery.StaleObservationSkipsHash | tensorcast/startup.py:647-681 | a concrete run connects to a READY daemon with a different hash |
| RpcRetry.DaemonCtl.UnaryCall | tensorcast/daemon_ctl.py:617-752 | at most retries + 1 calls, all but the last failing with one of the four retried codes, each started inside the budget on a fresh channel; the last decides the result; early surrender after such a code only with the timeout spent |
| RpcRetry.DaemonCtl.RefreshChannel | tensorcast/daemon_ctl.py:608-615 | the old channel is closed and both fields point to a new open one |
| RpcRetry.RetryDeadline | tensorcast/daemon_ctl.py:648-728 | if the last RPC honours its deadline, the call overruns the budget by at most a millisecond and the delay in starting that RPC, or, when it ends at the check after it, by 0.15 s of pause, one refresh and the time to the check |
| RpcRetry.CallsAreSequential | tensorcast/daemon_ctl.py:648-728 | calls never overlap: each retry is checked at least 50 ms after the failure before it |
| RpcRetry.CallsGetTheTimeLeft | tensorcast/daemon_ctl.py:650-672 | every call asks for exactly the time left of the timeout, or for a millisecond if less is left |
| Feeds.SafeMaxChunk | tensorcast/daemon_ctl.py:347-363 | for every environment, a chunk is positive and 64 KiB below both message limits |
| Feeds.ResolveChunk | tensorcast/daemon_ctl.py:3993-3997 | any requested size resolves to a positive size within the safe limit |
| Feeds.SafeMaxChunkIsLargest | tensorcast/daemon_ctl.py:323-363 | the safe size is the largest within the configured chunk size and 64 KiB below both message limits, defaults included |
| Feeds.ResolveChunkIsLargest | tensorcast/daemon_ctl.py:3993-3997 | a request gets the largest safe size within it, at least one byte |
| Feeds.CutSpan | tensorcast/daemon_ctl.py:4024-4053 | the chunks of a span concatenate to its data at contiguous offsets, full except possibly the last, none empty; the byte counter, raised chunk by chunk, grows by the length of the data |
| Feeds.FeedView | tensorcast/daemon_ctl.py:3999-4053 | the stream is the cuts of the spans in order, the byte counter equals total input and total output, every chunk respects both limits |
| Feeds.CutsAreUnique | tensorcast/daemon_ctl.py:4026-4053 | a span and a size determine the chunks |
| Feeds.ViewLoopEndsIff | tensorcast/daemon_ctl.py:4026-4053 | the loop over a memory view ends exactly for byte-sized items or an empty view |
| Feeds.FeedRanges | tensorcast/daemon_ctl.py:4109-4144 | the requests carry exactly the non-zero ranges in order, n / 1024 + 1 requests, only the last marked complete; at an illegal range only full unmarked batches have been sent |
| Feeds.BatchingIsUnique | tensorcast/daemon_ctl.py:4111-4144 | that contract determines the requests |
| Assembly.DedupeProps | tensorcast/types.py:979-992 | the deduped ids are strictly increasing and are exactly the trimmed non-blank ids |
| Assembly.RequirementSetShape | tensorcast/types.py:1009-1074 | PP and EP sets have increasing slots, each targeting its own view with the family's coverage, counted by distinct ids; no ids is an error |
| Assembly.CanonicalSetShape | tensorcast/types.py:995-1007 | the canonical set is one requirement for the whole layout, whatever the ids |
| Assembly.EqualSetsIffSameIds | tensorcast/types.py:979-1074 | two view lists give equal requirement sets exactly when they name the same ids |
| Assembly.FamiliesAreDistinct | tensorcast/types.py:1009-1037 | sets of different families are never equal |
| Base32.Base32RoundTrip | tensorcast/types.py:684 | unpadded lower-case Base32 has the expected length and reads back, for inputs of every length |
| Base32.RfcVectors | tensorcast/types.py:684 | the encoding gives the test vectors of section 10 of RFC 4648 |
| Base32.MultihashRoundTrip | tensorcast/types.py:680-685 | a 32-byte digest gives 56 characters that read back to it; any other length is rejected |
| Base32.MultihashIsInjective | tensorcast/types.py:680-685 | different digests have different texts |
| Publication.ManifestRefIff | tensorcast/types.py:703-711 | a reference names a tensor exactly when, trimmed, it is the prefix followed by a non-blank name |
| Publication.ManifestRefRoundTrip | tensorcast/types.py:703-711 | the prefix and a trimmed name read back as that name |
| Publication.FillProto | tensorcast/types.py:3427-3453 | filling the message field by field gives the wire form, and fails exactly when a count or seal generation exceeds 64 bits |
| Publication.InlineRoundTrip | tensorcast/types.py:829-977 | inline requirements come back with empty view ids dropped |
| Publication.ContractRoundTrip | tensorcast/types.py:3180-3211 | a valid publish contract survives the wire unchanged |
| Publication.FactsRoundTrip | tensorcast/types.py:1382-1420 | valid admission facts survive the wire unchanged |
| Publication.WireRoundTrip | tensorcast/types.py:3337-3503 | every valid spec comes back valid and equal to its normal form |
| Publication.SecondTripChangesNothing | tensorcast/types.py:3427-3503 | a second trip changes nothing |
| Publication.SurvivesUnchangedIff | tensorcast/types.py:3427-3503 | exactly which valid specs the wire leaves as they are |
| Publication.AcceptedMessagesSettle | tensorcast/types.py:3427-3503 | any accepted message gives a valid spec that is normal in every field but an unset requirement count; sending it on changes nothing exactly when that count is set |
| Publication.MessageAcceptedIff | tensorcast/types.py:3337-3503 | exactly which messages are accepted, in terms of their own fields and the decoded manifest |
| ReusePlan.PlannerAgreesWithValidator | tensorcast/types.py:2056-2212 | without empty contract hashes, the planner chooses a direct copy exactly when topology and contract agree and the layout validator accepts it; every plan passes the validator |
| ReusePlan.PlanIsDirectIff | tensorcast/types.py:2065-2128 | for all inputs, the planner reaches the direct copy exactly under the validator's conditions and otherwise requires a transform with a reason |
| ReusePlan.PlanRaisesIff | tensorcast/types.py:2065-2128 | the planner raises exactly where it would record an empty contract hash |
| ReusePlan.PlanMode | tensorcast/types.py:2065-2074 | a checkpoint is always converted, with the hash asked for; any other source is copied or transformed, never unsupported |
| ReusePlan.MadeIff | tensorcast/types.py:1999-2021 | a decision is refused exactly for an empty hash or text, or a transform or unsupported source without a reason |
| ReusePlan.TransformReasonIsTrue | tensorcast/types.py:2075-2123 | every transform comes with a reason that is true of the inputs |
| ReusePlan.TransformReasonIsFirst | tensorcast/types.py:2075-2123 | the reason given is the first that holds, and among members that of the first that disagrees |
| ReusePlan.MembersAgreeIff | tensorcast/types.py:2097-2123 | the planner's walk over matching members equals the validator's reading |
| ReusePlan.TargetAcceptsPlanIff | tensorcast/types.py:2284-2314 | whatever the planner plans, the target carrying the plan is accepted exactly when the topologies agree and a direct copy comes from the same build |
| ReusePlan.AcceptedForEveryBuildIff | tensorcast/types.py:2303-2310 | a plan is accepted for every build exactly when the topologies agree and it does not copy from a source with a build digest |
| ReusePlan.PlannedCopyIsRefused | tensorcast/types.py:2303-2310 | a concrete direct copy that is planned and refused |
| ReusePlan.DirectCopyReplans | tensorcast/types.py:2162-2314 | planning a valid direct-copy target again gives a direct copy, with the recorded hash exactly if one was recorded or the source has none; it raises exactly if none was recorded and the source has an empty one |
| RetainedClaim.ClaimParsesIff | tensorcast/retained_realization.py:206-519 | producer and consumer end to end: a valid handoff arrives exactly when it is claimable and the members expected on both sides are its own; it then carries the handoff's fields up to trimming |
| RetainedClaim.PayloadFacts | tensorcast/retained_realization_authority.py:83-123 | the authority model and the consistency checks together accept exactly the claimable handoffs |
| RetainedClaim.SettingsBuiltIff | tensorcast/artifact_runtime/config.py:440-513 | settings are built exactly when every claim is admissible and an external acquire names its claims in one of the two ways |
| RetainedClaim.ParsedIsSound | tensorcast/retained_realization.py:206-285 | whatever settings arrive, a parsed claim is complete, consistent with its capability and for the expected member |
| RetainedClaim.NothingToParse | tensorcast/retained_realization.py:384-421 | nothing is parsed from settings that are not external, from several claims without a member, or for a member not listed |
| RetainedClaim.EachWorkerGetsItsClaim | tensorcast/retained_realization.py:384-421 | from a list of claimable handoffs with distinct members, every worker parses its own claim |
| Overrides.PathAcceptedIff | tensorcast/daemon_runtime_config.py:402-411 | a key is accepted exactly when it is non-blank and has no leading, trailing or double dot |
| Overrides.ConflictIffOverlap | tensorcast/cli.py:40-43 | the text test decides exactly whether one path is a prefix of the other |
| Overrides.SameKeyText | tensorcast/cli.py:31-37 | the command line reads from a text the key that the builder uses |
| Overrides.ExtractKeyIff | tensorcast/cli.py:31-37 | the key is what stands before the first "=", trimmed; it is missing exactly without "=" or with only blanks before it |
| Overrides.ParseOverrideIff | tensorcast/daemon_runtime_config.py:391-483 | a text is an override exactly when a known path precedes its first "=" and YAML other than null, or nothing, follows |
| Overrides.ApplyBlocks | tensorcast/daemon_runtime_config.py:452-468 | an applied override, with any value, blocks exactly the paths on the way to it and those refused inside its value |
| Overrides.ApplySetsLeaf | tensorcast/daemon_runtime_config.py:452-468 | an applied leaf changes the leaf at its own path and no other |
| OverrideStore.DictNode.Apply | tensorcast/daemon_runtime_config.py:452-468 | writing an override into nested dictionaries in place succeeds exactly when the value-level `Overrides.Apply` does and then holds its result; on a conflict nothing has changed; the dictionaries stay a tree without sharing |
| OverrideStore.BuildTree | tensorcast/daemon_runtime_config.py:471-483 | the builder succeeds exactly when every text parses and no override blocks a later one, its dictionaries then hold the overrides applied in order, and it agrees with the text test exactly when one blocks or none is merged |
| Overrides.BuildSucceedsIffNoneBlocks | tensorcast/daemon_runtime_config.py:452-483 | for overrides with any values, a tree is built exactly when none blocks a later one |
| Overrides.TextConflictIffOverlap | tensorcast/cli.py:31-43 | over the texts given to the builder, the command line's test on keys is the overlap test on the paths the builder uses |
| Overrides.BuilderAgreesWithTextTestIff | tensorcast/daemon_runtime_config.py:452-483 | over all texts that parse, keys without a text conflict always build, and builder and text test agree exactly when some override blocks a later one or none is merged into an earlier mapping |
| Overrides.BuildSucceedsIffNoTextConflict | tensorcast/daemon_runtime_config.py:452-483 | for texts with non-mapping values, building succeeds exactly when no two keys conflict as text |
| Overrides.RenderedTextParses | tensorcast/daemon_runtime_config.py:391-483 | a text written from a path and a value is read back as that path and value |
| Overrides.LeavesAreTheOverrides | tensorcast/daemon_runtime_config.py:452-483 | with non-mapping values, on success the leaves of the tree are exactly the overrides |
| Overrides.OrderDoesNotMatter | tensorcast/daemon_runtime_config.py:452-483 | any order of the same overrides with non-mapping values builds the same tree |
| Overrides.MappingValuesEscapeTheTest | tensorcast/daemon_runtime_config.py:459-467 | two texts whose keys conflict, one with a mapping value, are merged in one order and rejected in the other |
| CapabilityCache.CacheState.Get | tensorcast/capability_directory.py:142-174 | one query changes the cache and answers exactly as `After` and `ReplyOf` say |
| CapabilityCache.EntriesAreLastFetched | tensorcast/capability_directory.py:157-162 | after any queries the cached list is the one brought by the last successful fetch |
| CapabilityCache.ServedIsLastFetched | tensorcast/capability_directory.py:142-174 | after any queries, a list handed out is the one brought by the last successful fetch, that of the answered query included |
| CapabilityCache.BackoffDoubles | tensorcast/capability_directory.py:149-169 | after any queries, cached or not, k failures since the last success leave the backoff at min(2^k * m, M), and the next attempt is that long after the last |
| CapabilityCache.NoSuccessKeepsList | tensorcast/capability_directory.py:155-169 | a run without a success keeps the list, and its failures are all its attempts |
| CapabilityCache.BackoffBeforeFirstSuccess | tensorcast/capability_directory.py:155-169 | until the first success every query is an attempt, and n of them leave the backoff at min(2^(n-1) * m, M) |
| CapabilityCache.OverAgeServedIff | tensorcast/capability_directory.py:149-174 | an over-age list is served exactly inside the refresh window; an error is raised exactly when a fetch is made and fails and there is no list within the bound |
| CapabilityCache.StalenessIsUnbounded | tensorcast/capability_directory.py:155-156 | for every bound, some run serves a list older than it |
| Reconcile.SessionStore.Reconcile | tensorcast/runtime.py:174-289 | the session is found exactly when its address answers or the process standing for it is alive, on this machine and runs the recorded command; otherwise the stores are pruned |
| Reconcile.SessionStore.PruneStaleSession | tensorcast/runtime.py:139-171 | pruning removes the records of one pid (all without a pid), the meta file, the matching daemon entry and the matching pointer |
| Reconcile.UntrustedIsPruned | tensorcast/runtime.py:139-171 | what one call leaves of records, entry, meta file and pointer of a session that nothing vouches for |
| Reconcile.DeadProcessIsRemoved | tensorcast/runtime.py:266-278 | a dead process that stands for a silent session leaves no record and no entry after one call |
| Reconcile.RecordRemovedIff | tensorcast/runtime.py:150-159 | exactly which process records one call removes |
| Reconcile.DaemonRemovedIff | tensorcast/runtime.py:162-170 | exactly when one call removes the session's daemon entry |
| Reconcile.LiveRecordIsKept | tensorcast/runtime.py:244-289 | however often a session is reconciled, the record of a live process with matching fingerprint and command stays |
| Reconcile.OtherSessionsAreKept | tensorcast/runtime.py:162-289 | however often a session is reconciled, another session's daemon entry and pointer stay, and a session whose daemon answers is left alone |
| Reconcile.ReconcileSettles | tensorcast/runtime.py:174-289 | against an unchanging world, records + 1 calls reach a state that further calls leave alone |
| Reconcile.ChangeShrinks | tensorcast/runtime.py:262-289 | every call that changes anything leaves strictly less to remove |
| Reconcile.ClearedIff | tensorcast/runtime.py:174-289 | records + 1 calls clear a session completely exactly when its address is silent and no process vouches for it: dead, from another machine, or running something else |
| Reconcile.DeadSessionIsCleared | tensorcast/runtime.py:262-278 | a silent session whose processes are all dead is cleared completely by records + 1 calls |

## Left out

- The JSON layer of the auto-state file: field coercion, case folding of the status text, unreadable files, and the
  log and error texts of the record.
- pid reuse, several machines sharing a runtime root, and clock steps backwards.
- What happens inside a launch: service start, readiness polling, signal handlers and logging.
- RpcRetry.DaemonCtl.UnaryCall: exceptions other than RPC errors leave the loop at once and are not modelled.
- Feeds.CutSpan: takes byte-sized data; wider memory views are covered by Feeds.ViewLoopEndsIff.
- Progress logging of the feeds, and the gRPC stream that consumes the requests.
- OverrideStore.BuildTree: a parsed mapping is a fresh tree of dictionaries; YAML anchors that make two entries share
  one dictionary are not modelled.
- Validation of override paths against the protobuf descriptor is a parameter; enum, duration and byte-size literals
  are not modelled.
- Publication.WireRoundTrip: covers the publication messages; the manifest keeps only the fields that validation
  compares, and text that is not valid UTF-8 is not modelled.
- RetainedClaim.ClaimParsesIff: readiness and verification are values, not the text that is trimmed and lower-cased.
- Fields that only carry bytes or digests to the daemon keep their emptiness rules and nothing else.
- Capability flag filters, the store daemon, the global store and the C++ engine: not part of this model.
