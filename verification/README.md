# Verified model of the neoengram Agent's data plane

This project models the parts of the neoengram Agent that move and protect data, and proves what they keep
over whole runs: the resumable content-addressed transfer between two Volumes, the journaled quarantine, restore
and purge of managed directories, the chunked and framed snapshot reads, Workspace checkout, the durable report
outbox, and the smaller state machines around them. Nothing here is executed; every statement is for all inputs,
all schedules and all crash points of the model.

`dafny verify dfyconfig.toml` verifies everything.

## How the model is laid out

| files | part of the Agent |
|---|---|
| Base, Cas, CopyKernel | the staging and publication backend and the object copy kernel |
| Source, SourceSafety, SourceLoops | the two source loops of the v2 stream |
| Transfer, TransferProof, TransferTheorem, TargetLoop, TargetSafety, TransferLoops, SecondTarget | the targets, composed with the source over FIFO channels |
| Trees, Inventory, ScanTree, RemoveTree | directory trees, inventories and their digests, deletion |
| Lifecycle, LifecycleProof, LifecycleTheorem, LifecycleStuck, LifecycleExecutor, JobGate | quarantine, restore, purge and the Job gate |
| Snapshot, S3Read | chunked range reads and the framed stream |
| Workspace, WorkspaceTree, Materialize, IndexScan | checkout, verification and the paged Index |
| Outbox, OutboxProof, OutboxChannel | the report queue over a reconnecting channel |
| Checkpoint, Progress | per-object checkpoints and replication progress reports |

Code that the Agent writes as loops and in-place updates is modelled as methods and classes. Each of them is proved
equal to a specification function, and the theorems are about those functions. A crash or an I/O error is a parameter:
a schedule of fates for the copy kernel, the number of durable effects a lifecycle call is allowed, the moments at which
a stream is cancelled or a connection lost.

## Assumptions

- BLAKE3 is injective. `Base.Hash` is a concrete injective stand-in, and nothing but `Base.HashInjective` is used about it.
- `LooseObjectStore` is a map that verifies on read and never replaces.
- A valid Manifest has contiguous chunks covering its size (this is spelled out in `Snapshot.ValidManifest`), and manifest object IDs are distinct.
- `OutboundReportQueue` is an oldest-first sequence with distinct IDs.
- The roots of one deletion are disjoint, nobody else edits them, and a rename is atomic.
- Message IDs minted for heartbeats and closes differ from report IDs and from each other.

## Findings

- A quarantine that meets a tree it cannot inventory (a symlink, a special or badly named entry, a count beyond 64 bits) has already isolated the roots before it. From then on every quarantine, restore and purge is refused and nothing moves again, so these roots are neither deleted nor returned (`LifecycleStuck.IsolatedForGood`, `StuckForever`; reached from every such start by `HalfQuarantineIsReached`). A quarantine let run succeeds exactly under the condition of `LifecycleTheorem.RetriedQuarantineSucceeds`, a restore exactly under that of `RetriedRestoreReturnsEverything`.
- A purge is accepted while a restore is under way. If a root is already back, the purge destroys nothing, and from then on neither purge, restore nor quarantine can ever complete (`LifecycleTheorem.ReturnedDuringPurgeIsStuck`, `StuckIsReachable`). A purge finishes exactly under the condition of `RetriedPurgeFinishesUnlessReturned`, for every reachable journal, incomplete ones included.
- A checkpoint that is refused for its offset still binds an unbound object to its batch and so locks out the batch that should own it (`Checkpoint.RejectedCheckpointCanLockOut`; exact condition in `RejectedCheckpointBindsExactlyWhen`). An empty object in state Failed refuses every checkpoint (`AcceptedExactlyWhen`).
- A source switch refused because the attempt counter is used up has already swapped the sources (`Checkpoint.RejectedSwitchCanSwap`; exact condition in `RejectedSwitchSwapsExactlyWhen`).
- A refused out-of-order first write leaves an empty staging file behind (`Cas.RefusedWriteCanLeaveAFile`; exact condition in `RefusedWriteKeepsOffsets`).

## Model

| member | source | states |
|---|---|---|
| Cas.PublishedStaysAuthentic | crates/neoengram-runtime/src/object_backend.rs:810-850 | Over any interleaving of any transfers, torn and interrupted calls included, every published object hashes to the ID that names it. |
| Cas.PublicationNeverReplaces | crates/neoengram-runtime/src/object_backend.rs:810-850 | Over any interleaving, a published object that nobody deletes keeps its bytes. |
| Cas.OtherTransfersNeverTouchStaging | crates/neoengram-runtime/src/object_backend.rs:550-565 | Whatever other transfers do, even on the same objects, a transfer's staging files stay byte for byte as it left them. |
| Cas.RefusedWriteKeepsOffsets | crates/neoengram-runtime/src/object_backend.rs:710-808 | A refused write publishes nothing and moves no transfer's resume offset; it changes the Volume if and only if a well-formed chunk beyond offset zero met no staging file, and then it leaves an empty one. |
| Cas.RefusedWriteCanLeaveAFile | crates/neoengram-runtime/src/object_backend.rs:710-808 | A concrete write that is refused and leaves a staging file behind. |
| Cas.PublishesExactlyVerifiedBytes | crates/neoengram-runtime/src/object_backend.rs:810-850 | Publication succeeds if and only if bytes of the right size and hash are published or staged; they are then published and the staging file is gone. |
| Cas.VolumeCas.StagedSize | crates/neoengram-runtime/src/object_backend.rs:691-708 | The durable length of a staging file, or nothing without a file. |
| Cas.VolumeCas.WriteChunk | crates/neoengram-runtime/src/object_backend.rs:710-808 | In place, the staged write the lemmas above are about: append exactly at the durable end or refuse. |
| Cas.VolumeCas.DiscardStaged | crates/neoengram-runtime/src/object_backend.rs:852-876 | Removes one staging file and reports whether there was one. |
| Cas.VolumeCas.Publish | crates/neoengram-runtime/src/object_backend.rs:810-850 | In place, the verified publication the lemmas above are about. |
| CopyKernel.TurnExtendsPrefix | crates/neoengram-runtime/src/object_backend.rs:274-300 | One range, healthy, torn or stopped, leaves the staged bytes a prefix of the source object. |
| CopyKernel.ChunksExtendPrefix | crates/neoengram-runtime/src/object_backend.rs:274-300 | So does any number of ranges. |
| CopyKernel.CommitRefinesOneShot | crates/neoengram-runtime/src/object_backend.rs:301-308 | Committing a fully staged object, completely or partly, leaves the Volume resumable, and when it reports success the source's bytes are published. |
| CopyKernel.AttemptRefinesOneShot | crates/neoengram-runtime/src/object_backend.rs:245-308 | An attempt that succeeds ends as a one-shot copy would and accounts for every byte as resumed or transferred; one that does not leaves the copy resumable. |
| CopyKernel.RetryStaysResumable | crates/neoengram-runtime/src/object_backend.rs:245-308 | Any sequence of interrupted attempts keeps the staged bytes a prefix of the source object. |
| CopyKernel.CrashAndResumeRefinesOneCopy | crates/neoengram-runtime/src/object_backend.rs:245-308 | After any history of crashes, the attempt that succeeds has published exactly the source's bytes with resumed + transferred equal to the size. |
| CopyKernel.AttemptAccounting | crates/neoengram-runtime/src/object_backend.rs:245-308 | On every exit an attempt writes no more than what was missing; on success exactly that, with the object published under its ID. |
| CopyKernel.SetStaysWithinTicket | crates/neoengram-runtime/src/object_backend.rs:312-362 | On every exit the bytes made durable stay within the ticket limit, the three late limit checks are unreachable, and success means every object published and accounted for. |
| CopyKernel.CopyChunk | crates/neoengram-runtime/src/object_backend.rs:274-300 | One range of the copy loop in place, under any fate of source and sink. |
| CopyKernel.CommitObject | crates/neoengram-runtime/src/object_backend.rs:301-308 | The commit of one object in place, possibly cut short. |
| CopyKernel.CopyObject | crates/neoengram-runtime/src/object_backend.rs:245-308 | The copy loop in place: Volume, result and bytes written are those of the attempt the lemmas are about. |
| CopyKernel.CopyNext | crates/neoengram-runtime/src/object_backend.rs:323-359 | One object under the shared byte limit, in place. |
| CopyKernel.CopyObjects | crates/neoengram-runtime/src/object_backend.rs:312-362 | The set loop in place: results, first error and bytes written are those of the set run the lemmas are about. |
| Source.SourcesAgree | services/neoengram-agent/src/materialization_quic.rs:302-471 | On every trace of peer frames the request-then-await loop sends the same frames as the pending-based loop and agrees on waiting, success and refusal. |
| Source.LookupsAgree | services/neoengram-agent/src/materialization_quic.rs:302-306 | The map by object ID and the linear search see the same manifest. |
| SourceSafety.ArbitraryPeer | services/neoengram-agent/src/replication_quic.rs:1637-1800 | Against any peer: bytes sent within the signed limit, only genuine in-bounds slices of manifest objects, one gap-free slice per object, and ranges sent equal ranges acknowledged plus at most one outstanding. |
| SourceSafety.SuccessMeansEveryObjectDone | services/neoengram-agent/src/replication_quic.rs:1790-1797 | Success only when the completed set is the whole manifest, each member declared by an acknowledgement ending at its size. |
| SourceSafety.NeverServesCompleted | services/neoengram-agent/src/replication_quic.rs:1690-1694 | No data frame goes out for an object already completed. |
| SourceLoops.AnswerRequest | services/neoengram-agent/src/replication_quic.rs:1725-1788 | A range is served if and only if it is in bounds, within the limit and readable; then with the object's bytes and, at its end, the proof. |
| SourceLoops.ServePending | services/neoengram-agent/src/replication_quic.rs:1637-1800 | The production loop, as a loop, is the machine the theorems are about. |
| SourceLoops.BuildIndex | services/neoengram-agent/src/materialization_quic.rs:302-306 | The loop that builds the lookup map. |
| SourceLoops.AnswerIndexed | services/neoengram-agent/src/materialization_quic.rs:329-428 | The second loop's answer to one request. |
| SourceLoops.ServeAwait | services/neoengram-agent/src/materialization_quic.rs:302-471 | The second loop, as a loop, is the machine of the agreement theorem. |
| SourceLoops.VerifyLocalSource | services/neoengram-agent/src/replication_quic.rs:2302-2358 | The chunk-wise check before serving accepts if and only if the published object has the manifest's size and hash. |
| TransferTheorem.TargetStepKeepsInv | services/neoengram-agent/src/replication_quic.rs:1101-1316 | Any target step keeps target and drained source in agreement on completed objects, offsets, byte counts and expected frames. |
| TransferTheorem.SourceStepKeepsInv | services/neoengram-agent/src/replication_quic.rs:1637-1800 | So does any source step, at whatever moment it happens. |
| TransferTheorem.StoppedMeansDelivered | services/neoengram-agent/src/replication_quic.rs:1101-1316 | No reachable state is stuck: some step is possible if and only if the batch is not yet delivered. |
| TransferTheorem.StepLowersRank | services/neoengram-agent/src/replication_quic.rs:1101-1316 | Every step of either party lowers a natural number. |
| TransferTheorem.EveryRunDelivers | services/neoengram-agent/src/replication_quic.rs:1101-1316 | For every interleaving from any ready target: no protocol error, bounded length, and the end means source success, every manifest object published with the source's bytes, one receipt per object in page order. |
| TransferTheorem.CrashLeavesReady | services/neoengram-agent/src/replication_quic.rs:1101-1316 | Wherever a session dies, inside an append or a publication too, the Volume is a ready starting point again within the same byte limit. |
| TransferTheorem.ReconnectsDeliver | services/neoengram-agent/src/replication_quic.rs:1101-1316 | After any number of crashed sessions, a session that cannot move has delivered everything, and none met a protocol error. |
| TransferTheorem.AuthenticVolumeIsReady | services/neoengram-agent/src/replication_quic.rs:1106-1140 | A Volume with authentic objects and staged prefixes is ready: objects published, fully staged, partly staged or absent in any mixture. |
| TargetLoop.BeginNext | services/neoengram-agent/src/replication_quic.rs:1105-1205 | Published, empty, fully staged and resumable objects, in place, take exactly the target's steps. |
| TargetLoop.FetchRest | services/neoengram-agent/src/replication_quic.rs:1206-1271 | The range loop in place takes exactly the target's steps, whatever the peer sends. |
| TargetLoop.MaterializeBatch | services/neoengram-agent/src/replication_quic.rs:1101-1316 | The whole target loop in place: Volume, frames sent, receipts and outcome are those of the step machine on any input. |
| TargetSafety.ArbitrarySource | services/neoengram-agent/src/replication_quic.rs:1101-1316 | Against any source: authentic and never replaced objects; receipts for a prefix of the manifest, each for an object published intact that was there before or vouched for by a matching proof; closing means all; requests within the ticket's bytes; only ranges that arrived are acknowledged. |
| TransferLoops.RunExplained | services/neoengram-agent/src/replication_quic.rs:1101-1316 | In every interleaving each party has behaved as its own loop does on exactly the frames the other one sent. |
| TransferLoops.FinishedRunIsBothLoops | services/neoengram-agent/src/replication_quic.rs:1637-1800 | A finished run is a conversation of the loops: the target loop closes with all receipts, and either source loop returns success having sent just those frames. |
| SecondTarget.SourceIgnoresOrder | services/neoengram-agent/src/materialization_quic.rs:302-471 | The source answers alike whatever order the manifest lists its objects in. |
| SecondTarget.StepSimulates | services/neoengram-agent/src/materialization_quic.rs:559-856 | Every step of the second target's system is a step of the first one's. |
| SecondTarget.SecondTargetDelivers | services/neoengram-agent/src/materialization_quic.rs:559-856 | The second target, in any working order and with any confirmed offsets that staging has not fallen behind, delivers in every interleaving, without error and in bounded steps. |
| Trees.JoinInjective | services/neoengram-agent/src/resource_lifecycle.rs:965-969 | Different component paths have different path texts. |
| Inventory.SortedIsUnique | services/neoengram-agent/src/resource_lifecycle.rs:1008-1008 | A set of items has one strictly path-ordered sequence. |
| Inventory.AnyOrderSortsToInventory | services/neoengram-agent/src/resource_lifecycle.rs:952-1008 | Visiting every entry once in any order and sorting gives the tree's inventory. |
| Inventory.ItemIsPrefixFree | services/neoengram-agent/src/resource_lifecycle.rs:1013-1018 | Where one item's bytes end and which item it was can be read off the bytes that follow. |
| Inventory.InventoryDecodable | services/neoengram-agent/src/resource_lifecycle.rs:1009-1018 | The bytes fed to the hash determine the root and the whole inventory. |
| Inventory.EqualDigestsMeanEqualInventories | services/neoengram-agent/src/resource_lifecycle.rs:937-1025 | Two scans report the same digest if and only if they had the same root, paths, kinds and sizes. |
| ScanTree.RecordEntries | services/neoengram-agent/src/resource_lifecycle.rs:958-1006 | One directory's entries are recorded completely, or the scan as a whole must fail. |
| ScanTree.ScanDirectory | services/neoengram-agent/src/resource_lifecycle.rs:937-1025 | The stack traversal returns the tree's inventory evidence for every listing order, and fails exactly on symlinks, special or badly named entries and 64-bit overflow. |
| RemoveTree.RemoveDirectory | services/neoengram-agent/src/resource_lifecycle.rs:1027-1067 | Recursive deletion removes exactly the directory's subtree, whatever its entries are named; stopped anywhere it leaves a well-formed part of it and everything else. |
| RemoveTree.DestroyTree | services/neoengram-agent/src/resource_lifecycle.rs:1027-1067 | Deleting a tree completes if and only if it is not interrupted and holds only files and directories, whatever their names. |
| LifecycleProof.QuarantineKeepsInv | services/neoengram-agent/src/resource_lifecycle.rs:80-185 | A quarantine cut short anywhere leaves every tree whole in one place and the journal truthful. |
| LifecycleProof.RestoreKeepsInv | services/neoengram-agent/src/resource_lifecycle.rs:187-264 | A restore cut short anywhere leaves a prefix of the roots back and the rest whole in quarantine. |
| LifecycleProof.PurgeKeepsInv | services/neoengram-agent/src/resource_lifecycle.rs:266-322 | A purge cut short anywhere has destroyed only trees whose inventory is durable, or nothing if a root was back. |
| LifecycleProof.CallKeepsInv | services/neoengram-agent/src/resource_lifecycle.rs:80-322 | Every call from every phase, stopped after any number of durable effects, keeps the invariant of its phase. |
| LifecycleTheorem.EveryScheduleKeepsInv | services/neoengram-agent/src/resource_lifecycle.rs:80-322 | So does every schedule of fence, quarantine, restore and purge calls. |
| LifecycleTheorem.AllOrNothing | services/neoengram-agent/src/resource_lifecycle.rs:80-322 | Over every schedule: while any tree is at its managed path none is destroyed, each is in exactly one place, and once a restore began those back are a prefix of those that were there. |
| LifecycleTheorem.BackIsPrefix | services/neoengram-agent/src/resource_lifecycle.rs:187-264 | Roots go back in order. |
| LifecycleTheorem.EvidenceBeforeDeletion | services/neoengram-agent/src/resource_lifecycle.rs:289-321 | Nothing is destroyed before its complete inventory is durable in the journal, and only by a purge. |
| LifecycleTheorem.PurgeShape | services/neoengram-agent/src/resource_lifecycle.rs:266-322 | From any state at all, a purge never changes what is at the managed paths. |
| LifecycleTheorem.FinalForever | services/neoengram-agent/src/resource_lifecycle.rs:80-322 | Restored and Purged are absorbing: no later schedule changes anything. |
| LifecycleTheorem.EveryReportedProofIsTrue | services/neoengram-agent/src/resource_lifecycle.rs:1111-1161 | Every proof any call reports, after any interruptions, is the one computed from the untouched original trees; so the purge's proof equals the quarantine's. |
| LifecycleTheorem.RetriedQuarantineSucceeds | services/neoengram-agent/src/resource_lifecycle.rs:80-185 | From every reachable state, a quarantine let run isolates everything if and only if no restore or purge has begun and every original tree has an inventory; it reports success if and only if these also add up; after a restore or purge has begun it changes nothing. |
| LifecycleTheorem.RetriedRestoreReturnsEverything | services/neoengram-agent/src/resource_lifecycle.rs:187-264 | From every reachable state, a restore let run puts every tree back as it was if and only if the quarantine inventory is complete and no purge was asked for; otherwise it is refused and changes nothing. |
| LifecycleTheorem.RetriedPurgeFinishesUnlessReturned | services/neoengram-agent/src/resource_lifecycle.rs:266-322 | From every reachable state, a purge let run destroys everything if and only if the quarantine inventory is complete, the deletion was not restored and no tree is back; with a tree back it destroys nothing, fails and leaves only its phase behind; otherwise it is refused and changes nothing. |
| LifecycleTheorem.ReturnedDuringPurgeIsStuck | services/neoengram-agent/src/resource_lifecycle.rs:266-322 | Once a purge was asked for while a tree was back, every call leaves the disk as it is and none completes. |
| LifecycleTheorem.StuckIsReachable | services/neoengram-agent/src/resource_lifecycle.rs:274-291 | That state is reachable with any tree, through the phase guard that lets Restoring become Purging. |
| LifecycleTheorem.HalfwayIsRefused | services/neoengram-agent/src/resource_lifecycle.rs:205-214 | A quarantine interrupted between rename and journal write leaves a tree isolated that neither restore nor purge accepts. |
| LifecycleStuck.UncountableTreesExist | services/neoengram-agent/src/resource_lifecycle.rs:937-1025 | There are trees a scan refuses. |
| LifecycleStuck.NeverKnown | services/neoengram-agent/src/resource_lifecycle.rs:103-181 | While one original tree cannot be inventoried, no schedule gets past Quarantining or completes the journal. |
| LifecycleStuck.IsolatedForGood | services/neoengram-agent/src/resource_lifecycle.rs:80-322 | Then no call of any schedule ever completes, and every tree already isolated stays isolated for good. |
| LifecycleStuck.HalfQuarantineIsReached | services/neoengram-agent/src/resource_lifecycle.rs:80-185 | That state is reached from every fresh start with such a tree by one quarantine let run: refused, with every root before the first such tree isolated. |
| LifecycleStuck.SettledIsStuck | services/neoengram-agent/src/resource_lifecycle.rs:80-322 | There every call leaves the disk as it is and none completes. |
| LifecycleStuck.StuckForever | services/neoengram-agent/src/resource_lifecycle.rs:80-322 | So does every schedule. |
| LifecycleExecutor.AggregateEvidence | services/neoengram-agent/src/resource_lifecycle.rs:1111-1161 | The summing loop reports the proof, or fails on a gap or overflow. |
| LifecycleExecutor.FilesystemExecutor.Fence | services/neoengram-agent/src/resource_lifecycle.rs:330-337 | Creates the journal once. |
| LifecycleExecutor.FilesystemExecutor.DecideQuarantine | services/neoengram-agent/src/resource_lifecycle.rs:103-181 | What quarantine does about one root, from its journal entry and its two places. |
| LifecycleExecutor.FilesystemExecutor.DecideRestore | services/neoengram-agent/src/resource_lifecycle.rs:215-256 | What restore does about one root. |
| LifecycleExecutor.FilesystemExecutor.Quarantine | services/neoengram-agent/src/resource_lifecycle.rs:80-185 | The executor in place, under any number of durable effects, is the call the theorems are about. |
| LifecycleExecutor.FilesystemExecutor.Restore | services/neoengram-agent/src/resource_lifecycle.rs:187-264 | The same for restore. |
| LifecycleExecutor.FilesystemExecutor.Purge | services/neoengram-agent/src/resource_lifecycle.rs:266-322 | The same for purge, an interrupted deletion included. |
| JobGate.CountsAreExact | services/neoengram-agent/src/resource_lifecycle.rs:409-486 | In every interleaving each active count is the number of live guards of that Job, and a Job is active exactly while it has one. |
| JobGate.FencedGuardsOnlyLeave | services/neoengram-agent/src/resource_lifecycle.rs:424-486 | From a fence until exactly that scope is restored, the number of live guards it concerns never grows. |
| JobGate.ScopesNest | services/neoengram-agent/src/resource_lifecycle.rs:488-572 | Workspace and Snapshot scopes nest in Artifact scopes and those in Volume scopes; Workspaces and Snapshots never concern each other's Jobs. |
| JobGate.CountFenced | services/neoengram-agent/src/resource_lifecycle.rs:468-473 | Summing the matching counts gives the number of matching live guards. |
| JobGate.LifecycleJobGate.BeginJob | services/neoengram-agent/src/resource_lifecycle.rs:424-458 | Admits a Job if and only if no fence matches and its ID is not active elsewhere. |
| JobGate.LifecycleJobGate.DropGuard | services/neoengram-agent/src/resource_lifecycle.rs:409-421 | Dropping a guard releases one count. |
| JobGate.LifecycleJobGate.FenceScope | services/neoengram-agent/src/resource_lifecycle.rs:460-474 | Sets the fence and returns exactly the number of live guards in its scope. |
| JobGate.LifecycleJobGate.RestoreScope | services/neoengram-agent/src/resource_lifecycle.rs:476-485 | Lifts that fence and no other. |
| Snapshot.ChunksAreContiguous | crates/neoengram-domain/src/core/models/file.rs:47-88 | In a valid Manifest every chunk starts where the previous one ends and lies within the total size. |
| Snapshot.ValidateFiles | services/neoengram-agent/src/snapshot_reader.rs:109-176 | Accepts if and only if every record agrees with its Manifest and every chunk is an intact object; conflicting sizes are caught by it. |
| Workspace.ReadableHasContent | services/neoengram-agent/src/snapshot_reader.rs:109-176 | Every file of an accepted snapshot stands for the bytes of its chunks in a row. |
| Snapshot.ReadRange | services/neoengram-agent/src/snapshot_reader.rs:185-234 | Succeeds if and only if the range lies in the file and the objects it touches are intact, and then returns that slice of the file's bytes. |
| S3Read.FullStreamIsTheSlice | services/neoengram-agent/src/s3_read.rs:186-258 | The payload of the full stream is the requested slice, in consecutive, non-empty frames of at most 256 KiB between head and end. |
| S3Read.PrefixHasNoGap | services/neoengram-agent/src/s3_read.rs:260-286 | Any prefix of a stream carries a prefix of its payload. |
| S3Read.ReadableServes | services/neoengram-agent/src/s3_read.rs:169-184 | Every authorized range of an accepted snapshot can be served, so that its uncancelled stream is the slice. |
| S3Read.ExecuteIsPrefix | services/neoengram-agent/src/s3_read.rs:186-258 | However cancellation, disconnection and a full queue fall, what is sent is a prefix of the full stream, all of it when the read succeeds uncancelled; it fails only for a gone consumer or an unreadable file. |
| S3Read.ProducedIsPrefix | services/neoengram-agent/src/s3_read.rs:128-139 | The same for the whole producer, which adds an error frame only when the file cannot be served. |
| S3Read.EveryPrefixHappens | services/neoengram-agent/src/s3_read.rs:186-286 | Conversely every prefix is the whole output of some cancellation and of some disconnection, so the theorem leaves out no stopping point. |
| S3Read.SendFrame | services/neoengram-agent/src/s3_read.rs:260-286 | A frame is offered once: sent at the first free slot, dropped on cancellation or lost to a gone consumer, whichever look finds first; time passes with every look and every send. |
| S3Read.ExecuteRead | services/neoengram-agent/src/s3_read.rs:186-258 | The read loop is the specified stream: whatever is cancelled, closed or full at any moment, between any two frames too, the frames sent are a prefix of the full stream, and all of it if nothing intervened; an error means a gone consumer or an unreadable file. |
| S3Read.Produce | services/neoengram-agent/src/s3_read.rs:128-139 | The producer thread is the specified one, and ends with an error frame only when the file cannot be served. |
| Workspace.ContentIsUnique | services/neoengram-agent/src/execution.rs:569-577 | A Manifest describes one content only. |
| Workspace.VerifyFile | services/neoengram-agent/src/execution.rs:545-592 | Chunk-wise hashing accepts a file if and only if it is the content the Manifest describes. |
| Workspace.WriteFile | services/neoengram-agent/src/execution.rs:372-376 | A file is written if and only if all its objects are intact, and then with the described content. |
| Workspace.ExactTreeIsUnique | services/neoengram-agent/src/execution.rs:447-528 | A snapshot describes one tree only. |
| WorkspaceTree.MakeParents | services/neoengram-agent/src/execution.rs:341-355 | Missing ancestors become directories, unless one of them is not a directory. |
| WorkspaceTree.WriteTree | services/neoengram-agent/src/execution.rs:326-397 | The writer succeeds if and only if no path runs through a file and all objects are intact, and then the tree is exactly the snapshot's. |
| WorkspaceTree.ExpectedDirectories | services/neoengram-agent/src/execution.rs:464-470 | The proper ancestors of the snapshot's paths and nothing else. |
| WorkspaceTree.VerifyEntries | services/neoengram-agent/src/execution.rs:474-513 | One directory's entries are all expected, or some entry of the tree is not. |
| WorkspaceTree.VerifyTree | services/neoengram-agent/src/execution.rs:447-528 | The stack verifier accepts a tree, for every listing order, if and only if its files and directories are exactly those the snapshot describes, byte for byte. |
| Materialize.SumSizes | services/neoengram-agent/src/execution.rs:308-314 | The byte total, or nothing on 64-bit overflow. |
| Materialize.WorkspaceMaterializer.MaterializeOnce | services/neoengram-agent/src/execution.rs:114-192 | One attempt in place, dying before or after the rename or not at all and racing any rival, is a run of the interleaved machine; it leaves an existing destination alone, reports the snapshot's statistics only when the exact tree is there, and fails only for a reason it names. |
| Materialize.DestinationIsAllOrNothing | services/neoengram-agent/src/execution.rs:114-192 | In every interleaving of any number of processes, each dying anywhere, the destination is absent or exactly the snapshot's tree, never changes again, and every later success reports the same statistics. |
| Materialize.OnlyTwoFailures | services/neoengram-agent/src/execution.rs:114-192 | In every interleaving a process reports the snapshot's statistics, or fails because the sizes overflow or the tree cannot be written; losing the race is never a failure. |
| IndexScan.CheckOrder | services/neoengram-agent/src/execution.rs:629-641 | Comparing neighbours accepts if and only if all records are strictly ordered. |
| IndexScan.GetFile | services/neoengram-agent/src/execution.rs:672-678 | Binary search finds the record with a path if and only if there is one. |
| IndexScan.AfterPage | services/neoengram-agent/src/execution.rs:680-709 | A page's cursor leads to exactly what the page left out. |
| IndexScan.ReadAll | services/neoengram-agent/src/execution.rs:680-709 | Following cursors terminates and concatenates to the filtered records. |
| IndexScan.PagingIsFiltering | services/neoengram-agent/src/execution.rs:680-709 | With any prefix and page size, paging yields exactly the records under the prefix, each once, in order. |
| OutboxProof.StepKeepsInv | services/neoengram-agent/src/approved_runtime.rs:1041-1228 | Every event of the channel loop, disconnects included, keeps queue, pending answers and history consistent. |
| OutboxProof.WireStuttersInOrder | services/neoengram-agent/src/approved_runtime.rs:1375-1438 | Over any run with disconnects, reports on the wire are a stuttering of the enqueue order, none skipped, and the queue holds exactly those that have not left. |
| OutboxProof.AtMostOneInFlight | services/neoengram-agent/src/approved_runtime.rs:1384-1387 | At most one report awaits its answer, and it is the oldest one; at most one heartbeat does. |
| OutboxProof.SendsOnlyWhenNoneInFlight | services/neoengram-agent/src/approved_runtime.rs:1384-1387 | A report goes out only while none awaits its answer. |
| OutboxProof.OneConnectionCarriesEachReportOnce | services/neoengram-agent/src/approved_runtime.rs:1375-1438 | Over any run without a reconnect in between, the reports sent have strictly increasing positions in the enqueue order, so one connection carries each at most once. |
| OutboxProof.AnsweredReportIsQueued | services/neoengram-agent/src/approved_runtime.rs:1599-1632 | An answer is refused exactly for its listed protocol errors; the queue never lacks the report it settles. |
| OutboxProof.LeavesOnlyWhenAnswered | services/neoengram-agent/src/approved_runtime.rs:1544-1632 | A report leaves only from the front and only on an exactly matching acknowledgement or correlated final rejection, in sequence, on the connection that sent it. |
| OutboxProof.CloseOnlyAfterEmptyFlush | services/neoengram-agent/src/approved_runtime.rs:1231-1272 | Close is sent only after a flush check that saw queue and pending answers empty, with nothing but enqueues in between. |
| OutboxChannel.Channel.EnqueueReport | services/neoengram-agent/src/agent_core/outbound.rs:236-262 | Enqueueing is idempotent by ID. |
| OutboxChannel.Channel.Send | services/neoengram-agent/src/approved_runtime.rs:1326-1372 | Numbers and writes one frame; a failed write ends the connection. |
| OutboxChannel.Channel.SendQueuedReports | services/neoengram-agent/src/approved_runtime.rs:1375-1438 | Sends the oldest report unless it is already pending. |
| OutboxChannel.Channel.Beat | services/neoengram-agent/src/approved_runtime.rs:1159-1190 | One heartbeat at a time. |
| OutboxChannel.Channel.SettleAnswer | services/neoengram-agent/src/approved_runtime.rs:1615-1631 | Removes an answered message and its queue entry. |
| OutboxChannel.Channel.Handle | services/neoengram-agent/src/approved_runtime.rs:1441-1597 | One downstream frame in place, with its protocol errors. |
| OutboxChannel.Channel.Receive | services/neoengram-agent/src/approved_runtime.rs:1666-1719 | Receiving a frame, the close acknowledgement included. |
| OutboxChannel.Channel.DrainPendingAcks | services/neoengram-agent/src/approved_runtime.rs:1275-1324 | Ends with nothing pending or the connection lost, as a run of the step machine. |
| OutboxChannel.Channel.FlushOutboundReports | services/neoengram-agent/src/approved_runtime.rs:1231-1272 | Ends with queue and pending answers both empty or the connection lost, as a run of the step machine. |
| Checkpoint.AcceptedExactlyWhen | services/neoengram-agent/src/materialization_quic.rs:861-940 | What a checkpoint must look like to be accepted. |
| Checkpoint.AcceptedStatus | services/neoengram-agent/src/materialization_quic.rs:906-938 | An accepted checkpoint leaves the object complete at its size, in transfer before it, unchanged at zero, and reaches that status by allowed transitions only. |
| Checkpoint.RejectedCheckpointBindsExactlyWhen | services/neoengram-agent/src/materialization_quic.rs:884-940 | A rejected checkpoint changes the object exactly when it was unbound and passed the identity checks; the change is the batch binding. |
| Checkpoint.RejectedCheckpointCanLockOut | services/neoengram-agent/src/materialization_quic.rs:889-904 | A refused checkpoint can make the object refuse the batch that would otherwise be accepted. |
| Checkpoint.RejectedSwitchSwapsExactlyWhen | services/neoengram-agent/src/materialization_quic.rs:966-978 | A rejected switch changes the object exactly when the attempt counter is used up; the change is the swap of sources. |
| Checkpoint.RejectedSwitchCanSwap | services/neoengram-agent/src/materialization_quic.rs:966-978 | A concrete switch that is refused and has already swapped the sources. |
| Checkpoint.SwitchFacts | services/neoengram-agent/src/materialization_quic.rs:946-985 | When a switch is accepted, that it keeps the object valid, and that it conserves the set of sources. |
| Checkpoint.EverySequenceIsMonotone | services/neoengram-agent/src/materialization_quic.rs:861-985 | Over every sequence of calls, rejected ones included: offset monotone and within the size, attempt counts accepted switches, sources conserved, complete objects unchanged. |
| Checkpoint.OneBatchBetweenSwitches | services/neoengram-agent/src/materialization_quic.rs:884-893 | Between accepted switches all accepted checkpoints carry one batch ID. |
| Checkpoint.MaterializationObject.ApplyCheckpoint | services/neoengram-agent/src/materialization_quic.rs:861-940 | The call in place, with its partial effects on the error paths. |
| Checkpoint.MaterializationObject.SwitchSource | services/neoengram-agent/src/materialization_quic.rs:946-985 | The call in place, with its partial effects on the error paths. |
| Progress.EveryPrefixIsInOrder | services/neoengram-agent/src/replication.rs:855-884 | However early a replication stops, a publication report comes right after a Verifying report with the exact totals and after a full-size Verified report for every object. |
| Progress.DurableProgress.ReportState | services/neoengram-agent/src/replication.rs:789-817 | The aggregate carries the number and the sum of the recorded offsets. |
| Progress.DurableProgress.ReportObject | services/neoengram-agent/src/replication.rs:819-853 | Records an offset only for a member of the set and within its size. |
| Progress.DurableProgress.ReportPublication | services/neoengram-agent/src/replication.rs:855-884 | The publication is enqueued only right after the refreshed aggregate. |
| Progress.ReportOutcomes | services/neoengram-agent/src/replication.rs:1274-1287 | Reports every outcome at full size, in order. |
| Progress.RunReplication | services/neoengram-agent/src/replication.rs:1246-1296 | Whatever fails, the reports are a prefix of the full script; a publication report implies that every object of the set is published under its ID. |

## Left out

- QUIC, TLS, certificates, tickets, signatures and trust bundles: a verified ticket and manifest are where the model starts.
- The legacy whole-Commit source and sink streams: disabled on the production listener.
- The preamble of a session (ticket and manifest pages) and transfer error frames: any frame outside the data exchange is `Other`.
- Timers, timeouts, the heartbeat schedule and the acknowledgement watchdog: they appear only as disconnects or interruptions.
- fsync, permissions, inode and device checks: durable effects are atomic and in program order.
- Receipt contents and IDs beyond which object they are for: construction of records, easy members.
- SecondTarget.SecondTargetDelivers: the second target is modelled as a step machine and not as a loop in place; a range arriving in several pieces is in its steps but no source sends one.
- Transfer: staging and publication on the target are atomic steps for the other party; what a crash can leave inside them is in `TransferTheorem.Residue`.
- Inventory.EqualDigestsMeanEqualInventories: file contents are not part of an inventory, only their sizes, as in the Agent.
- LifecycleTheorem.EveryReportedProofIsTrue: the proof's digest is modelled by the lines it hashes; the encoding of those lines is not claimed to be uniquely decodable.
- LifecycleProof.CallKeepsInv: the snapshot deliveries' own fence, restore and purge bookkeeping is not modelled; its failure is an interruption.
- JobGate.CountsAreExact: stated for runs of at most 2^64 - 1 events, since the Agent's counts saturate at the word size.
- S3Read.SendFrame: the bounded queue is modelled by when it happens to be full; the registry of active streams and its duplicate check are left out as easy members.
- WorkspaceTree.VerifyTree: path texts are compared component by component; by `Trees.JoinInjective` that is the same.
- ScanTree.ScanDirectory: the per-directory sort is not modelled, because the result is proved for every listing order.
- Progress.RunReplication: the 64-bit overflow of the aggregate byte sum is not modelled.
- OutboxChannel: the command dispatcher and the set of seen commands are left out; they touch neither queue nor pending answers. Superseding enqueues exist in the queue but are not used by the daemon.
- Checkpoint: validation of fields that neither call touches is one flag.
- Configuration, health files, identity, backoff, SQLite storage, command line tools and the web application.
