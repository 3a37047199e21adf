# Sync core: model and proofs

This project models the parts of Zeron that keep devices and rooms in agreement, and proves what they promise over every input and every run.

- **Registry sync** (`Hlc`, `Registry*`): rows of independently clocked fields, one merge function run by both sides, a server room with sequence numbers, broadcasts and a tombstone purge, and replicas with a cursor, a queue of unacknowledged batches and an overlay. `RegistryProtocol` puts a server, any number of replicas and one lossy in-order channel per connection into one state machine.
- **Transcript pipeline** (`Transcript*`, `PartsFold`, `FoldConservation`, `FoldParts`, `SegmentWriter`, `PartsSplit`, `Continuations`, `Utf8`): agent events fold into message parts, the segment writer mirrors the parts into a document tick by tick, long messages are split and joined, and transcript frames carry changes to a viewer.
- **chat2 log** (`Chat*`): the seq-ordered log with duplicate detection and checkpoints, its clients and their catch-up plan, the wire frames, paginated pulls and the push quota.
- **Session-room mechanics** (`UpdateLog`, `Fragments`, `WedgeBreak`): chunked log rows, fragmented updates, and the crash-counted wedge break with durable and rolled-back state.

`dafny verify dfyconfig.toml` checks everything. Objects that the program updates in place are classes; each method is proved against a function on values, and the theorems are about those functions and about runs of steps.

Main theorems, one per area: `RegistryProtocol.CursorIntegrity`, `RegistryProtocol.CaughtUpMeansEqual`, `RegistryConvergence.MergeConverges`, `RegistryReplay.ReplayIsNoOp`, `RegistryOverlay.FlickersExactly`, `RegistryRecovery.RecoveryConverges`, `RegistryReseed.WipedServerIsRefilled`, `TranscriptRoundTrip.RoundTrip`, `FoldParts.ToolsAreTold`, `SegmentWriter.DocRefinesFold`, `PartsSplit.SplitJoins`, `Continuations.OpeningTailIsSuffix`, `TranscriptBaseline.HistoryIsExact`, `ChatProtocol.NoLostUpdate`, `ChatPull.PullsDeliver`, `ChatQuota.QuotaBound`, `UpdateLog.ReplayRoundTrip`, `Fragments.Reassembles`, `WedgeBreak.CounterIsDeaths`.

Where the code and its own documentation disagree, the model follows the code:

- A comment promises that replayed batches apply no op (edge/src/registry-room.ts:217-222). That holds as long as the row is not created or revived in between: `RegistryReplay.ReplayIsNoOp`, `RegistryReplay.ReplayAfterRevivalChanges`, `RegistryReplay.EmptyUpsertReplayRevives`; exactly when a row is still: `RegistryReplay.SettledIffNoChange`, `RegistryReplay.RunIsStillIffSettled`.
- Deletes do not commute with upserts, because a revived row does not compare field clocks with its tombstone clock; exactly when they do: `RegistryConvergence.DeletesCommuteExactly`.
- `diff_transcript` is right exactly when the entries it does not re-send keep their order and every text append restores its entry: `TranscriptRoundTrip.RoundTrip`, with `TranscriptRoundTrip.BlockMoveFails` and `TranscriptRoundTrip.DurationLost` as the failing families.
- The push quota is described as 300 pushes per rolling minute; any closed minute can admit 599: `ChatQuota.QuotaBound`, `ChatQuota.QuotaBoundIsReached`; which minutes stay within 300: `ChatQuota.QuietIntervalBound`.
- Frame headers are bounded at 4096 bytes when read and not when written, so a row stored under a very long device name reaches no client, and no client that pulls gets past it: `ChatPull.RowFrameRead`, `ChatPull.PullsDeliver`, `ChatPull.PullsStopAtUnreadable`.
- Fragments are counted, not ticked off, so a fragment delivered twice completes a batch early with zeros: `Fragments.RestoredExactly`, `Fragments.DuplicateCorrupts`.
- A client's cursor is moved to the checkpoint before the checkpoint arrives, so an interrupted catch-up leaves it ahead of the content; the containment check of the next catch-up is what keeps this safe: `ChatProtocol.InterruptedCursorIsAhead`, `ChatProtocol.CatchUpHolds`.

## Model

| member | source | states |
|---|---|---|
| `Hlc.LessIsStrictTotalOrder` | crates/doc/src/registry.rs:54-59 | clock comparison is irreflexive, transitive and total |
| `Hlc.EncodeOrder` | crates/doc/src/registry.rs:49-51 | below 10^13 ms, encoded clocks compare exactly as (ms, counter, device) |
| `Hlc.EqualWidthOrder` | crates/doc/src/registry.rs:49-51 | past 10^13 too, clocks that print equally many millisecond digits compare as (ms, counter, device) |
| `Hlc.UnequalWidthOrder` | crates/doc/src/registry.rs:49-51 | of clocks that print different widths the shorter is the earlier, and compares so if and only if it does not exceed the leading digits of the longer |
| `Hlc.EncodeOrderFailsPastThirteenDigits` | crates/doc/src/registry.rs:49-51 | at 10^13 ms the encoded order inverts, whatever the counters and the device |
| `Hlc.EncodeInjective` | crates/doc/src/registry.rs:49-51 | an encoded clock determines ms, counter and device, without any bound |
| `Hlc.Tick` | crates/doc/src/registry.rs:70-82 | every tick is strictly later than the state it left, not behind the wall-clock reading, and keeps the counter in six digits |
| `Hlc.TickIsLeast` | crates/doc/src/registry.rs:70-82 | and it is the earliest such stamp |
| `Hlc.TicksFollowReadings` | crates/doc/src/registry.rs:70-82 | no stamp of a run is behind any reading taken so far |
| `Hlc.TicksIncrease` | crates/doc/src/registry.rs:70-82 | any two stamps of any run are strictly ordered |
| `Hlc.ClockRunIncreases` | crates/doc/src/registry.rs:61-83 | the encoded clocks of any run strictly increase under any wall-clock regression while the later one fits 13 digits |
| `Hlc.HlcClock.Next` | crates/doc/src/registry.rs:70-82 | the source moves to the next tick, not behind the wall clock, and emits a clock newer than its last |
| `RegistryMerge.MaxClock` | crates/doc/src/registry.rs:121-129 | the loop returns a clock of the row that no other clock of the row exceeds, or none if there is none |
| `RegistryMerge.NewerThanMax` | crates/doc/src/registry.rs:181-187 | beating the newest clock is beating every field clock and the tombstone clock |
| `RegistryMerge.WriteAt` | crates/doc/src/registry.rs:232-249 | each field and each clock after a write is the op's if its clock is newer, else the row's |
| `RegistryMerge.WriteOfNothing` | crates/doc/src/registry.rs:232-256 | an op none of whose writes wins leaves the row as it was |
| `RegistryMerge.WriteField` | crates/doc/src/registry.rs:232-249 | one field's turn of the loop touches that field alone and reports whether it won |
| `RegistryMerge.WriteFields` | crates/doc/src/registry.rs:232-256 | the loop over a copied row gives all winning writes at once, in whatever order it runs, and reports a change exactly when one won |
| `RegistryMerge.ApplyOp` | edge/src/registry-core.ts:114-164 | the branching implementation equals the merge function for every row and op |
| `RegistryConvergence.RunIsMerge` | crates/doc/src/registry.rs:173-257 | any sequence of upserts and updates on a live row ends in the per-field maximum by clock of the base and all ops |
| `RegistryConvergence.MergeUnique` | crates/doc/src/registry.rs:173-257 | when equal clocks carry equal values that maximum is one row |
| `RegistryConvergence.MergeConverges` | crates/doc/src/registry.rs:173-257 | from a live row, every permutation and duplication of the same upserts and updates gives the same row |
| `RegistryConvergence.CreationConverges` | edge/src/registry-core.ts:114-164 | the same from no row, for upserts |
| `RegistryConvergence.DeletesCommuteExactly` | crates/doc/src/registry.rs:173-257 | for every row, live, deleted or absent: a delete and a stamped upsert or update commute if and only if the delete loses to the row, or is newer than the write, or the write is one the row ignores anyway |
| `RegistryConvergence.DeletesDoNotCommute` | crates/doc/src/registry.rs:174-231 | a witness: a delete and a newer upsert in two orders give different rows |
| `RegistryReplay.SettledIffNoChange` | crates/doc/src/registry.rs:173-257 | an op changes nothing if and only if the row is settled against it |
| `RegistryReplay.AppliedSettles` | crates/doc/src/registry.rs:173-257 | an op just applied, or just rejected, is settled |
| `RegistryReplay.SettledSurvives` | crates/doc/src/registry.rs:173-257 | a settled op stays settled through any op that does not bring the row to life |
| `RegistryReplay.ReplayIsNoOp` | edge/src/registry-room.ts:217-222 | replaying a plain op after any later run that never creates or revives the row changes nothing |
| `RegistryReplay.ImmediateReplayIsNoOp` | edge/src/registry-room.ts:217-222 | replaying any op at once changes nothing |
| `RegistryReplay.RunIsStillIffSettled` | crates/doc/src/registry.rs:173-257 | for any row and any ops, a run leaves the row as it was if and only if each of its ops alone would: a change is never undone by later ops |
| `RegistryReplay.DeadRunSettles` | crates/doc/src/registry.rs:173-257 | when a run of plain ops leaves the row deleted or absent, replaying any of them changes nothing |
| `RegistryReplay.ReplayAfterRevivalChanges` | crates/doc/src/registry.rs:174-249 | after delete and revival the replay of an older upsert does change the row |
| `RegistryReplay.EmptyUpsertReplayRevives` | crates/doc/src/registry.rs:174-231 | an upsert without fields leaves no clock, so its replay can revive a row an older delete removed |
| `RegistryRecovery.ApplyKeepsWellFormed` | crates/doc/src/registry.rs:173-257 | every op keeps rows well formed: fields are clocked and tombstones are empty |
| `RegistryRecovery.RowToSeedOp` | crates/doc/src/registry.rs:261-291 | the op built is a seed of the row: its present fields under their own clocks |
| `RegistryRecovery.SeedUnique` | crates/doc/src/registry.rs:261-291 | a row has one seed |
| `RegistryRecovery.SeedOntoSelf` | edge/src/registry-core.ts:178-191 | seeding a row onto itself is a no-op |
| `RegistryRecovery.SeedRestores` | crates/doc/src/registry.rs:279-289 | seeding a live row into an empty table restores fields and their clocks, and the whole row if and only if it had no cleared-field clock and no tombstone clock |
| `RegistryRecovery.SeedOverTombstone` | crates/doc/src/registry.rs:279-289 | over a tombstone a live row's seed revives it if and only if some clock on the row is newer than the tombstone, and then restores its fields and their clocks |
| `RegistryRecovery.TombstoneSeedRestores` | crates/doc/src/registry.rs:261-278 | seeding a tombstone restores it |
| `RegistryRecovery.SeedsRebuild` | crates/doc/src/registry.rs:464-482 | seeds of any number of live copies, in any order and repeated, rebuild the per-field clock maximum of the fields present |
| `RegistryRecovery.RecoveryConverges` | crates/doc/src/registry.rs:464-482 | re-seeding the same agreeing copies in any interleaving ends in the same row |
| `RegistryReseed.ReseedRestores` | crates/doc/src/registry.rs:464-482 | the seed a replica queued for a row gives the row back where the server has none |
| `RegistryReseed.WipedServerIsRefilled` | crates/doc/src/registry.rs:464-482 | pushed to an empty server, the queue of a replica after a wipe rebuilds exactly the rows it held |
| `RegistryReseed.MissingRowsAreSent` | crates/doc/src/registry.rs:483-508 | a row the server never saw comes back as it was |
| `RegistryRoom.PushSound` | edge/src/registry-room.ts:376-409 | a push keeps every row under its key with a seq within the room's, stamps every changed row with the new seq, and leaves the room as it was when nothing changed |
| `RegistryRoom.PushIsRun` | edge/src/registry-room.ts:376-393 | a batch does to every row exactly the run of its ops on that row |
| `RegistryRoom.AckCountsEffective` | edge/src/registry-room.ts:376-393 | the count acknowledged is the number of ops that change the row the ops before them leave |
| `RegistryRoom.PurgeSound` | edge/src/registry-room.ts:448-463 | the purge keeps every live row, and any cursor that may have missed a purged delete is then owed a full answer |
| `RegistryRoom.PurgesByTime` | edge/src/registry-room.ts:448-463 | the purge removes exactly the rows deleted before the horizon's time, and keeps the others as they are |
| `RegistryRoom.BeforeHorizon` | edge/src/registry-room.ts:449-451 | a clock is before the horizon string if and only if it was stamped before that time |
| `RegistryRoom.Room.ApplyPushBatch` | edge/src/registry-room.ts:347-409 | rejects exactly unnamed batches, batches of 0 or over 500 ops and batches with an invalid op, with no effect; otherwise performs the push, broadcasts exactly the touched rows and reports how many ops changed their row |
| `RegistryRoom.Room.Hello` | edge/src/registry-room.ts:305-328 | answers with all rows when the cursor is missing, ahead, or behind the purge floor, else with exactly the rows above the cursor, each once and by seq |
| `RegistryRoom.Room.CollectTombstones` | edge/src/registry-room.ts:448-463 | removes exactly the tombstones older than the horizon and raises the floor to cover them |
| `RegistryReplica.ChunksAreBatches` | crates/doc/src/registry.rs:593-623 | chunks concatenate to the ops in order and have 1 to 400 ops, under the server's cap of 500 |
| `RegistryReplica.ChunksAreFull` | crates/doc/src/registry.rs:605-612 | only the last batch of a write is short |
| `RegistryReplica.WireInjective` | crates/doc/src/registry.rs:613-615 | distinct batch ids have distinct wire names |
| `RegistryReplica.MintedIdsDistinct` | crates/doc/src/registry.rs:593-623 | all ids in a queue are distinct |
| `RegistryReplica.LaterIdsAreFresh` | crates/doc/src/registry.rs:593-623 | ids minted later differ from all minted before, retired or not |
| `RegistryReplica.RetireExactlyOne` | crates/doc/src/registry.rs:545-554 | an ack removes exactly the named batch and keeps the others in order |
| `RegistryReplica.RegistryDoc.PutRows` | crates/doc/src/registry.rs:575-580 | rows overwrite by key, without comparing seqs |
| `RegistryReplica.RegistryDoc.ApplyRows` | crates/doc/src/registry.rs:519-531 | rows land; the cursor advances exactly when the broadcast leaves no gap |
| `RegistryReplica.RegistryDoc.ApplyState` | crates/doc/src/registry.rs:448-509 | a delta merges and a full answer replaces or, from a server behind the cursor, overlays; after a full answer the queue grows by the seed of each row the answer lacks, of every row when the server is behind, and by nothing else |
| `RegistryReplica.RegistryDoc.AckBatch` | crates/doc/src/registry.rs:545-554 | retires the batch, reports whether it was queued, and leaves the cursor alone |
| `RegistryReplica.RegistryDoc.TakePushable` | crates/doc/src/registry.rs:557-566 | returns exactly the batches not in flight and marks them |
| `RegistryReplica.UnsentAre` | crates/doc/src/registry.rs:557-566 | what is taken is exactly what was not in flight |
| `RegistryReplica.TakenOncePerConnection` | crates/doc/src/registry.rs:557-573 | nothing is taken twice on a connection, and after a disconnect everything is taken again in order |
| `RegistryReplica.RegistryDoc.MarkDisconnected` | crates/doc/src/registry.rs:569-573 | every batch becomes pushable again, none is lost |
| `RegistryReplica.RegistryDoc.MintId` | crates/doc/src/registry.rs:588-615 | the id is a strictly later tick of the device's clock |
| `RegistryReplica.RegistryDoc.EnqueueOps` | crates/doc/src/registry.rs:593-623 | the queue grows by fresh, unsent batches that hold the ops in order |
| `RegistryReplica.RegistryDoc.OverlayRow` | crates/doc/src/registry.rs:656-673 | the row shown is server truth with every queued op on that row replayed in queue order, if live |
| `RegistryReplica.SeedAll` | crates/doc/src/registry.rs:464-508 | for each of the keys the seed of the row held under it, once, and no other op |
| `RegistryProtocol.PushKeepsGood` | edge/src/registry-room.ts:376-409 | a push keeps every replica's view honest, before and after its broadcast lands |
| `RegistryProtocol.PurgeKeepsGood` | edge/src/registry-room.ts:448-463 | the purge keeps every view honest, because the floor forces a full answer |
| `RegistryProtocol.HelloAnswerGood` | edge/src/registry-room.ts:305-328 | whatever a hello sends, its answer brings an honest view level with the server |
| `RegistryProtocol.HelloSendsExactly` | edge/src/registry-room.ts:305-328 | an answer is full exactly when the cursor is absent, ahead, or behind the purge floor, and otherwise carries the rows above the cursor and no others |
| `RegistryProtocol.StepKeepsInv` | crates/doc/src/registry.rs:448-554 | every step of server, replicas and lossy channels keeps the invariant |
| `RegistryProtocol.RunKeepsInv` | crates/doc/src/registry.rs:448-554 | so does every run |
| `RegistryProtocol.CursorIntegrity` | crates/doc/src/registry.rs:511-531 | in every run, any server row with seq at or below a replica's cursor equals the replica's row, and no cursor passes the server |
| `RegistryProtocol.CaughtUpMeansEqual` | crates/doc/src/registry.rs:511-554 | in every run, a replica whose cursor is the server seq has exactly the server's live rows |
| `RegistryProtocol.LiveReplicaStaysLevel` | crates/doc/src/registry.rs:519-531 | in every run, a connected replica level with the server is level again as soon as a push's broadcast reaches it |
| `RegistryProtocol.ReconnectHeals` | edge/src/registry-room.ts:305-328 | from every reachable state one answered hello makes a replica exact |
| `RegistryProtocol.OnlyAcceptedBatchesRetire` | crates/doc/src/registry.rs:545-573 | in every run a queued batch stays queued with its ops until the server has applied those ops under its id, unless the replica restarts |
| `RegistryProtocol.AcceptedWasPushed` | edge/src/registry-room.ts:376-409 | what is recorded as applied was pushed, with those ops under that id, at some step of the run |
| `RegistryProtocol.StepKeepsQueues` | crates/doc/src/registry.rs:545-623 | every step keeps queued ids distinct and every ack in flight standing for the ops queued under its id |
| `RegistryProtocol.RunKeepsQueues` | crates/doc/src/registry.rs:545-623 | so does every run |
| `RegistryOverlay.RanOpsAreSettled` | crates/doc/src/registry.rs:656-673 | after a queue ran, each of its ops would change nothing |
| `RegistryOverlay.ReplayedSuffixAbsorbed` | crates/doc/src/registry.rs:656-673 | replaying merged ops that are settled before the rest of the queue gives the same row |
| `RegistryOverlay.PushedRow` | edge/src/registry-room.ts:395-407 | broadcasts of any number of pushed batches keep the replica's row equal to the run of the pushed ops |
| `RegistryOverlay.NoFlicker` | crates/doc/src/registry.rs:533-554 | with no other writer and plain ops of which only the first on a row creates or revives it, the row shown is the same for any number of batches merged and any smaller number acknowledged |
| `RegistryOverlay.NoFlickerWhileSettled` | crates/doc/src/registry.rs:656-673 | the same for any queue, while the ops merged and not yet acknowledged are settled against the merged row |
| `RegistryOverlay.FlickersExactly` | crates/doc/src/registry.rs:533-554 | once the whole queue is merged, and for any number acknowledged, a live row is shown unchanged if and only if each op still queued is settled against it |
| `RegistryOverlay.DeletedNeverFlickers` | crates/doc/src/registry.rs:656-673 | a row that a queue of plain ops leaves deleted or absent is never shown again while the queue is acknowledged |
| `RegistryOverlay.RecreationFlickers` | crates/doc/src/registry.rs:656-673 | a witness: re-creating a row after a delete in the queue can change what is shown |
| `Utf8.BoundaryEndsChar` | crates/doc/src/parts.rs:650-658 | every character boundary of well-formed text is the end of one of its characters |
| `Utf8.BoundaryIffCharEnd` | crates/doc/src/parts.rs:650-658 | the character boundaries are exactly the ends of characters |
| `Utf8.CutAtBoundary` | crates/doc/src/parts.rs:650-664 | text cut at a boundary gives two well-formed texts |
| `Utf8.BoundaryNear` | crates/doc/src/parts.rs:651-658 | there is a boundary at most three bytes before any position |
| `PartsFold.Accumulator.FoldEvent` | crates/doc/src/parts.rs:257-492 | the in-place accumulator equals the fold for every event |
| `PartsFold.FoldAllConcat` | crates/doc/src/parts.rs:257-492 | folding in two sittings is folding at once |
| `FoldConservation.NothingStreamedIsLost` | crates/doc/src/parts.rs:257-306 | for every run, the prose and the reasoning in the parts are exactly the bytes streamed in the turn, in order, if and only if no image took the place of a byte of them |
| `FoldConservation.OnePartEach` | crates/doc/src/parts.rs:257-492 | for every run, no two tool parts and no two input parts share an id |
| `FoldParts.ToolsAreTold` | crates/doc/src/parts.rs:307-474 | in every turn without an image under its id, a tool has a part exactly if it was called; the part holds the last call, is resolved if and only if a result came after the call, with the flag of the last, and has the stats last set or cleared and the subagent status the tagged traffic tells |
| `FoldParts.InputsAreTold` | crates/doc/src/parts.rs:382-408 | in every turn in which nothing else uses its id, a request has a part exactly if it was made: the question first asked, resolved if and only if an answer came after it |
| `FoldParts.ErrorsAreTold` | crates/doc/src/parts.rs:409-424 | in every turn in which no image takes an error's id, there is one error part for each failure, in order, with its message |
| `FoldParts.ImagesAreTold` | crates/doc/src/parts.rs:273-290 | in every turn an image is shown as it was last generated, where its id first stands |
| `FoldParts.ImagesComeFromEvents` | crates/doc/src/parts.rs:273-290 | every image part was generated |
| `FoldParts.RunKeepsShape` | crates/doc/src/parts.rs:262-306 | in every run text, reasoning and error parts are named by kind and place, and streamed text is broken only by another part |
| `FoldParts.TextIdsAreUnique` | crates/doc/src/parts.rs:262-306 | in every run no two text or reasoning parts share an id |
| `FoldParts.NoEmptyReasoning` | crates/doc/src/parts.rs:291-306 | in every run empty reasoning deltas leave no part behind |
| `FoldParts.TurnStartsAfresh` | crates/doc/src/parts.rs:259-261 | what came before a turn opens leaves no trace |
| `SegmentWriter.NormalForm` | crates/doc/src/schema.rs:126-294 | writing and reading a part changes only input ids, unusable images and the error flag of unresolved tools, and is idempotent |
| `SegmentWriter.WriteExact` | crates/doc/src/schema.rs:1265-1335 | a change that clears nothing and keeps the kind is written exactly |
| `SegmentWriter.WriteReadsBack` | crates/doc/src/schema.rs:1265-1335 | whatever the two parts are, the document shows the new one if and only if its kind and id stay and no present field becomes absent, or both read as the same unavailable image |
| `SegmentWriter.Writer.Sync` | crates/doc/src/schema.rs:1172-1237 | one tick leaves the document and the mirror as specified; it fails exactly when a text body container is missing, with the parts before that one written |
| `SegmentWriter.Writer.Resume` | crates/doc/src/schema.rs:1131-1147 | a writer re-attached with the previous mirror starts in step |
| `SegmentWriter.SyncExact` | crates/doc/src/schema.rs:1172-1237 | a tick on parts that extend the mirror makes the document exactly those parts |
| `SegmentWriter.TickReadsBack` | crates/doc/src/schema.rs:1172-1237 | after any tick the document reads back as the parts if and only if none was taken away and each shows through what was written in its place |
| `SegmentWriter.FoldExtends` | crates/doc/src/parts.rs:257-492 | a safe event only extends the parts |
| `SegmentWriter.FoldAllExtends` | crates/doc/src/parts.rs:257-492 | so does every safe run |
| `SegmentWriter.TurnKeepsStep` | crates/doc/src/schema.rs:1131-1237 | every mix of events, ticks and re-attachments keeps document and mirror in step |
| `SegmentWriter.DocRefinesFold` | crates/doc/src/schema.rs:1131-1237 | for every safe turn and every choice of ticks, the document after the final tick reads back as the fold of all events |
| `SegmentWriter.StaleStatsStay` | crates/doc/src/schema.rs:1265-1335 | a result without a diff after stats leaves the stale stats in the document |
| `SegmentWriter.ImageOverTextStaysText` | crates/doc/src/schema.rs:1265-1335 | an image over a text part's id leaves a text part in the document |
| `TranscriptDelta.FindTextAppend` | crates/doc/src/transcript_delta.rs:165-200 | the scan finds the single grown part or nothing |
| `TranscriptDelta.Classify` | crates/doc/src/transcript_delta.rs:225-249 | the loop ships each entry as nothing, an append or an upsert, in order |
| `TranscriptDelta.ListRemovals` | crates/doc/src/transcript_delta.rs:217-221 | the removals are the ids of the previous transcript that are gone, in order |
| `TranscriptDelta.DiffTranscript` | crates/doc/src/transcript_delta.rs:206-261 | the frame computed by the loops is the specified diff, with the reset fallback |
| `TranscriptDelta.Viewer.Apply` | crates/doc/src/transcript_delta.rs:270-343 | the viewer's in-place edit gives the specified transcript or the specified desync |
| `TranscriptRoundTrip.UpsertsReachMiddle` | crates/doc/src/transcript_delta.rs:285-304 | with kept entries in order, every upsert finds its anchor and together they give next less its text appends |
| `TranscriptRoundTrip.AppendRestores` | crates/doc/src/transcript_delta.rs:305-333 | an append restores its entry if and only if the duration did not change and it lands on the part that grew |
| `TranscriptRoundTrip.AppendsReachNext` | crates/doc/src/transcript_delta.rs:305-333 | the appends complete the transcript if and only if each restores its entry |
| `TranscriptRoundTrip.RoundTrip` | crates/doc/src/transcript_delta.rs:206-343 | applying the diff of prev and next to prev gives exactly next if and only if it is a reset, or the entries not re-sent keep their order and every append restores its entry |
| `TranscriptRoundTrip.OrderedRoundTrip` | crates/doc/src/transcript_delta.rs:206-343 | so it is exact for all transcripts that only insert and delete, with unique text part ids and no duration change beside an append |
| `TranscriptRoundTrip.MirrorRun` | crates/doc/src/transcript_delta.rs:206-343 | a viewer in step stays in step over a whole run of frames without a desync |
| `TranscriptRoundTrip.BlockMoveFails` | crates/doc/src/transcript_delta.rs:227-232 | moving a block of two past another never round trips, whatever the four entries |
| `TranscriptRoundTrip.DurationLost` | crates/doc/src/transcript_delta.rs:166-172 | a duration stamped together with appended text is lost |
| `TranscriptRoundTrip.StreamingShipsOnlyDelta` | crates/doc/src/transcript_delta.rs:225-249 | text streamed onto a trailing text part ships that text and nothing else |
| `TranscriptRoundTrip.AppendingShipsOne` | crates/doc/src/transcript_delta.rs:225-260 | a new entry at the end ships that entry and nothing else |
| `TranscriptRoundTrip.ResetsExactly` | crates/doc/src/transcript_delta.rs:251-260 | a transcript is sent whole if and only if it has more than four entries and at least half of them would be re-sent |
| `TranscriptRoundTrip.AppliedMeansCounted` | crates/doc/src/transcript_delta.rs:334-339 | a frame that applies leaves the announced number of entries, whatever copy it met |
| `TranscriptRoundTrip.AppendIsChecked` | crates/doc/src/transcript_delta.rs:312-332 | an append applies if and only if the part is there at the announced length, and then adds the text |
| `PartsSplit.CutMakesProgress` | crates/doc/src/parts.rs:650-658 | in UTF-8 text the forward-progress guard never fires and a cut is a character boundary within four bytes of the cap |
| `PartsSplit.PiecesRestore` | crates/doc/src/parts.rs:648-679 | pieces are non-empty well-formed texts within the cap that concatenate to the text |
| `PartsSplit.PartPiecesRestore` | crates/doc/src/parts.rs:647-679 | pieces of an oversized part are of its kind, numbered from its id, and restore its body |
| `PartsSplit.SplitJoins` | crates/doc/src/parts.rs:622-687 | joining a split gives the pieces of all parts in order, and each entry is within the cap unless one non-text part alone exceeds it |
| `PartsSplit.SplitKeepsStreams` | crates/doc/src/parts.rs:622-687 | splitting and joining keep all prose and all reasoning byte for byte |
| `PartsSplit.SplitKeepsOthers` | crates/doc/src/parts.rs:622-687 | and every part that is not text, unchanged and in order |
| `PartsSplit.SplitIsGreedy` | crates/doc/src/parts.rs:622-634 | an entry is filled before the next one is begun |
| `PartsSplit.PieceIdsDiffer` | crates/doc/src/parts.rs:659-663 | the first piece keeps the part's id and no two pieces share one |
| `PartsSplit.SmallPartsAreWhole` | crates/doc/src/parts.rs:622-687 | parts within the cap are never cut |
| `PartsSplit.SplitParts` | crates/doc/src/parts.rs:622-682 | the loops over start, piece and size give the specified split |
| `PartsSplit.PushPieces` | crates/doc/src/parts.rs:636-681 | one part is pushed whole or cut, as specified |
| `PartsSplit.PushCut` | crates/doc/src/parts.rs:647-681 | the cutting loop packs exactly the pieces of an oversized part |
| `PartsSplit.NextCut` | crates/doc/src/parts.rs:651-658 | the backing-up loop ends at the last boundary within the cap |
| `Continuations.JoinContinuationEntries` | crates/doc/src/schema.rs:1045-1071 | the loop with its shortcut for continuation-free lists gives the specified join |
| `Continuations.JoinKeepsParts` | crates/doc/src/schema.rs:1045-1071 | joining neither drops, duplicates nor changes a part, whatever the order of entries |
| `Continuations.JoinShows` | crates/doc/src/schema.rs:1045-1071 | when continuations follow their root, the join shows every stored part in order under its root's id |
| `Continuations.GroupBecomesOne` | crates/doc/src/schema.rs:1045-1071 | after anything, a root and its continuations become one entry: the root's fields, all the parts in order, the last duration |
| `Continuations.OrphanStands` | crates/doc/src/schema.rs:1045-1071 | a continuation whose root is not there stands unchanged |
| `Continuations.ReadOpeningTail` | crates/doc/src/schema.rs:435-477 | the backwards loop over entries and budget gives the specified tail |
| `Continuations.OpeningTailBounded` | crates/doc/src/schema.rs:435-477 | the tail never holds more parts than asked for |
| `Continuations.OpeningTailIsFull` | crates/doc/src/schema.rs:435-477 | when no entry is empty the tail holds exactly the parts asked for, or all there are |
| `Continuations.TailIsFull` | crates/doc/src/schema.rs:435-477 | the window takes as much as the budget allows, an empty entry costing one |
| `Continuations.OpeningTailIsSuffix` | crates/doc/src/schema.rs:435-477 | the parts of the tail are a suffix of the full joined transcript under the same ids |
| `Continuations.OpeningTailIsAll` | crates/doc/src/schema.rs:435-477 | with enough budget the tail is the full join |
| `TranscriptBaseline.CaptureCovers` | crates/doc/src/transcript_delta.rs:42-80 | the baseline of a transcript covers an entry of it if and only if no duplicate part id recorded a shorter text last |
| `TranscriptBaseline.CaptureCoversUnique` | crates/doc/src/transcript_delta.rs:42-80 | with unique part ids it always does |
| `TranscriptBaseline.CoversIffUnchanged` | crates/doc/src/transcript_delta.rs:44-56 | an entry that only grows stays covered if and only if nothing was added to it |
| `TranscriptBaseline.HistoricalEntry` | crates/doc/src/transcript_delta.rs:83-101 | the filtering loop gives the specified historical entry |
| `TranscriptBaseline.Cutoff` | crates/doc/src/transcript_delta.rs:90-97 | the cutoff loop ends at a character boundary no later than the recorded length, for any text |
| `TranscriptBaseline.HistoricalIsText` | crates/doc/src/transcript_delta.rs:83-101 | a stale length never splits a character |
| `TranscriptBaseline.HistoryIsExact` | crates/doc/src/transcript_delta.rs:42-101 | for any append-only extension of any entry of the captured transcript, the historical entry has exactly the captured parts |
| `TranscriptBaseline.NewEntryHasNoHistory` | crates/doc/src/transcript_delta.rs:42-101 | an entry that came after the capture has no history and is not covered |
| `ChatLog.AppendSound` | edge/src/chat-log.ts:65-91 | an append keeps seqs exactly floor+1..head and live batch ids unique, and the acknowledged seq holds the batch |
| `ChatLog.RepushIsNoOp` | edge/src/chat-log.ts:60-64 | a re-push of a live batch changes nothing and answers the original seq |
| `ChatLog.CommitSound` | edge/src/chat-log.ts:115-149 | a checkpoint only moves the floor forward, removes exactly the rows it covers and keeps the rest |
| `ChatLog.RepushAfterPruneAppends` | edge/src/chat-log.ts:75-91 | a batch re-pushed after its row was pruned is stored again at the head |
| `ChatLog.RowsFromAre` | edge/src/chat-log.ts:93-113 | the rows read are exactly the stored rows above the cursor not written by the excluded device |
| `ChatLog.RowsFromSorted` | edge/src/chat-log.ts:93-113 | each once, in increasing seq order |
| `ChatLog.ChatLogStore.AppendRow` | edge/src/chat-log.ts:65-91 | refuses empty and oversized updates, answers duplicates, appends the rest at the head |
| `ChatLog.ChatLogStore.CommitCheckpoint` | edge/src/chat-log.ts:115-149 | commits exactly non-empty checkpoints between floor and head and counts the rows pruned |
| `ChatLog.FindBatch` | edge/src/chat-log.ts:74-77 | finds a live row with the batch id, or there is none |
| `ChatProtocol.CatchUpHolds` | crates/sync/src/chat_client.rs:189-216 | whatever plan an honest client follows, even one interrupted before, it then holds every accepted update up to its new cursor |
| `ChatProtocol.PlanIsLean` | crates/sync/src/chat_client.rs:189-216 | the checkpoint is fetched only when there is one the client lacks; no row it has passed, and no pruned row, is asked for |
| `ChatProtocol.StepKeepsInv` | crates/sync/src/chat_client.rs:365-401 | every edit, push, live row, interrupted or complete catch-up, checkpoint and wipe keeps the invariant |
| `ChatProtocol.RunKeepsInv` | crates/sync/src/chat_client.rs:1040-1132 | so does every run |
| `ChatProtocol.EveryRunIsSound` | edge/src/chat-log.ts:65-149 | in every run stored seqs are exactly floor+1..head, live batch ids are unique, and the checkpoint sits at the floor |
| `ChatProtocol.NoLostUpdate` | edge/src/chat-frames.ts:34-38 | in every run, an update once acknowledged is in the content of every client that later catches up, whatever was pruned in between |
| `ChatProtocol.InterruptedCursorIsAhead` | crates/sync/src/chat_client.rs:1049-1054 | a reachable state in which an interrupted client's cursor is at the head while its content lacks a row, which the next catch-up brings |
| `ChatFrames.LengthReadsBack` | edge/src/chat-frames.ts:70-73 | a written length reads back modulo 2^32 |
| `ChatFrames.FrameRoundTrip` | edge/src/chat-frames.ts:65-101 | a frame decodes to itself if and only if its type is taken, its header is within 4096 bytes and parses |
| `ChatFrames.DecodeIsCanonical` | edge/src/chat-frames.ts:83-101 | a decoded frame encodes to the very bytes it came from |
| `ChatFrames.DecodersAgree` | crates/sync/src/chat_frames.rs:44-64 | the server reads exactly the frames of known type that the native client reads, and reads them alike |
| `ChatFrames.EncodeFrame` | edge/src/chat-frames.ts:65-78 | the buffer filled piece by piece is the specified encoding |
| `ChatFrames.BodyRoundTrip` | edge/src/chat-room.ts:226-234 | the length-prefixed body parses back to the frames encoded |
| `ChatFrames.CutBodyIsPrefix` | crates/sync/src/chat_client.rs:1389-1405 | a body cut short anywhere yields a prefix of the frames, each whole |
| `ChatFrames.WriteBody` | edge/src/chat-room.ts:226-234 | the copy loop fills one buffer with all frames in order |
| `ChatPull.PageIsLongest` | edge/src/chat-room.ts:207-222 | a page is the longest prefix of the rows whose frames fit the cap |
| `ChatPaging.PageProgress` | edge/src/chat-room.ts:203-222 | a truncated page carries a row if and only if the first row's frame fits |
| `ChatPull.MaximalRowFits` | edge/src/chat-log.ts:14-18 | every row the log can hold fits, with any header a reader accepts |
| `ChatPull.TakePage` | edge/src/chat-room.ts:208-222 | the loop over the rows gives the specified page and reports truncation |
| `ChatPull.ServeRows` | edge/src/chat-room.ts:203-238 | the response is the body of the state, the page, and the end mark unless truncated |
| `ChatPull.RowFrameRead` | crates/sync/src/chat_client.rs:1396-1405 | a client reads from a row frame exactly the row sent, or nothing when its header is too long |
| `ChatPull.PageArrives` | crates/sync/src/chat_client.rs:1389-1480 | what a client reads from a response is the page in order, less rows with unreadable headers |
| `ChatPull.EndMarkIffWhole` | edge/src/chat-room.ts:223-225 | the client sees the end mark if and only if the response carries all the rows |
| `ChatPaging.CursorStopsAtLead` | crates/sync/src/chat_client.rs:365-401 | importing a page, the cursor ends just before the first row that could not be read: a gap holds it |
| `ChatPaging.PullsArrive` | crates/sync/src/chat_client.rs:1376-1500 | what repeated pulls bring of any rows, and where the cursor ends |
| `ChatPull.PullsDeliver` | edge/src/chat-room.ts:203-222 | repeated pulls, each read by the client and resumed from its cursor, end and bring each row above the start once and in order, if and only if the client can read every row's header |
| `ChatPull.PullsStopAtUnreadable` | crates/sync/src/chat_client.rs:365-401 | otherwise the client stops right before the first row it cannot read, with exactly the rows before it and what it can read of the one page that starts there |
| `ChatQuota.QuotaGate.AdmitQuota` | edge/src/chat-room.ts:506-517 | charges the device's window, opening a new one past 60 s, and admits while both budgets last |
| `ChatQuota.DevicesAreSeparate` | edge/src/chat-room.ts:506-517 | what a device is admitted does not depend on other devices |
| `ChatQuota.KeysAreDevices` | edge/src/chat-room.ts:506-508 | devices have budgets of their own, unnamed ones sharing one |
| `ChatQuota.RejectionSticks` | edge/src/chat-room.ts:513-516 | rejected pushes are charged: after one, a device is rejected until a new window opens |
| `ChatQuota.QuotaBound` | edge/src/chat-room.ts:46-50 | any closed 60-second interval admits at most 599 pushes and 16 MiB per device, for every push sequence on a clock that never steps back |
| `ChatQuota.QuotaBoundIsReached` | edge/src/chat-room.ts:46-50 | 599 is reached |
| `ChatQuota.ByteBoundIsReached` | edge/src/chat-room.ts:46-50 | 16 MiB is reached |
| `ChatQuota.QuietIntervalBound` | edge/src/chat-room.ts:506-517 | an interval in which no window opens, other than at its start, admits at most 300 pushes and 8 MiB per device |
| `UpdateLog.RowsFit` | edge/src/update-log.ts:32-43 | no row is empty or above the chunk size |
| `UpdateLog.ChunksAreFull` | edge/src/update-log.ts:32-43 | only the last row of an update is short |
| `UpdateLog.ReplayRoundTrip` | edge/src/update-log.ts:32-66 | replay returns the updates appended in order, exactly if none was empty |
| `UpdateLog.LegacyRows` | edge/src/update-log.ts:11-15 | rows written before chunking read back one update each |
| `UpdateLog.ReadKeepsBytes` | edge/src/update-log.ts:46-66 | replay loses no byte of any log, well formed or not |
| `UpdateLog.UpdateTable.AppendUpdateRow` | edge/src/update-log.ts:32-43 | the loop appends exactly the chunks of the update |
| `UpdateLog.UpdateTable.ReadUpdateRows` | edge/src/update-log.ts:46-66 | the generator yields exactly the updates read |
| `Fragments.PackFits` | edge/src/session-room.ts:1328-1351 | no batch of small updates exceeds the fragment size or is empty |
| `Fragments.PackKeepsOrder` | edge/src/session-room.ts:1345-1351 | the batches hold exactly the small updates in order |
| `Fragments.PackIsGreedy` | edge/src/session-room.ts:1345-1351 | a batch is filled before the next one is begun |
| `Fragments.FramesFit` | edge/src/session-room.ts:1328-1381 | no frame sent carries more than the fragment size |
| `Fragments.SentCarriesSmall` | edge/src/session-room.ts:1328-1381 | the whole updates sent are exactly those within the fragment size, once and in order, and the ids of batches sent are consecutive |
| `Fragments.EveryUpdateIsSent` | edge/src/session-room.ts:1345-1352 | every update is sent whole or cut, by its size alone |
| `Fragments.FragmentsAreFull` | edge/src/session-room.ts:1355-1376 | only the last fragment of an update is short |
| `Fragments.SendUpdates` | edge/src/session-room.ts:1328-1381 | the loops send the batches, then each large update's header and fragments under its own id |
| `Fragments.Reassembler.HandleFragmentHeader` | edge/src/session-room.ts:806-851 | refuses strangers, oversized and penalized batches, else opens an empty batch |
| `Fragments.HeaderOpens` | edge/src/session-room.ts:806-851 | a header opens a batch if and only if its sender joined, it is within both limits, and the sender is not penalized or it is small; else it leaves no trace |
| `Fragments.Reassembler.HandleFragment` | edge/src/session-room.ts:853-884 | stores the part, and on the last one delivers the zero-filled assembly or fails |
| `Fragments.InterleavingIsHarmless` | edge/src/session-room.ts:853-884 | what is applied under a batch id depends only on that batch's messages |
| `Fragments.Reassembles` | edge/src/session-room.ts:806-884 | for every order of one full set of fragments and every interleaving, an update is applied once and exactly, if and only if its header is admitted, else never |
| `Fragments.DeliveryApplies` | edge/src/session-room.ts:806-884 | for every order and multiplicity of fragments: nothing is applied unless the header is admitted and enough fragments come, and then one update made of the first to come, zero-filled |
| `Fragments.RestoredExactly` | edge/src/session-room.ts:853-884 | an update that does not end in a zero byte is restored if and only if its header is admitted and the first fragments to come, as many as it has, are all of them |
| `Fragments.SentArrives` | edge/src/session-room.ts:1352-1381 | every large update one call sends, received by a room, arrives once and unchanged unless over the limit |
| `Fragments.DuplicateCorrupts` | edge/src/session-room.ts:870-883 | any two-fragment update that does not end in a zero is corrupted by a repeat of its first fragment |
| `WedgeBreak.Room.EnsureDoc` | edge/src/session-room.ts:886-969 | a cold start killed at any point leaves exactly what its syncs made durable |
| `WedgeBreak.Room.DropLog` | edge/src/session-room.ts:1034-1050 | log, snapshot and pending updates are gone, the backup gate is up, the counter is untouched |
| `WedgeBreak.CounterIsDeaths` | edge/src/session-room.ts:908-969 | in every run the durable counter is the number of consecutive deaths between the two syncs |
| `WedgeBreak.BreaksExactlyAfterThree` | edge/src/session-room.ts:908-926 | after every run the next cold start drops the log exactly when three or more deaths in a row preceded it, and then replays nothing |
| `WedgeBreak.SurvivorHoldsAll` | edge/src/session-room.ts:938-957 | after any run with fewer than three deaths in a row, a start that survives holds the non-empty stored snapshot, then the stored log in order, then what is pending in order, and nothing else |
| `WedgeBreak.CommittedSurvivesKills` | edge/src/session-room.ts:908-969 | committed content comes up whole after one or two killed starts |
| `WedgeBreak.InvisibleWhileHealthy` | edge/src/session-room.ts:908-969 | until three deaths in a row the room behaves as one that never drops anything |
| `WedgeBreak.LateKillsDoNotCount` | edge/src/session-room.ts:959-969 | kills outside a cold start never change the counter |
| `WedgeBreak.WedgeHeals` | edge/src/session-room.ts:897-937 | a room that dies in every replay is empty and up on its fourth start |

## Left out

- Loro itself: containers are sequences and maps, updates are opaque bytes, a client's chat content is the set of updates it imported.
- WebSockets, HTTP routing, authentication, R2 backups, presence, alarms as timers: only their effect on the modelled state appears, as steps.
- SQL and JSON: tables are maps; headers and values are kept as text, and the header codec of `ChatPull` is a parameter that is assumed to read back what it wrote.
- `validateOp` and the other regular-expression checks on inbound ops: which ops are valid is a parameter of `RegistryRoom.Room.ApplyPushBatch`.
- JavaScript compares strings by UTF-16 code unit and Rust by byte; the model compares characters, so device names outside the basic plane are not covered.
- Operator resets of a registry or chat room whose new seq passes an old cursor, and the one-time repair of legacy cursors: the code does not promise anything there.
- Deletes are not permanent past the tombstone purge: a full answer lets a replica re-seed a purged row.
- Pulls that exclude the device's own rows, and HTTP pulls racing a live socket, in the protocol theorems; `ChatLog.RowsFromAre` covers the exclusion for one read.
- RegistryOverlay.NoFlicker: a sufficient condition in the terms of the queue; the exact one, for a merged queue, is `RegistryOverlay.FlickersExactly`. Rows are compared up to their server seq.
- RegistryOverlay.NoFlickerWhileSettled: with part of the queue still to be merged the condition is sufficient only, because later ops of the queue can hide a change.
- TranscriptRoundTrip.OrderedRoundTrip: a sufficient condition in the terms of the transcript; the exact one is `TranscriptRoundTrip.RoundTrip`.
- SegmentWriter.DocRefinesFold: the stats that a tool result's diff yields are part of the event, and sidecar references are not followed.
- FoldParts.ToolsAreTold: a tool whose id an image takes is replaced by the image; the theorem is about turns in which that does not happen, and likewise for inputs and errors.
- PartsSplit.SplitJoins: the byte size of parts that are not text is a parameter.
- RegistryProtocol.CursorIntegrity: one connection per replica at a time; a reconnect drops what was in flight.
- ChatProtocol.NoLostUpdate: the state header and the checkpoint of one catch-up are read together; rows that arrive later may interleave freely. A re-push is assumed to carry the bytes first sent under its batch id.
- Fragments.SentArrives: the receiver is the room's own; how clients put fragments together is not part of this model.
- Fragments.RestoredExactly: for an update that ends in a zero byte only one direction holds in general (`Fragments.DeliveryApplies`), because the zero fill can stand for missing bytes.
- Fragments.SendUpdates: a failed send is not modelled; batch ids are the order in which they are minted instead of random bytes.
- WedgeBreak.Room.EnsureDoc: the shallow trim, the daily frontier checkpoints and the closing of sockets after a drop.
- The list forms over all rows of a kind, sidebar pins, commands, queues and rebuilds, device and preview rooms: list facts easier than what is here.
- The daemon, the CLI, the updater, the iOS and desktop interfaces.
