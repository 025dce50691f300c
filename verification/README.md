# Genesis Core in Dafny

Genesis Core keeps a library's canonical truth in one SQLite file, the Record Store: nodes
with permanent identities, their properties, relationships between identities, definitions,
a ledger of every identity ever issued, and a journal with rows for each revision. Two other
stores follow it. The Index is a derived projection that can be thrown away and rebuilt. The
recovery directory holds up to two full baselines, a chain of segments and a manifest, from
which a lost Record Store is reconstructed.

This project models those three stores, the steps that keep them together and the two paged
readers, and proves that both followers reproduce canonical truth.

## How the model is built

- `Model`, `Operations`: the tables as a `Canon` value and every mutation as a guard, an
  effect and a journal row. `RecordStore` is the object whose methods run the loops.
- `Commits`, `Definitions`, `Meaning`, `Permissions`, `Validity`: what each operation keeps and
  means, when it is permitted, and which error it gives otherwise.
- `Projection`, `History`, `Deltas`: deltas as final-state frames of journal-named keys, and the history
  `h`, where `h[i]` is the canonical state of revision `i`.
- `Index`, `IndexStore`: patching against rebuilding.
- `Recovery`, `Chain`, `Faithful`, `Rotation`, `CrashSafety`, `Bounds`, `Tightness`,
  `RecoveryManager`, `Damage`, `Repair`: manifests, plans, the chain invariant, exact reconstruction, crash points,
  size bounds, the object that rewrites the directory, what damaged files cost and what a
  completed change repairs.
  A digest stands for the file content it was computed from. `writesLeft` is the number of
  file operations that still complete, so a method may stop after any of them; each contract
  says exactly how many it needs to succeed.
- `Replay`, `Revision`: schema constraints, opening a file, replaying a patch.
- `Core`, `Fresh`, `Runs`: the library as a state machine. A step is one lock-protected section
  of any thread, a recovery change stopped half-way, or damage to recovery files; a run is any
  sequence of steps.
- `Threads`, `CoreState`: the object whose methods take such steps, with other threads running
  wherever the code holds no lock.
- `Opening`, `Library`: what `open_existing` makes of every combination of missing, damaged,
  stale and ahead files, exactly when it succeeds, and the object that does it.
- `Unlabelled`: the one way a current recovery chain is refused.
- `Keyset`, `Scan`, `Traversal`, `TraversalRuns`: pages over a pinned snapshot, and the
  watermark traversal of the live Index.
- `Cursor`, `Tokens`: the tokens that carry a continuation, and the identities, revisions and
  keys printed in them. `Migration`: older files to version 5.

A `NodeId` is the number its 16 UUIDv7 bytes (section 5.7 of RFC 9562) spell in big-endian
order, so its order is SQLite's byte order. A transaction happens completely or not at all.

Beside the members in the table, short lemmas say what a single operation keeps or undoes:
`Meaning.RestoreUndoesTombstone`, `Meaning.RemoveUndoesAdd`, `Validity.TombstonesAreFrozen`,
and `Validity.DefinitionsRespected`.

## Where the code differs from what it promises

- Replay writes an absent inverse label as NULL (src/record_store/recovery.rs:160) although the
  column is NOT NULL (src/record_store/schema.rs:74) and ordinary writes store an empty text
  (src/record_store/operations.rs:548). So a chain whose status is Current can be refused, and
  with it an open that has to reconstruct. `Unlabelled.LabelsDecide` and `Opening.RebuildTrue`
  say exactly when, `Unlabelled.RefusalReachable` gives a run.
- Rotations interrupted two or more times in a row can make the manager save a manifest that it
  refuses to load, against the bound at src/recovery/mod.rs:473-481. `Bounds.InterruptedRotations`
  says exactly when, for any number of them; `Tightness.FullChainRefused` gives a run.
- A catch-up resets the chain and moves the purge barrier to the live revision also when nothing
  was purged since: removing a relationship of a node purged long ago is enough
  (src/recovery/mod.rs:163-170). `Repair.CatchUpBranches` says exactly when,
  `Repair.RemovalMovesBarrier` gives the case.
- Resetting overwrites slot A before the manifest is saved, so a crash in between can leave
  nothing to recover from. `CrashSafety.ResetWindow` says exactly when,
  `CrashSafety.SoleBaselineLost` gives the plain case.
- With an empty journal a wrong stored revision that is not below the latest surviving fact is
  accepted. `Revision.RevisionUnprovable` says exactly when, `Revision.WrongRevisionAccepted`
  gives a store.

## Model

| member | source | states |
|---|---|---|
| RecordStores.RecordStore.ApplyBatch | src/record_store/operations.rs:317-335 | The mutation loop commits exactly the batch's specified store at the next revision, or leaves the store untouched with the error of the first mutation its prefix does not permit. |
| RecordStores.RecordStore.CreateNodes | src/record_store/operations.rs:48-79 | Succeeds exactly on a non-empty list of distinct, never issued identities; then all of them are blank active nodes of one new revision with one journal row each; otherwise nothing changes, with a conflict for an empty list and already exists for the rest. |
| RecordStores.ReserveIds | src/record_store/operations.rs:1334-1343 | The ledger after reserving every identity; refused exactly when one is repeated or already issued. |
| RecordStores.CreationMeaning | src/record_store/operations.rs:48-79 | Batch creation, which reserves all identities first, equals the atomic batch that creates the nodes one by one. |
| RecordStores.RecordStore.ChangePropertyDefinition | src/record_store/operations.rs:337-526 | Register, update, deprecate and remove of a property definition: the specified commit with its journal row, or an unchanged store and the specified error. |
| RecordStores.RecordStore.ChangeRelationshipDefinition | src/record_store/operations.rs:528-733 | The same for relationship definitions, whose absent inverse label is stored as an empty text. |
| Meaning.IdentityMoves | src/record_store/operations.rs:735-925 | A permitted mutation moves exactly the identity its lifecycle operation names, along one of four lifecycle edges, and leaves every other identity where it was. |
| Meaning.IdentityTerminal | src/record_store/operations.rs:97-126 | Over any evolution a retired identity stays retired and an issued one stays issued. |
| Meaning.PropertyFacts | src/record_store/operations.rs:759-813 | A permitted mutation changes exactly the property row it names; purge drops exactly the rows its node owned. |
| Meaning.RelationshipFacts | src/record_store/operations.rs:814-883 | Only adding and removing a relationship changes a relationship row, so facts about a purged node survive. |
| Meaning.RevisionFacts | src/record_store/operations.rs:735-925 | Every involved node that remains carries the batch's revision and keeps its creation revision, which a created node gets from the batch; all other node rows, the definitions and the rest of the ledger are untouched. |
| Meaning.BatchOutcome | src/record_store/operations.rs:317-335 | A batch fails at the first position its prefix does not permit, with that mutation's error, and succeeds exactly when there is none. |
| Permissions.BatchGrows | src/record_store/operations.rs:317-335 | One more mutation at the end of a batch sees what the others left, and its effect and its journal row come last; an empty batch is refused. |
| Permissions.CreatePermitted | src/record_store/operations.rs:735-757 | An identity can be created exactly when it was never issued. |
| Permissions.SetPermitted | src/record_store/operations.rs:759-787 | A property can be set exactly with a valid key and value on an active node whose definition, if any, is live and expects that kind, whether the node has it or not; otherwise the first failing check gives the error. |
| Permissions.RemovePropertyPermitted | src/record_store/operations.rs:788-813 | A property can be removed exactly from an active node that has it; which error otherwise. |
| Permissions.AddPermitted | src/record_store/operations.rs:814-855 | A relationship can be added exactly between active nodes, once, and not under a deprecated definition; which error otherwise. |
| Permissions.RemovePermitted | src/record_store/operations.rs:856-883 | A relationship can be removed exactly when it is there, whatever became of its endpoints. |
| Permissions.LifecyclePermitted | src/record_store/operations.rs:884-925 | Tombstone takes an active node, restore and purge a tombstoned one; conflict in the other state, not found without a node. |
| Permissions.RowTells | src/record_store/operations.rs:735-946 | Every journal row tells which lifecycle edge, property or relationship change its mutation made. |
| Permissions.KeyRules | src/record_store/operations.rs:998-1020 | A valid key is non-empty, at most 255 bytes, its own trimmed self and free of control characters; a label is blank when trimming leaves nothing. |
| Commits.MutationCovers | src/record_store/operations.rs:735-946 | The journal row of a mutation names every row the mutation changes. |
| Commits.MutationEvolves | src/record_store/operations.rs:735-925 | A mutation never reissues an identity and stamps every node row it changes. |
| Commits.MutationConsistent | src/record_store/operations.rs:735-925 | Mutations keep nodes and relationship endpoints inside the ledger, revisions in order and definitions sound. |
| Commits.BatchProgress | src/record_store/operations.rs:317-335 | A whole batch appends one row per mutation, all of its revision, that together name every difference. |
| Commits.CommitFacts | src/record_store/operations.rs:317-733 | Every committing call takes exactly one revision, journals at least one row for it, names every row it changes, keeps the state consistent and never reissues an identity. |
| Definitions.ReplacementsAcyclic | src/record_store/operations.rs:1236-1261 | In a sound definition table no chain of replacements dangles or returns to where it started. |
| Definitions.RegisterEnds | src/record_store/operations.rs:337-376 | Registering keeps every replacement chain finite. |
| Definitions.DeprecateEnds | src/record_store/operations.rs:458-494 | Deprecating to an active replacement, also repeatedly, keeps every replacement chain finite. |
| Definitions.RemoveEnds | src/record_store/operations.rs:1263-1307 | Removing a definition nobody names as replacement keeps every replacement chain finite. |
| Definitions.DefinitionEffectOk | src/record_store/operations.rs:1236-1307 | All four definition operations keep the table sound: active definitions have no replacement, none dangles, all chains end. |
| Permissions.PropertyDefinitionAfter | src/record_store/operations.rs:337-526 | What a committed register, update, deprecate or remove leaves under its key, field by field; everything else stays. |
| Permissions.RelationshipDefinitionAfter | src/record_store/operations.rs:528-733 | The same for relationship definitions, with an absent inverse label stored as an empty text. |
| Permissions.PropertyChangePermitted | src/record_store/operations.rs:337-526 | Exactly when each change of a property definition is permitted, and which error it gives otherwise. |
| Permissions.RelationshipChangePermitted | src/record_store/operations.rs:528-733 | The same for relationship definitions. |
| Permissions.DefinitionRows | src/record_store/operations.rs:337-733 | The one journal row of a definition change: its event, its key and the replacement it names. |
| Permissions.DeprecatedRefuses | src/record_store/operations.rs:1022-1075 | Once deprecated, a key takes no new property and no new relationship: conflict. |
| Validity.RunKeepsValid | src/record_store/operations.rs:759-883 | Along any run every stored property, relationship and definition key is one validate_key accepts and every stored value is a valid one. |
| Validity.RunKeepsUsedProperty | src/record_store/operations.rs:418-425 | As long as some node carries a property its definition stays, with the expected kind it had, along any run. |
| Validity.RunKeepsUsedRelationship | src/record_store/operations.rs:1263-1307 | As long as some relationship has its key a relationship definition stays, along any run. |
| Validity.RunKeepsDeprecated | src/record_store/operations.rs:458-494 | A deprecated property definition stays deprecated until it is removed, and its key takes no property in between, along any run. |
| Validity.RunKeepsDeprecatedRelationship | src/record_store/operations.rs:648-689 | The same for relationship definitions and relationships. |
| RecordStores.RecordStore.RowsAfter | src/record_store/projection.rs:197-220 | The journal rows after a checkpoint, in order. |
| RecordStores.RecordStore.JournalIsContiguous | src/record_store/projection.rs:464-486 | The loop computes whether the rows run without a hole from the checkpoint's successor to the current revision. |
| History.ContiguousMeansCovering | src/record_store/projection.rs:464-486 | For rows in journal order the scan accepts exactly when the revisions present are precisely those of the interval (checkpoint, current]. |
| RecordStores.RecordStore.ProjectionDeltaSince | src/record_store/projection.rs:185-315 | The loop that fills the five key sets computes the specified delta: current, unavailable, or the final-state frame of the named keys. |
| History.DeltaAvailability | src/record_store/projection.rs:185-224 | Deltas are available exactly for the checkpoints the retained interval bridges. |
| History.DeltaCorrect | src/record_store/projection.rs:225-315 | For every checkpoint that is accepted, applying the patch to the state of that revision gives exactly the current state. |
| Deltas.DeltaCarries | src/record_store/projection.rs:225-315 | An available delta carries exactly the nodes its window is about, with their present rows, and counts the rows of the window. |
| Deltas.DeltaCarriesKeys | src/record_store/projection.rs:225-315 | The same for relationships and definitions. |
| Deltas.MutationTouches | src/record_store/operations.rs:735-946 | The journal row of a mutation is about exactly the nodes the mutation involves. |
| Projection.CaptureRestores | src/record_store/projection.rs:289-315 | A frame read from the newer of two states restores it from the older one whenever its keys cover their difference. |
| Projection.CaptureComposes | src/record_store/projection.rs:289-315 | Consecutive frames compose to the frame over the joined window. |
| Runs.RunDeltasCompose | src/record_store/projection.rs:185-315 | Along any run, a patch read earlier followed by one read later is the patch over the joined window, as long as the journal still bridges it. |
| RecordStores.RecordStore.PruneChangeJournal | src/record_store/projection.rs:317-327 | Pruning deletes exactly the rows more than 1,024 revisions back and nothing else. |
| History.PruneRetained | src/record_store/projection.rs:317-327 | Pruning keeps exactly the revisions above the later of the old interval's start and the cut, still complete. |
| Runs.JournalInterval | src/record_store/projection.rs:317-327 | In every reachable state the journal's revisions form one interval (k, current]; deltas are available exactly from [k, current), and after pruning exactly from those at most 1,024 revisions back. |
| History.CommitRetained | src/record_store/operations.rs:927-946 | A commit extends the retained interval by its own revision and keeps it complete for every earlier checkpoint. |
| IndexStores.PatchNodes | src/index/projection.rs:127-136 | The node loop leaves, for every named node, exactly the carried row and properties, and touches no other node. |
| IndexStores.FillCandidate | src/index/projection.rs:83-116 | Filling a fresh candidate gives the projection of the snapshot. |
| Index.ProjectionMeaning | src/index/projection.rs:83-116 | What a projection holds, row by row and field by field. |
| IndexStores.IndexStore.ApplyPatch | src/index/projection.rs:118-179 | All tables and the checkpoint advance together to the patched ones, or, on an injected or real failure, nothing changes. |
| IndexStores.IndexStore.Rebuild | src/index/mod.rs:121-167 | Succeeds exactly when no failure point fires and every file operation works, with the full projection; a failure leaves the previous tables, or an empty Index when they could not be moved back. |
| IndexStores.IndexStore.Reconcile | src/index/mod.rs:99-119 | Succeeds exactly when the store is connected and the tables are current, or the journal bridges them and no failure point fires, or the rebuild completes; then they are current, patched or rebuilt, and reported as such with their revisions. A failure leaves the previous or an empty Index. |
| IndexStores.ReconcileNeeds | src/index/mod.rs:99-119 | Exactly what a reconcile needs, by the checkpoints the journal bridges. |
| Index.PatchEqualsRebuild | src/index/projection.rs:118-179 | The fast path equals the slow one: the patch applied to the projection of the old state is the projection of the new state. |
| Index.ReconcileEqualsRebuild | src/index/mod.rs:99-119 | Whatever the checkpoint, a successful reconcile leaves what a full rebuild would. |
| Core.IndexNeverMixed | src/index/mod.rs:99-167 | Over every run of commits, failures, prunes and rebuilds the Index is the projection of the canonical state at its own checkpoint. |
| RecordStores.ReplayNodes | src/record_store/recovery.rs:44-84 | The node loop of a replay gives the overlaid node rows and adds exactly the surviving identities to the ledger. |
| RecordStores.RecordStore.ApplyRecoveryPatch | src/record_store/recovery.rs:16-179 | Replay succeeds exactly when the frame follows the candidate's revision, the constraints hold and no relationship definition lacks its inverse label; then rows, revision and empty journal are the patched ones, otherwise nothing changes. |
| RecordStores.RecordStore.ClearChangeJournal | src/record_store/recovery.rs:181-184 | Only the journal is emptied. |
| Replay.ConsistentHolds | src/record_store/schema.rs:4-135 | Every consistent state meets the foreign keys and the CHECKs on the keys, revisions and versions of nodes, properties, relationships and definitions. |
| Replay.SchemaRefuses | src/record_store/schema.rs:4-135 | What the constraints refuse: impossible revisions, relationships of identities never issued, empty keys, dangling replacements. |
| Replay.ReplayOutcome | src/record_store/recovery.rs:16-179 | Which frames a replay refuses, with which error, and what it leaves otherwise. |
| Replay.OpenChecks | src/record_store/mod.rs:113-173 | A store opens only when the constraints hold and every node is issued, and keeps everything but perhaps its revision. |
| Replay.LatestFactMeaning | src/record_store/mod.rs:182-193 | The latest fact is the largest revision on any row of the five tables and the journal. |
| Revision.ReachableOpens | src/record_store/mod.rs:176-221 | An uncorrupted reachable store, also one with an empty journal, opens unchanged. |
| Revision.RevisionRepair | src/record_store/mod.rs:176-221 | From a reachable store with a non-empty journal and any stored revision, the revision is repaired to the true one exactly when the stored one is not above it, and the store is refused otherwise. |
| Revision.RevisionUnprovable | src/record_store/mod.rs:212-220 | With an empty journal a wrong stored revision is noticed exactly when it is below the latest surviving fact; otherwise it is accepted as it is. |
| Revision.WrongRevisionAccepted | src/record_store/mod.rs:212-220 | A concrete store with an empty journal that opens at an overwritten revision. |
| RecoveryManagers.RecoveryManager.CreateBaseline | src/recovery/mod.rs:412-436 | Succeeds exactly when the backup opens at the store's own revision and the move completes; then only the slot has changed, and otherwise nothing has. |
| RecoveryManagers.RecoveryManager.RemoveUnreferencedSegments | src/recovery/mod.rs:645-663 | Runs to its end exactly when there are as many file operations left as unreferenced files, and then exactly those are gone; stopping early removes only some of them. |
| RecoveryManagers.RecoveryManager.ResetToSingleBaseline | src/recovery/mod.rs:337-368 | Completes exactly when the store backs up and the counted file operations are left, with the specified disk; stopped after any of them it leaves one of the disks a reset passes through. |
| RecoveryManagers.RecoveryManager.RotateBaseline | src/recovery/mod.rs:370-410 | The same for a rotation. |
| RecoveryManagers.RecoveryManager.CatchUp | src/recovery/mod.rs:132-195 | Succeeds exactly when the manifest loads and the branch it takes completes: nothing, a reset (five ways), or a new segment with a rotation when 64 have gathered; stopped early, it leaves one of the disks in between. |
| RecoveryManagers.RecoveryManager.CompletePurgeBarrier | src/recovery/mod.rs:228-246 | Succeeds exactly at the committed revision with the reset's file operations left, and leaves a single baseline and the barrier. |
| RecoveryManagers.RecoveryManager.EnsureInitialized | src/recovery/mod.rs:121-130 | A loadable manifest always succeeds and is left alone; otherwise the material is made from the live store exactly when the reset completes. |
| RecoveryManagers.RecoveryManager.Reconcile | src/recovery/mod.rs:213-226 | Succeeds exactly when the manifest loads and the reset (of material that does not reach its advertised revision) or the catch-up (of any other) completes. |
| RecoveryManagers.RecoveryManager.PlanOf | src/recovery/mod.rs:547-615 | The segment loop computes the longest verified continuation of a baseline. |
| RecoveryManagers.RecoveryManager.BestPlanOf | src/recovery/mod.rs:513-545 | The baseline loop computes the best plan. |
| RecoveryManagers.RecoveryManager.Status | src/recovery/mod.rs:248-286 | The reported state, from the manifest, the best plan and the live revision. |
| RecoveryManagers.RecoveryManager.BuildCandidate | src/recovery/mod.rs:296-308 | Copying the baseline, replaying the patches, clearing the journal and validating gives the specified reconstruction. |
| Chain.ResetChain | src/recovery/mod.rs:337-368 | A reset's manifest satisfies the chain invariant: one or two baselines in distinct slots, contiguous segments from the oldest baseline to the recovery revision, every baseline on a segment boundary. |
| Chain.AppendChain | src/recovery/mod.rs:171-176 | Appending a segment at the recovery revision keeps the chain invariant. |
| Chain.RotationResult | src/recovery/mod.rs:370-405 | Rotation overwrites the slot the newest baseline does not use, keeps that baseline and exactly the segments past it. |
| Chain.RotateChain | src/recovery/mod.rs:370-410 | Rotation keeps the chain invariant. |
| Chain.BestOfAll | src/recovery/mod.rs:513-545 | The best plan exists exactly when a listed baseline verifies, is the plan of one of them, and none of them recovers more. |
| Chain.BestPlanOptimal | src/recovery/mod.rs:513-615 | No chain of intact segments from an intact baseline reaches further than the best plan. |
| Chain.BestPlanSound | src/recovery/mod.rs:547-615 | The best plan's patches follow one another from its baseline, it ends on a segment boundary, and it stops before the recovery revision only at the start of a segment that does not verify. |
| Damage.DamagedSegmentStops | src/recovery/mod.rs:547-621 | No plan runs past a segment whose file is missing, differs from its digest or says other revisions: it stops before it or starts behind it. |
| Damage.DamageIsReported | src/recovery/mod.rs:248-286 | Such a segment past every intact baseline is never hidden: the status is not Current. |
| Damage.BaselineUsed | src/recovery/mod.rs:547-575 | A plan starts from a listed baseline whose file has the content of its digest and opens at its revision. |
| Damage.RecoverableExactly | src/recovery/mod.rs:513-615 | For a manifest of the history, something is recoverable exactly when a baseline file is kept, and all of it exactly when everything past some baseline is. |
| Damage.NewestPreferred | src/recovery/mod.rs:513-545 | Of the plans that recover most, the one from the newest baseline is taken. |
| Repair.RunStatus | src/recovery/mod.rs:248-286 | In every reachable state the status is exactly what the files still hold: Unavailable, Degraded, Lagging or Current. |
| Faithful.ReplayExact | src/record_store/recovery.rs:16-179 | Replaying consecutive patches of the history onto the state of the first ends in exactly the state of the last, with an empty journal, and passes every from/target check; it is refused exactly when a replayed relationship definition has no inverse label. |
| Faithful.ReconstructionExact | src/recovery/mod.rs:290-335 | Whatever is damaged, a reconstruction from a manifest of the history is the canonical state of the recovered revision. |
| Faithful.CurrentReconstructsLive | src/recovery/mod.rs:248-335 | When status is Current the reconstruction is the live canonical state. |
| Core.CurrentMeansRecoverable | src/recovery/mod.rs:248-335 | In every reachable state with status Current, losing the record file and reconstructing gives exactly the live canonical state with an empty journal, or is refused for a missing inverse label and nothing else. |
| Faithful.PurgeNeverResurrects | src/recovery/mod.rs:290-335 | A manifest at a revision without a node holds that node in no baseline, segment or plan. |
| Faithful.PurgeWindowResets | src/recovery/mod.rs:163-170 | When any node was retired in the window, also one created, tombstoned and purged in one batch of it, catch-up takes the reset branch, so no segment spans a purge. |
| Core.PurgedForever | src/lib.rs:376-402 | Once a barrier, reset or catch-up has run to its end after a node was retired, nothing the manifest refers to ever holds it again, for every interleaving and any later damage. |
| Repair.CatchUpBranches | src/recovery/mod.rs:132-195 | Every branch of a completed catch-up, with the barrier and the generation it saves: ahead and unbridged manifests keep their barrier, a window about a node that is gone moves it to the live revision, an extended chain keeps it. |
| Repair.PurgeMovesBarrier | src/recovery/mod.rs:163-170 | A purge the journal still shows puts the barrier at the live revision. |
| Repair.RemovalMovesBarrier | src/recovery/mod.rs:163-170 | So does removing a relationship of a node purged long ago, although no identity was retired since. |
| Repair.ResetIsCurrent | src/recovery/mod.rs:337-368 | In any sound state a completed reset leaves status Current. |
| Repair.CatchUpIsCurrent | src/recovery/mod.rs:132-195 | A completed catch-up of a directory from which everything is recoverable leaves status Current, unless it passed the bound on segments. |
| Repair.ReconcileBranches | src/recovery/mod.rs:213-226 | A reconcile catches up a directory from which everything is recoverable and renews any other one with the barrier it had. |
| Repair.ReconcileHeals | src/recovery/mod.rs:213-226 | In every reachable state, whatever the files, a completed reconcile leaves status Current, unless it passed that bound. |
| Repair.RotationKeeps | src/recovery/mod.rs:370-410 | A rotation's own baseline needs no segment; no file is left that its manifest does not list, and none that it lists is touched. |
| CrashSafety.RotationCrashSafe | src/recovery/mod.rs:370-410 | Stopped after any single write of a rotation, the best plan still reaches the same recovery revision. |
| CrashSafety.ResetWindow | src/recovery/mod.rs:337-359 | A reset is not safe in that way: once slot A is overwritten and before the manifest is saved, something is recoverable exactly when the manifest lists an intact baseline in slot B. |
| CrashSafety.SoleBaselineLost | src/recovery/mod.rs:344-359 | For instance, with the slot A baseline as the only one nothing is recoverable in that window. |
| Core.RunCompletions | src/recovery/mod.rs:132-246 | In every reachable state a reset completes exactly when its file operations are left, a catch-up when the manifest loads as well, and neither needs more than five beyond the segment files present. |
| Bounds.CatchUpSettles | src/recovery/mod.rs:171-191 | A completed catch-up keeps fewer than 64 segments past the newest baseline and at most 127 in all; the manifest saved on the way to a rotation has at most 128 and still loads. |
| Bounds.LoadedExactly | src/recovery/mod.rs:462-490 | A manifest loads exactly when it was saved with at most two baselines and 128 segments. |
| Bounds.InterruptedRotations | src/recovery/mod.rs:189-191 | After any number of interrupted rotations in a row the saved manifest keeps the chain invariant, holds one segment more for each, and loads exactly when they are at most 128 in all. |
| Bounds.HarmlessInterruptions | src/recovery/mod.rs:189-191 | So a settled manifest survives one interrupted rotation, and a full chain of 127 segments no second. |
| Tightness.FullChainRefused | src/recovery/mod.rs:473-481 | A run of a new library by single creations, catch-ups and two interrupted rotations whose saved manifest has 129 segments and is refused. |
| Tightness.BoundsReached | src/recovery/mod.rs:473-481 | For every n up to 127 a run of a new library ends in a settled manifest with n segments that loads. |
| Tightness.FullSaveReached | src/recovery/mod.rs:473-481 | And a run saves the full 128 segments on the way to a rotation. |
| Runs.RunSettled | src/recovery/mod.rs:132-195 | Along any run without half-finished recovery changes every manifest has at most two baselines and 127 segments and loads. |
| Unlabelled.LabelsDecide | src/record_store/recovery.rs:149-170 | A patch carries all its inverse labels exactly when every relationship definition its window named, and that still exists, has a non-empty one in the store. |
| Unlabelled.UnlabelledRefused | src/record_store/recovery.rs:149-170 | Whatever the library holds, registering or updating a relationship definition without inverse label makes every delta across that commit one that replay refuses. |
| Unlabelled.CurrentButRefused | src/record_store/recovery.rs:160 | From any state whose material was just reset, such a commit and one completed catch-up end with status Current and a refused reconstruction. |
| Unlabelled.RefusalReachable | src/record_store/recovery.rs:160 | A run of four states from a new library that ends with status Current and a refused reconstruction. |
| CoreStates.CoreState.ApplyBatch | src/lib.rs:376-402 | With other threads running whenever no lock is held: rejected, without a step, exactly when the store does not permit the batch; else committed, whatever happens afterwards; reported as applied exactly when there is no purge or the barrier completes at the committed revision. Then the recovery directory and behind it the Index are as their follow-ups leave them, and no plan holds a purged node. |
| CoreStates.CoreState.SyncIndex | src/lib.rs:709-719 | Exactly when the reconcile succeeds the Index is the live projection and the journal is pruned; otherwise the store stays, and the Index stays or is empty. |
| CoreStates.CoreState.SyncRecovery | src/lib.rs:721-729 | The catch-up runs to its end exactly when it can, or stops at a point it passes through; the error is dropped. |
| CoreStates.CoreState.PurgeBarrier | src/lib.rs:382-395 | Completes exactly at the committed revision with enough file operations left, leaving the single baseline of that revision. |
| CoreStates.CoreState.ReconcileRecovery | src/lib.rs:675-684 | A manifest that does not load is reported and left alone; otherwise it succeeds exactly when the catch-up or reset that is due completes, with the disk that leaves. |
| Threads.PurgeHolds | src/lib.rs:376-402 | A committed purge followed at any later time by a completed recovery change: no plan obtainable afterwards holds the node. |
| Core.NextInv | src/lib.rs:376-402 | Every lock-protected step, also one stopped half-way, keeps the invariant that ties journal, Index and recovery material to one history. |
| Core.IdentityOverRuns | src/record_store/operations.rs:97-126 | Along any run the ledger only grows and a retired identity stays retired. |
| Core.RunConsistent | src/record_store/operations.rs:735-925 | Every reachable state is consistent: nodes and endpoints in the ledger, revisions ordered, replacement chains finite. |
| Repair.AnyDamage | src/recovery/mod.rs:121-335 | Any damage to the files but a forged manifest is a step of a run. |
| Repair.EveryMove | src/lib.rs:376-402 | So are every commit, pruning, every result of a reconcile of the Index, and every completed recovery change. |
| Libraries.Library.Reconstruct | src/recovery/mod.rs:290-335 | Succeeds exactly when a candidate can be built and the file operations suffice, and then record file and recovery material are the rebuilt ones; stopped anywhere, the files stay those of one history. |
| Libraries.Library.OpenRecord | src/lib.rs:115-129 | Succeeds exactly when the record file opens, there is neither file nor manifest, or a missing or unreadable file can be reconstructed; a newer file is an unsupported schema, with nothing touched; on success it is a store of the history. |
| Libraries.Library.SettleRecovery | src/recovery/mod.rs:121-211 | Absent, damaged, lagging and ahead manifests all end at the live revision, exactly when the file operations that takes are left; nothing else can fail. |
| Libraries.Library.OpenIndex | src/index/mod.rs:46-78 | A missing, damaged, stale or ahead Index ends as the live projection exactly when the file operations its case needs succeed. |
| Libraries.Library.OpenExisting | src/lib.rs:105-144 | Open converges: it succeeds exactly when there is a store to open, the file operations suffice and the Index can follow, and then manifest and Index are at the live revision and the Index is its projection; a newer record file, or an unopenable one without a manifest, is refused with nothing touched; an unsuccessful open leaves files a later one can take. |
| Opening.OpenedInvariant | src/lib.rs:105-144 | A successful open establishes the running invariant. |
| Opening.RunningLeavesResidue | src/lib.rs:105-144 | Any running state, with any damage to the files but a forged manifest, is one an open can start from. |
| Opening.NeverOpens | src/lib.rs:113-129 | A record file of a newer version is never opened and never rebuilt over; an unopenable one without a manifest stays; no rebuild happens from a manifest that does not load, without an intact baseline, or when replay is refused. |
| Opening.OpensDirectly | src/lib.rs:113-129 | A file that opens is used as it is, and a new library starts empty, with the recovery directory untouched until it is settled. |
| Opening.OpensRebuilt | src/recovery/mod.rs:290-335 | Otherwise the store is the reconstructed one, and the directory one baseline of it with the barrier if that is not past the recovered revision. |
| Opening.SettledManifest | src/recovery/mod.rs:121-211 | A manifest that does not load is made anew without a barrier, one that is ahead with the barrier it had, any other is caught up. |
| Opening.IndexNeeds | src/index/mod.rs:46-78 | What bringing the Index up needs of the files, by its checkpoint. |
| Opening.RebuildTrue | src/recovery/mod.rs:290-335 | For any manifest of the history a reconstruction, and with it an open that needs one, is refused exactly when the manifest does not load, no plan exists, or a replayed relationship definition has no inverse label, with which error; what it yields is a store of the history. |
| Opening.ForgottenSurvivesOpening | src/lib.rs:105-144 | A node no plan holds before a close, any damage and an open that reconstructs is neither in the opened store nor in anything the manifest refers to afterwards. |
| Keyset.BoundedLimit | src/api.rs:135-137 | The effective limit: 0 becomes 1, more than 1,000 becomes 1,000, any other stays. |
| Keyset.Query | src/record_store/stable_scan.rs:198-215 | The rows after a key, smallest first, up to a limit. |
| Keyset.FinishPage | src/record_store/stable_scan.rs:291-318 | The page is the smallest rows up to the limit, and has a continuation, its last row, exactly when more follow. |
| Keyset.ListingUnique | src/record_store/stable_scan.rs:172-241 | There is only one strictly ordered listing of a collection. |
| Keyset.ScanExact | src/record_store/stable_scan.rs:172-241 | Pages over one snapshot, for any sequence of limits, concatenate to the collection in strict order without gaps or duplicates. |
| Keyset.ScanEnds | src/record_store/stable_scan.rs:291-318 | Every page with a continuation leaves strictly less, so a scan takes at most as many pages as there are rows. |
| Scan.PastIsLexicographic | src/record_store/stable_scan.rs:187-191 | The three alternatives of the continuation query are exactly lexicographic greater-than. |
| Scan.TextOrder | src/record_store/stable_scan.rs:138-142 | BINARY text comparison is a strict total order. |
| Scan.EdgeOrder | src/record_store/stable_scan.rs:187-191 | So is the order by source, key and target. |
| Scan.TextFirstDifference | src/record_store/stable_scan.rs:138-142 | A text comes first when it is a proper prefix, or smaller at the first difference. |
| Scan.CursorsArePinned | src/record_store/stable_scan.rs:320-390 | A cursor is good for the snapshots of its own revision and for its own collection only. |
| Scan.StableReadSnapshot.Payload | src/record_store/stable_scan.rs:320-390 | A cursor is taken exactly when it is for this collection and this snapshot's revision and its texts are a key. |
| Scan.StableReadSnapshot.IssuedIdsPage | src/record_store/stable_scan.rs:59-83 | A page of the ledger, retired identities included, ascending, with a cursor this snapshot takes again. |
| Scan.StableReadSnapshot.NodesPage | src/record_store/stable_scan.rs:86-117 | A page of the nodes, ascending, with their lifecycle states. |
| Scan.StableReadSnapshot.PropertiesPage | src/record_store/stable_scan.rs:120-169 | A page of one node's properties with their values; refused as not found exactly when there is no such node. |
| Scan.StableReadSnapshot.RelationshipsPage | src/record_store/stable_scan.rs:172-241 | A page of the relationships, by source, key and target; the two queries agree. |
| Scan.StableReadSnapshot.AllRelationships | src/record_store/stable_scan.rs:172-241 | Following the cursors with any limits terminates with all relationships in strict order, each once. |
| Traversals.ListNodesCursor | src/index/query.rs:160-253 | Succeeds exactly for an admissible cursor; the page holds the next rows not modified after the watermark, newest modification first, and its cursor keeps the watermark. |
| Traversals.FollowedTraversal | src/index/query.rs:160-253 | All pages of a traversal use the first page's revision and none reads an Index below it. |
| Traversals.NoNodeTwice | src/index/query.rs:160-253 | No node is delivered twice, whatever is committed and synchronised between the pages. |
| Traversals.NothingNewer | src/index/query.rs:193-218 | Every delivered node had, when read, no modification after the watermark. |
| Traversals.PageInOrder | src/index/query.rs:193-232 | The rows of a page come newest modification first and at the same revision in ascending identity, none after the watermark. |
| Traversals.ListedInOrder | src/index/query.rs:193-232 | So do the rows of all pages together, across commits. |
| Traversals.RefusedCursors | src/index/query.rs:167-192 | Which cursors are refused. |
| Traversals.UntouchedDelivered | src/index/query.rs:160-253 | A traversal followed to its end delivers every node no commit touched after the watermark. |
| Traversals.IssuedAdmitted | src/index/query.rs:167-186 | Every cursor it issues passes its own validation, now and at any later Index revision. |
| TraversalRuns.RunNoNodeTwice | src/index/query.rs:160-253 | The same over whole runs, with commits, prunes, failures and rebuilds between the pages. |
| TraversalRuns.RunUntouchedDelivered | src/index/query.rs:160-253 | Over whole runs, each node of the final store not modified since the watermark is delivered. |
| Cursors.EncodeCursor | src/api.rs:139-158 | The digit loop produces the lower-case hexadecimal of the payload's JSON bytes. |
| Cursors.CursorRoundTrip | src/api.rs:139-190 | Decoding an issued token gives the same payload exactly for its own collection and within the length limit; anything else is a conflict. |
| Cursors.IssuedTokenFits | src/api.rs:164 | Tokens made of a collection name and at most three keys of at most 255 bytes without control characters are within the limit and round-trip. |
| Tokens.IdRoundTrip | src/id.rs:51-65 | The hyphenated text of an identity reads back as that identity. |
| Tokens.NodesTokenRoundTrip | src/index/query.rs:160-253 | The token of a node traversal, with its printed revision and identity, decodes to the cursor it was made of. |
| Tokens.ReadInRange | src/index/query.rs:174-192 | What is read from any token is a UUIDv7 identity and two revisions below 2^63. |
| Tokens.IssuedTokenTaken | src/index/query.rs:160-253 | Every token a traversal issues is decoded to the issued cursor and admitted, at that Index and at any later one. |
| Tokens.ListNodes | src/index/query.rs:160-253 | From token to token: succeeds exactly when the token decodes for this collection, passes the range checks and is admitted; the page is the specified one and its next token the printed one. |
| Tokens.IdentityTokenTaken | src/record_store/stable_scan.rs:59-117 | The token behind an issued identity or a node is taken back with that identity. |
| Tokens.PropertyTokenTaken | src/record_store/stable_scan.rs:120-169 | In every reachable state the token behind any property is taken back with its key. |
| Tokens.RelationshipTokenTaken | src/record_store/stable_scan.rs:233-240 | In every reachable state the token behind any relationship is taken back with that relationship. |
| Cursors.ValidKeysAreShort | src/record_store/operations.rs:998-1010 | Every key validate_key accepts is such a text. |
| Cursors.JsonRoundTrip | src/api.rs:139-190 | Reading the JSON document back gives the payload, whatever its texts. |
| Cursors.MalformedRefused | src/api.rs:160-184 | Empty, over-long and odd tokens and any character but hexadecimal digits and plus signs are refused. |
| Cursors.OtherVersionsRefused | src/api.rs:185-189 | Tokens of another version are refused. |
| Cursors.HexIsLowerCase | src/api.rs:151-156 | Issued tokens are lower-case, two digits a byte. |
| Cursors.Utf8RoundTrip | src/api.rs:151-156 | Decoding the UTF-8 bytes of a text gives the text. |
| Migration.RecordFile.ConvertRelationships | src/record_store/schema.rs:96-135 | The copying loop succeeds exactly when every joined row meets the new foreign keys and stays unique; otherwise nothing changes. |
| Migration.RecordFile.Migrate | src/record_store/migrations.rs:6-117 | Succeeds exactly on the files described, with the described result; any failure rolls everything back, with the error of the first check that fails. |
| Migration.MigrationKeepsFacts | src/record_store/schema.rs:96-135 | Every relationship keeps its row id, key and both revisions and gets the identities of its endpoints; none is dropped, added or merged, every endpoint is in the ledger, which is the old one or the identities of all nodes; the metadata say version 5 with the old revision; all other tables are unchanged. |
| Migration.MigrationSucceeds | src/record_store/migrations.rs:9-37 | A file in the old form migrates exactly when every property, relationship and replacement resolves, its metadata name its version and a reader from 1 up to it and, for version 4, its ledger covers every endpoint. |
| Migration.FreshIsEmpty | src/record_store/migrations.rs:40-64 | A file without tables becomes an empty store of version 5 at revision 0. |
| Migration.JoinLosesDangling | src/record_store/migrations.rs:9-24 | The join alone loses rows exactly when a reference dangles, which is what the check before it rules out. |
| Migration.TuplesStayUnique | src/record_store/schema.rs:104-112 | Distinct tuples of row ids become distinct tuples of identities. |
| Migration.MigratedRelationships | src/record_store/schema.rs:96-135 | In canonical terms the migrated relationships are exactly the resolved old ones, each with its own revisions. |
| Migration.MigratedStore | src/record_store/migrations.rs:73-117 | The migrated store meets the current schema, and passes the ledger check unless a version 4 ledger was incomplete. |

## Left out

- Cursors.DecodeCursor: reads only the JSON layout that the encoder writes. The code also takes other layouts of the same document, so for tokens the encoder did not issue the model refuses more.
- Scan.StableReadSnapshot.Payload: takes the continuation key as a value or as unreadable. `Tokens` prints and reads those keys and shows that every issued token comes back, but the stable pages are not run from token to token as `Tokens.ListNodes` is.
- Traversals.ListNodesCursor: takes the decoded cursor; the two 64-bit range checks at src/index/query.rs:185-192 are in `Tokens.ListNodes`, which requires an Index revision below 2^63, the largest SQLite stores, and is exact about what `Tokens.ParseId` and `Cursors.DecodeCursor` read.
- Tokens.ParseId: reads hyphenated identities, the form the code prints. The UUID crate also takes the unhyphenated, braced and URN spellings, so for tokens the encoder did not issue the model refuses more.
- Replay.ConsistentHolds: the CHECK that ties `value_kind` to the value columns (src/record_store/schema.rs:33-40) is about the encoding of values, which carry their kind here; those of the metadata and journal tables are not included either.
- Libraries.Library.OpenExisting: assumes the readable files come from one history; an older copy of the record file put back over a newer one, with commits made on top of it, is outside the model.
- SQLite itself: write-ahead log, busy timeout, pragmas, integrity check and page format; only the constraints and cascades of the schema text are used.
- Several processes on one library; threads of one process are covered by the lock-protected steps.
- The real SHA-256 and serde formats of manifests and segments, their format-version fields and the recovery notes.
- Deliberately forged manifests: a manifest is the last one saved, lost, or unreadable.
- The content projection (documents, snippets, full-text search, backlinks), graph and orphan queries, OFFSET pages, the two definition pages of the stable scan and the status records: easy members or unrelated rules.
- The row counts compared by `validate_projection` when an Index candidate is built.
- Inside `PropertyValue::validate`, date parsing and value encoding: a value carries its verdict.
- The storage boundary checks of `src/security.rs` that run before each writing call.
- The generation of identities: they are parameters of creation, and `create_node` and `create_node_with_id` are creation of a list of one.
- Integer widths of revisions, generations and counts.
- Extra tables that versions 2 and 3 may hold; they are not read or written.
- Stored values matching the expected kind of a definition: registration does not check existing facts, so this is not an invariant of the code.
- The test-only switches that make the next catch-up or purge barrier fail; running out of file operations has the same effect.
