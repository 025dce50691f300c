/** The `CoreState` object: the calls that commit and then bring the derived stores along,
    with other threads running whenever a call holds no lock. */
module CoreStates {
  import opened Model
  import opened Operations
  import opened Projection
  import opened RecordStores
  import opened Index
  import opened IndexStores
  import opened Recovery
  import opened Rotation
  import opened RecoveryManagers
  import opened Core
  import opened Threads

  /** How a batch ends: refused, committed with its purge barrier missing, or committed. */
  datatype BatchResult =
    | Rejected(error: Error)
    | PostCommitFailure(revision: nat, reason: Error)
    | Applied(commitment: Commitment)

  predicate HoldsPurges(mutations: seq<Mutation>) {
    exists i :: 0 <= i < |mutations| && mutations[i].PurgeNode?
  }

  /** The barrier for `revision` completes on what the other threads left. */
  predicate BarrierCompletes(left: (Store, Tables, Disk), revision: nat, writes: nat) {
    left.0.canon.revision == revision && ResetCompletes(left.2, left.0, writes)
  }

  /** What the recovery half of a call leaves: the barrier's reset, or a catch-up, completed or not. */
  ghost predicate RecoverySynced(left: (Store, Tables, Disk), barrier: Option<nat>, writes: nat, d: Disk) {
    if barrier.Some? then d == ResetDisk(left.2, left.0, barrier)
    else CatchUpLeaves(left.2, left.0, CatchUpCompletes(left.2, left.0, writes), d)
  }

  /** What the Index half leaves: the projection, and a pruned journal, exactly when it succeeds. */
  predicate IndexSynced(left: (Store, Tables, Disk), connected: bool, failurePoint: Option<FailurePoint>,
                        files: Promotion, store: Store, tables: Tables) {
    if connected && ReconcileCompletes(left.0, left.1, failurePoint, files)
    then store == Prune(left.0) && tables == Project(left.0.canon)
    else store == left.0 && (tables == left.1 || tables == EMPTY_TABLES)
  }

  class CoreState {
    const records: RecordStore
    const index: IndexStore
    const recovery: RecoveryManager

    /** The steps taken so far, by this and by other threads. */
    ghost var run: seq<World>

    ghost predicate Valid()
      reads this, records, index, recovery
    {
      IsRun(run) && Holds(run[|run| - 1], records.db, index.tables, recovery.disk)
    }

    constructor (recordStore: RecordStore, indexStore: IndexStore, manager: RecoveryManager, ghost start: World)
      requires Inv(start) && Holds(start, recordStore.db, indexStore.tables, manager.disk)
      ensures Valid() && records == recordStore && index == indexStore && recovery == manager
    {
      records, index, recovery := recordStore, indexStore, manager;
      SingleRun(start);
      run := [start];
    }

    /** No lock is held: other threads run. */
    method Release(others: Others)
      requires Valid() && Lawful(others)
      modifies this`run, records`db, index`tables, recovery`disk
      ensures Valid() && old(run) <= run
      ensures (records.db, index.tables, recovery.disk)
          == others(old(records.db), old(index.tables), old(recovery.disk))
    {
      run := AfterOthers(run, others);
      var (store, tables, disk) := others(records.db, index.tables, recovery.disk);
      records.db := store;
      index.tables := tables;
      recovery.disk := disk;
    }

    /** The commit, under the Record Store lock. */
    method CommitBatch(mutations: seq<Mutation>) returns (r: Result<Commitment>)
      requires Valid()
      modifies this`run, records
      ensures Valid() && old(run) <= run
      ensures match Commit(old(records.db), Batch(mutations))
        case Err(error) => r == Err(error) && run == old(run) && records.db == old(records.db)
        case Ok(committed) =>
          && r.Ok? && records.db == committed && r.value.revision == committed.canon.revision
          && CommittedAt(run, |old(run)|, mutations)
    {
      r := records.ApplyBatch(mutations);
      if r.Ok? {
        run := AfterCommit(run, mutations);
      }
    }

    /** `sync_recovery_best_effort`: a failed catch-up stops somewhere and is forgotten. */
    method SyncRecovery()
      requires Valid()
      modifies this`run, recovery
      ensures Valid() && old(run) <= run
      ensures RecoverySynced((records.db, index.tables, old(recovery.disk)), None,
                             old(recovery.writesLeft), recovery.disk)
      ensures CatchUpCompletes(old(recovery.disk), records.db, old(recovery.writesLeft)) ==>
        CompletedAt(run, |old(run)|)
    {
      LastDirectory(run);
      ghost var before := recovery.disk;
      var r := recovery.CatchUp(records);
      run := AfterCatchUp(run, records.db, index.tables, before, recovery.disk, r.Ok?);
    }

    /** `sync_index_best_effort`: the journal is pruned only behind a successful reconcile. */
    method SyncIndex(files: Promotion)
      requires Valid()
      modifies this`run, records, index
      ensures Valid() && old(run) <= run
      ensures IndexSynced((old(records.db), old(index.tables), recovery.disk), old(index.connected),
                          old(index.failurePoint), files, records.db, index.tables)
      ensures old(index.connected) && old(index.tables.applied) == old(records.db).canon.revision ==>
        records.db == Prune(old(records.db)) && index.tables == Project(old(records.db).canon)
    {
      ghost var before := index.tables;
      var followed := FollowIndex(files);
      run := AfterIndex(run, records.db, before, recovery.disk, index.tables, followed);
      if followed {
        records.PruneChangeJournal();
      }
    }

    /** The reconcile in it. */
    method FollowIndex(files: Promotion) returns (followed: bool)
      requires Valid()
      modifies index
      ensures followed <==>
        && old(index.connected)
        && ReconcileCompletes(records.db, old(index.tables), old(index.failurePoint), files)
      ensures if followed then index.tables == Project(records.db.canon)
        else index.tables == old(index.tables) || index.tables == EMPTY_TABLES
    {
      var r := index.Reconcile(records, files);
      followed := r.Ok?;
      if followed {
        ReconciledFollows(run, index.tables);
      }
    }

    /** `sync_derived_best_effort`: a catch-up of the recovery directory, which it leaves as `d`, and
        then the Index follows what the other threads have left. */
    method SyncDerived(files: Promotion, others: Others) returns (ghost d: Disk)
      requires Valid() && Lawful(others)
      modifies this`run, records, index, recovery
      ensures Valid() && old(run) <= run
      ensures CatchUpCompletes(old(recovery.disk), old(records.db), old(recovery.writesLeft)) ==>
        CompletedAt(run, |old(run)|)
      ensures RecoverySynced((old(records.db), old(index.tables), old(recovery.disk)), None,
                             old(recovery.writesLeft), d)
      ensures IndexSynced(others(old(records.db), old(index.tables), d), old(index.connected),
                          old(index.failurePoint), files, records.db, index.tables)
    {
      SyncRecovery();
      d := recovery.disk;
      Release(others);
      SyncIndex(files);
    }

    /** The purge barrier, under the Record Store and recovery locks. */
    method PurgeBarrier(revision: nat) returns (r: Result<()>)
      requires Valid()
      modifies this`run, recovery
      ensures Valid() && old(run) <= run
      ensures r.Ok? <==>
        && records.db.canon.revision == revision
        && ResetCompletes(old(recovery.disk), records.db, old(recovery.writesLeft))
      ensures ResetLeaves(old(recovery.disk), records.db, Some(revision), r.Ok?, recovery.disk)
      ensures r.Ok? ==> CompletedAt(run, |old(run)|)
    {
      ghost var before := recovery.disk;
      r := recovery.CompletePurgeBarrier(records, revision);
      run := AfterReset(run, records.db, index.tables, before, Some(revision), recovery.disk, r.Ok?);
    }

    /** The purge branch of `apply_batch`: the barrier, and then the Index. */
    method FinishPurge(mutations: seq<Mutation>, revision: nat, ghost committed: nat, files: Promotion, others: Others)
      returns (r: Result<()>)
      requires Valid() && Lawful(others) && CommittedAt(run, committed, mutations)
      modifies this`run, records, index, recovery
      ensures Valid() && old(run) <= run
      ensures r.Ok? <==>
        BarrierCompletes((old(records.db), old(index.tables), old(recovery.disk)), revision, old(recovery.writesLeft))
      ensures r.Ok? ==> forall id | PurgeNode(id) in mutations :: Forgotten(run, id)
      ensures r.Ok? ==>
        IndexSynced(others(old(records.db), old(index.tables),
                           ResetDisk(old(recovery.disk), old(records.db), Some(revision))),
                    old(index.connected), old(index.failurePoint), files, records.db, index.tables)
    {
      ghost var done := |run|;
      r := PurgeBarrier(revision);
      if r.Ok? {
        Release(others);
        SyncIndex(files);
        AllForgotten(run, committed, done, mutations);
      }
    }

    /** `apply_batch`. A batch is refused exactly when the store does not permit it, and then
        nothing happens; a permitted one is committed whatever happens to the derived stores. It is
        reported as applied exactly when it holds no purge or the barrier finds the store at the
        committed revision and completes, and then the recovery directory was brought along, to `d`,
        the Index behind it, and no plan obtainable from the manifest holds a node it purged. */
    method ApplyBatch(mutations: seq<Mutation>, files: Promotion, others: Others)
      returns (r: BatchResult, ghost d: Disk)
      requires Valid() && Lawful(others)
      modifies this`run, records, index, recovery
      ensures Valid() && old(run) <= run
      ensures match Commit(old(records.db), Batch(mutations))
        case Err(error) => r == Rejected(error) && run == old(run)
        case Ok(committed) =>
          && !r.Rejected? && CommittedAt(run, |old(run)|, mutations)
          && (if r.Applied? then r.commitment.revision else r.revision) == committed.canon.revision
          && var left := others(committed, old(index.tables), old(recovery.disk));
             var barrier := if HoldsPurges(mutations) then Some(committed.canon.revision) else None;
             && (r.Applied? <==> (barrier.Some? ==> BarrierCompletes(left, barrier.value, old(recovery.writesLeft))))
             && (r.Applied? ==>
                   && RecoverySynced(left, barrier, old(recovery.writesLeft), d)
                   && IndexSynced(others(left.0, left.1, d), old(index.connected), old(index.failurePoint), files,
                                  records.db, index.tables))
      ensures r.Applied? ==> forall id | PurgeNode(id) in mutations :: Forgotten(run, id)
    {
      ghost var committed := |run|;
      var commit := CommitBatch(mutations);
      if commit.Err? {
        return Rejected(commit.error), recovery.disk;
      }
      Release(others);
      if HoldsPurges(mutations) {
        d := ResetDisk(recovery.disk, records.db, Some(commit.value.revision));
        var finished := FinishPurge(mutations, commit.value.revision, committed, files, others);
        if finished.Err? {
          return PostCommitFailure(commit.value.revision, finished.error), recovery.disk;
        }
      } else {
        d := SyncDerived(files, others);
      }
      r := Applied(commit.value);
    }

    /** `reconcile_recovery`, without the status it reports. */
    method ReconcileRecovery() returns (r: Result<()>)
      requires Valid()
      modifies this`run, recovery
      ensures Valid() && old(run) <= run
      ensures r.Ok? <==> DirectoryReconciles(old(recovery.disk), records.db, old(recovery.writesLeft))
      ensures r.Ok? ==> recovery.disk == ReconciledDisk(old(recovery.disk), records.db)
      ensures LoadManifest(old(recovery.disk)).Err? ==> recovery.disk == old(recovery.disk)
    {
      LastDirectory(run);
      r := ReconcileDirectory();
      run := AfterRecovery(run, recovery.disk);
    }

    /** The directory's part of it. */
    method ReconcileDirectory() returns (r: Result<()>)
      requires LoadManifest(recovery.disk).Ok? ==> LoadManifest(recovery.disk).value.baselines != []
      modifies recovery
      ensures RecoveryOutcome(old(recovery.disk), records.db, recovery.disk)
      ensures r.Ok? <==> DirectoryReconciles(old(recovery.disk), records.db, old(recovery.writesLeft))
      ensures r.Ok? ==> recovery.disk == ReconciledDisk(old(recovery.disk), records.db)
      ensures LoadManifest(old(recovery.disk)).Err? ==> recovery.disk == old(recovery.disk)
    {
      r := recovery.Reconcile(records);
    }
  }
}
