/** Opening a library: `CoreState::open_existing`, `RecoveryManager::reconstruct` and
    `IndexStore::open_for_core` over every combination of missing, damaged, stale and ahead
    files, with power failing after any file operation. */
module Libraries {
  import opened Model
  import opened Projection
  import opened Replay
  import opened RecordStores
  import opened Index
  import opened IndexStores
  import opened Recovery
  import opened Chain
  import opened Faithful
  import opened RecoveryManagers
  import opened Opening

  class Library {
    var record: RecordFile
    var index: IndexFile
    const recovery: RecoveryManager

    constructor (recordFile: RecordFile, indexFile: IndexFile, manager: RecoveryManager)
      ensures record == recordFile && index == indexFile && recovery == manager
    {
      record, index, recovery := recordFile, indexFile, manager;
    }

    ghost predicate Sound(h: seq<Canon>)
      reads this, recovery
    {
      Residue(h, record, recovery.disk, index)
    }

    // ---------- reconstruction ----------

    /** The candidate, built beside the live files. */
    method PlanCandidate(ghost h: seq<Canon>) returns (r: Result<Candidate>)
      requires Sound(h)
      ensures r == RebuildOf(recovery.disk)
    {
      var loaded := LoadManifest(recovery.disk);
      if loaded.Err? {
        return Err(loaded.error);
      }
      var m := loaded.value;
      var plan := recovery.BestPlanOf(m);
      if plan.None? {
        return Err(CorruptStore);
      }
      BestPlanSound(recovery.disk, m);
      assert BaselineTrue(h, plan.value.baseline);
      var candidate := recovery.BuildCandidate(plan.value);
      if candidate.Err? {
        return Err(candidate.error);
      }
      return Ok(Candidate(candidate.value, KeptBarrier(m, plan.value.recovered)));
    }

    /** A damaged file is moved aside, then the candidate is moved in. */
    method Promote(candidate: Store) returns (ok: bool)
      modifies this`record, recovery`writesLeft
      ensures ok ==> record == Readable(candidate)
      ensures !ok ==> record == old(record) || record == NoRecord
      ensures ok <==> PromotionCost(old(record)) <= old(recovery.writesLeft)
      ensures ok ==> recovery.writesLeft == old(recovery.writesLeft) - PromotionCost(old(record))
    {
      if !record.NoRecord? {
        ok := recovery.Spend();
        if !ok {
          return;
        }
        record := NoRecord;
      }
      ok := recovery.Spend();
      if ok {
        record := Readable(candidate);
      }
    }

    /** `reconstruct`: the candidate replaces the record file, then the material is reset. It
        succeeds exactly when there is a candidate and enough file operations complete. */
    method Reconstruct(ghost h: seq<Canon>) returns (r: Result<nat>)
      requires Sound(h)
      modifies this`record, recovery
      ensures Sound(h)
      ensures r.Ok? <==> RebuildOf(old(recovery.disk)).Ok?
                         && RebuildCost(old(record), old(recovery.disk)) <= old(recovery.writesLeft)
      ensures r.Ok? ==>
        && record == Readable(RebuildOf(old(recovery.disk)).value.store) && r.value == record.store.canon.revision
        && recovery.disk == RebuiltDisk(old(recovery.disk))
        && recovery.writesLeft == old(recovery.writesLeft) - RebuildCost(old(record), old(recovery.disk))
    {
      var candidate := PlanCandidate(h);
      if candidate.Err? {
        return Err(candidate.error);
      }
      var store := candidate.value.store;
      RebuiltSound(h, recovery.disk);
      var promoted := Promote(store);
      if !promoted {
        return Err(StoreUnavailable);
      }
      var reopened := new RecordStore.FromFile(store);
      var reset := recovery.ResetToSingleBaseline(reopened, candidate.value.barrier);
      if reset.Err? {
        return Err(reset.error);
      }
      return Ok(store.canon.revision);
    }

    // ---------- opening ----------

    /** Reconstruct and open what came of it. */
    method OpenRebuilt(ghost h: seq<Canon>) returns (r: Result<Store>)
      requires Sound(h) && NeedsRebuild(record, recovery.disk)
      modifies this`record, recovery
      ensures Sound(h)
      ensures r.Ok? <==> RebuildOf(old(recovery.disk)).Ok?
                         && RebuildCost(old(record), old(recovery.disk)) <= old(recovery.writesLeft)
      ensures r.Ok? ==>
        && r.value == RebuildOf(old(recovery.disk)).value.store && record == Readable(r.value) && StoreOf(h, r.value)
        && recovery.disk == RebuiltDisk(old(recovery.disk))
        && recovery.writesLeft == old(recovery.writesLeft) - RebuildCost(old(record), old(recovery.disk))
    {
      RebuildTrue(h, recovery.disk);
      var rebuilt := Reconstruct(h);
      if rebuilt.Err? {
        return Err(rebuilt.error);
      }
      return OpenStore(record.store);
    }

    /** The record part of `open_existing`: reconstruct a missing or unreadable file when there
        is recovery material, create a new store when there is neither. */
    method OpenRecord(ghost h: seq<Canon>) returns (r: Result<Store>)
      requires Sound(h)
      modifies this`record, recovery
      ensures Sound(h)
      ensures old(record).NewerRecord? || (Unopenable(old(record)) && old(recovery.disk).manifest.NoManifest?) ==>
        && r == Err(if old(record).NewerRecord? then UnsupportedSchema else CorruptStore)
        && record == old(record) && recovery.disk == old(recovery.disk)
      ensures r.Ok? <==> OpenedStore(old(record), old(recovery.disk)).Some?
                         && OpenedCost(old(record), old(recovery.disk)) <= old(recovery.writesLeft)
      ensures r.Ok? ==>
        && Some(r.value) == OpenedStore(old(record), old(recovery.disk)) && record == Readable(r.value)
            && StoreOf(h, r.value)
        && recovery.disk == OpenedDisk(old(record), old(recovery.disk))
        && recovery.writesLeft == old(recovery.writesLeft) - OpenedCost(old(record), old(recovery.disk))
    {
      if record.NoRecord? && !recovery.disk.manifest.NoManifest? {
        r := OpenRebuilt(h);
        return;
      }
      match record {
        case NoRecord =>
          EmptyStoreOf(h);
          OwnLeft(h, Store(EMPTY_CANON, []));
          record := Readable(Store(EMPTY_CANON, []));
          return Ok(Store(EMPTY_CANON, []));
        case NewerRecord => return Err(UnsupportedSchema);
        case Readable(file) =>
          ghost var good :| LeftBy(h, file, good);
          LeftOpens(h, file, good);
          var store := OpenStore(file);
          if store.Ok? {
            OwnLeft(h, store.value);
            record := Readable(store.value);
            return store;
          }
        case DamagedRecord =>
      }
      if recovery.disk.manifest.NoManifest? {
        return Err(CorruptStore);
      }
      r := OpenRebuilt(h);
    }

    /** `ensure_initialized`, then `reconcile_startup`. */
    method SettleRecovery(ghost h: seq<Canon>, records: RecordStore) returns (r: Result<()>)
      requires Sound(h) && record == Readable(records.db) && StoreOf(h, records.db)
      modifies recovery
      ensures Sound(h)
      ensures r.Ok? <==> SettleCost(old(recovery.disk), records.db) <= old(recovery.writesLeft)
      ensures r.Ok? ==> recovery.disk == SettledDisk(old(recovery.disk), records.db)
                        && recovery.disk.manifest.Saved?
                        && recovery.disk.manifest.manifest.revision == records.db.canon.revision
    {
      ResetSound(h, records.db, recovery.disk, None);
      var initialized := recovery.EnsureInitialized(records);
      if initialized.Err? {
        return Err(initialized.error);
      }
      // The manifest was loadable or has just been made.
      var loaded := LoadManifest(recovery.disk);
      assert loaded.Ok?;
      var m := loaded.value;
      if m.revision > records.db.canon.revision {
        ResetSound(h, records.db, recovery.disk, m.barrier);
        r := recovery.ResetToSingleBaseline(records, m.barrier);
      } else {
        ghost var before := recovery.disk;
        r := recovery.CatchUp(records);
        CatchUpSound(h, records.db, before, recovery.disk);
      }
    }

    /** `open_for_core`: a missing or unreadable Index is rebuilt, any other reconciled. */
    method OpenIndex(ghost h: seq<Canon>, records: RecordStore, files: Promotion) returns (r: Result<()>)
      requires Sound(h) && StoreOf(h, records.db)
      modifies this`index
      ensures Sound(h)
      ensures r.Ok? <==> IndexOpens(old(index), records.db, files)
      ensures r.Ok? ==> index == Indexed(Project(records.db.canon))
    {
      ProjectionTracks(h, records.db);
      match index {
        case Indexed(tables) =>
          var store := new IndexStore(tables);
          var outcome := store.Reconcile(records, files);
          index := Indexed(store.tables);
          if outcome.Err? {
            assert Project(EMPTY_CANON) == EMPTY_TABLES;
            return Err(outcome.error);
          }
          IndexSound(h, records.db, tables, store.tables);
          return Ok(());
        case _ =>
          var candidate := FillCandidate(records.db.canon);
          if index.DamagedIndex? && !files.park {
            return Err(StoreUnavailable);
          }
          if !files.promote {
            index := if files.restore then index else NoIndex;
            return Err(StoreUnavailable);
          }
          index := Indexed(candidate);
          if !files.open {
            return Err(StoreUnavailable);
          }
          return Ok(());
      }
    }

    /** `open_existing`. Whatever the three files are, and wherever power fails on the way, the
        files stay those of one history. It succeeds exactly when `Opens` says, and then the
        recovery material and the Index are at the revision of the live store, and the Index is
        its full projection. */
    method OpenExisting(ghost h: seq<Canon>, files: Promotion) returns (r: Result<()>)
      requires Sound(h)
      modifies this, recovery
      ensures Sound(h)
      ensures r.Ok? <==> Opens(old(record), old(recovery.disk), old(index), old(recovery.writesLeft), files)
      ensures r.Ok? ==> Opened(h, record, recovery.disk, index)
      ensures r.Ok? ==>
        var s := OpenedStore(old(record), old(recovery.disk)).value;
        record == Readable(Prune(s)) && recovery.disk == SettledDisk(OpenedDisk(old(record), old(recovery.disk)), s)
      ensures old(record).NewerRecord? || (Unopenable(old(record)) && old(recovery.disk).manifest.NoManifest?) ==>
        && r == Err(if old(record).NewerRecord? then UnsupportedSchema else CorruptStore)
        && record == old(record) && recovery.disk == old(recovery.disk) && index == old(index)
    {
      var store := OpenRecord(h);
      if store.Err? {
        return Err(store.error);
      }
      StoreOpens(h, store.value);
      var records := new RecordStore.FromFile(store.value);
      var settled := SettleRecovery(h, records);
      if settled.Err? {
        return Err(settled.error);
      }
      var indexed := OpenIndex(h, records, files);
      if indexed.Err? {
        return Err(indexed.error);
      }
      PruneStoreOf(h, records.db);
      records.PruneChangeJournal();
      OwnLeft(h, records.db);
      record := Readable(records.db);
      return Ok(());
    }
  }
}
