/** The `RecoveryManager` object: the recovery directory and the methods that rewrite it.
    `writesLeft` is the number of file operations that still complete; when it is used up the
    running method stops where it is, as after a power failure or an I/O error. */
module RecoveryManagers {
  import opened Model
  import opened Projection
  import opened Replay
  import opened RecordStores
  import opened Recovery
  import opened Rotation

  lemma SlotsReset(baselines: map<Slot, BaselineFile>, snapshot: BaselineFile)
    ensures baselines[SlotA := snapshot] - {SlotB} == map[SlotA := snapshot]
    ensures SlotB !in baselines ==> baselines[SlotA := snapshot] == map[SlotA := snapshot]
  {
    forall slot: Slot | slot in baselines ensures slot == SlotA || slot in {SlotB} {}
  }

  class RecoveryManager {
    var disk: Disk
    var writesLeft: nat

    constructor (directory: Disk, writes: nat)
      ensures disk == directory && writesLeft == writes
    {
      disk, writesLeft := directory, writes;
    }

    // ---------- single file operations ----------

    /** Whether one more file operation completes. */
    method Spend() returns (ok: bool)
      modifies this`writesLeft
      ensures ok <==> old(writesLeft) > 0
      ensures writesLeft == old(writesLeft) - (if ok then 1 else 0)
    {
      ok := writesLeft > 0;
      if ok {
        writesLeft := writesLeft - 1;
      }
    }

    /** `create_baseline`: back up, validate the copy, move it into the slot. */
    method CreateBaseline(records: RecordStore, slot: Slot) returns (r: Result<BaselineArtifact>)
      modifies this
      ensures r.Ok? ==> BacksUp(records.db) && r.value == BaselineOf(slot, records.db)
                        && disk == old(disk).(baselines := old(disk).baselines[slot := Snapshot(records.db)])
      ensures r.Err? ==> disk == old(disk)
      ensures r.Err? ==> r.error == if BacksUp(records.db) then StoreUnavailable else CorruptStore
      ensures r.Ok? <==> BacksUp(records.db) && old(writesLeft) > 0
      ensures r.Ok? ==> writesLeft == old(writesLeft) - 1
    {
      if !BacksUp(records.db) {
        return Err(CorruptStore);
      }
      var ok := Spend();
      if !ok {
        return Err(StoreUnavailable);
      }
      disk := disk.(baselines := disk.baselines[slot := Snapshot(records.db)]);
      return Ok(BaselineOf(slot, records.db));
    }

    method SaveManifest(m: Manifest) returns (ok: bool)
      modifies this
      ensures disk == if ok then old(disk).(manifest := Saved(m)) else old(disk)
      ensures ok <==> old(writesLeft) > 0
      ensures ok ==> writesLeft == old(writesLeft) - 1
    {
      ok := Spend();
      if ok {
        disk := disk.(manifest := Saved(m));
      }
    }

    /** `remove_unreferenced_segments`, one file at a time. */
    method RemoveUnreferencedSegments(referenced: set<SegmentName>) returns (ok: bool)
      modifies this
      ensures disk == old(disk).(segments := disk.segments)
      ensures CleanedTo(old(disk).segments, referenced, disk.segments)
      ensures ok ==> disk.segments == Retain(old(disk).segments, referenced)
      ensures ok <==> |old(disk).segments.Keys - referenced| <= old(writesLeft)
      ensures ok ==> writesLeft == old(writesLeft) - |old(disk).segments.Keys - referenced|
    {
      var doomed := disk.segments.Keys - referenced;
      while doomed != {}
        invariant disk == old(disk).(segments := disk.segments)
        invariant CleanedTo(old(disk).segments, referenced, disk.segments)
        invariant doomed == disk.segments.Keys - referenced
        invariant writesLeft + |old(disk).segments.Keys - referenced| == old(writesLeft) + |doomed|
        decreases |doomed|
      {
        var name :| name in doomed;
        ok := Spend();
        if !ok {
          return;
        }
        disk := disk.(segments := disk.segments - {name});
        doomed := doomed - {name};
      }
      assert disk.segments == Retain(old(disk).segments, referenced) by {
        forall name | name in disk.segments ensures name in referenced {
          assert name in disk.segments.Keys - referenced || name in referenced;
        }
        assert disk.segments.Keys == Retain(old(disk).segments, referenced).Keys;
      }
      ok := true;
    }

    // ---------- reset and rotation ----------

    /** The loop over old baseline files, of which only slot B can be one to remove. */
    method RemoveOtherBaseline() returns (ok: bool)
      modifies this
      ensures disk == if ok then old(disk).(baselines := old(disk).baselines - {SlotB}) else old(disk)
      ensures ok <==> SlotB !in old(disk).baselines || old(writesLeft) > 0
      ensures ok ==> writesLeft == old(writesLeft) - (if SlotB in old(disk).baselines then 1 else 0)
    {
      ok := true;
      if SlotB in disk.baselines {
        ok := Spend();
        if ok {
          disk := disk.(baselines := disk.baselines - {SlotB});
        }
      } else {
        assert disk.baselines - {SlotB} == disk.baselines;
      }
    }

    /** `reset_to_single_baseline`. */
    method ResetToSingleBaseline(records: RecordStore, barrier: Option<nat>) returns (r: Result<()>)
      modifies this
      ensures r.Ok? ==> BacksUp(records.db) && disk == ResetDisk(old(disk), records.db, barrier)
      ensures r.Err? ==> ResetPassesThrough(old(disk), records.db, barrier, disk)
      ensures r.Ok? <==> ResetCompletes(old(disk), records.db, old(writesLeft))
      ensures r.Ok? ==> writesLeft == old(writesLeft) - ResetCost(old(disk))
    {
      ghost var before := disk;
      var baseline := CreateBaseline(records, SlotA);
      if baseline.Err? {
        return Err(baseline.error);
      }
      var loaded := LoadManifest(disk);
      var m := Manifest(if loaded.Ok? then loaded.value.generation + 1 else 1,
                        records.db.canon.revision, barrier, [baseline.value], []);
      assert m == ResetManifest(before, records.db, barrier);
      var saved := SaveManifest(m);
      if !saved {
        return Err(StoreUnavailable);
      }
      SlotsReset(before.baselines, Snapshot(records.db));
      var removed := RemoveOtherBaseline();
      if !removed {
        return Err(StoreUnavailable);
      }
      assert before.segments.Keys - {} == before.segments.Keys;
      var cleaned := RemoveUnreferencedSegments({});
      if !cleaned {
        return Err(StoreUnavailable);
      }
      return Ok(());
    }

    /** `rotate_baseline`. */
    method RotateBaseline(records: RecordStore, m: Manifest) returns (r: Result<()>)
      requires m.baselines != []
      modifies this
      ensures r.Ok? ==> BacksUp(records.db) && disk == RotateDisk(old(disk), m, records.db)
      ensures r.Err? ==> RotationPassesThrough(old(disk), m, records.db, disk)
      ensures r.Ok? <==> RotateCompletes(old(disk), m, records.db, old(writesLeft))
      ensures r.Ok? ==> writesLeft == old(writesLeft) - RotateCost(old(disk), m, records.db)
    {
      var slot := if !UsesSlot(m.baselines, SlotB) then SlotB else OldestSlot(m.baselines);
      var baseline := CreateBaseline(records, slot);
      if baseline.Err? {
        return Err(baseline.error);
      }
      var baselines := SortAscending(WithoutSlot(m.baselines, slot) + [baseline.value]);
      if |baselines| > 2 {
        baselines := baselines[1..];
      }
      var oldest := OldestRevision(baselines);
      var rotated := Manifest(m.generation + 1, m.revision, m.barrier, baselines, KeepPast(m.segments, oldest));
      assert rotated == RotateManifest(m, records.db);
      var saved := SaveManifest(rotated);
      if !saved {
        return Err(StoreUnavailable);
      }
      var cleaned := RemoveUnreferencedSegments(Referenced(rotated));
      if !cleaned {
        return Err(StoreUnavailable);
      }
      return Ok(());
    }

    // ---------- catching up ----------

    /** `write_segment`. */
    method WriteSegment(patch: Patch) returns (r: Result<SegmentArtifact>)
      modifies this
      ensures disk == if r.Ok?
        then old(disk).(segments := old(disk).segments[NameOf(patch) := Segment(patch.from, patch.target, patch)])
        else old(disk)
      ensures r.Ok? ==> r.value == SegmentOf(patch) && writesLeft == old(writesLeft) - 1
      ensures r.Ok? <==> old(writesLeft) > 0
    {
      var wrote := Spend();
      if !wrote {
        return Err(StoreUnavailable);
      }
      disk := disk.(segments := disk.segments[NameOf(patch) := Segment(patch.from, patch.target, patch)]);
      return Ok(SegmentOf(patch));
    }

    /** The branch of `catch_up` that extends the chain: segment, manifest, and a rotation when
        64 segments have gathered past the newest baseline. */
    method ExtendChain(records: RecordStore, m: Manifest, patch: Patch) returns (r: Result<()>)
      requires m.baselines != [] && disk.manifest == Saved(m)
      modifies this
      ensures r.Ok? ==> disk == ExtendDisk(old(disk), m, patch, records.db)
      ensures r.Err? ==> ExtensionPassesThrough(old(disk), m, patch, records.db, disk)
      ensures r.Ok? <==> ExtensionCompletes(old(disk), m, patch, records.db, old(writesLeft))
      ensures r.Ok? ==> writesLeft == old(writesLeft) - ExtensionCost(old(disk), m, patch, records.db)
    {
      var artifact := WriteSegment(patch);
      if artifact.Err? {
        return Err(artifact.error);
      }
      var extended := Manifest(m.generation + 1, patch.target, m.barrier, m.baselines, m.segments + [artifact.value]);
      var saved := SaveManifest(extended);
      if !saved {
        return Err(StoreUnavailable);
      }
      var newest := NewestRevision(extended.baselines);
      if |KeepPast(extended.segments, newest)| >= SEGMENTS_PER_BASELINE {
        r := RotateBaseline(records, extended);
      } else {
        return Ok(());
      }
    }

    /** `catch_up`. */
    method CatchUp(records: RecordStore) returns (r: Result<()>)
      requires LoadManifest(disk).Ok? ==> LoadManifest(disk).value.baselines != []
      modifies this
      ensures r.Ok? ==> LoadManifest(old(disk)).Ok? && disk == CatchUpDisk(old(disk), records.db)
      ensures r.Err? ==> CatchUpPassesThrough(old(disk), records.db, disk)
      ensures LoadManifest(old(disk)).Err? ==> r == Err(CorruptStore) && disk == old(disk)
      ensures r.Ok? <==> CatchUpCompletes(old(disk), records.db, old(writesLeft))
      ensures r.Ok? ==> writesLeft == old(writesLeft) - CatchUpCost(old(disk), records.db)
    {
      var loaded := LoadManifest(disk);
      if loaded.Err? {
        return Err(loaded.error);
      }
      var m := loaded.value;
      var live := records.db.canon.revision;
      if m.revision == live {
        return Ok(());
      }
      if m.revision > live {
        r := ResetToSingleBaseline(records, m.barrier);
        return;
      }
      var delta := records.ProjectionDeltaSince(m.revision);
      match delta {
        case Current(_) => return Ok(());
        case Unavailable(_) => r := ResetToSingleBaseline(records, m.barrier);
        case Available(patch) =>
          if HoldsPurge(patch) {
            r := ResetToSingleBaseline(records, Some(patch.target));
          } else {
            r := ExtendChain(records, m, patch);
          }
      }
    }

    /** `complete_purge_barrier`. */
    method CompletePurgeBarrier(records: RecordStore, revision: nat) returns (r: Result<()>)
      modifies this
      ensures ResetLeaves(old(disk), records.db, Some(revision), r.Ok?, disk)
      ensures records.db.canon.revision != revision ==> r == Err(CorruptStore) && unchanged(this)
      ensures r.Ok? <==> records.db.canon.revision == revision && ResetCompletes(old(disk), records.db, old(writesLeft))
      ensures r.Ok? ==> writesLeft == old(writesLeft) - ResetCost(old(disk))
    {
      if records.db.canon.revision != revision {
        return Err(CorruptStore);
      }
      r := ResetToSingleBaseline(records, Some(revision));
    }

    /** `ensure_initialized`. */
    method EnsureInitialized(records: RecordStore) returns (r: Result<()>)
      modifies this
      ensures r.Ok? ==> disk == if LoadManifest(old(disk)).Ok? then old(disk)
          else ResetDisk(old(disk), records.db, None)
      ensures r.Err? ==> ResetPassesThrough(old(disk), records.db, None, disk)
      ensures r.Ok? <==> LoadManifest(old(disk)).Ok? || ResetCompletes(old(disk), records.db, old(writesLeft))
      ensures r.Ok? ==>
        writesLeft == old(writesLeft) - (if LoadManifest(old(disk)).Ok? then 0 else ResetCost(old(disk)))
    {
      if LoadManifest(disk).Ok? {
        return Ok(());
      }
      r := ResetToSingleBaseline(records, None);
    }

    /** `reconcile`: rebuild the material when it does not reach its advertised revision. */
    method Reconcile(records: RecordStore) returns (r: Result<()>)
      requires LoadManifest(disk).Ok? ==> LoadManifest(disk).value.baselines != []
      modifies this
      ensures LoadManifest(old(disk)).Err? ==> r == Err(CorruptStore) && disk == old(disk)
      ensures LoadManifest(old(disk)).Ok? ==>
        var m := LoadManifest(old(disk)).value;
        var reaches := BestPlan(old(disk), m).Some? && BestPlan(old(disk), m).value.recovered == m.revision;
        && (r.Ok? ==> disk == if reaches then CatchUpDisk(old(disk), records.db)
            else ResetDisk(old(disk), records.db, m.barrier))
        && (r.Err? ==> if reaches then CatchUpPassesThrough(old(disk), records.db, disk)
                       else ResetPassesThrough(old(disk), records.db, m.barrier, disk))
        && (r.Ok? <==> if reaches then CatchUpCompletes(old(disk), records.db, old(writesLeft))
                       else ResetCompletes(old(disk), records.db, old(writesLeft)))
    {
      var loaded := LoadManifest(disk);
      if loaded.Err? {
        return Err(loaded.error);
      }
      var plan := BestPlanOf(loaded.value);
      if plan.None? || plan.value.recovered != loaded.value.revision {
        r := ResetToSingleBaseline(records, loaded.value.barrier);
        return;
      }
      r := CatchUp(records);
    }

    // ---------- plans ----------

    /** `plan_from_baseline`: take segments until one is missing, damaged or out of place. */
    method PlanOf(m: Manifest, b: BaselineArtifact) returns (plan: Option<Plan>)
      ensures plan == PlanFromBaseline(disk, m, b)
    {
      var store := VerifiedBaseline(disk, b);
      if store.None? {
        return None;
      }
      var segments := SortSegments(m.segments);
      var cursor, patches := b.revision, [];
      var i := 0;
      ghost var whole := Walk(disk, segments, b.revision);
      while i < |segments|
        invariant 0 <= i <= |segments|
        invariant whole == Walked(Walk(disk, segments[i..], cursor).cursor,
            patches + Walk(disk, segments[i..], cursor).patches)
      {
        var artifact := segments[i];
        assert segments[i..][1..] == segments[i + 1..];
        if artifact.through > cursor {
          var patch := if artifact.from != cursor then None else VerifiedSegment(disk, artifact, cursor);
          if patch.None? {
            break;
          }
          ghost var rest := Walk(disk, segments[i + 1..], artifact.through).patches;
          assert patches + ([patch.value] + rest) == (patches + [patch.value]) + rest;
          cursor, patches := artifact.through, patches + [patch.value];
        }
        i := i + 1;
      }
      assert whole == Walked(cursor, patches + []) && patches + [] == patches;
      return Some(Plan(b, store.value, patches, cursor));
    }

    /** `best_plan`: newest baseline first, a later one only when it recovers more. */
    method BestPlanOf(m: Manifest) returns (best: Option<Plan>)
      ensures best == BestPlan(disk, m)
    {
      var baselines := SortDescending(m.baselines);
      best := None;
      for i := 0 to |baselines|
        invariant BestOf(disk, m, baselines[i..], best) == BestPlan(disk, m)
      {
        assert baselines[i..][1..] == baselines[i + 1..];
        var plan := PlanOf(m, baselines[i]);
        if plan.Some? && (best.None? || plan.value.recovered > best.value.recovered) {
          best := plan;
        }
      }
    }

    /** `status`. */
    method Status(records: RecordStore) returns (state: RecoveryState)
      ensures state == StatusOf(disk, records.db.canon.revision)
    {
      var loaded := LoadManifest(disk);
      if loaded.Err? {
        return RecoveryState.Unavailable;
      }
      var plan := BestPlanOf(loaded.value);
      if plan.None? {
        return RecoveryState.Unavailable;
      }
      var m, live := loaded.value, records.db.canon.revision;
      if plan.value.recovered < m.revision {
        return Degraded;
      } else if m.revision < live {
        return Lagging;
      } else if m.revision == live {
        return RecoveryState.Current;
      }
      return Degraded;
    }

    /** The candidate part of `reconstruct`: copy the baseline, replay, clear, validate. */
    method BuildCandidate(plan: Plan) returns (r: Result<Store>)
      requires OpenStore(plan.store) == Ok(plan.store)
      ensures r == Reconstructed(plan)
    {
      var recovered := new RecordStore.FromFile(plan.store);
      var i := 0;
      while i < |plan.patches|
        invariant 0 <= i <= |plan.patches|
        invariant fresh(recovered)
        invariant ReplayAll(recovered.db, plan.patches[i..]) == ReplayAll(plan.store, plan.patches)
      {
        assert plan.patches[i..][1..] == plan.patches[i + 1..];
        var applied := recovered.ApplyRecoveryPatch(plan.patches[i]);
        if applied.Err? {
          return Err(applied.error);
        }
        i := i + 1;
      }
      recovered.ClearChangeJournal();
      if !SchemaHolds(recovered.db.canon) || recovered.db.canon.revision != plan.recovered {
        return Err(CorruptStore);
      }
      return Ok(recovered.db);
    }
  }
}
