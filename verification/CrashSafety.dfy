/** Which interrupted recovery changes lose nothing. */
module CrashSafety {
  import opened Model
  import opened Replay
  import opened Recovery
  import opened Chain
  import opened Rotation

  /** With the newest baseline and its segments intact the best plan reaches the end. */
  lemma IntactReachesEnd(disk: Disk, m: Manifest, b: BaselineArtifact)
    requires ChainOk(m) && NewestIntact(disk, m) && b == m.baselines[|m.baselines| - 1]
    ensures BestPlan(disk, m).Some? && BestPlan(disk, m).value.recovered == m.revision
  {
    IntactBaseline(disk, m, b);
  }

  lemma OverwrittenStaysIntact(disk: Disk, m: Manifest, s: Store, d: Disk)
    requires ChainOk(m) && NewestIntact(disk, m)
    requires d.segments == disk.segments
    requires d.baselines == disk.baselines || d.baselines == disk.baselines[RotationSlot(m) := Snapshot(s)]
    requires RotationSlot(m) != m.baselines[|m.baselines| - 1].slot
    ensures NewestIntact(d, m)
  {
    IntactFrame(disk, KeepPast(m.segments, Newest(m)), d);
  }

  lemma RotatedIsIntact(disk: Disk, m: Manifest, s: Store, d: Disk)
    requires ChainOk(m) && Newest(m) < s.canon.revision == m.revision && OpenStore(s) == Ok(s)
    requires d.baselines == disk.baselines[RotationSlot(m) := Snapshot(s)]
    ensures ChainOk(RotateManifest(m, s)) && NewestIntact(d, RotateManifest(m, s))
  {
    RotationResult(m, s);
    RotateChain(m, s);
    var rotated := RotateManifest(m, s);
    assert rotated.baselines[1] == BaselineOf(RotationSlot(m), s);
    assert VerifiedBaseline(d, rotated.baselines[1]) == Some(s);
    NothingPastEnd(rotated);
  }

  /** Power may fail after any single write of a rotation, also after the oldest slot was
      overwritten but before the manifest was saved: the same revision stays recoverable. */
  lemma RotationCrashSafe(disk: Disk, m: Manifest, s: Store, d: Disk)
    requires LoadManifest(disk) == Ok(m) && ChainOk(m) && NewestIntact(disk, m)
    requires Newest(m) < s.canon.revision == m.revision && OpenStore(s) == Ok(s)
    requires RotationPassesThrough(disk, m, s, d)
    ensures LoadManifest(d).Ok? && BestPlan(d, LoadManifest(d).value).Some?
    ensures BestPlan(d, LoadManifest(d).value).value.recovered == m.revision
  {
    RotationResult(m, s);
    if d.manifest == disk.manifest {
      OverwrittenStaysIntact(disk, m, s, d);
      IntactReachesEnd(d, m, m.baselines[|m.baselines| - 1]);
    } else {
      KeepShorter(m.segments, Newest(m));
      RotatedIsIntact(disk, m, s, d);
      IntactReachesEnd(d, RotateManifest(m, s), RotateManifest(m, s).baselines[1]);
    }
  }

  /** Resetting is not safe in the same way. Once slot A is overwritten and until the manifest
      is saved, something is recoverable exactly when the manifest lists an intact baseline in
      slot B. */
  lemma ResetWindow(disk: Disk, m: Manifest, s: Store)
    requires LoadManifest(disk) == Ok(m) && ChainOk(m)
    requires forall b <- m.baselines :: b.slot == SlotA ==> b.checksum.content != Snapshot(s)
    ensures BestPlan(disk.(baselines := disk.baselines[SlotA := Snapshot(s)]), m).Some?
       <==> exists b <- m.baselines :: b.slot == SlotB && VerifiedBaseline(disk, b).Some?
  {
    var d := disk.(baselines := disk.baselines[SlotA := Snapshot(s)]);
    BestOfAll(d, m);
    forall b | b in m.baselines
      ensures VerifiedBaseline(d, b).Some? <==> b.slot == SlotB && VerifiedBaseline(disk, b).Some?
    {
    }
  }

  /** So a crash there loses everything when the manifest lists the slot A baseline alone. */
  lemma SoleBaselineLost(disk: Disk, m: Manifest, s: Store)
    requires LoadManifest(disk) == Ok(m) && ChainOk(m) && |m.baselines| == 1
    requires m.baselines[0].checksum.content != Snapshot(s)
    ensures BestPlan(disk.(baselines := disk.baselines[SlotA := Snapshot(s)]), m).None?
  {
    ResetWindow(disk, m, s);
  }
}
