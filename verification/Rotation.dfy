/** Stopping in the middle of a recovery change. */
module Rotation {
  import opened Model
  import opened Projection
  import opened Recovery
  import opened Chain

  // ---------- interrupted changes ----------

  /** The disks `rotate_baseline` passes through: untouched, slot overwritten, manifest saved
      with any part of the unreferenced segments removed. */
  ghost predicate RotationPassesThrough(disk: Disk, m: Manifest, s: Store, d: Disk) {
    var overwritten := disk.baselines[RotationSlot(m) := Snapshot(s)];
    || d == disk
    || d == disk.(baselines := overwritten)
    || (&& d.manifest == Saved(RotateManifest(m, s))
        && d.baselines == overwritten
        && CleanedTo(disk.segments, Referenced(RotateManifest(m, s)), d.segments))
  }

  /** Some segment files are gone, but none of the referenced ones. */
  ghost predicate CleanedTo(before: map<SegmentName, SegmentFile>, referenced: set<SegmentName>,
      after: map<SegmentName, SegmentFile>)
  {
    && (forall name <- after.Keys :: name in before && after[name] == before[name])
    && (forall name <- before.Keys :: name in referenced ==> name in after)
  }

  /** The disks `reset_to_single_baseline` passes through. */
  ghost predicate ResetPassesThrough(disk: Disk, s: Store, barrier: Option<nat>, d: Disk) {
    var overwritten := disk.baselines[SlotA := Snapshot(s)];
    || d == disk
    || d == disk.(baselines := overwritten)
    || (&& d.manifest == Saved(ResetManifest(disk, s, barrier))
        && SlotA in d.baselines && d.baselines[SlotA] == Snapshot(s)
        && (forall slot <- d.baselines.Keys :: slot in overwritten && d.baselines[slot] == overwritten[slot])
        && CleanedTo(disk.segments, {}, d.segments))
  }

  /** What a reset leaves, completed or not. */
  ghost predicate ResetLeaves(disk: Disk, s: Store, barrier: Option<nat>, completed: bool, d: Disk) {
    if completed then d == ResetDisk(disk, s, barrier) else ResetPassesThrough(disk, s, barrier, d)
  }

  /** The disks `catch_up` passes through before it has finished. */
  ghost predicate CatchUpPassesThrough(disk: Disk, s: Store, d: Disk) {
    match CatchUpAction(disk, s)
    case Nothing => d == disk
    case Refuse => d == disk
    case Reset(barrier) => ResetPassesThrough(disk, s, barrier, d)
    case Extend(patch) => ExtensionPassesThrough(disk, LoadManifest(disk).value, patch, s, d)
  }

  /** What `catch_up` leaves, completed or not. */
  ghost predicate CatchUpLeaves(disk: Disk, s: Store, completed: bool, d: Disk) {
    if completed then d == CatchUpDisk(disk, s) else CatchUpPassesThrough(disk, s, d)
  }

  ghost predicate ExtensionPassesThrough(disk: Disk, m: Manifest, patch: Patch, s: Store, d: Disk) {
    || d == disk
    || d == AppendDisk(disk, m, patch).(manifest := disk.manifest)
    || d == AppendDisk(disk, m, patch)
    || (NeedsRotation(AppendManifest(m, patch))
        && RotationPassesThrough(AppendDisk(disk, m, patch), AppendManifest(m, patch), s, d))
  }

  // ---------- when a change runs to its end ----------

  /** File operations of a reset: the slot, the manifest, the other slot and every segment. */
  function ResetCost(disk: Disk): nat {
    2 + (if SlotB in disk.baselines then 1 else 0) + |disk.segments.Keys|
  }

  predicate ResetCompletes(disk: Disk, s: Store, writes: nat) {
    BacksUp(s) && ResetCost(disk) <= writes
  }

  /** File operations of a rotation: the slot, the manifest and every dropped segment. */
  function RotateCost(disk: Disk, m: Manifest, s: Store): nat {
    2 + |disk.segments.Keys - Referenced(RotateManifest(m, s))|
  }

  predicate RotateCompletes(disk: Disk, m: Manifest, s: Store, writes: nat) {
    BacksUp(s) && RotateCost(disk, m, s) <= writes
  }

  function ExtensionCost(disk: Disk, m: Manifest, patch: Patch, s: Store): nat {
    var extended := AppendManifest(m, patch);
    2 + (if NeedsRotation(extended) then RotateCost(AppendDisk(disk, m, patch), extended, s) else 0)
  }

  predicate ExtensionCompletes(disk: Disk, m: Manifest, patch: Patch, s: Store, writes: nat) {
    && ExtensionCost(disk, m, patch, s) <= writes
    && (NeedsRotation(AppendManifest(m, patch)) ==> BacksUp(s))
  }

  function CatchUpCost(disk: Disk, s: Store): nat {
    match CatchUpAction(disk, s)
    case Nothing => 0
    case Refuse => 0
    case Reset(_) => ResetCost(disk)
    case Extend(patch) => ExtensionCost(disk, LoadManifest(disk).value, patch, s)
  }

  /** A catch-up needs a manifest that loads, enough file operations and, when it writes a
      baseline, a store that backs up. */
  predicate CatchUpCompletes(disk: Disk, s: Store, writes: nat) {
    match CatchUpAction(disk, s)
    case Nothing => true
    case Refuse => false
    case Reset(_) => ResetCompletes(disk, s, writes)
    case Extend(patch) => ExtensionCompletes(disk, LoadManifest(disk).value, patch, s, writes)
  }

  lemma WithinUnion<T>(a: set<T>, b: set<T>, x: T)
    requires a <= b + {x}
    ensures |a| <= |b| + 1
  {
    var whole := b + {x};
    if a != whole {
      var y :| y in whole && y !in a;
      SubsetSmaller(a, whole, y);
    }
  }

  /** With a store that backs up only file operations can run out, and no change of the directory
      needs more than five beyond the segment files in it. */
  lemma CompletionCosts(disk: Disk, s: Store, writes: nat)
    requires BacksUp(s)
    ensures ResetCompletes(disk, s, writes) <==> ResetCost(disk) <= writes
    ensures CatchUpCompletes(disk, s, writes) <==> LoadManifest(disk).Ok? && CatchUpCost(disk, s) <= writes
    ensures ResetCost(disk) <= |disk.segments.Keys| + 5 && CatchUpCost(disk, s) <= |disk.segments.Keys| + 5
  {
    if CatchUpAction(disk, s).Extend? {
      ExtensionBound(disk, LoadManifest(disk).value, CatchUpAction(disk, s).patch, s);
    }
  }

  lemma ExtensionBound(disk: Disk, m: Manifest, patch: Patch, s: Store)
    ensures ExtensionCost(disk, m, patch, s) <= |disk.segments.Keys| + 5
  {
    var appended := AppendDisk(disk, m, patch);
    var dropped := appended.segments.Keys - Referenced(RotateManifest(AppendManifest(m, patch), s));
    assert appended.segments.Keys == disk.segments.Keys + {NameOf(patch)};
    WithinUnion(dropped, disk.segments.Keys, NameOf(patch));
  }

  // ---------- intact baselines ----------

  predicate AllIntact(disk: Disk, segments: seq<SegmentArtifact>) {
    segments == [] || (VerifiedSegment(disk, segments[0], segments[0].from).Some? && AllIntact(disk, segments[1..]))
  }

  lemma {:induction false} IntactFrame(disk: Disk, segments: seq<SegmentArtifact>, d: Disk)
    requires AllIntact(disk, segments) && d.segments == disk.segments
    ensures AllIntact(d, segments)
  {
    if segments != [] {
      IntactFrame(disk, segments[1..], d);
    }
  }

  /** The newest baseline and every segment past it verify. */
  ghost predicate NewestIntact(disk: Disk, m: Manifest)
    requires ChainOk(m)
  {
    && VerifiedBaseline(disk, m.baselines[|m.baselines| - 1]).Some?
    && AllIntact(disk, KeepPast(m.segments, Newest(m)))
  }

  lemma {:induction false} WalkAll(disk: Disk, segments: seq<SegmentArtifact>, cursor: nat)
    requires Linked(segments, cursor)
    requires AllIntact(disk, segments)
    ensures Walk(disk, segments, cursor).cursor == EndOf(segments, cursor)
  {
    if segments != [] {
      WalkAll(disk, segments[1..], segments[0].through);
    }
  }

  lemma PlanReachesEnd(disk: Disk, m: Manifest, b: BaselineArtifact)
    requires ChainOk(m) && b in m.baselines && VerifiedBaseline(disk, b).Some?
    requires AllIntact(disk, KeepPast(m.segments, b.revision))
    ensures BestPlan(disk, m).Some? && m.revision <= BestPlan(disk, m).value.recovered
  {
    PlanWalks(disk, m, b);
    WalkAll(disk, KeepPast(m.segments, b.revision), b.revision);
    BestAtLeast(disk, m, b);
  }

  lemma RecoversAtMost(disk: Disk, m: Manifest)
    requires ChainOk(m)
    ensures BestPlan(disk, m).Some? ==> BestPlan(disk, m).value.recovered <= m.revision
  {
    if BestPlan(disk, m).Some? {
      BestPlanSound(disk, m);
    }
  }

  lemma IntactBaseline(disk: Disk, m: Manifest, b: BaselineArtifact)
    requires ChainOk(m) && b in m.baselines && VerifiedBaseline(disk, b).Some?
    requires AllIntact(disk, KeepPast(m.segments, b.revision))
    ensures BestPlan(disk, m).Some? && BestPlan(disk, m).value.recovered == m.revision
  {
    PlanReachesEnd(disk, m, b);
    RecoversAtMost(disk, m);
  }

  lemma {:induction false} KeepShorter(segments: seq<SegmentArtifact>, revision: nat)
    ensures |KeepPast(segments, revision)| <= |segments|
  {
    if segments != [] {
      KeepShorter(segments[1..], revision);
    }
  }

  lemma {:induction false} KeepNone(segments: seq<SegmentArtifact>, revision: nat)
    requires forall a <- segments :: a.through <= revision
    ensures KeepPast(segments, revision) == []
  {
    if segments != [] {
      KeepNone(segments[1..], revision);
    }
  }

  lemma NothingPastEnd(m: Manifest)
    requires ChainOk(m) && Newest(m) == m.revision
    ensures KeepPast(m.segments, Newest(m)) == []
  {
    LinkedGrows(m.segments, Oldest(m), m.revision);
    KeepNone(m.segments, m.revision);
  }
}
