/** Local recovery material as values: the manifest, what the files hold, and the plans and
    manifest changes of `src/recovery/mod.rs`.

    SHA-256 is ideal: a digest is the content it was taken of. */
module Recovery {
  import opened Model
  import opened Projection
  import opened Replay

  const SEGMENTS_PER_BASELINE: nat := 64
  const MAX_RECOVERY_SEGMENTS: nat := 128

  /** `baseline-A.sqlite` and `baseline-B.sqlite`. */
  datatype Slot = SlotA | SlotB

  /** `segment-{first:020}-{last:020}.json`. */
  datatype SegmentName = SegmentName(first: nat, last: nat)

  datatype BaselineFile = Snapshot(store: Store) | DamagedBaseline(noise: nat)
  datatype SegmentFile = Segment(from: nat, through: nat, patch: Patch) | DamagedSegment(noise: nat)

  datatype Digest<+T> = Digest(content: T)

  datatype BaselineArtifact = BaselineArtifact(slot: Slot, revision: nat, checksum: Digest<BaselineFile>)
  datatype SegmentArtifact = SegmentArtifact(name: SegmentName, from: nat, through: nat, checksum: Digest<SegmentFile>)

  datatype Manifest = Manifest(
    generation: nat, revision: nat, barrier: Option<nat>,
    baselines: seq<BaselineArtifact>, segments: seq<SegmentArtifact>)

  datatype ManifestFile = NoManifest | Unreadable | Saved(manifest: Manifest)

  /** The recovery directory. */
  datatype Disk = Disk(
    manifest: ManifestFile,
    baselines: map<Slot, BaselineFile>,
    segments: map<SegmentName, SegmentFile>)

  const EMPTY_DISK := Disk(NoManifest, map[], map[])

  predicate WithinBounds(m: Manifest) {
    |m.baselines| <= 2 && |m.segments| <= MAX_RECOVERY_SEGMENTS
  }

  /** `load_manifest`. */
  function LoadManifest(disk: Disk): Result<Manifest> {
    if disk.manifest.Saved? && WithinBounds(disk.manifest.manifest) then Ok(disk.manifest.manifest)
    else Err(CorruptStore)
  }

  // ---------- sorting, as the stable library sort does it ----------

  predicate SegmentBefore(a: SegmentArtifact, b: SegmentArtifact) {
    a.from < b.from || (a.from == b.from && a.through <= b.through)
  }

  function InsertSegment(a: SegmentArtifact, sorted: seq<SegmentArtifact>): seq<SegmentArtifact> {
    if sorted == [] || SegmentBefore(a, sorted[0]) then [a] + sorted
    else [sorted[0]] + InsertSegment(a, sorted[1..])
  }

  function SortSegments(segments: seq<SegmentArtifact>): seq<SegmentArtifact> {
    if segments == [] then [] else InsertSegment(segments[0], SortSegments(segments[1..]))
  }

  function InsertAscending(b: BaselineArtifact, sorted: seq<BaselineArtifact>): seq<BaselineArtifact> {
    if sorted == [] || b.revision <= sorted[0].revision then [b] + sorted
    else [sorted[0]] + InsertAscending(b, sorted[1..])
  }

  function SortAscending(baselines: seq<BaselineArtifact>): seq<BaselineArtifact> {
    if baselines == [] then [] else InsertAscending(baselines[0], SortAscending(baselines[1..]))
  }

  function InsertDescending(b: BaselineArtifact, sorted: seq<BaselineArtifact>): seq<BaselineArtifact> {
    if sorted == [] || b.revision >= sorted[0].revision then [b] + sorted
    else [sorted[0]] + InsertDescending(b, sorted[1..])
  }

  function SortDescending(baselines: seq<BaselineArtifact>): seq<BaselineArtifact> {
    if baselines == [] then [] else InsertDescending(baselines[0], SortDescending(baselines[1..]))
  }

  // ---------- plans ----------

  /** `verify_artifact` and the semantic validation of a baseline: the store it opens as. */
  function VerifiedBaseline(disk: Disk, b: BaselineArtifact): Option<Store> {
    if b.slot !in disk.baselines || disk.baselines[b.slot] != b.checksum.content then None
    else if !b.checksum.content.Snapshot? then None
    else
      match OpenStore(b.checksum.content.store)
      case Err(_) => None
      case Ok(store) => if store.canon.revision == b.revision then Some(store) else None
  }

  /** `read_segment` with the metadata checks `plan_from_baseline` makes at `cursor`. */
  function VerifiedSegment(disk: Disk, a: SegmentArtifact, cursor: nat): Option<Patch> {
    if a.name !in disk.segments || disk.segments[a.name] != a.checksum.content then None
    else if !a.checksum.content.Segment? then None
    else
      var file := a.checksum.content;
      if file.from == cursor && file.through == a.through && file.patch.from == cursor && file.patch.target == a.through
      then Some(file.patch) else None
  }

  datatype Walked = Walked(cursor: nat, patches: seq<Patch>)

  /** The segment loop of `plan_from_baseline` over sorted segments. */
  function Walk(disk: Disk, segments: seq<SegmentArtifact>, cursor: nat): Walked
    decreases |segments|
  {
    if segments == [] then Walked(cursor, [])
    else if segments[0].through <= cursor then Walk(disk, segments[1..], cursor)
    else if segments[0].from != cursor || VerifiedSegment(disk, segments[0], cursor).None? then Walked(cursor, [])
    else
      var rest := Walk(disk, segments[1..], segments[0].through);
      Walked(rest.cursor, [VerifiedSegment(disk, segments[0], cursor).value] + rest.patches)
  }

  datatype Plan = Plan(baseline: BaselineArtifact, store: Store, patches: seq<Patch>, recovered: nat)

  function PlanFromBaseline(disk: Disk, m: Manifest, b: BaselineArtifact): Option<Plan> {
    match VerifiedBaseline(disk, b)
    case None => None
    case Some(store) =>
      var walked := Walk(disk, SortSegments(m.segments), b.revision);
      Some(Plan(b, store, walked.patches, walked.cursor))
  }

  /** A later candidate replaces the best plan only when it recovers strictly more. */
  function Better(best: Option<Plan>, candidate: Option<Plan>): Option<Plan> {
    if candidate.Some? && (best.None? || candidate.value.recovered > best.value.recovered) then candidate else best
  }

  function BestOf(disk: Disk, m: Manifest, candidates: seq<BaselineArtifact>, best: Option<Plan>): Option<Plan>
    decreases |candidates|
  {
    if candidates == [] then best
    else BestOf(disk, m, candidates[1..], Better(best, PlanFromBaseline(disk, m, candidates[0])))
  }

  /** `best_plan`. */
  function BestPlan(disk: Disk, m: Manifest): Option<Plan> {
    BestOf(disk, m, SortDescending(m.baselines), None)
  }

  // ---------- status ----------

  datatype RecoveryState = Current | Lagging | Degraded | Unavailable

  /** The state `status` reports. */
  function StatusOf(disk: Disk, live: nat): RecoveryState {
    match LoadManifest(disk)
    case Err(_) => RecoveryState.Unavailable
    case Ok(m) =>
      match BestPlan(disk, m)
      case None => RecoveryState.Unavailable
      case Some(plan) =>
        if plan.recovered < m.revision then Degraded
        else if m.revision < live then Lagging
        else if m.revision == live then RecoveryState.Current
        else Degraded
  }

  // ---------- manifest changes ----------

  /** `create_baseline` accepts a backup that opens at the store's own revision. */
  predicate BacksUp(s: Store) {
    OpenStore(s).Ok? && OpenStore(s).value.canon.revision == s.canon.revision
  }

  function BaselineOf(slot: Slot, s: Store): BaselineArtifact {
    BaselineArtifact(slot, s.canon.revision, Digest(Snapshot(s)))
  }

  function ResetManifest(disk: Disk, s: Store, barrier: Option<nat>): Manifest {
    Manifest(if LoadManifest(disk).Ok? then LoadManifest(disk).value.generation + 1 else 1,
             s.canon.revision, barrier, [BaselineOf(SlotA, s)], [])
  }

  /** `reset_to_single_baseline`, completed. */
  function ResetDisk(disk: Disk, s: Store, barrier: Option<nat>): Disk {
    Disk(Saved(ResetManifest(disk, s, barrier)), map[SlotA := Snapshot(s)], map[])
  }

  function NameOf(patch: Patch): SegmentName {
    SegmentName(patch.from + 1, patch.target)
  }

  function SegmentOf(patch: Patch): SegmentArtifact {
    SegmentArtifact(NameOf(patch), patch.from, patch.target, Digest(Segment(patch.from, patch.target, patch)))
  }

  function AppendManifest(m: Manifest, patch: Patch): Manifest {
    Manifest(m.generation + 1, patch.target, m.barrier, m.baselines, m.segments + [SegmentOf(patch)])
  }

  function AppendDisk(disk: Disk, m: Manifest, patch: Patch): Disk {
    disk.(manifest := Saved(AppendManifest(m, patch)),
          segments := disk.segments[NameOf(patch) := Segment(patch.from, patch.target, patch)])
  }

  function NewestRevision(baselines: seq<BaselineArtifact>): nat {
    if baselines == [] then 0
    else
      var rest := NewestRevision(baselines[1..]);
      if rest < baselines[0].revision then baselines[0].revision else rest
  }

  function OldestRevision(baselines: seq<BaselineArtifact>): nat
    requires baselines != []
  {
    if |baselines| == 1 then baselines[0].revision
    else
      var rest := OldestRevision(baselines[1..]);
      if baselines[0].revision < rest then baselines[0].revision else rest
  }

  function KeepPast(segments: seq<SegmentArtifact>, revision: nat): seq<SegmentArtifact> {
    if segments == [] then []
    else (if segments[0].through > revision then [segments[0]] else []) + KeepPast(segments[1..], revision)
  }

  predicate UsesSlot(baselines: seq<BaselineArtifact>, slot: Slot) {
    exists b <- baselines :: b.slot == slot
  }

  function WithoutSlot(baselines: seq<BaselineArtifact>, slot: Slot): seq<BaselineArtifact> {
    if baselines == [] then []
    else (if baselines[0].slot != slot then [baselines[0]] else []) + WithoutSlot(baselines[1..], slot)
  }

  /** `min_by_key` on the baseline revision: the first of the oldest. */
  function OldestSlot(baselines: seq<BaselineArtifact>): Slot
    requires baselines != []
  {
    if |baselines| == 1 || baselines[0].revision <= OldestRevision(baselines[1..]) then baselines[0].slot
    else OldestSlot(baselines[1..])
  }

  /** The slot `rotate_baseline` overwrites. */
  function RotationSlot(m: Manifest): Slot {
    if !UsesSlot(m.baselines, SlotB) then SlotB
    else if m.baselines == [] then SlotA
    else OldestSlot(m.baselines)
  }

  function RotatedBaselines(m: Manifest, s: Store): seq<BaselineArtifact> {
    var slot := RotationSlot(m);
    var sorted := SortAscending(WithoutSlot(m.baselines, slot) + [BaselineOf(slot, s)]);
    if |sorted| > 2 then sorted[1..] else sorted
  }

  function RotateManifest(m: Manifest, s: Store): Manifest {
    var baselines := RotatedBaselines(m, s);
    var oldest := if baselines == [] then s.canon.revision else OldestRevision(baselines);
    Manifest(m.generation + 1, m.revision, m.barrier, baselines, KeepPast(m.segments, oldest))
  }

  function Referenced(m: Manifest): set<SegmentName> {
    set a <- m.segments :: a.name
  }

  function Retain(segments: map<SegmentName, SegmentFile>, names: set<SegmentName>): map<SegmentName, SegmentFile> {
    map name | name in segments && name in names :: segments[name]
  }

  /** `rotate_baseline`, completed. */
  function RotateDisk(disk: Disk, m: Manifest, s: Store): Disk {
    var rotated := RotateManifest(m, s);
    Disk(Saved(rotated), disk.baselines[RotationSlot(m) := Snapshot(s)], Retain(disk.segments, Referenced(rotated)))
  }

  predicate HoldsPurge(patch: Patch) {
    exists id <- patch.nodes.Keys :: patch.nodes[id].None?
  }

  predicate NeedsRotation(m: Manifest) {
    |KeepPast(m.segments, NewestRevision(m.baselines))| >= SEGMENTS_PER_BASELINE
  }

  datatype Action = Nothing | Reset(barrier: Option<nat>) | Extend(patch: Patch) | Refuse

  /** Which branch `catch_up` takes. */
  function CatchUpAction(disk: Disk, s: Store): Action {
    match LoadManifest(disk)
    case Err(_) => Refuse
    case Ok(m) =>
      if m.revision == s.canon.revision then Nothing
      else if m.revision > s.canon.revision then Reset(m.barrier)
      else
        match DeltaSince(s, m.revision)
        case Current(_) => Nothing
        case Unavailable(_) => Reset(m.barrier)
        case Available(patch) => if HoldsPurge(patch) then Reset(Some(patch.target)) else Extend(patch)
  }

  /** The disk after `catch_up` ran to its end. */
  function CatchUpDisk(disk: Disk, s: Store): Disk {
    match CatchUpAction(disk, s)
    case Nothing => disk
    case Refuse => disk
    case Reset(barrier) => ResetDisk(disk, s, barrier)
    case Extend(patch) => ExtendDisk(disk, LoadManifest(disk).value, patch, s)
  }

  /** The disk with the segment appended and, when it is due, the rotation done. */
  function ExtendDisk(disk: Disk, m: Manifest, patch: Patch, s: Store): Disk {
    var extended := AppendManifest(m, patch);
    if NeedsRotation(extended) then RotateDisk(AppendDisk(disk, m, patch), extended, s)
    else AppendDisk(disk, m, patch)
  }

  // ---------- reconstruction ----------

  /** The candidate `reconstruct` builds from a plan: replay, then clear the journal. */
  function Reconstructed(plan: Plan): Result<Store> {
    match ReplayAll(plan.store, plan.patches)
    case Err(error) => Err(error)
    case Ok(s) =>
      if s.canon.revision == plan.recovered && SchemaHolds(s.canon) then Ok(Store(s.canon, []))
      else Err(CorruptStore)
  }
}
