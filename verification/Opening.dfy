/** Opening a library, as values: what the closed files can be, which store, recovery directory
    and Index an open ends with, and what that needs. */
module Opening {
  import opened Model
  import opened Projection
  import opened History
  import opened Replay
  import opened Revision
  import opened Index
  import opened IndexStores
  import opened Recovery
  import opened Chain
  import opened Faithful
  import opened Rotation
  import opened Core

  datatype RecordFile = NoRecord | DamagedRecord | NewerRecord | Readable(store: Store)
  datatype IndexFile = NoIndex | DamagedIndex | Indexed(tables: Tables)

  // ---------- what closed files can be ----------

  /** `h` cut down to the history of a store at `revision`. */
  function Until(h: seq<Canon>, revision: nat): seq<Canon>
    requires revision < |h|
  {
    h[..revision + 1]
  }

  /** A store some point of the history could have left on disk. */
  ghost predicate StoreOf(h: seq<Canon>, s: Store) {
    s.canon.revision < |h| && exists low :: Retained(Until(h, s.canon.revision), s, low)
  }

  /** A store of the history whose stored revision may have been overwritten while its journal
      could still tell. */
  ghost predicate LeftBy(h: seq<Canon>, s: Store, good: Store) {
    && StoreOf(h, good)
    && s == good.(canon := good.canon.(revision := s.canon.revision))
    && (good.journal == [] ==> s == good)
  }

  /** Everything a readable file holds belongs to one history; the three files may be at
      different revisions of it, and any of them may be missing or damaged. */
  ghost predicate Residue(h: seq<Canon>, record: RecordFile, disk: Disk, index: IndexFile) {
    && HistoryOk(h) && h[0] == EMPTY_CANON
    && (record.Readable? ==> exists good :: LeftBy(h, record.store, good))
    && ManifestOk(h, disk.manifest)
    && (index.Indexed? ==> Tracks(h, index.tables))
  }

  /** A successfully opened library. */
  ghost predicate Opened(h: seq<Canon>, record: RecordFile, disk: Disk, index: IndexFile) {
    && record.Readable? && StoreOf(h, record.store)
    && disk.manifest.Saved? && disk.manifest.manifest.revision == record.store.canon.revision
    && index.Indexed? && index.tables == Project(record.store.canon)
  }

  // ---------- what an open does ----------

  /** A reconstructed store and the purge barrier that is kept with it. */
  datatype Candidate = Candidate(store: Store, barrier: Option<nat>)

  /** A barrier past the recovered revision is dropped. */
  function KeptBarrier(m: Manifest, recovered: nat): Option<nat> {
    if m.barrier.Some? && m.barrier.value <= recovered then m.barrier else None
  }

  /** The first half of `reconstruct`: manifest, best plan, candidate. */
  function RebuildOf(disk: Disk): Result<Candidate> {
    match LoadManifest(disk)
    case Err(error) => Err(error)
    case Ok(m) =>
      match BestPlan(disk, m)
      case None => Err(CorruptStore)
      case Some(plan) =>
        match Reconstructed(plan)
        case Err(error) => Err(error)
        case Ok(store) => Ok(Candidate(store, KeptBarrier(m, plan.recovered)))
  }

  /** File operations of the second half: an old file moves aside, the candidate moves in, and
      the recovery directory is reset. */
  function RebuildCost(record: RecordFile, disk: Disk): nat {
    PromotionCost(record) + ResetCost(disk)
  }

  function PromotionCost(record: RecordFile): nat {
    if record.NoRecord? then 1 else 2
  }

  /** Whether `open_existing` calls `reconstruct`. */
  predicate NeedsRebuild(record: RecordFile, disk: Disk) {
    match record
    case NoRecord => !disk.manifest.NoManifest?
    case DamagedRecord => true
    case NewerRecord => false
    case Readable(file) => OpenStore(file).Err?
  }

  /** The store the record part of an open ends with. */
  function OpenedStore(record: RecordFile, disk: Disk): Option<Store> {
    if NeedsRebuild(record, disk) then
      match RebuildOf(disk)
      case Ok(rebuilt) => Some(rebuilt.store)
      case Err(_) => None
    else
      match record
      case Readable(file) => Some(OpenStore(file).value)
      case NoRecord => Some(Store(EMPTY_CANON, []))
      case _ => None
  }

  function RebuiltDisk(disk: Disk): Disk {
    match RebuildOf(disk)
    case Ok(rebuilt) => ResetDisk(disk, rebuilt.store, rebuilt.barrier)
    case Err(_) => disk
  }

  function OpenedDisk(record: RecordFile, disk: Disk): Disk {
    if NeedsRebuild(record, disk) then RebuiltDisk(disk) else disk
  }

  function OpenedCost(record: RecordFile, disk: Disk): nat {
    if NeedsRebuild(record, disk) then RebuildCost(record, disk) else 0
  }

  /** `ensure_initialized` and `reconcile_startup`: absent and damaged manifests are made anew,
      one that is ahead is reset, any other caught up. */
  function SettledDisk(disk: Disk, s: Store): Disk {
    match LoadManifest(disk)
    case Err(_) => ResetDisk(disk, s, None)
    case Ok(m) => if m.revision > s.canon.revision then ResetDisk(disk, s, m.barrier) else CatchUpDisk(disk, s)
  }

  function SettleCost(disk: Disk, s: Store): nat {
    match LoadManifest(disk)
    case Err(_) => ResetCost(disk)
    case Ok(m) => if m.revision > s.canon.revision then ResetCost(disk) else CatchUpCost(disk, s)
  }

  /** What the Index part of an open needs of the files. */
  predicate IndexOpens(index: IndexFile, s: Store, files: Promotion) {
    match index
    case Indexed(tables) => ReconcileCompletes(s, tables, None, files)
    case NoIndex => files.promote && files.open
    case DamagedIndex => files.park && files.promote && files.open
  }

  /** Exactly when an open succeeds: there is a store to open, the file operations suffice, and
      the Index can be brought up to it. */
  predicate Opens(record: RecordFile, disk: Disk, index: IndexFile, writes: nat, files: Promotion) {
    && OpenedStore(record, disk).Some?
    && var s := OpenedStore(record, disk).value;
       OpenedCost(record, disk) + SettleCost(OpenedDisk(record, disk), s) <= writes && IndexOpens(index, s, files)
  }

  // ---------- which files open ----------

  /** A record file that does not open as a store, though it may be there. */
  predicate Unopenable(record: RecordFile) {
    record.DamagedRecord? || (record.Readable? && OpenStore(record.store).Err?)
  }

  /** A record file of a newer version is never opened and never rebuilt over; without a manifest
      an unopenable one stays as it is, and no rebuild happens from a manifest that does not load,
      without an intact baseline, or when replay is refused. */
  lemma NeverOpens(record: RecordFile, disk: Disk, index: IndexFile, writes: nat, files: Promotion)
    ensures record.NewerRecord? ==> !Opens(record, disk, index, writes, files)
    ensures Unopenable(record) && disk.manifest.NoManifest? ==> !Opens(record, disk, index, writes, files)
    ensures (record.NoRecord? && !disk.manifest.NoManifest?) || Unopenable(record) ==>
      LoadManifest(disk).Err? || BestPlan(disk, LoadManifest(disk).value).None?
      || Reconstructed(BestPlan(disk, LoadManifest(disk).value).value).Err? ==>
        !Opens(record, disk, index, writes, files)
  {
  }

  /** A file that opens is used as it is, and a new library starts empty; the recovery directory is
      then settled for that store. */
  lemma OpensDirectly(record: RecordFile, disk: Disk, index: IndexFile, writes: nat, files: Promotion, s: Store)
    requires (record.Readable? && OpenStore(record.store) == Ok(s))
      || (record.NoRecord? && disk.manifest.NoManifest? && s == Store(EMPTY_CANON, []))
    ensures Opens(record, disk, index, writes, files) <==> SettleCost(disk, s) <= writes && IndexOpens(index, s, files)
    ensures OpenedStore(record, disk) == Some(s) && OpenedDisk(record, disk) == disk
  {
  }

  /** Otherwise the store is the reconstructed one, and the directory was reset to it. */
  lemma OpensRebuilt(record: RecordFile, disk: Disk, index: IndexFile, writes: nat, files: Promotion, m: Manifest,
                     plan: Plan, s: Store)
    requires (record.NoRecord? && !disk.manifest.NoManifest?) || Unopenable(record)
    requires LoadManifest(disk) == Ok(m) && BestPlan(disk, m) == Some(plan) && Reconstructed(plan) == Ok(s)
    ensures OpenedStore(record, disk) == Some(s)
    ensures var kept := if m.barrier.Some? && m.barrier.value <= plan.recovered then m.barrier else None;
      && OpenedDisk(record, disk).manifest == Saved(Manifest(m.generation + 1, plan.recovered, kept,
           [BaselineArtifact(SlotA, plan.recovered, Digest(Snapshot(s)))], []))
      && OpenedDisk(record, disk).baselines == map[SlotA := Snapshot(s)]
      && OpenedDisk(record, disk).segments == map[]
    ensures Opens(record, disk, index, writes, files) <==>
      RebuildCost(record, disk) <= writes && IndexOpens(index, s, files)
  {
  }

  /** What becomes of the manifest at the start: none that loads is made anew without a barrier, one
      that is ahead is made anew with the barrier it had, any other is caught up. */
  lemma SettledManifest(disk: Disk, s: Store)
    ensures LoadManifest(disk).Err? ==>
      SettledDisk(disk, s).manifest == Saved(Manifest(1, s.canon.revision, None,
        [BaselineArtifact(SlotA, s.canon.revision, Digest(Snapshot(s)))], []))
    ensures LoadManifest(disk).Ok? && LoadManifest(disk).value.revision > s.canon.revision ==>
      SettledDisk(disk, s).manifest == Saved(Manifest(LoadManifest(disk).value.generation + 1, s.canon.revision,
        LoadManifest(disk).value.barrier, [BaselineArtifact(SlotA, s.canon.revision, Digest(Snapshot(s)))], []))
    ensures LoadManifest(disk).Ok? && LoadManifest(disk).value.revision <= s.canon.revision ==>
      SettledDisk(disk, s) == CatchUpDisk(disk, s)
  {
  }

  /** What bringing the Index up needs of the files: nothing when its checkpoint is one the store still
      bridges, moving and opening a candidate otherwise, and setting a file aside if there is one. */
  lemma IndexNeeds(h: seq<Canon>, s: Store, low: nat, index: IndexFile, files: Promotion)
    requires Retained(h, s, low)
    ensures IndexOpens(index, s, files) <==>
      || (index.Indexed? && low <= index.tables.applied <= s.canon.revision)
      || ((index.NoIndex? || files.park) && files.promote && files.open)
  {
    if index.Indexed? {
      ReconcileNeeds(h, s, low, index.tables, None, files);
    }
  }

  // ---------- lemmas ----------

  lemma UntilOk(h: seq<Canon>, revision: nat)
    requires HistoryOk(h) && revision < |h|
    ensures HistoryOk(Until(h, revision)) && Until(h, revision)[revision] == h[revision]
  {
  }

  /** A file the history left opens as the true store, or is rejected. */
  lemma LeftOpens(h: seq<Canon>, s: Store, good: Store)
    requires HistoryOk(h) && LeftBy(h, s, good)
    ensures OpenStore(s) == Ok(good) || OpenStore(s).Err?
    ensures s == good ==> OpenStore(s) == Ok(good)
  {
    var low :| Retained(Until(h, good.canon.revision), good, low);
    assert Consistent(h[good.canon.revision]);
    ReachableOpens(Until(h, good.canon.revision), good, low);
    if good.journal != [] {
      RevisionRepair(Until(h, good.canon.revision), good, low, s.canon.revision);
    }
  }

  lemma EmptyStoreOf(h: seq<Canon>)
    requires HistoryOk(h) && h[0] == EMPTY_CANON
    ensures StoreOf(h, Store(EMPTY_CANON, []))
  {
    var g, s := Until(h, 0), Store(EMPTY_CANON, []);
    assert Revisions(s.journal) == {} == Interval(0, 0);
    forall checkpoint: nat | checkpoint <= 0 ensures Accounted(g[checkpoint], s, checkpoint) {
      assert After([], checkpoint) == [];
    }
    assert Retained(g, s, 0);
  }

  /** A reconstructed state with its empty journal is a store of the history. */
  lemma RebuiltStoreOf(h: seq<Canon>, revision: nat)
    requires HistoryOk(h) && revision < |h|
    ensures StoreOf(h, Store(h[revision], [])) && OpenStore(Store(h[revision], [])) == Ok(Store(h[revision], []))
  {
    var s, g := Store(h[revision], []), Until(h, revision);
    assert Revisions(s.journal) == Interval(revision, revision);
    forall checkpoint: nat | revision <= checkpoint <= revision ensures Accounted(g[checkpoint], s, checkpoint) {
      assert After([], checkpoint) == [];
    }
    assert Retained(g, s, revision);
    assert Consistent(h[revision]);
    ReachableOpens(g, s, revision);
  }

  lemma OwnLeft(h: seq<Canon>, s: Store)
    requires StoreOf(h, s)
    ensures LeftBy(h, s, s)
  {
  }

  lemma PruneStoreOf(h: seq<Canon>, s: Store)
    requires StoreOf(h, s)
    ensures StoreOf(h, Prune(s)) && Prune(s).canon == s.canon
  {
    var low :| Retained(Until(h, s.canon.revision), s, low);
    PruneRetained(Until(h, s.canon.revision), s, low);
  }

  /** The manifest a reset saves is sound for a store of the history. */
  lemma ResetSound(h: seq<Canon>, s: Store, disk: Disk, barrier: Option<nat>)
    requires HistoryOk(h) && StoreOf(h, s)
    ensures ManifestOk(h, Saved(ResetManifest(disk, s, barrier))) && BacksUp(s)
  {
    var low :| Retained(Until(h, s.canon.revision), s, low);
    UntilOk(h, s.canon.revision);
    ResetChain(disk, s, barrier);
    ResetTrue(Until(h, s.canon.revision), s, low, disk, barrier);
    TruePrefix(Until(h, s.canon.revision), h, ResetManifest(disk, s, barrier));
  }

  lemma ManifestUntil(h: seq<Canon>, m: Manifest, revision: nat)
    requires ManifestOk(h, Saved(m)) && m.revision <= revision < |h|
    ensures ManifestOk(Until(h, revision), Saved(m))
  {
    TruePrefix(h, Until(h, revision), m);
  }

  lemma ManifestExtend(h: seq<Canon>, m: Manifest, revision: nat)
    requires revision < |h| && ManifestOk(Until(h, revision), Saved(m))
    ensures ManifestOk(h, Saved(m))
  {
  }

  /** Any part of a catch-up at a store of the history leaves a sound manifest, and all of it
      leaves one at the live revision. */
  lemma CatchUpSound(h: seq<Canon>, s: Store, disk: Disk, d: Disk)
    requires HistoryOk(h) && h[0] == EMPTY_CANON && StoreOf(h, s)
    requires LoadManifest(disk).Ok? && ManifestOk(h, disk.manifest)
    requires LoadManifest(disk).value.revision <= s.canon.revision
    requires d == CatchUpDisk(disk, s) || CatchUpPassesThrough(disk, s, d)
    ensures ManifestOk(h, d.manifest)
    ensures d == CatchUpDisk(disk, s) ==> d.manifest.Saved? && d.manifest.manifest.revision == s.canon.revision
  {
    var g := Until(h, s.canon.revision);
    var low :| Retained(g, s, low);
    UntilOk(h, s.canon.revision);
    ManifestUntil(h, LoadManifest(disk).value, s.canon.revision);
    var w := World(g, low, s, Project(s.canon), disk);
    assert Inv(w);
    CatchUpMoves(w, d);
    CatchUpReaches(s, disk);
    if d.manifest != disk.manifest {
      ManifestExtend(h, d.manifest.manifest, s.canon.revision);
    }
  }

  /** Whatever revision the Index file is at, reconciling it gives the live projection. */
  lemma IndexSound(h: seq<Canon>, s: Store, t: Tables, u: Tables)
    requires HistoryOk(h) && StoreOf(h, s) && Tracks(h, t) && Reconciled(s, t, u)
    ensures u == Project(s.canon)
  {
    var g := Until(h, s.canon.revision);
    var low :| Retained(g, s, low);
    UntilOk(h, s.canon.revision);
    ReconcileEqualsRebuild(g, s, low, t, u);
  }

  lemma ProjectionTracks(h: seq<Canon>, s: Store)
    requires StoreOf(h, s)
    ensures Tracks(h, Project(s.canon))
  {
  }

  lemma StoreOpens(h: seq<Canon>, s: Store)
    requires HistoryOk(h) && StoreOf(h, s)
    ensures OpenStore(s) == Ok(s)
  {
    OwnLeft(h, s);
    LeftOpens(h, s, s);
  }

  /** After a successful open the library is in a state the running invariant describes, with
      the history cut at the live revision. */
  lemma OpenedInvariant(h: seq<Canon>, record: RecordFile, disk: Disk, index: IndexFile)
    requires Residue(h, record, disk, index) && Opened(h, record, disk, index)
    ensures exists low :: Inv(World(Until(h, record.store.canon.revision), low, record.store, index.tables, disk))
  {
    var s := record.store;
    var g := Until(h, s.canon.revision);
    var low :| Retained(g, s, low);
    UntilOk(h, s.canon.revision);
    ManifestUntil(h, disk.manifest.manifest, s.canon.revision);
    assert Inv(World(g, low, s, index.tables, disk));
  }

  /** Closing or crashing in any running state, with any damage to the files but a forged
      manifest, leaves a residue an open accepts. */
  lemma RunningLeavesResidue(w: World, record: RecordFile, disk: Disk, index: IndexFile)
    requires Inv(w)
    requires record.Readable? ==> LeftBy(w.history, record.store, w.store)
    requires disk.manifest == w.disk.manifest || !disk.manifest.Saved?
    requires index.Indexed? ==> index.tables == w.index
    ensures Residue(w.history, record, disk, index)
  {
  }

  // ---------- reconstruction on the way ----------

  /** Reconstruction of a manifest of the history is refused exactly when there is no manifest
      that loads, no plan, or a replayed relationship definition without an inverse label; and
      what it yields is a store of the history. */
  lemma RebuildTrue(h: seq<Canon>, disk: Disk)
    requires HistoryOk(h) && ManifestOk(h, disk.manifest)
    ensures RebuildOf(disk).Ok? <==>
      && LoadManifest(disk).Ok? && BestPlan(disk, LoadManifest(disk).value).Some?
      && AllInversesPresent(BestPlan(disk, LoadManifest(disk).value).value.patches)
    ensures RebuildOf(disk).Err? ==>
      RebuildOf(disk).error == if LoadManifest(disk).Ok? && BestPlan(disk, LoadManifest(disk).value).Some?
        then ConstraintViolation else CorruptStore
    ensures RebuildOf(disk).Ok? ==>
      && StoreOf(h, RebuildOf(disk).value.store)
      && OpenStore(RebuildOf(disk).value.store) == Ok(RebuildOf(disk).value.store)
      && RebuildOf(disk).value.store.canon.revision <= LoadManifest(disk).value.revision
  {
    if LoadManifest(disk).Ok? {
      var m := LoadManifest(disk).value;
      if BestPlan(disk, m).Some? {
        ReconstructionExact(h, disk, m);
        BestPlanSound(disk, m);
        RebuiltStoreOf(h, BestPlan(disk, m).value.recovered);
      }
    }
  }

  /** The rebuilt store is one an open takes, and the reset behind it is sound. */
  lemma RebuiltSound(h: seq<Canon>, disk: Disk)
    requires HistoryOk(h) && ManifestOk(h, disk.manifest) && RebuildOf(disk).Ok?
    ensures var rebuilt := RebuildOf(disk).value;
      && LeftBy(h, rebuilt.store, rebuilt.store) && OpenStore(rebuilt.store) == Ok(rebuilt.store)
      && ManifestOk(h, Saved(ResetManifest(disk, rebuilt.store, rebuilt.barrier))) && BacksUp(rebuilt.store)
  {
    RebuildTrue(h, disk);
    OwnLeft(h, RebuildOf(disk).value.store);
    ResetSound(h, RebuildOf(disk).value.store, disk, RebuildOf(disk).value.barrier);
  }

  /** A node no plan holds before an open that reconstructs is neither in the store it opens nor
      in anything the manifest refers to afterwards. */
  lemma RebuiltForgets(h: seq<Canon>, record: RecordFile, disk: Disk, id: NodeId)
    requires HistoryOk(h) && ManifestOk(h, disk.manifest) && disk.manifest.Saved?
    requires NeedsRebuild(record, disk) && OpenedStore(record, disk).Some?
    requires NeverIn(disk.manifest.manifest, id)
    ensures var s := OpenedStore(record, disk).value;
      && id !in s.canon.nodes
      && SettledDisk(OpenedDisk(record, disk), s) == OpenedDisk(record, disk)
      && OpenedDisk(record, disk).manifest.Saved? && NeverIn(OpenedDisk(record, disk).manifest.manifest, id)
  {
    RebuildTrue(h, disk);
    var rebuilt := RebuildOf(disk).value;
    ResetSound(h, rebuilt.store, disk, rebuilt.barrier);
    assert id !in rebuilt.store.canon.nodes;
    StoreAtRevision(h, rebuilt.store);
    GoneFromManifest(h, ResetManifest(disk, rebuilt.store, rebuilt.barrier), id);
  }

  lemma StoreAtRevision(h: seq<Canon>, s: Store)
    requires StoreOf(h, s)
    ensures s.canon == h[s.canon.revision]
  {
    var low :| Retained(Until(h, s.canon.revision), s, low);
  }

  /** A purge once forgotten stays forgotten across closing, damage to the files and an open that
      reconstructs. */
  lemma ForgottenSurvivesOpening(w: World, record: RecordFile, disk: Disk, id: NodeId)
    requires Inv(w) && disk.manifest == w.disk.manifest && disk.manifest.Saved?
    requires NeverIn(w.disk.manifest.manifest, id)
    requires NeedsRebuild(record, disk) && OpenedStore(record, disk).Some?
    ensures var s := OpenedStore(record, disk).value;
      id !in s.canon.nodes && NeverIn(SettledDisk(OpenedDisk(record, disk), s).manifest.manifest, id)
  {
    RebuiltForgets(w.history, record, disk, id);
  }
}
