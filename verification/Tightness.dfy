/** Runs of a new library that reach every bound: each commit creates one node and is followed by
    one catch-up. */
module Tightness {
  import opened Model
  import opened Operations
  import opened Projection
  import opened History
  import opened RecordStores
  import opened Recovery
  import opened Chain
  import opened Faithful
  import opened Rotation
  import opened Bounds
  import opened Core
  import opened Fresh

  /** The identity created at revision `n`: the UUIDv7 values from the smallest one on. */
  function Identity(n: nat): NodeId {
    0x7000_0000_0000_0000_0000 + n
  }

  lemma IdentityIsUuid7(n: nat)
    requires n < 0x1_0000
    ensures IsUuid7(Identity(n))
  {
  }

  /** The manifest is saved at the live revision `n` with `count` segments, and the identities
      issued so far are the first `n`. */
  ghost predicate Holding(w: World, n: nat, count: nat) {
    && w.disk.manifest.Saved?
    && w.store.canon.revision == w.disk.manifest.manifest.revision == n
    && |w.disk.manifest.manifest.segments| == count
    && forall id <- w.store.canon.issued :: Identity(0) <= id < Identity(n)
  }

  // ---------- one commit ----------

  function CreatedWorld(w: World, n: nat): World {
    var t := Created(w.store, [Identity(n)]);
    w.(store := t, history := w.history + [t.canon])
  }

  /** Creating that node at revision `n` is permitted. */
  lemma CreateOne(w: World, n: nat)
    requires w.store.canon.revision == n && Identity(n) !in w.store.canon.issued
    ensures CommitStep(w, CreatedWorld(w, n), CreateNodes([Identity(n)]))
    ensures var t := CreatedWorld(w, n).store;
      && t.canon.revision == n + 1
      && t.canon.issued == w.store.canon.issued + {Identity(n)} && Identity(n) in t.canon.nodes
      && t.journal == w.store.journal + [MutationRow(n + 1, 0, CreateNode(Identity(n)))]
  {
    CreationMeaning(w.store, [Identity(n)]);
    assert CreationRows(n + 1, [Identity(n)]) == [MutationRow(n + 1, 0, CreateNode(Identity(n)))];
    assert (set id <- [Identity(n)]) == {Identity(n)};
  }

  lemma CreationAvailable(w: World, n: nat)
    requires Inv(w) && w.store.canon.revision == n && Identity(n) !in w.store.canon.issued
    ensures DeltaSince(CreatedWorld(w, n).store, n).Available? && After(w.store.journal, n) == []
  {
    var u := CreatedWorld(w, n);
    CreateOne(w, n);
    CommitInv(w, u, CreateNodes([Identity(n)]));
    DeltaAvailability(u.history, u.store, u.low, n);
    NothingAfterLive(w.history, w.store, w.low);
  }

  // ---------- one catch-up ----------

  function CreationPatch(w: World, n: nat): Patch
    requires DeltaSince(CreatedWorld(w, n).store, n).Available?
  {
    DeltaSince(CreatedWorld(w, n).store, n).patch
  }

  lemma CreationPlain(w: World, n: nat)
    requires w.store.canon.revision == n && Identity(n) !in w.store.canon.issued && After(w.store.journal, n) == []
    requires DeltaSince(CreatedWorld(w, n).store, n).Available?
    ensures !HoldsPurge(CreationPatch(w, n))
    ensures CreationPatch(w, n).from == n && CreationPatch(w, n).target == n + 1
  {
    CreateOne(w, n);
    OneRowPlain(w.store.journal, MutationRow(n + 1, 0, CreateNode(Identity(n))), CreatedWorld(w, n).store, n,
                NO_NAMES.(nodes := {Identity(n)}, issued := {Identity(n)}));
  }

  lemma ExtendsByOne(w: World, n: nat, count: nat)
    requires Inv(w) && Holding(w, n, count) && count <= MAX_RECOVERY_SEGMENTS
    ensures DeltaSince(CreatedWorld(w, n).store, n).Available?
    ensures CatchUpAction(w.disk, CreatedWorld(w, n).store) == Extend(CreationPatch(w, n))
    ensures CreationPatch(w, n).from == n && CreationPatch(w, n).target == n + 1
  {
    CreationAvailable(w, n);
    CreationPlain(w, n);
  }

  /** The world after the commit and a catch-up that was stopped before any rotation. */
  function StoppedWorld(w: World, n: nat): World
    requires w.disk.manifest.Saved? && DeltaSince(CreatedWorld(w, n).store, n).Available?
  {
    CreatedWorld(w, n).(disk := AppendDisk(w.disk, w.disk.manifest.manifest, CreationPatch(w, n)))
  }

  /** The world after the commit and a catch-up that ran to its end. */
  function CaughtUpWorld(w: World, n: nat): World {
    CreatedWorld(w, n).(disk := CatchUpDisk(w.disk, CreatedWorld(w, n).store))
  }

  lemma TwoSteps(run: seq<World>, n: nat, v: World)
    requires IsRun(run) && run[|run| - 1].store.canon.revision == n && Identity(n) !in run[|run| - 1].store.canon.issued
    requires Next(CreatedWorld(run[|run| - 1], n), v)
    ensures IsRun(run + [CreatedWorld(run[|run| - 1], n)] + [v])
  {
    CreateOne(run[|run| - 1], n);
    RunExtendsTwice(run, CreatedWorld(run[|run| - 1], n), v);
  }

  lemma StoppedHolding(w: World, n: nat, count: nat)
    requires Holding(w, n, count) && LoadManifest(w.disk).Ok? && Identity(n) !in w.store.canon.issued
    requires DeltaSince(CreatedWorld(w, n).store, n).Available?
    requires CatchUpAction(w.disk, CreatedWorld(w, n).store) == Extend(CreationPatch(w, n))
    requires CreationPatch(w, n).target == n + 1
    ensures Holding(StoppedWorld(w, n), n + 1, count + 1)
    ensures InterruptedStep(CreatedWorld(w, n), StoppedWorld(w, n))
  {
    CreateOne(w, n);
    var u, v := CreatedWorld(w, n), StoppedWorld(w, n);
    assert CatchUpPassesThrough(u.disk, u.store, v.disk);
  }

  /** A commit and an interrupted catch-up add a segment, whatever was due. */
  lemma Interrupt(run: seq<World>, n: nat, count: nat) returns (longer: seq<World>)
    requires IsRun(run) && Holding(run[|run| - 1], n, count) && count <= MAX_RECOVERY_SEGMENTS
    requires LoadManifest(run[|run| - 1].disk).Ok?
    ensures IsRun(longer) && longer[0] == run[0]
    ensures Holding(longer[|longer| - 1], n + 1, count + 1)
    ensures |longer| >= 2 && InterruptedStep(longer[|longer| - 2], longer[|longer| - 1])
  {
    var w := run[|run| - 1];
    RunInv(run, |run| - 1);
    ExtendsByOne(w, n, count);
    StoppedHolding(w, n, count);
    TwoSteps(run, n, StoppedWorld(w, n));
    longer := run + [CreatedWorld(w, n)] + [StoppedWorld(w, n)];
  }

  // ---------- settled lengths ----------

  ghost predicate SettledAt(w: World, n: nat) {
    Holding(w, n, n) && Settled(w.disk.manifest.manifest) && Past(w.disk.manifest.manifest) == n % SEGMENTS_PER_BASELINE
  }

  /** What a completed catch-up does to the two counts. */
  lemma ExtendCounts(disk: Disk, m: Manifest, patch: Patch, s: Store)
    requires Settled(m) && patch.from == m.revision < patch.target == s.canon.revision
    ensures ExtendDisk(disk, m, patch, s).manifest.Saved?
    ensures var after := ExtendDisk(disk, m, patch, s).manifest.manifest;
      && after.revision == patch.target && after.baselines != []
      && if Past(m) + 1 < SEGMENTS_PER_BASELINE
         then |after.segments| == |m.segments| + 1 && Past(after) == Past(m) + 1
         else |after.segments| == SEGMENTS_PER_BASELINE && Past(after) == 0
  {
    var extended := AppendManifest(m, patch);
    AppendChain(m, patch);
    AppendPast(m, patch);
    LinkedGrows(m.segments, Oldest(m), Newest(m));
    if NeedsRotation(extended) {
      RotateChain(extended, s);
      RotationResult(extended, s);
      NothingPastEnd(RotateManifest(extended, s));
    }
  }

  lemma CaughtUpCounts(disk: Disk, s: Store, m: Manifest, patch: Patch, n: nat)
    requires LoadManifest(disk) == Ok(m) && CatchUpAction(disk, s) == Extend(patch)
    requires patch.from == m.revision == n && patch.target == s.canon.revision == n + 1
    requires Settled(m) && |m.segments| == n && Past(m) == n % SEGMENTS_PER_BASELINE && n < MAX_RECOVERY_SEGMENTS - 1
    ensures CatchUpDisk(disk, s).manifest.Saved? && Settled(CatchUpDisk(disk, s).manifest.manifest)
    ensures var after := CatchUpDisk(disk, s).manifest.manifest;
      after.revision == n + 1 && |after.segments| == n + 1 && Past(after) == (n + 1) % SEGMENTS_PER_BASELINE
  {
    ExtendCounts(disk, m, patch, s);
    CatchUpSettles(disk, s);
    NextRemainder(n);
  }

  lemma NextRemainder(n: nat)
    ensures (n + 1) % SEGMENTS_PER_BASELINE
         == (if n % SEGMENTS_PER_BASELINE + 1 < SEGMENTS_PER_BASELINE then n % SEGMENTS_PER_BASELINE + 1 else 0)
    ensures n < MAX_RECOVERY_SEGMENTS - 1 && n % SEGMENTS_PER_BASELINE + 1 == SEGMENTS_PER_BASELINE ==>
      n + 1 == SEGMENTS_PER_BASELINE
  {
  }

  lemma CaughtUpHolding(w: World, n: nat, patch: Patch)
    requires SettledAt(w, n) && n < MAX_RECOVERY_SEGMENTS - 1 && LoadManifest(w.disk).Ok?
    requires CatchUpAction(w.disk, CreatedWorld(w, n).store) == Extend(patch)
    requires patch.from == n && patch.target == n + 1
    ensures SettledAt(CaughtUpWorld(w, n), n + 1)
  {
    CreateOne(w, n);
    CaughtUpCounts(w.disk, CreatedWorld(w, n).store, w.disk.manifest.manifest, patch, n);
  }

  lemma CaughtUpSettled(w: World, n: nat)
    requires Inv(w) && SettledAt(w, n) && n < MAX_RECOVERY_SEGMENTS - 1
    ensures SettledAt(CaughtUpWorld(w, n), n + 1)
  {
    ExtendsByOne(w, n, n);
    CaughtUpHolding(w, n, CreationPatch(w, n));
  }

  lemma Grow(run: seq<World>, n: nat) returns (longer: seq<World>)
    requires IsRun(run) && SettledAt(run[|run| - 1], n) && n < MAX_RECOVERY_SEGMENTS - 1
    ensures IsRun(longer) && longer[0] == run[0] && SettledAt(longer[|longer| - 1], n + 1)
  {
    var w := run[|run| - 1];
    RunInv(run, |run| - 1);
    CaughtUpSettled(w, n);
    assert CatchUpStep(CreatedWorld(w, n), CaughtUpWorld(w, n));
    TwoSteps(run, n, CaughtUpWorld(w, n));
    longer := run + [CreatedWorld(w, n)] + [CaughtUpWorld(w, n)];
  }

  lemma FirstBaselineSettled() returns (run: seq<World>)
    ensures IsRun(run) && run[0] == FRESH && SettledAt(run[|run| - 1], 0)
  {
    FreshInv();
    var w := FRESH.(disk := ResetDisk(FRESH.disk, FRESH.store, None));
    assert ResetStep(FRESH, w, None);
    SingleRun(FRESH);
    RunExtends([FRESH], w);
    ResetChain(FRESH.disk, FRESH.store, None);
    run := [FRESH] + [w];
  }

  lemma {:induction false} Reach(n: nat) returns (run: seq<World>)
    requires n <= MAX_RECOVERY_SEGMENTS - 1
    ensures IsRun(run) && run[0] == FRESH && SettledAt(run[|run| - 1], n)
  {
    if n == 0 {
      run := FirstBaselineSettled();
    } else {
      var shorter := Reach(n - 1);
      run := Grow(shorter, n - 1);
    }
  }

  // ---------- the bounds are reached ----------

  ghost predicate EndsWith(run: seq<World>, count: nat, loads: bool) {
    && IsRun(run) && run[0] == FRESH
    && (forall id <- run[|run| - 1].store.canon.issued :: IsUuid7(id))
    && run[|run| - 1].disk.manifest.Saved?
    && |run[|run| - 1].disk.manifest.manifest.segments| == count
    && (LoadManifest(run[|run| - 1].disk).Ok? <==> loads)
  }

  lemma HoldingEnds(run: seq<World>, n: nat, count: nat)
    requires IsRun(run) && run[0] == FRESH && Holding(run[|run| - 1], n, count) && n < 0x1_0000
    ensures EndsWith(run, count, count <= MAX_RECOVERY_SEGMENTS)
  {
    RunInv(run, |run| - 1);
    forall id | id in run[|run| - 1].store.canon.issued ensures IsUuid7(id) {
      IdentityIsUuid7(id - Identity(0));
    }
  }

  ghost predicate EndsSettled(run: seq<World>, count: nat) {
    EndsWith(run, count, true) && Settled(run[|run| - 1].disk.manifest.manifest)
  }

  /** A new library reaches every settled length up to 64 + 63 = 127 segments. */
  lemma BoundsReached(n: nat)
    requires n <= 127
    ensures exists run :: EndsSettled(run, n)
  {
    var run := Reach(n);
    HoldingEnds(run, n, n);
    assert EndsSettled(run, n);
  }

  /** It reaches the 128 segments a catch-up saves on the way to its rotation, which still load. */
  lemma FullSaveReached() returns (run: seq<World>)
    ensures EndsWith(run, 128, true)
    ensures Holding(run[|run| - 1], MAX_RECOVERY_SEGMENTS, MAX_RECOVERY_SEGMENTS)
    ensures InterruptedStep(run[|run| - 2], run[|run| - 1])
  {
    var full := Reach(MAX_RECOVERY_SEGMENTS - 1);
    run := Interrupt(full, MAX_RECOVERY_SEGMENTS - 1, MAX_RECOVERY_SEGMENTS - 1);
    HoldingEnds(run, MAX_RECOVERY_SEGMENTS, MAX_RECOVERY_SEGMENTS);
  }

  ghost predicate EndsRefused(run: seq<World>) {
    EndsWith(run, 129, false)
  }

  /** And a second interruption in a row makes it save a manifest it will not load. */
  lemma FullChainRefused()
    ensures exists run :: EndsRefused(run)
  {
    var full := FullSaveReached();
    var run := Interrupt(full, MAX_RECOVERY_SEGMENTS, MAX_RECOVERY_SEGMENTS);
    HoldingEnds(run, MAX_RECOVERY_SEGMENTS + 1, MAX_RECOVERY_SEGMENTS + 1);
    assert EndsRefused(run);
  }
}
