/** The one divergence between writing and replaying: a relationship definition without an
    inverse label is stored as "" but replayed as NULL, which its column refuses. */
module Unlabelled {
  import opened Model
  import opened Operations
  import opened Projection
  import opened Commits
  import opened History
  import opened Replay
  import opened Recovery
  import opened Chain
  import opened Faithful
  import opened Rotation
  import opened CrashSafety
  import opened Core
  import opened Fresh

  predicate Unlabels(op: DefinitionOp<RelationshipBody>) {
    (op.Register? || op.Update?) && (op.body.inverse.None? || op.body.inverse == Some(""))
  }

  /** A patch can be replayed as far as labels go exactly when every relationship definition its
      window named, and that still exists, has a non-empty inverse label. */
  lemma LabelsDecide(s: Store, checkpoint: nat)
    requires DeltaSince(s, checkpoint).Available?
    ensures InversesPresent(DeltaSince(s, checkpoint).patch) <==>
      forall key <- AllNames(After(s.journal, checkpoint)).value.relationshipDefinitions ::
        key in s.canon.relationshipDefinitions ==> s.canon.relationshipDefinitions[key].body.inverse != ""
  {
    var names := AllNames(After(s.journal, checkpoint)).value.relationshipDefinitions;
    var patch := DeltaSince(s, checkpoint).patch;
    assert patch.relationshipDefinitions == ReadDefinitions(s.canon.relationshipDefinitions, names);
    if InversesPresent(patch) {
      forall key | key in names && key in s.canon.relationshipDefinitions
        ensures s.canon.relationshipDefinitions[key].body.inverse != ""
      {
        assert patch.relationshipDefinitions[key] == Some(ReadDefinition(s.canon.relationshipDefinitions[key]));
      }
    }
  }

  /** What the unlabelled operation stores and journals. */
  lemma UnlabelledCommit(s: Store, op: DefinitionOp<RelationshipBody>)
    requires Unlabels(op) && Commit(s, OnRelationship(op)).Ok?
    ensures var t := Commit(s, OnRelationship(op)).value;
      && |t.journal| == |s.journal| + 1 && t.journal == s.journal + [t.journal[|s.journal|]]
      && t.journal[|s.journal|].revision == s.canon.revision + 1
      && RowNames(t.journal[|s.journal|]) == Some(NO_NAMES.(relationshipDefinitions := {op.key}))
      && op.key in t.canon.relationshipDefinitions && t.canon.relationshipDefinitions[op.key].body.inverse == ""
  {
  }

  lemma UnlabelledAvailable(h: seq<Canon>, s: Store, low: nat, op: DefinitionOp<RelationshipBody>, checkpoint: nat)
    requires HistoryOk(h) && Retained(h, s, low) && low <= checkpoint <= s.canon.revision
    requires Commit(s, OnRelationship(op)).Ok?
    ensures DeltaSince(Commit(s, OnRelationship(op)).value, checkpoint).Available?
  {
    var t := Commit(s, OnRelationship(op)).value;
    assert Consistent(h[s.canon.revision]);
    CommitFacts(s, OnRelationship(op));
    CommitRetained(h, s, t, low);
    DeltaAvailability(h + [t.canon], t, low, checkpoint);
  }

  /** Whatever the library holds, registering or updating a relationship definition without an
      inverse label makes every delta across that commit one that replay refuses. */
  lemma UnlabelledRefused(h: seq<Canon>, s: Store, low: nat, op: DefinitionOp<RelationshipBody>, checkpoint: nat)
    requires HistoryOk(h) && Retained(h, s, low) && low <= checkpoint <= s.canon.revision
    requires Unlabels(op) && Commit(s, OnRelationship(op)).Ok?
    ensures var t := Commit(s, OnRelationship(op)).value;
      DeltaSince(t, checkpoint).Available? && !InversesPresent(DeltaSince(t, checkpoint).patch)
  {
    var t := Commit(s, OnRelationship(op)).value;
    UnlabelledAvailable(h, s, low, op, checkpoint);
    UnlabelledCommit(s, op);
    LabelsDecide(t, checkpoint);
    LastRowNamed(s.journal, t.journal[|s.journal|], checkpoint);
  }

  // ---------- a current chain that is refused ----------

  /** Extending a manifest without segments by its first one. */
  lemma FirstSegment(disk: Disk, s: Store, m: Manifest, patch: Patch)
    requires LoadManifest(disk) == Ok(m) && m.segments == [] && CatchUpAction(disk, s) == Extend(patch)
    ensures CatchUpDisk(disk, s) == AppendDisk(disk, m, patch)
  {
    KeepShorter([SegmentOf(patch)], NewestRevision(m.baselines));
    assert m.segments + [SegmentOf(patch)] == [SegmentOf(patch)];
  }

  lemma PlanOfOneSegment(disk: Disk, m: Manifest, b: BaselineArtifact, patch: Patch)
    requires ChainOk(m) && m.baselines == [b] && m.segments == [SegmentOf(patch)]
    requires VerifiedBaseline(disk, b).Some? && patch.from == b.revision < patch.target
    requires NameOf(patch) in disk.segments && disk.segments[NameOf(patch)] == Segment(patch.from, patch.target, patch)
    ensures BestPlan(disk, m).Some? && BestPlan(disk, m).value.recovered == m.revision
    ensures BestPlan(disk, m).value.patches == [patch]
  {
    var a := SegmentOf(patch);
    KeepAll([a], b.revision);
    assert [a][1..] == [];
    assert VerifiedSegment(disk, a, b.revision) == Some(patch);
    IntactReachesEnd(disk, m, m.baselines[|m.baselines| - 1]);
    BestOfAll(disk, m);
    PlanWalks(disk, m, b);
    assert Walk(disk, [], patch.target) == Walked(patch.target, []);
    assert Walk(disk, [a], b.revision) == Walked(patch.target, [patch] + []);
  }

  /** A one-segment chain with intact files is Current, and refused when its patch lacks a label. */
  lemma RefusedPlan(h: seq<Canon>, disk: Disk, m: Manifest, b: BaselineArtifact, patch: Patch)
    requires HistoryOk(h) && ChainOk(m) && True(h, m) && LoadManifest(disk) == Ok(m)
    requires m.baselines == [b] && m.segments == [SegmentOf(patch)]
    requires b.slot in disk.baselines && disk.baselines[b.slot] == b.checksum.content
    requires NameOf(patch) in disk.segments && disk.segments[NameOf(patch)] == Segment(patch.from, patch.target, patch)
    requires !InversesPresent(patch)
    ensures StatusOf(disk, m.revision) == RecoveryState.Current
    ensures BestPlan(disk, m).Some? && Reconstructed(BestPlan(disk, m).value) == Err(ConstraintViolation)
  {
    assert BaselineTrue(h, b);
    PlanOfOneSegment(disk, m, b, patch);
    ReconstructionExact(h, disk, m);
    assert patch in BestPlan(disk, m).value.patches;
  }

  /** The recovery material was just reset to the live state. */
  ghost predicate JustReset(w: World) {
    exists before, barrier :: w.disk == ResetDisk(before, w.store, barrier)
  }

  /** The delta a catch-up finds after the unlabelled commit. */
  lemma UnlabelledDelta(w: World, u: World, op: DefinitionOp<RelationshipBody>)
    requires Inv(w) && Unlabels(op) && CommitStep(w, u, OnRelationship(op))
    ensures DeltaSince(u.store, w.store.canon.revision).Available?
    ensures var patch := DeltaSince(u.store, w.store.canon.revision).patch;
      !HoldsPurge(patch) && !InversesPresent(patch)
  {
    UnlabelledRefused(w.history, w.store, w.low, op, w.store.canon.revision);
    NothingAfterLive(w.history, w.store, w.low);
    UnlabelledCommit(w.store, op);
    OneRowPlain(w.store.journal, u.store.journal[|w.store.journal|], u.store, w.store.canon.revision,
                NO_NAMES.(relationshipDefinitions := {op.key}));
  }

  lemma UnlabelledDisk(w: World, u: World, v: World, m: Manifest, patch: Patch)
    requires w.disk == u.disk && u.store.canon.revision > w.store.canon.revision
    requires LoadManifest(w.disk) == Ok(m) && m.revision == w.store.canon.revision && m.segments == []
    requires DeltaSince(u.store, m.revision) == Available(patch) && !HoldsPurge(patch)
    requires CatchUpStep(u, v)
    ensures v.disk == AppendDisk(w.disk, m, patch)
  {
    FirstSegment(u.disk, u.store, m, patch);
  }

  /** Status Current, all files intact, and still no reconstruction. */
  ghost predicate CurrentAndRefused(w: World) {
    && StatusOf(w.disk, w.store.canon.revision) == RecoveryState.Current
    && LoadManifest(w.disk).Ok? && BestPlan(w.disk, LoadManifest(w.disk).value).Some?
    && Reconstructed(BestPlan(w.disk, LoadManifest(w.disk).value).value) == Err(ConstraintViolation)
  }

  /** From any state whose recovery material was just reset: register or update a relationship
      definition without an inverse label, let one catch-up run to its end, and the status is
      Current while a reconstruction is refused. */
  lemma CurrentButRefused(w: World, u: World, v: World, op: DefinitionOp<RelationshipBody>)
    requires Inv(w) && JustReset(w) && Unlabels(op)
    requires CommitStep(w, u, OnRelationship(op)) && CatchUpStep(u, v)
    ensures CurrentAndRefused(v)
  {
    UnlabelledDelta(w, u, op);
    var m := ResetShape(w);
    var patch := DeltaSince(u.store, w.store.canon.revision).patch;
    UnlabelledDisk(w, u, v, m, patch);
    TwoSteps(w, u, v, op);
    AppendedRefused(w.disk, m, patch, v);
  }

  /** A reset leaves one intact baseline at the live revision. */
  lemma ResetShape(w: World) returns (m: Manifest)
    requires JustReset(w)
    ensures LoadManifest(w.disk) == Ok(m) && m.revision == w.store.canon.revision
    ensures |m.baselines| == 1 && m.segments == [] && m.baselines[0].slot in w.disk.baselines
    ensures w.disk.baselines[m.baselines[0].slot] == m.baselines[0].checksum.content
  {
    m := w.disk.manifest.manifest;
  }

  lemma AppendedRefused(disk: Disk, m: Manifest, patch: Patch, v: World)
    requires v.disk == AppendDisk(disk, m, patch) && v.store.canon.revision == patch.target
    requires HistoryOk(v.history) && ManifestOk(v.history, v.disk.manifest) && !InversesPresent(patch)
    requires |m.baselines| == 1 && m.segments == []
    requires m.baselines[0].slot in disk.baselines
    requires disk.baselines[m.baselines[0].slot] == m.baselines[0].checksum.content
    ensures CurrentAndRefused(v)
  {
    var n := v.disk.manifest.manifest;
    assert n.segments == [SegmentOf(patch)];
    RefusedPlan(v.history, v.disk, n, n.baselines[0], patch);
  }

  lemma TwoSteps(w: World, u: World, v: World, op: DefinitionOp<RelationshipBody>)
    requires Inv(w) && CommitStep(w, u, OnRelationship(op)) && CatchUpStep(u, v)
    ensures HistoryOk(v.history) && ManifestOk(v.history, v.disk.manifest)
  {
    CommitInv(w, u, OnRelationship(op));
    NextInv(u, v);
  }

  /** A definition without inverse label that a new library accepts. */
  const UNLABELLED := Register("k", RelationshipBody("label", None, None, "app"))

  lemma UnlabelledAccepted()
    ensures Unlabels(UNLABELLED) && Commit(FRESH.store, OnRelationship(UNLABELLED)).Ok?
  {
    assert Utf8Length("k") == 1 by { assert "k"[1..] == ""; }
    assert !IsBlank("label") by { assert !IsWhitespace("label"[0]); }
    assert !IsBlank("app") by { assert !IsWhitespace("app"[0]); }
    assert ValidKey("k");
  }

  /** A new library whose first baseline was just made. */
  lemma FirstBaseline() returns (run: seq<World>)
    ensures IsRun(run) && run[0] == FRESH
    ensures var w := run[|run| - 1]; Inv(w) && JustReset(w) && w.store == FRESH.store
  {
    FreshInv();
    var w := FRESH.(disk := ResetDisk(EMPTY_DISK, FRESH.store, None));
    assert ResetStep(FRESH, w, None);
    NextInv(FRESH, w);
    SingleRun(FRESH);
    RunExtends([FRESH], w);
    run := [FRESH] + [w];
  }

  lemma RefusalSteps(w: World) returns (u: World, v: World)
    requires Inv(w) && JustReset(w) && w.store == FRESH.store
    ensures Next(w, u) && Next(u, v) && CurrentAndRefused(v)
  {
    UnlabelledAccepted();
    var t := Commit(w.store, OnRelationship(UNLABELLED)).value;
    u := w.(store := t, history := w.history + [t.canon]);
    v := u.(disk := CatchUpDisk(u.disk, u.store));
    assert CommitStep(w, u, OnRelationship(UNLABELLED)) && CatchUpStep(u, v);
    CurrentButRefused(w, u, v, UNLABELLED);
  }

  ghost predicate EndsRefused(run: seq<World>) {
    IsRun(run) && run[0] == FRESH && CurrentAndRefused(run[|run| - 1])
  }

  /** Four states of a new library - empty, with its first baseline, after the registration of a
      relationship definition without inverse label, after one catch-up - end in one whose status is
      Current and whose reconstruction is refused. */
  lemma RefusalReachable() returns (run: seq<World>)
    ensures EndsRefused(run)
  {
    var start := FirstBaseline();
    var u, v := RefusalSteps(start[|start| - 1]);
    RunExtendsTwice(start, u, v);
    run := start + [u] + [v];
  }
}
