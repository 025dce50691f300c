/** Recovery material against history: what the digests of a manifest stand for, and what a
    reconstruction therefore yields, whatever happened to the files. */
module Faithful {
  import opened Model
  import opened Projection
  import opened History
  import opened Replay
  import opened Revision
  import opened Recovery
  import opened Chain
  import Meaning

  // ---------- the invariant ----------

  ghost predicate BaselineTrue(h: seq<Canon>, b: BaselineArtifact) {
    && b.revision < |h|
    && b.checksum.content.Snapshot?
    && b.checksum.content.store.canon == h[b.revision]
    && OpenStore(b.checksum.content.store) == Ok(b.checksum.content.store)
  }

  ghost predicate SegmentTrue(h: seq<Canon>, a: SegmentArtifact) {
    && a.from < a.through < |h|
    && a.checksum.content.Segment?
    && a.name == SegmentName(a.from + 1, a.through)
    && var file := a.checksum.content;
      && file.from == file.patch.from == a.from && file.through == file.patch.target == a.through
      && ApplyPatch(h[a.from], file.patch) == h[a.through]
      && !HoldsPurge(file.patch)
  }

  /** Every artifact's digest stands for a true state or a true step of the history. */
  ghost predicate True(h: seq<Canon>, m: Manifest) {
    && m.revision < |h|
    && (forall b <- m.baselines :: BaselineTrue(h, b))
    && (forall a <- m.segments :: SegmentTrue(h, a))
  }

  // ---------- preservation ----------

  lemma ResetTrue(h: seq<Canon>, s: Store, low: nat, disk: Disk, barrier: Option<nat>)
    requires HistoryOk(h) && Retained(h, s, low)
    ensures True(h, ResetManifest(disk, s, barrier)) && BacksUp(s)
  {
    ReachableOpens(h, s, low);
  }

  /** The patch of an available delta without purged nodes is a true step. */
  lemma DeltaTrue(h: seq<Canon>, s: Store, low: nat, checkpoint: nat)
    requires HistoryOk(h) && Retained(h, s, low)
    requires DeltaSince(s, checkpoint).Available? && !HoldsPurge(DeltaSince(s, checkpoint).patch)
    ensures SegmentTrue(h, SegmentOf(DeltaSince(s, checkpoint).patch))
  {
    DeltaCorrect(h, s, low, checkpoint);
  }

  lemma AppendTrue(h: seq<Canon>, m: Manifest, patch: Patch)
    requires True(h, m) && SegmentTrue(h, SegmentOf(patch))
    ensures True(h, AppendManifest(m, patch))
  {
  }

  lemma RotateTrue(h: seq<Canon>, s: Store, low: nat, m: Manifest)
    requires HistoryOk(h) && Retained(h, s, low)
    requires ChainOk(m) && Newest(m) < s.canon.revision == m.revision && True(h, m)
    ensures True(h, RotateManifest(m, s))
  {
    RotationResult(m, s);
    KeepLinked(m.segments, Oldest(m), Newest(m));
    ReachableOpens(h, s, low);
  }

  lemma BaselineTruePrefix(h: seq<Canon>, g: seq<Canon>, b: BaselineArtifact)
    requires BaselineTrue(h, b) && b.revision < |g| && g[b.revision] == h[b.revision]
    ensures BaselineTrue(g, b)
  {
  }

  lemma SegmentTruePrefix(h: seq<Canon>, g: seq<Canon>, a: SegmentArtifact)
    requires SegmentTrue(h, a) && a.through < |g| && g[a.from] == h[a.from] && g[a.through] == h[a.through]
    ensures SegmentTrue(g, a)
  {
  }

  /** The revisions a chain mentions are at most its recovery revision. */
  lemma ChainBelow(m: Manifest)
    requires ChainOk(m)
    ensures forall b <- m.baselines :: b.revision <= m.revision
    ensures forall a <- m.segments :: a.from < a.through <= m.revision
  {
    LinkedGrows(m.segments, Oldest(m), Newest(m));
    LinkedFrom(m.segments, Oldest(m));
    forall b | b in m.baselines ensures b.revision <= m.revision {
      assert b == m.baselines[0] || b == m.baselines[|m.baselines| - 1];
    }
  }

  /** Truth is about the revisions a manifest mentions: other history does not matter. */
  lemma TruePrefix(h: seq<Canon>, g: seq<Canon>, m: Manifest)
    requires True(h, m) && ChainOk(m) && m.revision < |g|
    requires forall i :: 0 <= i <= m.revision ==> g[i] == h[i]
    ensures True(g, m)
  {
    ChainBelow(m);
    forall b | b in m.baselines ensures BaselineTrue(g, b) {
      BaselineTruePrefix(h, g, b);
    }
    forall a | a in m.segments ensures SegmentTrue(g, a) {
      SegmentTruePrefix(h, g, a);
    }
  }

  // ---------- replay ----------

  /** The patches are true steps of the history. */
  ghost predicate StepsTrue(h: seq<Canon>, patches: seq<Patch>) {
    forall patch <- patches ::
      && patch.from < patch.target < |h|
      && ApplyPatch(h[patch.from], patch) == h[patch.target]
      && !HoldsPurge(patch)
  }

  lemma {:induction false} WalkTrue(h: seq<Canon>, disk: Disk, segments: seq<SegmentArtifact>, cursor: nat)
    requires forall a <- segments :: SegmentTrue(h, a)
    ensures StepsTrue(h, Walk(disk, segments, cursor).patches)
    decreases |segments|
  {
    if segments != [] {
      if segments[0].through <= cursor {
        WalkTrue(h, disk, segments[1..], cursor);
      } else {
        WalkTrue(h, disk, segments[1..], segments[0].through);
        assert SegmentTrue(h, segments[0]);
      }
    }
  }

  predicate AllInversesPresent(patches: seq<Patch>) {
    forall patch <- patches :: InversesPresent(patch)
  }

  /** Replaying true steps that follow one another ends exactly in the state of the last
      revision, and it is refused exactly when some patch lacks an inverse label. */
  lemma {:induction false} ReplayExact(h: seq<Canon>, s: Store, patches: seq<Patch>, end: nat)
    requires HistoryOk(h) && StepsTrue(h, patches) && s.canon.revision < |h| && s.canon == h[s.canon.revision]
    requires Follows(patches, s.canon.revision, end)
    ensures AllInversesPresent(patches) ==>
      && end < |h| && ReplayAll(s, patches).Ok? && ReplayAll(s, patches).value.canon == h[end]
    ensures !AllInversesPresent(patches) ==> ReplayAll(s, patches) == Err(ConstraintViolation)
    decreases |patches|
  {
    if patches != [] {
      var patch := patches[0];
      ConsistentHolds(h[patch.target]);
      assert ApplyPatch(s.canon, patch) == h[patch.target];
      assert patches == [patch] + patches[1..];
      if InversesPresent(patch) {
        ReplayExact(h, Store(h[patch.target], []), patches[1..], end);
      }
    }
  }

  /** Whatever damage the files took, a reconstruction yields the canonical state of the
      recovered revision exactly, with an empty journal - unless replay meets a relationship
      definition without an inverse label, which it refuses. */
  lemma ReconstructionExact(h: seq<Canon>, disk: Disk, m: Manifest)
    requires HistoryOk(h) && ChainOk(m) && True(h, m) && BestPlan(disk, m).Some?
    ensures var plan := BestPlan(disk, m).value;
      && plan.recovered < |h|
      && Reconstructed(plan) ==
           if AllInversesPresent(plan.patches) then Ok(Store(h[plan.recovered], [])) else Err(ConstraintViolation)
  {
    BestPlanSound(disk, m);
    BestOfAll(disk, m);
    var plan := BestPlan(disk, m).value;
    PlanWalks(disk, m, plan.baseline);
    KeepLinked(m.segments, Oldest(m), plan.baseline.revision);
    WalkTrue(h, disk, KeepPast(m.segments, plan.baseline.revision), plan.baseline.revision);
    assert BaselineTrue(h, plan.baseline);
    ReplayExact(h, plan.store, plan.patches, plan.recovered);
    ConsistentHolds(h[plan.recovered]);
  }

  /** When the status is Current, losing the record file loses nothing: a reconstruction that
      succeeds is the live canonical state. */
  lemma CurrentReconstructsLive(h: seq<Canon>, s: Store, low: nat, disk: Disk)
    requires HistoryOk(h) && Retained(h, s, low)
    requires LoadManifest(disk).Ok? ==> ChainOk(LoadManifest(disk).value) && True(h, LoadManifest(disk).value)
    requires StatusOf(disk, s.canon.revision) == RecoveryState.Current
    ensures LoadManifest(disk).Ok? && BestPlan(disk, LoadManifest(disk).value).Some?
    ensures var plan := BestPlan(disk, LoadManifest(disk).value).value;
      Reconstructed(plan) == if AllInversesPresent(plan.patches) then Ok(Store(s.canon, []))
          else Err(ConstraintViolation)
  {
    var m := LoadManifest(disk).value;
    BestPlanSound(disk, m);
    ReconstructionExact(h, disk, m);
  }

  // ---------- purge ----------

  lemma {:induction false} NodesSurviveChain(h: seq<Canon>, segments: seq<SegmentArtifact>, start: nat, revision: nat)
    requires Linked(segments, start) && (forall a <- segments :: SegmentTrue(h, a)) && start < |h|
    requires OnBoundary(segments, start, revision)
    ensures revision < |h| && EndOf(segments, start) < |h|
    ensures h[revision].nodes.Keys <= h[EndOf(segments, start)].nodes.Keys
  {
    if segments != [] {
      var a := segments[0];
      assert SegmentTrue(h, a);
      StepKeepsNodes(h[a.from], a.checksum.content.patch);
      if revision == start {
        LinkedGrows(segments[1..], a.through, a.through);
        NodesSurviveChain(h, segments[1..], a.through, a.through);
      } else {
        NodesSurviveChain(h, segments[1..], a.through, revision);
      }
    }
  }

  lemma StepKeepsNodes(c: Canon, patch: Patch)
    requires !HoldsPurge(patch)
    ensures c.nodes.Keys <= ApplyPatch(c, patch).nodes.Keys
  {
  }

  /** No segment spans a purge: every node of any state on the chain is still a node at the
      recovery revision. */
  lemma ChainKeepsNodes(h: seq<Canon>, m: Manifest, revision: nat)
    requires ChainOk(m) && True(h, m) && OnBoundary(m.segments, Oldest(m), revision)
    ensures revision < |h| && h[revision].nodes.Keys <= h[m.revision].nodes.Keys
  {
    assert BaselineTrue(h, m.baselines[0]);
    NodesSurviveChain(h, m.segments, Oldest(m), revision);
  }

  lemma PurgedFromBaseline(h: seq<Canon>, m: Manifest, b: BaselineArtifact, id: NodeId)
    requires ChainOk(m) && True(h, m) && id !in h[m.revision].nodes && b in m.baselines
    ensures b.checksum.content.Snapshot? && id !in b.checksum.content.store.canon.nodes
  {
    assert b == m.baselines[0] || b == m.baselines[|m.baselines| - 1];
    assert BaselineTrue(h, b);
    ChainKeepsNodes(h, m, b.revision);
  }

  lemma PurgedFromSegment(h: seq<Canon>, m: Manifest, a: SegmentArtifact, id: NodeId)
    requires ChainOk(m) && True(h, m) && id !in h[m.revision].nodes && a in m.segments
    ensures a.checksum.content.Segment? && id !in a.checksum.content.patch.nodes
  {
    assert SegmentTrue(h, a);
    SegmentEnds(m.segments, Oldest(m), a);
    ChainKeepsNodes(h, m, a.through);
  }

  /** A node that is gone at the recovery revision is in nothing the manifest refers to: no
      baseline, no segment, no reconstruction. */
  lemma PurgeNeverResurrects(h: seq<Canon>, disk: Disk, m: Manifest, id: NodeId)
    requires HistoryOk(h) && ChainOk(m) && True(h, m) && id !in h[m.revision].nodes
    ensures forall b <- m.baselines :: b.checksum.content.Snapshot? && id !in b.checksum.content.store.canon.nodes
    ensures forall a <- m.segments :: a.checksum.content.Segment? && id !in a.checksum.content.patch.nodes
    ensures BestPlan(disk, m).Some? && Reconstructed(BestPlan(disk, m).value).Ok? ==>
              id !in Reconstructed(BestPlan(disk, m).value).value.canon.nodes
  {
    forall b | b in m.baselines ensures b.checksum.content.Snapshot? && id !in b.checksum.content.store.canon.nodes {
      PurgedFromBaseline(h, m, b, id);
    }
    forall a | a in m.segments ensures a.checksum.content.Segment? && id !in a.checksum.content.patch.nodes {
      PurgedFromSegment(h, m, a, id);
    }
    if BestPlan(disk, m).Some? {
      ReconstructionExact(h, disk, m);
      BestPlanSound(disk, m);
      ChainKeepsNodes(h, m, BestPlan(disk, m).value.recovered);
    }
  }

  lemma {:induction false} SegmentEnds(segments: seq<SegmentArtifact>, start: nat, a: SegmentArtifact)
    requires Linked(segments, start) && a in segments
    ensures OnBoundary(segments, start, a.through)
  {
    if a != segments[0] {
      SegmentEnds(segments[1..], segments[0].through, a);
    }
  }

  lemma {:induction false} IssuedAreNodes(rows: seq<Change>)
    requires AllNames(rows).Some?
    ensures AllNames(rows).value.issued <= AllNames(rows).value.nodes
    decreases |rows|
  {
    if rows != [] {
      IssuedAreNodes(rows[..|rows| - 1]);
    }
  }

  /** A node that existed inside a covered window and is gone at its end is named by the frame. */
  lemma RetiredIsNamed(names: Names, before: Canon, after: Canon, id: NodeId)
    requires Covers(names, before, after) && names.issued <= names.nodes
    requires id !in after.nodes && (id in before.nodes || (id !in before.issued && id in after.issued))
    ensures HoldsPurge(Capture(names, after, before.revision, 0))
  {
    if id in before.nodes {
      assert Lookup(before.nodes, id) != Lookup(after.nodes, id);
    }
    assert id in names.nodes;
    assert Capture(names, after, before.revision, 0).nodes[id] == None;
  }

  /** The patch of a delta whose named nodes all still exist carries no purge. */
  lemma NothingPurged(s: Store, checkpoint: nat, names: Names)
    requires DeltaSince(s, checkpoint).Available? && AllNames(After(s.journal, checkpoint)) == Some(names)
    requires names.nodes <= s.canon.nodes.Keys
    ensures !HoldsPurge(DeltaSince(s, checkpoint).patch)
  {
    assert DeltaSince(s, checkpoint).patch.nodes == Read(s.canon.nodes, names.nodes);
  }

  /** Nor does the patch of a single row that names only existing nodes. */
  lemma OneRowPlain(journal: seq<Change>, row: Change, t: Store, checkpoint: nat, names: Names)
    requires t.journal == journal + [row] && After(journal, checkpoint) == [] && checkpoint < row.revision
    requires RowNames(row) == Some(names) && names.nodes <= t.canon.nodes.Keys
    requires DeltaSince(t, checkpoint).Available?
    ensures !HoldsPurge(DeltaSince(t, checkpoint).patch)
  {
    OneRowWindow(journal, row, checkpoint);
    NothingPurged(t, checkpoint, names);
  }

  /** A delta window in which any node was retired - also one created, tombstoned and purged
      inside a single batch of it - always takes the reset branch. */
  lemma PurgeWindowResets(h: seq<Canon>, s: Store, low: nat, disk: Disk, id: NodeId)
    requires HistoryOk(h) && Retained(h, s, low) && LoadManifest(disk).Ok?
    requires LoadManifest(disk).value.revision < s.canon.revision
    requires Meaning.Resolve(s.canon, id).Retired?
        && !Meaning.Resolve(h[LoadManifest(disk).value.revision], id).Retired?
    ensures CatchUpAction(disk, s).Reset?
  {
    var from := LoadManifest(disk).value.revision;
    DeltaAvailability(h, s, low, from);
    if DeltaSince(s, from).Available? {
      CoveredFrame(h, s, low, from);
      var rows := After(s.journal, from);
      var names := AllNames(rows).value;
      IssuedAreNodes(rows);
      RetiredIsNamed(names, h[from], s.canon, id);
      assert DeltaSince(s, from).patch.nodes == Capture(names, s.canon, from, 0).nodes;
    }
  }
}
