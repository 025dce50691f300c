/** What missing and damaged recovery files cost, said by the files themselves. */
module Damage {
  import opened Model
  import opened History
  import opened Replay
  import opened Recovery
  import opened Chain
  import opened Faithful

  /** The file the manifest lists is there, with the content its digest was taken of. */
  predicate KeptBaseline(disk: Disk, b: BaselineArtifact) {
    b.slot in disk.baselines && disk.baselines[b.slot] == b.checksum.content
  }

  predicate KeptSegment(disk: Disk, a: SegmentArtifact) {
    a.name in disk.segments && disk.segments[a.name] == a.checksum.content
  }

  /** Nothing from the baseline to the end of the chain is missing or damaged. */
  predicate KeptFrom(disk: Disk, m: Manifest, b: BaselineArtifact) {
    && KeptBaseline(disk, b)
    && (forall a <- m.segments :: b.revision < a.through ==> KeptSegment(disk, a))
  }

  /** Some baseline file is kept; everything past some baseline is kept. */
  predicate SomethingKept(disk: Disk, m: Manifest) {
    exists b <- m.baselines :: KeptBaseline(disk, b)
  }

  predicate AllKept(disk: Disk, m: Manifest) {
    exists b <- m.baselines :: KeptFrom(disk, m, b)
  }

  /** The content says the same revisions as the manifest. */
  predicate Matches(a: SegmentArtifact) {
    var file := a.checksum.content;
    && file.Segment?
    && file.from == file.patch.from == a.from
    && file.through == file.patch.target == a.through
  }

  // ---------- damage stops the plan ----------

  /** A walk ends before the first segment whose file is missing, differs or says other revisions. */
  lemma {:induction false} WalkStopsBefore(disk: Disk, segments: seq<SegmentArtifact>, cursor: nat)
    requires Linked(segments, cursor)
    ensures forall a <- segments ::
      !KeptSegment(disk, a) || !Matches(a) ==> Walk(disk, segments, cursor).cursor <= a.from
  {
    WalkStops(disk, segments, cursor);
    LinkedFrom(segments, cursor);
    if segments != [] && VerifiedSegment(disk, segments[0], cursor).Some? {
      WalkStopsBefore(disk, segments[1..], segments[0].through);
    }
  }

  lemma {:induction false} KeepHolds(segments: seq<SegmentArtifact>, revision: nat, a: SegmentArtifact)
    ensures a in KeepPast(segments, revision) <==> a in segments && a.through > revision
  {
    if segments != [] {
      KeepHolds(segments[1..], revision, a);
      assert segments == [segments[0]] + segments[1..];
    }
  }

  /** No plan runs past a segment whose file is missing, has another content than its digest, or
      says other revisions than the manifest: it either stops before it or starts behind it. */
  lemma DamagedSegmentStops(disk: Disk, m: Manifest, a: SegmentArtifact)
    requires ChainOk(m) && BestPlan(disk, m).Some? && a in m.segments
    requires a.name !in disk.segments || disk.segments[a.name] != a.checksum.content || !Matches(a)
    ensures var plan := BestPlan(disk, m).value;
      plan.recovered <= a.from || a.through <= plan.baseline.revision
  {
    BestOfAll(disk, m);
    var b := BestPlan(disk, m).value.baseline;
    PlanWalks(disk, m, b);
    KeepHolds(m.segments, b.revision, a);
    WalkStopsBefore(disk, KeepPast(m.segments, b.revision), b.revision);
  }

  /** So such a segment past the newest intact baseline is never hidden: the status is not Current. */
  lemma DamageIsReported(disk: Disk, m: Manifest, a: SegmentArtifact, live: nat)
    requires LoadManifest(disk) == Ok(m) && ChainOk(m) && a in m.segments
    requires a.name !in disk.segments || disk.segments[a.name] != a.checksum.content || !Matches(a)
    requires forall b <- m.baselines :: KeptBaseline(disk, b) ==> b.revision < a.through
    ensures StatusOf(disk, live) != RecoveryState.Current
  {
    if BestPlan(disk, m).Some? {
      DamagedSegmentStops(disk, m, a);
      BaselineUsed(disk, m);
      LinkedGrows(m.segments, Oldest(m), Newest(m));
      LinkedFrom(m.segments, Oldest(m));
    }
  }

  /** A plan starts from a baseline whose file is there, has the content of its digest and opens at
      the revision the manifest says. */
  lemma BaselineUsed(disk: Disk, m: Manifest)
    requires BestPlan(disk, m).Some?
    ensures var plan := BestPlan(disk, m).value;
      && plan.baseline in m.baselines
      && plan.baseline.slot in disk.baselines
      && disk.baselines[plan.baseline.slot] == plan.baseline.checksum.content
      && plan.baseline.checksum.content.Snapshot?
      && OpenStore(plan.baseline.checksum.content.store) == Ok(plan.store)
      && plan.store.canon.revision == plan.baseline.revision
  {
    BestOfAll(disk, m);
  }

  // ---------- what is intact is used ----------

  lemma {:induction false} WalkReaches(h: seq<Canon>, disk: Disk, segments: seq<SegmentArtifact>, cursor: nat)
    requires Linked(segments, cursor) && forall a <- segments :: SegmentTrue(h, a)
    ensures Walk(disk, segments, cursor).cursor == EndOf(segments, cursor)
       <==> forall a <- segments :: KeptSegment(disk, a)
  {
    if segments != [] {
      var a := segments[0];
      assert SegmentTrue(h, a);
      WalkStops(disk, segments, cursor);
      LinkedGrows(segments[1..], a.through, a.through);
      WalkReaches(h, disk, segments[1..], a.through);
      assert segments == [a] + segments[1..];
    }
  }

  /** A plan from a baseline exists exactly when its file is kept, and reaches the end of the chain
      exactly when every segment file past it is kept as well. */
  lemma PlanReaches(h: seq<Canon>, disk: Disk, m: Manifest, b: BaselineArtifact)
    requires HistoryOk(h) && ChainOk(m) && True(h, m) && b in m.baselines
    ensures VerifiedBaseline(disk, b).Some? <==> KeptBaseline(disk, b)
    ensures KeptBaseline(disk, b) ==>
      && PlanFromBaseline(disk, m, b).Some?
      && PlanFromBaseline(disk, m, b).value.recovered <= m.revision
      && (PlanFromBaseline(disk, m, b).value.recovered == m.revision <==> KeptFrom(disk, m, b))
  {
    assert BaselineTrue(h, b);
    PlanWalks(disk, m, b);
    var kept := KeepPast(m.segments, b.revision);
    KeepLinked(m.segments, Oldest(m), b.revision);
    WalkStops(disk, kept, b.revision);
    LinkedGrows(kept, b.revision, Walk(disk, kept, b.revision).cursor);
    WalkReaches(h, disk, kept, b.revision);
    forall a ensures a in kept <==> a in m.segments && a.through > b.revision {
      KeepHolds(m.segments, b.revision, a);
    }
  }

  /** Something is recoverable exactly when a baseline file is kept, and all of the chain exactly
      when everything past some baseline is. */
  lemma RecoverableExactly(h: seq<Canon>, disk: Disk, m: Manifest)
    requires HistoryOk(h) && ChainOk(m) && True(h, m)
    ensures BestPlan(disk, m).Some? <==> SomethingKept(disk, m)
    ensures BestPlan(disk, m).Some? ==> BestPlan(disk, m).value.recovered <= m.revision
    ensures BestPlan(disk, m).Some? && BestPlan(disk, m).value.recovered == m.revision <==> AllKept(disk, m)
  {
    BestOfAll(disk, m);
    forall b | b in m.baselines
      ensures VerifiedBaseline(disk, b).Some? <==> KeptBaseline(disk, b)
      ensures KeptBaseline(disk, b) ==>
        && PlanFromBaseline(disk, m, b).Some?
        && PlanFromBaseline(disk, m, b).value.recovered <= m.revision
        && (PlanFromBaseline(disk, m, b).value.recovered == m.revision <==> KeptFrom(disk, m, b))
    {
      PlanReaches(h, disk, m, b);
    }
  }

  /** The reported state, exactly, from the files. */
  lemma StatusExactly(h: seq<Canon>, disk: Disk, live: nat)
    requires HistoryOk(h)
    requires disk.manifest.Saved? ==> ChainOk(disk.manifest.manifest) && True(h, disk.manifest.manifest)
    ensures StatusOf(disk, live) ==
      if !disk.manifest.Saved? || |disk.manifest.manifest.segments| > 128 then RecoveryState.Unavailable
      else
        var m := disk.manifest.manifest;
        if !SomethingKept(disk, m) then RecoveryState.Unavailable
        else if !AllKept(disk, m) || m.revision > live then Degraded
        else if m.revision < live then Lagging
        else RecoveryState.Current
  {
    if disk.manifest.Saved? {
      RecoverableExactly(h, disk, disk.manifest.manifest);
    }
  }

  // ---------- which of two equal plans ----------

  lemma BestOfFew(disk: Disk, m: Manifest, x: BaselineArtifact, y: BaselineArtifact)
    ensures BestOf(disk, m, [x], None) == PlanFromBaseline(disk, m, x)
    ensures BestOf(disk, m, [x, y], None) == Better(PlanFromBaseline(disk, m, x), PlanFromBaseline(disk, m, y))
  {
    assert [x][1..] == [] && [x, y][1..] == [y] && [y][1..] == [];
    var first := Better(None, PlanFromBaseline(disk, m, x));
    assert first == PlanFromBaseline(disk, m, x);
    assert BestOf(disk, m, [y], first) == Better(first, PlanFromBaseline(disk, m, y));
  }

  /** Of the plans that recover most, the one from the newest baseline is taken. */
  lemma NewestPreferred(disk: Disk, m: Manifest, b: BaselineArtifact)
    requires ChainOk(m) && b in m.baselines && PlanFromBaseline(disk, m, b).Some?
    ensures BestPlan(disk, m).Some?
    ensures PlanFromBaseline(disk, m, b).value.recovered == BestPlan(disk, m).value.recovered ==>
      b.revision <= BestPlan(disk, m).value.baseline.revision
  {
    NewestIsNewest(m);
    if |m.baselines| == 1 {
      assert m.baselines == [m.baselines[0]];
      BestOfFew(disk, m, m.baselines[0], m.baselines[0]);
    } else {
      BestOfFew(disk, m, m.baselines[1], m.baselines[0]);
    }
  }
}
