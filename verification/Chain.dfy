/** The segment chain: what the manifest keeps and what the best plan therefore reaches. */
module Chain {
  import opened Model
  import opened Projection
  import opened Recovery

  // ---------- linked segments ----------

  predicate Linked(segments: seq<SegmentArtifact>, start: nat) {
    segments == [] || (segments[0].from == start < segments[0].through && Linked(segments[1..], segments[0].through))
  }

  function EndOf(segments: seq<SegmentArtifact>, start: nat): nat {
    if segments == [] then start else EndOf(segments[1..], segments[0].through)
  }

  /** `revision` is `start` or the end of one of the segments. */
  predicate OnBoundary(segments: seq<SegmentArtifact>, start: nat, revision: nat) {
    revision == start || (segments != [] && OnBoundary(segments[1..], segments[0].through, revision))
  }

  lemma {:induction false} LinkedGrows(segments: seq<SegmentArtifact>, start: nat, revision: nat)
    requires Linked(segments, start)
    ensures start <= EndOf(segments, start)
    ensures OnBoundary(segments, start, revision) ==> start <= revision <= EndOf(segments, start)
    ensures OnBoundary(segments, start, EndOf(segments, start))
    ensures forall a <- segments :: start < a.through <= EndOf(segments, start)
  {
    if segments != [] {
      LinkedGrows(segments[1..], segments[0].through, revision);
    }
  }

  lemma {:induction false} LinkedAppend(segments: seq<SegmentArtifact>, start: nat, a: SegmentArtifact, revision: nat)
    requires Linked(segments, start) && a.from == EndOf(segments, start) < a.through
    ensures Linked(segments + [a], start) && EndOf(segments + [a], start) == a.through
    ensures OnBoundary(segments, start, revision) ==> OnBoundary(segments + [a], start, revision)
  {
    if segments == [] {
      assert segments + [a] == [a] && [a][1..] == [];
    } else {
      assert (segments + [a])[1..] == segments[1..] + [a];
      LinkedAppend(segments[1..], segments[0].through, a, revision);
    }
  }

  lemma {:induction false} LinkedSorted(segments: seq<SegmentArtifact>, start: nat)
    requires Linked(segments, start)
    ensures SortSegments(segments) == segments
  {
    if segments != [] {
      LinkedSorted(segments[1..], segments[0].through);
      assert [segments[0]] + segments[1..] == segments;
    }
  }

  lemma {:induction false} KeepAll(segments: seq<SegmentArtifact>, revision: nat)
    requires forall a <- segments :: revision < a.through
    ensures KeepPast(segments, revision) == segments
  {
    if segments != [] {
      KeepAll(segments[1..], revision);
      assert [segments[0]] + segments[1..] == segments;
    }
  }

  /** Past a boundary the segments form a chain from that boundary to the same end. */
  lemma {:induction false} KeepLinked(segments: seq<SegmentArtifact>, start: nat, revision: nat)
    requires Linked(segments, start) && OnBoundary(segments, start, revision)
    ensures Linked(KeepPast(segments, revision), revision)
    ensures EndOf(KeepPast(segments, revision), revision) == EndOf(segments, start)
    ensures forall later :: revision <= later && OnBoundary(segments, start, later) ==>
              OnBoundary(KeepPast(segments, revision), revision, later)
    ensures forall a <- KeepPast(segments, revision) :: a in segments
  {
    LinkedGrows(segments, start, revision);
    if revision == start {
      KeepAll(segments, revision);
    } else {
      var next := segments[0].through;
      LinkedGrows(segments[1..], next, revision);
      KeepLinked(segments[1..], next, revision);
      assert KeepPast(segments, revision) == KeepPast(segments[1..], revision);
    }
  }

  lemma {:induction false} WalkSkips(disk: Disk, segments: seq<SegmentArtifact>, start: nat, revision: nat)
    requires Linked(segments, start) && OnBoundary(segments, start, revision)
    ensures Walk(disk, segments, revision) == Walk(disk, KeepPast(segments, revision), revision)
  {
    LinkedGrows(segments, start, revision);
    if revision == start {
      KeepAll(segments, revision);
    } else {
      LinkedGrows(segments[1..], segments[0].through, revision);
      WalkSkips(disk, segments[1..], segments[0].through, revision);
      assert KeepPast(segments, revision) == KeepPast(segments[1..], revision);
    }
  }

  // ---------- the manifest ----------

  function Oldest(m: Manifest): nat
    requires m.baselines != []
  {
    m.baselines[0].revision
  }

  function Newest(m: Manifest): nat
    requires m.baselines != []
  {
    m.baselines[|m.baselines| - 1].revision
  }

  /** One or two baselines in distinct slots, oldest first; the segments run from the oldest
      baseline to the recovery revision; every baseline lies on a segment boundary. */
  ghost predicate ChainOk(m: Manifest) {
    && 1 <= |m.baselines| <= 2
    && (|m.baselines| == 1 ==> m.baselines[0].slot == SlotA)
    && (|m.baselines| == 2 ==> m.baselines[0].slot != m.baselines[1].slot && Oldest(m) < Newest(m))
    && Linked(m.segments, Oldest(m))
    && EndOf(m.segments, Oldest(m)) == m.revision
    && OnBoundary(m.segments, Oldest(m), Newest(m))
  }

  lemma ResetChain(disk: Disk, s: Store, barrier: Option<nat>)
    ensures ChainOk(ResetManifest(disk, s, barrier))
    ensures ResetManifest(disk, s, barrier).revision == s.canon.revision
  {
  }

  lemma AppendChain(m: Manifest, patch: Patch)
    requires ChainOk(m) && patch.from == m.revision < patch.target
    ensures ChainOk(AppendManifest(m, patch))
  {
    LinkedAppend(m.segments, Oldest(m), SegmentOf(patch), Newest(m));
  }

  lemma SortTwo(older: BaselineArtifact, newer: BaselineArtifact)
    requires older.revision < newer.revision
    ensures SortAscending([older, newer]) == [older, newer]
    ensures SortDescending([older, newer]) == [newer, older]
    ensures SortDescending([older]) == [older]
    ensures NewestRevision([older, newer]) == newer.revision && NewestRevision([older]) == older.revision
    ensures OldestRevision([older, newer]) == older.revision
    ensures OldestSlot([older, newer]) == older.slot
  {
    assert [older, newer][1..] == [newer] && [newer][1..] == [] && [older][1..] == [];
    assert SortAscending([newer]) == [newer] && SortDescending([newer]) == [newer];
    assert NewestRevision([newer]) == newer.revision && NewestRevision([older, newer][1..]) == newer.revision;
    assert InsertDescending(older, [newer]) == [newer] + InsertDescending(older, []);
  }

  lemma NewestIsNewest(m: Manifest)
    requires ChainOk(m)
    ensures NewestRevision(m.baselines) == Newest(m)
    ensures SortDescending(m.baselines) == if |m.baselines| == 1 then m.baselines else [m.baselines[1], m.baselines[0]]
  {
    if |m.baselines| == 1 {
      assert m.baselines == [m.baselines[0]] && m.baselines[1..] == [];
    } else {
      assert m.baselines == [m.baselines[0], m.baselines[1]];
      SortTwo(m.baselines[0], m.baselines[1]);
    }
  }

  /** What rotation does to a chain: it drops the older of two baselines and the segments
      before the other, and adds the live state as newest baseline. */
  lemma RotationResult(m: Manifest, s: Store)
    requires ChainOk(m) && Newest(m) < s.canon.revision
    ensures var kept := m.baselines[|m.baselines| - 1];
      && RotationSlot(m) != kept.slot
      && RotatedBaselines(m, s) == [kept, BaselineOf(RotationSlot(m), s)]
      && RotateManifest(m, s).segments == KeepPast(m.segments, Newest(m))
  {
    var kept := m.baselines[|m.baselines| - 1];
    var slot := RotationSlot(m);
    if |m.baselines| == 1 {
      assert m.baselines == [kept] && m.baselines[1..] == [];
      assert slot == SlotB;
    } else {
      assert m.baselines == [m.baselines[0], kept] && m.baselines[1..] == [kept] && [kept][1..] == [];
      SortTwo(m.baselines[0], kept);
      assert UsesSlot(m.baselines, SlotB);
      assert slot == m.baselines[0].slot;
    }
    assert WithoutSlot([kept], slot) == [kept] + WithoutSlot([], slot);
    assert WithoutSlot(m.baselines, slot) == [kept];
    SortTwo(kept, BaselineOf(slot, s));
  }

  lemma RotateChain(m: Manifest, s: Store)
    requires ChainOk(m) && Newest(m) < s.canon.revision == m.revision
    ensures ChainOk(RotateManifest(m, s))
  {
    RotationResult(m, s);
    KeepLinked(m.segments, Oldest(m), Newest(m));
    LinkedGrows(KeepPast(m.segments, Newest(m)), Newest(m), m.revision);
  }

  // ---------- the best plan ----------

  /** `parts` is a chain of intact segments of the manifest from `cursor`. */
  ghost predicate IntactParts(disk: Disk, m: Manifest, parts: seq<SegmentArtifact>, cursor: nat) {
    parts == [] ||
    (&& parts[0] in m.segments && parts[0].from == cursor
     && VerifiedSegment(disk, parts[0], cursor).Some?
     && IntactParts(disk, m, parts[1..], parts[0].through))
  }

  lemma {:induction false} LinkedFrom(segments: seq<SegmentArtifact>, start: nat)
    requires Linked(segments, start)
    ensures forall a <- segments :: start <= a.from < a.through
    ensures forall a <- segments :: a.from == start ==> a == segments[0]
  {
    if segments != [] {
      LinkedFrom(segments[1..], segments[0].through);
    }
  }

  /** On a chain, the walk takes intact segments until the first one that is not. */
  lemma {:induction false} WalkStops(disk: Disk, segments: seq<SegmentArtifact>, cursor: nat)
    requires Linked(segments, cursor)
    ensures var walked := Walk(disk, segments, cursor);
      && OnBoundary(segments, cursor, walked.cursor)
      && (walked.cursor == EndOf(segments, cursor)
          || exists a <- segments :: a.from == walked.cursor && VerifiedSegment(disk, a, walked.cursor).None?)
  {
    if segments != [] && VerifiedSegment(disk, segments[0], cursor).Some? {
      WalkStops(disk, segments[1..], segments[0].through);
    }
  }

  /** No chain of intact segments reaches further than the walk. */
  lemma {:induction false} WalkFurthest(disk: Disk, m: Manifest, segments: seq<SegmentArtifact>, cursor: nat,
      parts: seq<SegmentArtifact>)
    requires Linked(segments, cursor) && IntactParts(disk, m, parts, cursor)
    requires forall a <- m.segments :: cursor <= a.from ==> a in segments
    ensures EndOf(parts, cursor) <= Walk(disk, segments, cursor).cursor
    decreases |parts|
  {
    LinkedGrows(segments, cursor, Walk(disk, segments, cursor).cursor);
    WalkStops(disk, segments, cursor);
    if parts != [] {
      LinkedFrom(segments, cursor);
      assert parts[0] == segments[0];
      WalkFurthest(disk, m, segments[1..], segments[0].through, parts[1..]);
    }
  }

  /** The patches of a walk follow one another from its start to its end. */
  ghost predicate Follows(patches: seq<Patch>, start: nat, end: nat) {
    if patches == [] then start == end
    else patches[0].from == start < patches[0].target && Follows(patches[1..], patches[0].target, end)
  }

  lemma {:induction false} WalkFollows(disk: Disk, segments: seq<SegmentArtifact>, cursor: nat)
    requires Linked(segments, cursor)
    ensures Follows(Walk(disk, segments, cursor).patches, cursor, Walk(disk, segments, cursor).cursor)
  {
    if segments != [] && VerifiedSegment(disk, segments[0], cursor).Some? {
      WalkFollows(disk, segments[1..], segments[0].through);
      var rest := Walk(disk, segments[1..], segments[0].through);
      var patch := VerifiedSegment(disk, segments[0], cursor).value;
      assert ([patch] + rest.patches)[1..] == rest.patches;
    }
  }

  /** A plan from a baseline of the manifest, in terms of the segments past that baseline. */
  lemma PlanWalks(disk: Disk, m: Manifest, b: BaselineArtifact)
    requires ChainOk(m) && b in m.baselines
    ensures OnBoundary(m.segments, Oldest(m), b.revision)
    ensures Linked(KeepPast(m.segments, b.revision), b.revision)
    ensures EndOf(KeepPast(m.segments, b.revision), b.revision) == m.revision
    ensures VerifiedBaseline(disk, b).Some? ==>
      var walked := Walk(disk, KeepPast(m.segments, b.revision), b.revision);
      PlanFromBaseline(disk, m, b) == Some(Plan(b, VerifiedBaseline(disk, b).value, walked.patches, walked.cursor))
  {
    assert b == m.baselines[0] || b == m.baselines[|m.baselines| - 1];
    LinkedSorted(m.segments, Oldest(m));
    WalkSkips(disk, m.segments, Oldest(m), b.revision);
    KeepLinked(m.segments, Oldest(m), b.revision);
  }

  /** `best` is one of the candidates' plans or `start`, and none of them recovers more. */
  ghost predicate IsBest(disk: Disk, m: Manifest, candidates: seq<BaselineArtifact>, start: Option<Plan>,
      best: Option<Plan>)
  {
    && (best == start || (best.Some? && best.value.baseline in candidates
        && best == PlanFromBaseline(disk, m, best.value.baseline)))
    && (start.Some? ==> best.Some? && start.value.recovered <= best.value.recovered)
    && forall b <- candidates :: PlanFromBaseline(disk, m, b).Some? ==>
         best.Some? && PlanFromBaseline(disk, m, b).value.recovered <= best.value.recovered
  }

  lemma IsBestStep(disk: Disk, m: Manifest, head: BaselineArtifact, tail: seq<BaselineArtifact>, start: Option<Plan>,
      best: Option<Plan>)
    requires PlanFromBaseline(disk, m, head).Some? ==> PlanFromBaseline(disk, m, head).value.baseline == head
    requires IsBest(disk, m, tail, Better(start, PlanFromBaseline(disk, m, head)), best)
    ensures IsBest(disk, m, [head] + tail, start, best)
  {
  }

  lemma {:induction false} BestOfIsBest(disk: Disk, m: Manifest, candidates: seq<BaselineArtifact>, start: Option<Plan>)
    ensures IsBest(disk, m, candidates, start, BestOf(disk, m, candidates, start))
    decreases |candidates|
  {
    if candidates != [] {
      var next := Better(start, PlanFromBaseline(disk, m, candidates[0]));
      BestOfIsBest(disk, m, candidates[1..], next);
      IsBestStep(disk, m, candidates[0], candidates[1..], start, BestOf(disk, m, candidates[1..], next));
      assert [candidates[0]] + candidates[1..] == candidates;
    }
  }

  lemma VerifiedPlans(disk: Disk, m: Manifest, b: BaselineArtifact)
    ensures VerifiedBaseline(disk, b).Some? <==> PlanFromBaseline(disk, m, b).Some?
  {
  }

  lemma {:induction false} InsertKeeps(b: BaselineArtifact, sorted: seq<BaselineArtifact>, x: BaselineArtifact)
    ensures x in InsertDescending(b, sorted) <==> x == b || x in sorted
  {
    if sorted != [] && b.revision < sorted[0].revision {
      InsertKeeps(b, sorted[1..], x);
      assert sorted == [sorted[0]] + sorted[1..];
    }
  }

  lemma {:induction false} SortKeeps(baselines: seq<BaselineArtifact>, x: BaselineArtifact)
    ensures x in SortDescending(baselines) <==> x in baselines
  {
    if baselines != [] {
      SortKeeps(baselines[1..], x);
      InsertKeeps(baselines[0], SortDescending(baselines[1..]), x);
      assert baselines == [baselines[0]] + baselines[1..];
    }
  }

  /** The best plan is one of the plans of its baselines, and none of them recovers more. */
  lemma BestOfAll(disk: Disk, m: Manifest)
    ensures BestPlan(disk, m).Some? <==> exists b <- m.baselines :: VerifiedBaseline(disk, b).Some?
    ensures BestPlan(disk, m).Some? ==>
      && BestPlan(disk, m).value.baseline in m.baselines
      && BestPlan(disk, m) == PlanFromBaseline(disk, m, BestPlan(disk, m).value.baseline)
      && forall b <- m.baselines :: VerifiedBaseline(disk, b).Some? ==>
           PlanFromBaseline(disk, m, b).value.recovered <= BestPlan(disk, m).value.recovered
  {
    var sorted := SortDescending(m.baselines);
    BestOfIsBest(disk, m, sorted, None);
    forall b
      ensures b in sorted <==> b in m.baselines
      ensures VerifiedBaseline(disk, b).Some? <==> PlanFromBaseline(disk, m, b).Some?
    {
      SortKeeps(m.baselines, b);
      VerifiedPlans(disk, m, b);
    }
  }

  lemma BestAtLeast(disk: Disk, m: Manifest, b: BaselineArtifact)
    requires b in m.baselines && PlanFromBaseline(disk, m, b).Some?
    ensures BestPlan(disk, m).Some? && PlanFromBaseline(disk, m, b).value.recovered <= BestPlan(disk, m).value.recovered
  {
    BestOfAll(disk, m);
    VerifiedPlans(disk, m, b);
  }

  /** The best plan recovers the largest revision any intact chain reaches, and it stops only
      at the recovery revision or at the start of a segment that does not verify. */
  lemma BestPlanOptimal(disk: Disk, m: Manifest, b: BaselineArtifact, parts: seq<SegmentArtifact>)
    requires ChainOk(m) && b in m.baselines && VerifiedBaseline(disk, b).Some?
    requires IntactParts(disk, m, parts, b.revision)
    ensures BestPlan(disk, m).Some?
    ensures EndOf(parts, b.revision) <= BestPlan(disk, m).value.recovered
  {
    BestOfAll(disk, m);
    PlanWalks(disk, m, b);
    KeepSuffix(m.segments, Oldest(m), b.revision);
    WalkFurthest(disk, m, KeepPast(m.segments, b.revision), b.revision, parts);
  }

  lemma {:induction false} KeepSuffix(segments: seq<SegmentArtifact>, start: nat, revision: nat)
    requires Linked(segments, start)
    ensures forall a <- segments :: revision <= a.from ==> a in KeepPast(segments, revision)
  {
    if segments != [] {
      KeepSuffix(segments[1..], segments[0].through, revision);
    }
  }

  /** The best plan is itself an intact chain: its baseline verifies, its patches follow one
      another, and it ends at the recovery revision or right before a damaged segment. */
  lemma BestPlanSound(disk: Disk, m: Manifest)
    requires ChainOk(m) && BestPlan(disk, m).Some?
    ensures var plan := BestPlan(disk, m).value;
      && plan.baseline in m.baselines && VerifiedBaseline(disk, plan.baseline) == Some(plan.store)
      && Follows(plan.patches, plan.baseline.revision, plan.recovered)
      && Oldest(m) <= plan.recovered <= m.revision
      && OnBoundary(m.segments, Oldest(m), plan.recovered)
      && (plan.recovered == m.revision
          || exists a <- m.segments :: a.from == plan.recovered && VerifiedSegment(disk, a, plan.recovered).None?)
  {
    BestOfAll(disk, m);
    var plan := BestPlan(disk, m).value;
    PlanWalks(disk, m, plan.baseline);
    var kept := KeepPast(m.segments, plan.baseline.revision);
    WalkFollows(disk, kept, plan.baseline.revision);
    WalkStops(disk, kept, plan.baseline.revision);
    KeepLinked(m.segments, Oldest(m), plan.baseline.revision);
    LinkedGrows(kept, plan.baseline.revision, plan.recovered);
    LinkedGrows(m.segments, Oldest(m), plan.baseline.revision);
    KeptBoundary(m.segments, Oldest(m), plan.baseline.revision, plan.recovered);
  }

  lemma {:induction false} KeptBoundary(segments: seq<SegmentArtifact>, start: nat, revision: nat, later: nat)
    requires Linked(segments, start) && OnBoundary(segments, start, revision)
    requires OnBoundary(KeepPast(segments, revision), revision, later)
    ensures OnBoundary(segments, start, later)
  {
    LinkedGrows(segments, start, revision);
    if revision == start {
      KeepAll(segments, revision);
    } else {
      LinkedGrows(segments[1..], segments[0].through, revision);
      assert KeepPast(segments, revision) == KeepPast(segments[1..], revision);
      KeptBoundary(segments[1..], segments[0].through, revision, later);
    }
  }
}
