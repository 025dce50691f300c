/** What a recovery change that runs to its end leaves: the purge barrier it records, and a
    directory from which everything can be recovered again. */
module Repair {
  import opened Model
  import opened Operations
  import opened Projection
  import opened Commits
  import opened History
  import opened Meaning
  import opened Permissions
  import opened Deltas
  import opened Index
  import opened Recovery
  import opened Chain
  import opened Faithful
  import opened Damage
  import opened Core
  import opened Threads

  // ---------- the purge barrier ----------

  /** The directory holds one baseline, of the live store, and nothing else. */
  predicate Renewed(disk: Disk, s: Store, generation: nat, barrier: Option<nat>) {
    && disk.manifest == Saved(Manifest(generation, s.canon.revision, barrier,
                                       [BaselineArtifact(SlotA, s.canon.revision, Digest(Snapshot(s)))], []))
    && disk.baselines == map[SlotA := Snapshot(s)]
    && disk.segments == map[]
  }

  /** Some change after the checkpoint is about a node that is gone. */
  ghost predicate GoneSince(s: Store, checkpoint: nat) {
    exists id :: TouchedSince(s, checkpoint, id) && id !in s.canon.nodes
  }

  lemma PurgeHeld(s: Store, checkpoint: nat)
    requires DeltaSince(s, checkpoint).Available?
    ensures HoldsPurge(DeltaSince(s, checkpoint).patch) <==> GoneSince(s, checkpoint)
  {
    forall id ensures
      && (id in DeltaSince(s, checkpoint).patch.nodes <==> TouchedSince(s, checkpoint, id))
      && (id in DeltaSince(s, checkpoint).patch.nodes ==>
            DeltaSince(s, checkpoint).patch.nodes[id] == Lookup(s.canon.nodes, id))
    {
      DeltaCarries(s, checkpoint, id);
    }
  }

  /** Every branch of a completed catch-up. A manifest that is ahead, and one the journal no longer
      bridges, are renewed with the barrier they had; a window with a change about a node that is
      gone puts the barrier at the live revision; an extended chain keeps its barrier. */
  lemma CatchUpBranches(h: seq<Canon>, s: Store, low: nat, disk: Disk, m: Manifest)
    requires Retained(h, s, low) && LoadManifest(disk) == Ok(m)
    ensures var d, live := CatchUpDisk(disk, s), s.canon.revision;
      && (m.revision == live ==> d == disk)
      && (m.revision < low || m.revision > live ==> Renewed(d, s, m.generation + 1, m.barrier))
      && (low <= m.revision < live && GoneSince(s, m.revision) ==> Renewed(d, s, m.generation + 1, Some(live)))
      && (low <= m.revision < live && !GoneSince(s, m.revision) ==>
            && d.manifest.Saved? && d.manifest.manifest.revision == live
            && d.manifest.manifest.barrier == m.barrier
            && m.generation < d.manifest.manifest.generation <= m.generation + 2)
  {
    DeltaAvailability(h, s, low, m.revision);
    if low <= m.revision < s.canon.revision {
      PurgeHeld(s, m.revision);
    }
  }

  /** So a purge the journal still shows is recorded as the barrier of the live revision. */
  lemma PurgeMovesBarrier(h: seq<Canon>, s: Store, low: nat, disk: Disk, id: NodeId)
    requires HistoryOk(h) && Retained(h, s, low) && LoadManifest(disk).Ok?
    requires low <= LoadManifest(disk).value.revision < s.canon.revision
    requires Resolve(s.canon, id).Retired? && !Resolve(h[LoadManifest(disk).value.revision], id).Retired?
    ensures CatchUpDisk(disk, s).manifest.Saved?
    ensures CatchUpDisk(disk, s).manifest.manifest.barrier == Some(s.canon.revision)
  {
    var m := LoadManifest(disk).value;
    PurgeWindowResets(h, s, low, disk, id);
    DeltaAvailability(h, s, low, m.revision);
    DeltaCorrect(h, s, low, m.revision);
  }

  /** A purge is not the only thing that does: removing a relationship of a node purged long ago
      resets the chain as well and moves the barrier, although no identity was retired since. */
  lemma RemovalMovesBarrier(h: seq<Canon>, s: Store, low: nat, disk: Disk, m: Manifest, edge: RelationshipKey)
      returns (t: Store)
    requires HistoryOk(h) && Retained(h, s, low)
    requires LoadManifest(disk) == Ok(m) && m.revision == s.canon.revision
    requires edge in s.canon.relationships && ValidKey(edge.key)
    requires Resolve(s.canon, edge.source).Retired? || Resolve(s.canon, edge.target).Retired?
    ensures Commit(s, Batch([RemoveRelationship(edge)])) == Ok(t)
    ensures forall id :: Resolve(t.canon, id) == Resolve(s.canon, id)
    ensures Renewed(CatchUpDisk(disk, t), t, m.generation + 1, Some(t.canon.revision))
  {
    assert Consistent(h[s.canon.revision]);
    t := RemovalCommits(s, edge);
    RemovalRetained(h, s, t, low, edge);
    RemovalTouches(s, t, edge);
    GoneRenews(h + [t.canon], t, low, disk, m);
  }

  lemma GoneRenews(h: seq<Canon>, s: Store, low: nat, disk: Disk, m: Manifest)
    requires Retained(h, s, low) && LoadManifest(disk) == Ok(m)
    requires low <= m.revision < s.canon.revision && GoneSince(s, m.revision)
    ensures Renewed(CatchUpDisk(disk, s), s, m.generation + 1, Some(s.canon.revision))
  {
    CatchUpBranches(h, s, low, disk, m);
  }

  lemma RemovalRetained(h: seq<Canon>, s: Store, t: Store, low: nat, edge: RelationshipKey)
    requires HistoryOk(h) && Retained(h, s, low) && Consistent(s.canon)
    requires Commit(s, Batch([RemoveRelationship(edge)])) == Ok(t)
    ensures Retained(h + [t.canon], t, low)
  {
    CommitFacts(s, Batch([RemoveRelationship(edge)]));
    CommitRetained(h, s, t, low);
  }

  lemma RemovalTouches(s: Store, t: Store, edge: RelationshipKey)
    requires t.journal == s.journal + [MutationRow(t.canon.revision, 0, RemoveRelationship(edge))]
    requires s.canon.revision < t.canon.revision
    requires edge.source !in t.canon.nodes || edge.target !in t.canon.nodes
    ensures GoneSince(t, s.canon.revision)
  {
    var gone := if edge.source !in t.canon.nodes then edge.source else edge.target;
    var row := t.journal[|s.journal|];
    assert row in t.journal && Touches(row, gone);
    assert TouchedSince(t, s.canon.revision, gone);
  }

  lemma RemovalCommits(s: Store, edge: RelationshipKey) returns (t: Store)
    requires Consistent(s.canon) && edge in s.canon.relationships && ValidKey(edge.key)
    ensures Commit(s, Batch([RemoveRelationship(edge)])) == Ok(t)
    ensures t.canon.revision == s.canon.revision + 1
    ensures t.journal == s.journal + [MutationRow(t.canon.revision, 0, RemoveRelationship(edge))]
    ensures t.canon.nodes.Keys == s.canon.nodes.Keys && t.canon.issued == s.canon.issued
    ensures forall id :: Resolve(t.canon, id) == Resolve(s.canon, id)
  {
    BatchGrows(s, [], RemoveRelationship(edge));
    assert [] + [RemoveRelationship(edge)] == [RemoveRelationship(edge)];
    RemovePermitted(s.canon, edge);
    t := Commit(s, Batch([RemoveRelationship(edge)])).value;
  }

  // ---------- completed changes leave everything recoverable ----------

  /** What a completed reset leaves is current, whatever was there before. */
  lemma ResetIsCurrent(w: World, barrier: Option<nat>)
    requires Inv(w)
    ensures StatusOf(ResetDisk(w.disk, w.store, barrier), w.store.canon.revision) == RecoveryState.Current
  {
    var d := ResetDisk(w.disk, w.store, barrier);
    ResetMoves(w, barrier);
    StatusExactly(w.history, d, w.store.canon.revision);
    assert KeptFrom(d, d.manifest.manifest, d.manifest.manifest.baselines[0]);
  }

  /** Writing the next segment damages none of the listed ones. */
  lemma AppendKeeps(h: seq<Canon>, disk: Disk, m: Manifest, patch: Patch)
    requires ChainOk(m) && True(h, m) && patch.from == m.revision < patch.target && AllKept(disk, m)
    ensures AllKept(AppendDisk(disk, m, patch), AppendManifest(m, patch))
  {
    var d, n := AppendDisk(disk, m, patch), AppendManifest(m, patch);
    var b :| b in m.baselines && KeptFrom(disk, m, b);
    forall a | a in n.segments && b.revision < a.through ensures KeptSegment(d, a) {
      if a in m.segments {
        NextNameIsNew(h, m, patch, a);
      }
    }
    assert KeptFrom(d, n, b);
  }

  lemma NextNameIsNew(h: seq<Canon>, m: Manifest, patch: Patch, a: SegmentArtifact)
    requires ChainOk(m) && True(h, m) && patch.from == m.revision && a in m.segments
    ensures a.name != NameOf(patch)
  {
    ChainBelow(m);
    assert SegmentTrue(h, a);
  }

  /** A rotation's own baseline needs no segment; no file is left that its manifest does not list,
      and none that it lists is touched. */
  lemma RotationKeeps(disk: Disk, m: Manifest, s: Store)
    requires ChainOk(m) && Newest(m) < s.canon.revision == m.revision
    ensures AllKept(RotateDisk(disk, m, s), RotateManifest(m, s))
    ensures forall name ::
      Lookup(RotateDisk(disk, m, s).segments, name) ==
      if exists a <- RotateManifest(m, s).segments :: a.name == name then Lookup(disk.segments, name) else None
  {
    var d, n := RotateDisk(disk, m, s), RotateManifest(m, s);
    RotationResult(m, s);
    RotateChain(m, s);
    ChainBelow(n);
    assert KeptFrom(d, n, n.baselines[1]);
  }

  /** The status a directory with everything kept has at its own revision: Current, or, with more
      segments than the manager loads, Unavailable. */
  function KeptStatus(m: Manifest): RecoveryState {
    if |m.segments| <= 128 then RecoveryState.Current else RecoveryState.Unavailable
  }

  lemma KeptIsCurrent(h: seq<Canon>, disk: Disk, m: Manifest)
    requires HistoryOk(h) && disk.manifest == Saved(m) && ChainOk(m) && True(h, m) && AllKept(disk, m)
    ensures StatusOf(disk, m.revision) == KeptStatus(m)
  {
    StatusExactly(h, disk, m.revision);
    var b :| b in m.baselines && KeptFrom(disk, m, b);
  }

  lemma ExtensionKeeps(h: seq<Canon>, disk: Disk, m: Manifest, patch: Patch, s: Store)
    requires ChainOk(m) && True(h, m) && AllKept(disk, m)
    requires patch.from == m.revision < patch.target == s.canon.revision
    ensures var d := ExtendDisk(disk, m, patch, s);
      d.manifest.Saved? && AllKept(d, d.manifest.manifest)
  {
    AppendKeeps(h, disk, m, patch);
    if NeedsRotation(AppendManifest(m, patch)) {
      ExtendedRotates(AppendDisk(disk, m, patch), m, patch, s);
    }
  }

  lemma ExtendedRotates(disk: Disk, m: Manifest, patch: Patch, s: Store)
    requires ChainOk(m) && patch.from == m.revision < patch.target == s.canon.revision
    ensures var extended := AppendManifest(m, patch);
      AllKept(RotateDisk(disk, extended, s), RotateManifest(extended, s))
  {
    AppendChain(m, patch);
    NewestBelow(m);
    RotationKeeps(disk, AppendManifest(m, patch), s);
  }

  /** The manifest a completed catch-up leaves is sound and at the live revision. */
  lemma CatchUpSaved(w: World)
    requires Inv(w) && LoadManifest(w.disk).Ok?
    ensures var d := CatchUpDisk(w.disk, w.store);
      && d.manifest.Saved? && d.manifest.manifest.revision == w.store.canon.revision
      && ChainOk(d.manifest.manifest) && True(w.history, d.manifest.manifest)
  {
    CatchUpMoves(w, CatchUpDisk(w.disk, w.store));
    CatchUpReaches(w.store, w.disk);
  }

  lemma CatchUpKeeps(w: World, m: Manifest, patch: Patch)
    requires Inv(w) && LoadManifest(w.disk) == Ok(m) && AllKept(w.disk, m)
    requires CatchUpAction(w.disk, w.store) == Extend(patch)
    ensures var d := CatchUpDisk(w.disk, w.store); d.manifest.Saved? && AllKept(d, d.manifest.manifest)
  {
    DeltaCorrect(w.history, w.store, w.low, m.revision);
    ExtensionKeeps(w.history, w.disk, m, patch, w.store);
  }

  /** A completed catch-up of a directory from which everything is recoverable leaves one. */
  lemma CatchUpIsCurrent(w: World)
    requires Inv(w) && LoadManifest(w.disk).Ok? && AllKept(w.disk, LoadManifest(w.disk).value)
    ensures var d := CatchUpDisk(w.disk, w.store);
      d.manifest.Saved? && StatusOf(d, w.store.canon.revision) == KeptStatus(d.manifest.manifest)
  {
    var d, action := CatchUpDisk(w.disk, w.store), CatchUpAction(w.disk, w.store);
    if action.Reset? {
      ResetIsCurrent(w, action.barrier);
    } else {
      if action.Extend? {
        CatchUpKeeps(w, LoadManifest(w.disk).value, action.patch);
      }
      CatchUpSaved(w);
      KeptIsCurrent(w.history, d, d.manifest.manifest);
    }
  }

  /** A reconcile catches up a directory from which everything is recoverable, and renews any other
      one with the barrier it had. */
  lemma ReconcileBranches(w: World, m: Manifest)
    requires Inv(w) && LoadManifest(w.disk) == Ok(m)
    ensures AllKept(w.disk, m) ==> ReconciledDisk(w.disk, w.store) == CatchUpDisk(w.disk, w.store)
    ensures !AllKept(w.disk, m) ==> Renewed(ReconciledDisk(w.disk, w.store), w.store, m.generation + 1, m.barrier)
  {
    ReachesExactly(w, m);
    if AllKept(w.disk, m) {
      KeptCatchesUp(w.disk, w.store, m);
    } else {
      CutIsRenewed(w.disk, w.store, m);
    }
  }

  lemma ReachesExactly(w: World, m: Manifest)
    requires Inv(w) && w.disk.manifest == Saved(m)
    ensures Reaches(w.disk, m) <==> AllKept(w.disk, m)
  {
    RecoverableExactly(w.history, w.disk, m);
  }

  lemma KeptCatchesUp(disk: Disk, s: Store, m: Manifest)
    requires LoadManifest(disk) == Ok(m) && Reaches(disk, m)
    ensures ReconciledDisk(disk, s) == CatchUpDisk(disk, s)
  {
  }

  lemma CutIsRenewed(disk: Disk, s: Store, m: Manifest)
    requires LoadManifest(disk) == Ok(m) && !Reaches(disk, m)
    ensures Renewed(ReconciledDisk(disk, s), s, m.generation + 1, m.barrier)
  {
  }

  /** So a completed reconcile leaves everything recoverable whatever the files were: damage that
      cuts the chain is answered by a new baseline, other damage does not matter. */
  lemma ReconcileHeals(run: seq<World>, at: nat)
    requires IsRun(run) && at < |run| && LoadManifest(run[at].disk).Ok?
    ensures var d := ReconciledDisk(run[at].disk, run[at].store);
      d.manifest.Saved? && StatusOf(d, run[at].store.canon.revision) == KeptStatus(d.manifest.manifest)
  {
    RunInv(run, at);
    var w, m := run[at], LoadManifest(run[at].disk).value;
    RecoverableExactly(w.history, w.disk, m);
    if Reaches(w.disk, m) {
      CatchUpIsCurrent(w);
    } else {
      ResetIsCurrent(w, m.barrier);
    }
  }

  /** In every reachable state the status says exactly what the files still hold. */
  lemma RunStatus(run: seq<World>, at: nat)
    requires IsRun(run) && at < |run|
    ensures var (disk, live) := (run[at].disk, run[at].store.canon.revision);
      StatusOf(disk, live) ==
        if !disk.manifest.Saved? || |disk.manifest.manifest.segments| > 128 then RecoveryState.Unavailable
        else if !SomethingKept(disk, disk.manifest.manifest) then RecoveryState.Unavailable
        else if !AllKept(disk, disk.manifest.manifest) || disk.manifest.manifest.revision > live then Degraded
        else if disk.manifest.manifest.revision < live then Lagging
        else RecoveryState.Current
  {
    RunInv(run, at);
    StatusExactly(run[at].history, run[at].disk, run[at].store.canon.revision);
  }

  // ---------- what a run can do ----------

  /** Any damage to the files is a step, as long as no manifest is forged. */
  lemma AnyDamage(w: World, disk: Disk)
    requires disk.manifest == w.disk.manifest || !disk.manifest.Saved?
    ensures Next(w, w.(disk := disk))
  {
    assert DamageStep(w, w.(disk := disk));
  }

  /** So are every commit, pruning, every result of a reconcile of the Index, and every recovery
      change, completed or stopped. */
  lemma EveryMove(w: World, op: Op, tables: Tables, barrier: Option<nat>)
    ensures Commit(w.store, op).Ok? ==>
      exists v :: Next(w, v) && v.store == Commit(w.store, op).value && v.index == w.index && v.disk == w.disk
    ensures exists v :: Next(w, v) && v.store == Prune(w.store) && v.index == w.index && v.disk == w.disk
    ensures Reconciled(w.store, w.index, tables) || tables == Project(w.store.canon) || tables == EMPTY_TABLES ==>
      Next(w, w.(index := tables))
    ensures Next(w, w.(disk := ResetDisk(w.disk, w.store, barrier)))
    ensures LoadManifest(w.disk).Ok? ==> Next(w, w.(disk := CatchUpDisk(w.disk, w.store)))
  {
    if Commit(w.store, op).Ok? {
      var v := w.(store := Commit(w.store, op).value, history := w.history + [Commit(w.store, op).value.canon]);
      assert CommitStep(w, v, op);
    }
    var pruned := w.(store := Prune(w.store), low := PrunedLow(w.low, w.store.canon.revision));
    assert PruneStep(w, pruned);
    assert ResetStep(w, w.(disk := ResetDisk(w.disk, w.store, barrier)), barrier);
    if Reconciled(w.store, w.index, tables) || tables == Project(w.store.canon) || tables == EMPTY_TABLES {
      assert IndexStep(w, w.(index := tables));
    }
  }
}
