/** `CoreState` as a state machine. Its methods change the three stores in steps, releasing
    the locks in between, so the steps of different threads interleave freely; a run here is
    any sequence of lock-protected steps, whichever thread takes them. */
module Core {
  import opened Model
  import opened Operations
  import opened Projection
  import opened Commits
  import opened History
  import opened Index
  import opened Recovery
  import opened Chain
  import opened Faithful
  import opened Rotation
  import opened Meaning

  /** The stores, and two things no code sees: the canonical state of every revision so far
      and the checkpoint the retained journal starts from. */
  datatype World = World(history: seq<Canon>, low: nat, store: Store, index: Tables, disk: Disk)

  // ---------- steps ----------

  ghost predicate CommitStep(w: World, v: World, op: Op) {
    && Commit(w.store, op).Ok?
    && v == w.(store := Commit(w.store, op).value, history := w.history + [Commit(w.store, op).value.canon])
  }

  predicate PruneStep(w: World, v: World) {
    v == w.(store := Prune(w.store), low := PrunedLow(w.low, w.store.canon.revision))
  }

  /** A reconcile, a rebuild, or a failed promotion whose old file could not be moved back. */
  ghost predicate IndexStep(w: World, v: World) {
    && v == w.(index := v.index)
    && (Reconciled(w.store, w.index, v.index) || v.index == Project(w.store.canon) || v.index == EMPTY_TABLES)
  }

  /** `catch_up` ran to its end. */
  predicate CatchUpStep(w: World, v: World) {
    v == w.(disk := CatchUpDisk(w.disk, w.store)) && LoadManifest(w.disk).Ok?
  }

  /** A purge barrier or another reset ran to its end. */
  predicate ResetStep(w: World, v: World, barrier: Option<nat>) {
    v == w.(disk := ResetDisk(w.disk, w.store, barrier))
  }

  ghost predicate SomeReset(w: World, v: World) {
    exists barrier :: ResetStep(w, v, barrier)
  }

  /** A recovery change was stopped after some of its file operations. */
  ghost predicate InterruptedStep(w: World, v: World) {
    && v == w.(disk := v.disk)
    && (CatchUpPassesThrough(w.disk, w.store, v.disk)
        || exists barrier :: ResetPassesThrough(w.disk, w.store, barrier, v.disk))
  }

  /** Baseline and segment files take any damage; the manifest can be lost or spoilt. */
  predicate DamageStep(w: World, v: World) {
    && v == w.(disk := v.disk)
    && (v.disk.manifest == w.disk.manifest || !v.disk.manifest.Saved?)
  }

  ghost predicate Next(w: World, v: World) {
    || (exists op :: CommitStep(w, v, op))
    || PruneStep(w, v)
    || IndexStep(w, v)
    || CatchUpStep(w, v)
    || SomeReset(w, v)
    || InterruptedStep(w, v)
    || DamageStep(w, v)
  }

  // ---------- the invariant ----------

  ghost predicate ManifestOk(h: seq<Canon>, file: ManifestFile) {
    file.Saved? ==> ChainOk(file.manifest) && True(h, file.manifest)
  }

  ghost predicate Inv(w: World) {
    && HistoryOk(w.history) && w.history[0] == EMPTY_CANON
    && Retained(w.history, w.store, w.low)
    && w.index.applied < |w.history| && w.index == Project(w.history[w.index.applied])
    && ManifestOk(w.history, w.disk.manifest)
  }

  // ---------- runs ----------

  /** A run starts in a sound state. */
  ghost predicate SoundAt(run: seq<World>, i: int)
    requires 0 <= i < |run|
  {
    Inv(run[i])
  }

  /** The step that led to `run[i]`. */
  ghost predicate StepAt(run: seq<World>, i: int)
    requires 0 < i < |run|
  {
    Next(run[i - 1], run[i])
  }

  /** A sequence of steps from a sound state. The quantifiers only fire where a proof names the
      start or a step. */
  ghost predicate IsRun(run: seq<World>) {
    && run != []
    && (forall i {:trigger SoundAt(run, i)} :: 0 <= i < 1 ==> SoundAt(run, i))
    && (forall i {:trigger StepAt(run, i)} :: 0 < i < |run| ==> StepAt(run, i))
  }

  lemma SingleRun(w: World)
    requires Inv(w)
    ensures IsRun([w])
  {
    forall i | 0 <= i < 1 ensures SoundAt([w], i) {
    }
  }

  lemma RunExtends(run: seq<World>, v: World)
    requires IsRun(run) && Next(run[|run| - 1], v)
    ensures IsRun(run + [v])
  {
    var longer := run + [v];
    forall i | 0 <= i < 1 ensures SoundAt(longer, i) {
      assert SoundAt(run, i);
    }
    forall i | 0 < i < |longer| ensures StepAt(longer, i) {
      if i < |run| { assert StepAt(run, i); }
    }
  }

  lemma RunExtendsTwice(run: seq<World>, u: World, v: World)
    requires IsRun(run) && Next(run[|run| - 1], u) && Next(u, v)
    ensures IsRun(run + [u] + [v])
  {
    RunExtends(run, u);
    RunExtends(run + [u], v);
  }

  lemma RunJoins(run: seq<World>, steps: seq<World>)
    requires IsRun(run) && IsRun(steps) && steps[0] == run[|run| - 1]
    ensures IsRun(run + steps[1..])
    ensures (run + steps[1..])[|run + steps[1..]| - 1] == steps[|steps| - 1]
  {
    var joined := run + steps[1..];
    forall i | 0 <= i < 1 ensures SoundAt(joined, i) {
      assert SoundAt(run, i);
    }
    forall i | 0 < i < |joined| ensures StepAt(joined, i) {
      if i < |run| {
        assert StepAt(run, i);
      } else {
        assert StepAt(steps, i - |run| + 1);
      }
    }
  }

  lemma CommitInv(w: World, v: World, op: Op)
    requires Inv(w) && CommitStep(w, v, op)
    ensures Inv(v)
  {
    CommitFacts(w.store, op);
    CommitHistory(w.history, w.store, v.store);
    CommitRetained(w.history, w.store, v.store, w.low);
    if w.disk.manifest.Saved? {
      TruePrefix(w.history, v.history, w.disk.manifest.manifest);
    }
  }

  lemma IndexInv(w: World, v: World)
    requires Inv(w) && IndexStep(w, v)
    ensures Inv(v)
  {
    if Reconciled(w.store, w.index, v.index) {
      ReconcileEqualsRebuild(w.history, w.store, w.low, w.index, v.index);
    }
    assert Project(EMPTY_CANON) == EMPTY_TABLES;
  }

  // ---------- recovery steps ----------

  /** What the two manifests a catch-up may save are. */
  lemma ExtensionOk(h: seq<Canon>, s: Store, low: nat, m: Manifest)
    requires HistoryOk(h) && Retained(h, s, low) && ManifestOk(h, Saved(m))
    requires DeltaSince(s, m.revision).Available? && !HoldsPurge(DeltaSince(s, m.revision).patch)
    ensures var patch := DeltaSince(s, m.revision).patch;
      && patch.from == m.revision < patch.target == s.canon.revision
      && ManifestOk(h, Saved(AppendManifest(m, patch)))
  {
    var patch := DeltaSince(s, m.revision).patch;
    DeltaCorrect(h, s, low, m.revision);
    DeltaTrue(h, s, low, m.revision);
    AppendChain(m, patch);
    AppendTrue(h, m, patch);
  }

  lemma RotationOk(h: seq<Canon>, s: Store, low: nat, m: Manifest)
    requires HistoryOk(h) && Retained(h, s, low) && ManifestOk(h, Saved(m))
    requires Newest(m) < s.canon.revision == m.revision
    ensures ManifestOk(h, Saved(RotateManifest(m, s)))
  {
    RotateChain(m, s);
    RotateTrue(h, s, low, m);
  }

  lemma NewestBelow(m: Manifest)
    requires ChainOk(m)
    ensures Newest(m) <= m.revision
  {
    LinkedGrows(m.segments, Oldest(m), Newest(m));
  }

  /** The manifest after any part of a recovery change is the old one or a sound new one that
      reaches the live revision. */
  ghost predicate ManifestMoved(w: World, file: ManifestFile) {
    || file == w.disk.manifest
    || (file.Saved? && file.manifest.revision == w.store.canon.revision && ManifestOk(w.history, file))
  }

  lemma ResetMoves(w: World, barrier: Option<nat>)
    requires Inv(w)
    ensures ManifestMoved(w, Saved(ResetManifest(w.disk, w.store, barrier)))
  {
    ResetChain(w.disk, w.store, barrier);
    ResetTrue(w.history, w.store, w.low, w.disk, barrier);
  }

  lemma ExtensionMoves(w: World, m: Manifest, patch: Patch)
    requires Inv(w) && w.disk.manifest == Saved(m)
    requires DeltaSince(w.store, m.revision) == Available(patch) && !HoldsPurge(patch)
    ensures ManifestMoved(w, Saved(AppendManifest(m, patch)))
    ensures patch.from == m.revision < patch.target
  {
    ExtensionOk(w.history, w.store, w.low, m);
  }

  lemma RotationMoves(w: World, m: Manifest, patch: Patch)
    requires HistoryOk(w.history) && Retained(w.history, w.store, w.low)
    requires ChainOk(m) && patch.from == m.revision < patch.target
    requires ManifestMoved(w, Saved(AppendManifest(m, patch))) && w.disk.manifest == Saved(m)
    ensures ManifestMoved(w, Saved(RotateManifest(AppendManifest(m, patch), w.store)))
  {
    var extended := AppendManifest(m, patch);
    assert Saved(extended) != w.disk.manifest;
    NewestBelow(m);
    RotationOk(w.history, w.store, w.low, extended);
  }

  /** The manifests any part of a catch-up can leave. */
  lemma CatchUpManifests(disk: Disk, s: Store, d: Disk)
    requires d == CatchUpDisk(disk, s) || CatchUpPassesThrough(disk, s, d)
    ensures match CatchUpAction(disk, s)
      case Nothing => d.manifest == disk.manifest
      case Refuse => d.manifest == disk.manifest
      case Reset(barrier) => d.manifest == disk.manifest || d.manifest == Saved(ResetManifest(disk, s, barrier))
      case Extend(patch) =>
        var extended := AppendManifest(LoadManifest(disk).value, patch);
        d.manifest == disk.manifest || d.manifest == Saved(extended) || d.manifest == Saved(RotateManifest(extended, s))
  {
  }

  lemma CatchUpMoves(w: World, d: Disk)
    requires Inv(w)
    requires d == CatchUpDisk(w.disk, w.store) || CatchUpPassesThrough(w.disk, w.store, d)
    ensures ManifestMoved(w, d.manifest)
  {
    CatchUpManifests(w.disk, w.store, d);
    match CatchUpAction(w.disk, w.store) {
      case Nothing =>
      case Refuse =>
      case Reset(barrier) => ResetMoves(w, barrier);
      case Extend(patch) =>
        ExtensionMoves(w, LoadManifest(w.disk).value, patch);
        RotationMoves(w, LoadManifest(w.disk).value, patch);
    }
  }

  /** A catch-up that ran to its end reached the live revision. */
  lemma CatchUpReaches(s: Store, disk: Disk)
    requires LoadManifest(disk).Ok?
    ensures CatchUpDisk(disk, s).manifest.Saved? && CatchUpDisk(disk, s).manifest.manifest.revision == s.canon.revision
  {
  }

  lemma RecoveryMoves(w: World, v: World)
    requires Inv(w)
    requires CatchUpStep(w, v) || SomeReset(w, v) || InterruptedStep(w, v)
    ensures ManifestMoved(w, v.disk.manifest)
  {
    if CatchUpStep(w, v) {
      CatchUpMoves(w, v.disk);
    } else if SomeReset(w, v) {
      var barrier :| ResetStep(w, v, barrier);
      ResetMoves(w, barrier);
    } else if CatchUpPassesThrough(w.disk, w.store, v.disk) {
      CatchUpMoves(w, v.disk);
    } else {
      var barrier :| ResetPassesThrough(w.disk, w.store, barrier, v.disk);
      ResetMoves(w, barrier);
    }
  }

  /** Every step of every thread keeps the invariant. */
  lemma NextInv(w: World, v: World)
    requires Inv(w) && Next(w, v)
    ensures Inv(v)
  {
    if op :| CommitStep(w, v, op) {
      CommitInv(w, v, op);
    } else if PruneStep(w, v) {
      PruneRetained(w.history, w.store, w.low);
    } else if IndexStep(w, v) {
      IndexInv(w, v);
    } else if DamageStep(w, v) {
    } else {
      RecoveryMoves(w, v);
    }
  }

  // ---------- over whole runs ----------

  lemma {:induction false} RunInv(run: seq<World>, at: nat)
    requires IsRun(run) && at < |run|
    ensures Inv(run[at])
    decreases at
  {
    if at == 0 {
      assert SoundAt(run, 0);
    } else {
      RunInv(run, at - 1);
      assert StepAt(run, at);
      NextInv(run[at - 1], run[at]);
    }
  }

  lemma NextHistory(w: World, v: World)
    requires Next(w, v)
    ensures w.history <= v.history
  {
  }

  /** History is only ever extended. */
  lemma {:induction false} HistoryGrows(run: seq<World>, from: nat, at: nat)
    requires IsRun(run) && from <= at < |run|
    ensures run[from].history <= run[at].history
    decreases at - from
  {
    if from < at {
      HistoryGrows(run, from, at - 1);
      assert StepAt(run, at);
      NextHistory(run[at - 1], run[at]);
    }
  }

  /** Whatever commits, failures, prunes and rebuilds a run contains, the Index is the
      projection of the canonical state at its own checkpoint: never a mix of revisions. */
  lemma IndexNeverMixed(run: seq<World>, at: nat)
    requires IsRun(run) && at < |run|
    ensures run[at].index.applied <= run[at].store.canon.revision < |run[at].history|
    ensures run[at].index == Project(run[at].history[run[at].index.applied])
    ensures run[at].index.applied == run[at].store.canon.revision ==> run[at].index == Project(run[at].store.canon)
  {
    RunInv(run, at);
  }

  /** In every reachable state with recovery status Current a reconstruction that is not
      refused is the live canonical state. */
  lemma CurrentMeansRecoverable(run: seq<World>, at: nat)
    requires IsRun(run) && at < |run|
    requires StatusOf(run[at].disk, run[at].store.canon.revision) == RecoveryState.Current
    ensures LoadManifest(run[at].disk).Ok? && BestPlan(run[at].disk, LoadManifest(run[at].disk).value).Some?
    ensures var plan := BestPlan(run[at].disk, LoadManifest(run[at].disk).value).value;
      Reconstructed(plan) == if AllInversesPresent(plan.patches) then Ok(Store(run[at].store.canon, []))
          else Err(ConstraintViolation)
  {
    RunInv(run, at);
    CurrentReconstructsLive(run[at].history, run[at].store, run[at].low, run[at].disk);
  }

  // ---------- purge ----------

  /** Both the store and any saved manifest have reached `revision`. */
  ghost predicate Reached(w: World, revision: nat) {
    && revision <= w.store.canon.revision
    && (w.disk.manifest.Saved? ==> revision <= w.disk.manifest.manifest.revision)
  }

  lemma NextReached(w: World, v: World, revision: nat)
    requires Inv(w) && Next(w, v) && Reached(w, revision)
    ensures Reached(v, revision)
  {
    if op :| CommitStep(w, v, op) {
      CommitFacts(w.store, op);
    } else if PruneStep(w, v) || IndexStep(w, v) || DamageStep(w, v) {
      PruneRetained(w.history, w.store, w.low);
    } else {
      RecoveryMoves(w, v);
    }
  }

  lemma StepReached(run: seq<World>, i: nat, revision: nat)
    requires IsRun(run) && 0 < i < |run| && Reached(run[i - 1], revision)
    ensures Reached(run[i], revision)
  {
    RunInv(run, i - 1);
    assert StepAt(run, i);
    NextReached(run[i - 1], run[i], revision);
  }

  lemma {:induction false} RunReached(run: seq<World>, from: nat, at: nat, revision: nat)
    requires IsRun(run) && from <= at < |run| && Reached(run[from], revision)
    ensures Reached(run[at], revision)
    decreases at - from
  {
    if from < at {
      RunReached(run, from, at - 1, revision);
      StepReached(run, at, revision);
    }
  }

  /** A recovery change ran to its end. */
  ghost predicate Completes(w: World, v: World) {
    CatchUpStep(w, v) || SomeReset(w, v)
  }

  lemma CompletesReached(w: World, v: World)
    requires Completes(w, v)
    ensures Reached(v, v.store.canon.revision)
  {
    if CatchUpStep(w, v) {
      CatchUpReaches(w.store, w.disk);
    }
  }

  /** A retired node is in no later state. */
  lemma RetiredLater(h: seq<Canon>, revision: nat, later: nat, id: NodeId)
    requires HistoryOk(h) && revision <= later < |h| && Resolve(h[revision], id).Retired?
    ensures id !in h[later].nodes
  {
    assert Evolves(revision, h[revision], h[later]);
  }

  /** No file contents make a plan of the manifest that brings the node back. */
  ghost predicate NeverIn(m: Manifest, id: NodeId) {
    && (forall b <- m.baselines :: b.checksum.content.Snapshot? && id !in b.checksum.content.store.canon.nodes)
    && (forall a <- m.segments :: a.checksum.content.Segment? && id !in a.checksum.content.patch.nodes)
    && forall d :: BestPlan(d, m).Some? && Reconstructed(BestPlan(d, m).value).Ok? ==>
         id !in Reconstructed(BestPlan(d, m).value).value.canon.nodes
  }

  lemma GoneFromManifest(h: seq<Canon>, m: Manifest, id: NodeId)
    requires HistoryOk(h) && ManifestOk(h, Saved(m)) && id !in h[m.revision].nodes
    ensures NeverIn(m, id)
  {
    PurgeNeverResurrects(h, EMPTY_DISK, m, id);
    forall d | BestPlan(d, m).Some? && Reconstructed(BestPlan(d, m).value).Ok?
      ensures id !in Reconstructed(BestPlan(d, m).value).value.canon.nodes
    {
      PurgeNeverResurrects(h, d, m, id);
    }
  }

  lemma PurgedAt(w: World, revision: nat, id: NodeId)
    requires Inv(w) && Reached(w, revision) && w.disk.manifest.Saved?
    requires Resolve(w.history[revision], id).Retired?
    ensures NeverIn(w.disk.manifest.manifest, id)
  {
    RetiredLater(w.history, revision, w.disk.manifest.manifest.revision, id);
    GoneFromManifest(w.history, w.disk.manifest.manifest, id);
  }

  lemma CompletionReached(run: seq<World>, done: nat)
    requires 0 < done < |run| && Completes(run[done - 1], run[done])
    ensures Reached(run[done], run[done].store.canon.revision)
  {
    CompletesReached(run[done - 1], run[done]);
  }

  lemma InvAt(run: seq<World>, at: nat, w: World)
    requires IsRun(run) && at < |run| && w == run[at]
    ensures Inv(w)
  {
    RunInv(run, at);
  }

  /** A past live state is the history entry of its revision ever after. */
  lemma PastIsHistory(run: seq<World>, past: nat, at: nat)
    requires IsRun(run) && past <= at < |run|
    ensures run[past].store.canon.revision < |run[at].history|
    ensures run[at].history[run[past].store.canon.revision] == run[past].store.canon
  {
    RunInv(run, past);
    HistoryGrows(run, past, at);
  }

  /** Once a purge barrier, a reset or a catch-up has run to its end after a node was retired,
      nothing the manifest refers to ever contains that node again - for every interleaving of
      other threads' steps before and after, and whatever the files become. */
  lemma PurgedForever(run: seq<World>, done: nat, at: nat, id: NodeId)
    requires IsRun(run) && 0 < done <= at < |run|
    requires Completes(run[done - 1], run[done])
    requires Resolve(run[done].store.canon, id).Retired?
    requires run[at].disk.manifest.Saved?
    ensures NeverIn(run[at].disk.manifest.manifest, id)
  {
    CompletionReached(run, done);
    RunReached(run, done, at, run[done].store.canon.revision);
    PastIsHistory(run, done, at);
    RunInv(run, at);
    PurgedAt(run[at], run[done].store.canon.revision, id);
  }

  /** In every reachable state a reset runs to its end exactly when its file operations are left,
      and a catch-up exactly when the manifest loads as well. */
  lemma RunCompletions(run: seq<World>, at: nat, writes: nat)
    requires IsRun(run) && at < |run|
    ensures var (disk, s) := (run[at].disk, run[at].store);
      && (ResetCompletes(disk, s, writes) <==> ResetCost(disk) <= writes)
      && (CatchUpCompletes(disk, s, writes) <==> LoadManifest(disk).Ok? && CatchUpCost(disk, s) <= writes)
      && ResetCost(disk) <= |disk.segments.Keys| + 5 && CatchUpCost(disk, s) <= |disk.segments.Keys| + 5
  {
    RunInv(run, at);
    ResetTrue(run[at].history, run[at].store, run[at].low, run[at].disk, None);
    CompletionCosts(run[at].disk, run[at].store, writes);
  }

  // ---------- identity ----------

  /** Along any run the ledger only grows, no issued identity becomes unissued, and a retired
      identity stays retired. */
  lemma IdentityOverRuns(run: seq<World>, from: nat, at: nat, id: NodeId)
    requires IsRun(run) && from <= at < |run|
    ensures run[from].store.canon.issued <= run[at].store.canon.issued
    ensures Resolve(run[from].store.canon, id).Retired? ==> Resolve(run[at].store.canon, id).Retired?
    ensures !Resolve(run[from].store.canon, id).NeverIssued? ==> !Resolve(run[at].store.canon, id).NeverIssued?
  {
    PastIsHistory(run, from, at);
    RunEvolves(run, at, run[from].store.canon.revision);
    RunConsistent(run, from);
    IdentityTerminal(run[from].store.canon.revision, run[from].store.canon, run[at].store.canon, id);
  }

  lemma RunEvolves(run: seq<World>, at: nat, revision: nat)
    requires IsRun(run) && at < |run| && revision < |run[at].history|
    ensures Evolves(revision, run[at].history[revision], run[at].store.canon)
  {
    RunInv(run, at);
    var w := run[at];
    assert Evolves(revision, w.history[revision], w.history[w.store.canon.revision]);
  }

  /** Every reachable canonical state is consistent: nodes and relationship endpoints are in
      the ledger, revisions are ordered, replacement chains end. */
  lemma RunConsistent(run: seq<World>, at: nat)
    requires IsRun(run) && at < |run|
    ensures Consistent(run[at].store.canon)
  {
    RunInv(run, at);
    assert Consistent(run[at].history[run[at].store.canon.revision]);
  }
}
