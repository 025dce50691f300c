/** Threads: what one lock-protected section, or everything other threads do between two of
    them, adds to a run. */
module Threads {
  import opened Model
  import opened Operations
  import opened History
  import opened Projection
  import opened Commits
  import opened Index
  import opened Recovery
  import opened Rotation
  import opened Meaning
  import opened Core

  // ---------- runs ----------

  /** What other threads make of the three stores while no lock is held. */
  type Others = (Store, Tables, Disk) -> (Store, Tables, Disk)

  ghost predicate Holds(w: World, store: Store, tables: Tables, disk: Disk) {
    w.store == store && w.index == tables && w.disk == disk
  }

  /** Some number of steps leads from `w` to what `others` leaves. */
  ghost predicate Interleaves(others: Others, w: World) {
    var (store, tables, disk) := others(w.store, w.index, w.disk);
    exists steps :: IsRun(steps) && steps[0] == w && Holds(steps[|steps| - 1], store, tables, disk)
  }

  ghost predicate Lawful(others: Others) {
    forall w {:trigger Interleaves(others, w)} :: Inv(w) ==> Interleaves(others, w)
  }

  lemma LastInv(run: seq<World>)
    requires IsRun(run)
    ensures Inv(run[|run| - 1])
  {
    RunInv(run, |run| - 1);
  }

  // ---------- what a section does to the run ----------

  /** `longer` continues `run` and ends in the given contents. */
  ghost predicate Continues(run: seq<World>, longer: seq<World>, store: Store, tables: Tables, disk: Disk) {
    run <= longer && IsRun(longer) && Holds(longer[|longer| - 1], store, tables, disk)
  }

  lemma AfterOthers(run: seq<World>, others: Others) returns (longer: seq<World>)
    requires IsRun(run) && Lawful(others)
    ensures var w := run[|run| - 1];
      var (store, tables, disk) := others(w.store, w.index, w.disk);
      Continues(run, longer, store, tables, disk)
  {
    var w := run[|run| - 1];
    LastInv(run);
    assert Interleaves(others, w);
    var (store, tables, disk) := others(w.store, w.index, w.disk);
    var steps :| IsRun(steps) && steps[0] == w && Holds(steps[|steps| - 1], store, tables, disk);
    RunJoins(run, steps);
    longer := run + steps[1..];
  }

  lemma AfterCommit(run: seq<World>, mutations: seq<Mutation>) returns (longer: seq<World>)
    requires IsRun(run) && Commit(run[|run| - 1].store, Batch(mutations)).Ok?
    ensures var w := run[|run| - 1];
      var t := Commit(w.store, Batch(mutations)).value;
      && t.canon.revision == w.store.canon.revision + 1
      && Continues(run, longer, t, w.index, w.disk) && CommittedAt(longer, |run|, mutations)
  {
    var w := run[|run| - 1];
    var t := Commit(w.store, Batch(mutations)).value;
    LastInv(run);
    CommitNext(w, mutations);
    var v := w.(store := t, history := w.history + [t.canon]);
    RunExtends(run, v);
    longer := run + [v];
  }

  lemma CommitNext(w: World, mutations: seq<Mutation>)
    requires Inv(w) && Commit(w.store, Batch(mutations)).Ok?
    ensures var t := Commit(w.store, Batch(mutations)).value;
      && t.canon.revision == w.store.canon.revision + 1
      && var v := w.(store := t, history := w.history + [t.canon]);
         CommitStep(w, v, Batch(mutations)) && Next(w, v)
  {
    assert Consistent(w.history[w.store.canon.revision]);
    CommitFacts(w.store, Batch(mutations));
    var t := Commit(w.store, Batch(mutations)).value;
    assert CommitStep(w, w.(store := t, history := w.history + [t.canon]), Batch(mutations));
  }

  /** One recovery change, completed or stopped somewhere, under the lock. */
  lemma AfterRecovery(run: seq<World>, d: Disk) returns (longer: seq<World>)
    requires IsRun(run) && RecoveryOutcome(run[|run| - 1].disk, run[|run| - 1].store, d)
    ensures var w := run[|run| - 1];
      Continues(run, longer, w.store, w.index, d) && |longer| == |run| + 1 && longer[|run|] == w.(disk := d)
  {
    var w := run[|run| - 1];
    OutcomeIsStep(w, d);
    RunExtends(run, w.(disk := d));
    longer := run + [w.(disk := d)];
  }

  /** A catch-up, completed or stopped somewhere. */
  lemma AfterCatchUp(run: seq<World>, store: Store, tables: Tables, before: Disk, d: Disk, completed: bool)
      returns (longer: seq<World>)
    requires IsRun(run) && Holds(run[|run| - 1], store, tables, before)
    requires CatchUpLeaves(before, store, completed, d) && (completed ==> LoadManifest(before).Ok?)
    ensures Continues(run, longer, store, tables, d) && (completed ==> CompletedAt(longer, |run|))
  {
    longer := AfterRecovery(run, d);
  }

  /** A reset, completed or stopped somewhere. */
  lemma AfterReset(run: seq<World>, store: Store, tables: Tables, before: Disk, barrier: Option<nat>, d: Disk,
                   completed: bool) returns (longer: seq<World>)
    requires IsRun(run) && Holds(run[|run| - 1], store, tables, before)
    requires ResetLeaves(before, store, barrier, completed, d)
    ensures Continues(run, longer, store, tables, d) && (completed ==> CompletedAt(longer, |run|))
  {
    longer := AfterRecovery(run, d);
    if completed {
      assert ResetStep(longer[|run| - 1], longer[|run|], barrier);
    }
  }

  lemma ReconciledFollows(run: seq<World>, t: Tables)
    requires IsRun(run) && Reconciled(run[|run| - 1].store, run[|run| - 1].index, t)
    ensures t == Project(run[|run| - 1].store.canon)
  {
    LastInv(run);
    var w := run[|run| - 1];
    ReconcileEqualsRebuild(w.history, w.store, w.low, w.index, t);
  }

  /** An attempt to bring the Index along: the pruning is behind one that succeeded, and a failed
      promotion whose old file could not be moved back leaves an empty Index. */
  lemma AfterIndex(run: seq<World>, store: Store, before: Tables, disk: Disk, t: Tables, followed: bool)
      returns (longer: seq<World>)
    requires IsRun(run) && Holds(run[|run| - 1], store, before, disk)
    requires if followed then t == Project(store.canon) else t == before || t == EMPTY_TABLES
    ensures Continues(run, longer, if followed then Prune(store) else store, t, disk)
  {
    var w := run[|run| - 1];
    var v := w.(index := t);
    longer := run;
    if t != w.index || followed {
      assert IndexStep(w, v);
      RunExtends(run, v);
      longer := run + [v];
    }
    if followed {
      var pruned := v.(store := Prune(v.store), low := PrunedLow(v.low, v.store.canon.revision));
      assert PruneStep(v, pruned);
      RunExtends(longer, pruned);
      longer := longer + [pruned];
    }
  }

  /** What the methods of the recovery manager ask for and what makes its backups valid. */
  lemma LastDirectory(run: seq<World>)
    requires IsRun(run)
    ensures var disk := run[|run| - 1].disk; LoadManifest(disk).Ok? ==> LoadManifest(disk).value.baselines != []
  {
    LastInv(run);
  }

  predicate Reaches(disk: Disk, m: Manifest) {
    BestPlan(disk, m).Some? && BestPlan(disk, m).value.recovered == m.revision
  }

  /** What a reconcile of the recovery directory that completes leaves. */
  function ReconciledDisk(disk: Disk, s: Store): Disk
    requires LoadManifest(disk).Ok?
  {
    var m := LoadManifest(disk).value;
    if Reaches(disk, m) then CatchUpDisk(disk, s) else ResetDisk(disk, s, m.barrier)
  }

  predicate DirectoryReconciles(disk: Disk, s: Store, writes: nat) {
    LoadManifest(disk).Ok? &&
      if Reaches(disk, LoadManifest(disk).value) then CatchUpCompletes(disk, s, writes)
          else ResetCompletes(disk, s, writes)
  }

  /** What any reconcile of the recovery directory can leave. */
  ghost predicate RecoveryOutcome(before: Disk, s: Store, after: Disk) {
    || (LoadManifest(before).Ok? && after == CatchUpDisk(before, s))
    || CatchUpPassesThrough(before, s, after)
    || (exists barrier :: after == ResetDisk(before, s, barrier) || ResetPassesThrough(before, s, barrier, after))
  }

  lemma OutcomeIsStep(w: World, d: Disk)
    requires RecoveryOutcome(w.disk, w.store, d)
    ensures Next(w, w.(disk := d))
  {
    var v := w.(disk := d);
    if !CatchUpStep(w, v) && !InterruptedStep(w, v) {
      var barrier :| d == ResetDisk(w.disk, w.store, barrier);
      assert ResetStep(w, v, barrier);
    }
  }

  // ---------- purge inside a batch ----------

  lemma {:induction false} RetiredThroughBatch(s: Store, mutations: seq<Mutation>, from: nat, id: NodeId)
    requires from <= |mutations| && RunBatch(s, mutations, from).Ok?
    requires id in s.canon.issued && id !in s.canon.nodes
    ensures Resolve(RunBatch(s, mutations, from).value.canon, id).Retired?
    decreases |mutations| - from
  {
    if from < |mutations| {
      RetiredThroughBatch(MutateOnce(s, from, mutations[from]), mutations, from + 1, id);
    }
  }

  /** A node purged anywhere in a successful batch is retired at its end. */
  lemma {:induction false} BatchRetires(s: Store, mutations: seq<Mutation>, from: nat, id: NodeId)
    requires from <= |mutations| && RunBatch(s, mutations, from).Ok?
    requires s.canon.nodes.Keys <= s.canon.issued && PurgeNode(id) in mutations[from..]
    ensures Resolve(RunBatch(s, mutations, from).value.canon, id).Retired?
    decreases |mutations| - from
  {
    var next := MutateOnce(s, from, mutations[from]);
    if mutations[from] == PurgeNode(id) {
      RetiredThroughBatch(next, mutations, from + 1, id);
    } else {
      assert mutations[from..] == [mutations[from]] + mutations[from + 1..];
      BatchRetires(next, mutations, from + 1, id);
    }
  }

  lemma CommitRetires(w: World, v: World, mutations: seq<Mutation>, id: NodeId)
    requires Inv(w) && CommitStep(w, v, Batch(mutations)) && PurgeNode(id) in mutations
    ensures Resolve(v.store.canon, id).Retired?
  {
    assert Consistent(w.history[w.store.canon.revision]);
    assert mutations[0..] == mutations;
    BatchRetires(Bump(w.store), mutations, 0, id);
  }

  /** The batch was the step to `run[at]`. */
  ghost predicate CommittedAt(run: seq<World>, at: nat, mutations: seq<Mutation>) {
    0 < at < |run| && CommitStep(run[at - 1], run[at], Batch(mutations))
  }

  /** A recovery change that ran to its end was the step to `run[at]`. */
  ghost predicate CompletedAt(run: seq<World>, at: nat) {
    0 < at < |run| && Completes(run[at - 1], run[at])
  }

  lemma RetiredAt(run: seq<World>, at: nat, mutations: seq<Mutation>, id: NodeId)
    requires IsRun(run) && CommittedAt(run, at, mutations) && PurgeNode(id) in mutations
    ensures Resolve(run[at].store.canon, id).Retired?
  {
    InvAt(run, at - 1, run[at - 1]);
    CommitRetires(run[at - 1], run[at], mutations, id);
  }

  /** No plan obtainable from the last manifest of the run holds the node. */
  ghost predicate Forgotten(run: seq<World>, id: NodeId) {
    run != [] && (run[|run| - 1].disk.manifest.Saved? ==> NeverIn(run[|run| - 1].disk.manifest.manifest, id))
  }

  lemma RetiredForgotten(run: seq<World>, done: nat, id: NodeId)
    requires IsRun(run) && CompletedAt(run, done) && Resolve(run[done].store.canon, id).Retired?
    ensures Forgotten(run, id)
  {
    if run[|run| - 1].disk.manifest.Saved? {
      PurgedForever(run, done, |run| - 1, id);
    }
  }

  /** A batch purged the node, and some time later a recovery change ran to its end: whatever
      the other threads did before, between and after, no plan holds the node. */
  lemma PurgeHolds(run: seq<World>, committed: nat, done: nat, mutations: seq<Mutation>, id: NodeId)
    requires IsRun(run) && CommittedAt(run, committed, mutations) && PurgeNode(id) in mutations
    requires committed < done && CompletedAt(run, done)
    ensures Forgotten(run, id)
  {
    RetiredAt(run, committed, mutations, id);
    IdentityOverRuns(run, committed, done, id);
    RetiredForgotten(run, done, id);
  }

  lemma AllForgotten(run: seq<World>, committed: nat, done: nat, mutations: seq<Mutation>)
    requires IsRun(run) && CommittedAt(run, committed, mutations) && committed < done && CompletedAt(run, done)
    ensures forall id | PurgeNode(id) in mutations :: Forgotten(run, id)
  {
    forall id | PurgeNode(id) in mutations ensures Forgotten(run, id) {
      PurgeHolds(run, committed, done, mutations, id);
    }
  }
}
