/** More about whole runs: how deltas compose, how large the recovery material gets, and the
    one way a current recovery chain is refused. */
module Runs {
  import opened Model
  import opened Projection
  import opened Commits
  import opened History
  import opened Replay
  import opened Recovery
  import opened Chain
  import opened Bounds
  import opened Core

  // ---------- consecutive deltas ----------

  /** After `checkpoint`, the rows of `t` are those of `s` followed by what came later. */
  ghost predicate Continued(s: Store, t: Store, checkpoint: nat) {
    After(t.journal, checkpoint) == After(s.journal, checkpoint) + After(t.journal, s.canon.revision)
  }

  /** `t` is a later store: it continues `s` after every checkpoint it still retains. */
  ghost predicate Continues(s: Store, t: Store, low: nat) {
    && s.canon.revision <= t.canon.revision
    && forall checkpoint: nat {:trigger Continued(s, t, checkpoint)} ::
         low <= checkpoint <= s.canon.revision ==> Continued(s, t, checkpoint)
  }

  lemma ContinuesSelf(h: seq<Canon>, s: Store, low: nat)
    requires Retained(h, s, low)
    ensures Continues(s, s, low)
  {
    forall i | 0 <= i < |s.journal| ensures s.journal[i].revision <= s.canon.revision {
      assert s.journal[i].revision in Revisions(s.journal);
    }
    AfterNone(s.journal, s.canon.revision);
  }

  lemma ContinuedCommit(s: Store, t: Store, u: Store, rows: seq<Change>, checkpoint: nat)
    requires Continued(s, t, checkpoint) && checkpoint <= s.canon.revision
    requires u.journal == t.journal + rows
    requires forall i :: 0 <= i < |rows| ==> rows[i].revision > s.canon.revision
    ensures Continued(s, u, checkpoint)
  {
    AfterConcat(t.journal, rows, s.canon.revision);
    AfterAll(rows, s.canon.revision);
    AfterConcat(t.journal, rows, checkpoint);
    AfterAll(rows, checkpoint);
    var early, middle := After(s.journal, checkpoint), After(t.journal, s.canon.revision);
    assert (early + middle) + rows == early + (middle + rows);
  }

  lemma ContinuesCommit(s: Store, t: Store, low: nat, u: Store)
    requires Continues(s, t, low) && Committed(t, u)
    ensures Continues(s, u, low)
  {
    forall checkpoint: nat | low <= checkpoint <= s.canon.revision ensures Continued(s, u, checkpoint) {
      assert Continued(s, t, checkpoint);
      ContinuedCommit(s, t, u, NewRows(t, u), checkpoint);
    }
  }

  lemma ContinuedCut(s: Store, t: Store, low: nat, cut: nat, checkpoint: nat)
    requires Continued(s, t, checkpoint) && checkpoint <= s.canon.revision
    requires forall r <- Revisions(t.journal) :: low < r
    requires cut <= checkpoint || cut <= low
    ensures Continued(s, Store(t.canon, After(t.journal, cut)), checkpoint)
  {
    forall i | 0 <= i < |t.journal| ensures low < t.journal[i].revision {
      assert t.journal[i].revision in Revisions(t.journal);
    }
    CutAfter(t.journal, low, cut, checkpoint);
    CutAfter(t.journal, low, cut, s.canon.revision);
  }

  lemma ContinuesPrune(h: seq<Canon>, s: Store, t: Store, low: nat)
    requires Continues(s, t, low) && Retained(h, t, low)
    ensures Continues(s, Prune(t), PrunedLow(low, t.canon.revision))
  {
    if t.canon.revision > RETENTION_REVISIONS {
      forall checkpoint: nat | PrunedLow(low, t.canon.revision) <= checkpoint <= s.canon.revision
        ensures Continued(s, Prune(t), checkpoint)
      {
        assert Continued(s, t, checkpoint);
        ContinuedCut(s, t, low, t.canon.revision - RETENTION_REVISIONS, checkpoint);
      }
    }
  }

  lemma StepContinues(s: Store, w: World, v: World)
    requires Inv(w) && Next(w, v) && Continues(s, w.store, w.low)
    ensures Continues(s, v.store, v.low)
  {
    if op :| CommitStep(w, v, op) {
      CommitFacts(w.store, op);
      ContinuesCommit(s, w.store, w.low, v.store);
    } else if PruneStep(w, v) {
      ContinuesPrune(w.history, s, w.store, w.low);
    }
  }

  lemma LastStep(run: seq<World>, at: nat)
    requires IsRun(run) && 0 < at < |run|
    ensures Inv(run[at - 1]) && Next(run[at - 1], run[at])
  {
    RunInv(run, at - 1);
    assert StepAt(run, at);
  }

  lemma {:induction false} RunContinues(run: seq<World>, from: nat, at: nat)
    requires IsRun(run) && from <= at < |run|
    ensures Continues(run[from].store, run[at].store, run[at].low)
    decreases at - from
  {
    if from == at {
      RunInv(run, at);
      ContinuesSelf(run[at].history, run[at].store, run[at].low);
    } else {
      RunContinues(run, from, at - 1);
      LastStep(run, at);
      StepContinues(run[from].store, run[at - 1], run[at]);
    }
  }

  lemma DeltasCompose(h: seq<Canon>, s: Store, t: Store, low: nat, checkpoint: nat)
    requires HistoryOk(h) && Retained(h, t, low) && Continues(s, t, low)
    requires s.canon.revision < |h| && h[s.canon.revision] == s.canon
    requires low <= checkpoint < s.canon.revision < t.canon.revision
    requires DeltaSince(s, checkpoint).Available?
    ensures DeltaSince(t, checkpoint).Available? && DeltaSince(t, s.canon.revision).Available?
    ensures DeltaSince(t, checkpoint).patch
        == Compose(DeltaSince(s, checkpoint).patch, DeltaSince(t, s.canon.revision).patch)
  {
    DeltaAvailability(h, t, low, checkpoint);
    DeltaAvailability(h, t, low, s.canon.revision);
    CoveredFrame(h, t, low, s.canon.revision);
    var early, late := After(s.journal, checkpoint), After(t.journal, s.canon.revision);
    assert Continued(s, t, checkpoint);
    AllNamesConcat(early, late);
    CaptureComposes(AllNames(early).value, AllNames(late).value, h[checkpoint], s.canon, t.canon, |early|, |late|);
  }

  /** Along any run, the patch read at one time followed by the patch read later is the patch
      over the joined window, as long as the journal still bridges it. */
  lemma RunDeltasCompose(run: seq<World>, from: nat, at: nat, checkpoint: nat)
    requires IsRun(run) && from <= at < |run|
    requires run[at].low <= checkpoint < run[from].store.canon.revision < run[at].store.canon.revision
    requires DeltaSince(run[from].store, checkpoint).Available?
    ensures DeltaSince(run[at].store, checkpoint).Available?
    ensures DeltaSince(run[at].store, run[from].store.canon.revision).Available?
    ensures DeltaSince(run[at].store, checkpoint).patch
         == Compose(DeltaSince(run[from].store, checkpoint).patch,
                    DeltaSince(run[at].store, run[from].store.canon.revision).patch)
  {
    RunContinues(run, from, at);
    PastIsHistory(run, from, at);
    RunInv(run, at);
    DeltasCompose(run[at].history, run[from].store, run[at].store, run[at].low, checkpoint);
  }

  // ---------- the journal ----------

  /** In every reachable state the journal holds exactly the revisions of one interval up to the
      live one. Deltas are available exactly from the checkpoints it bridges, and after pruning
      exactly from those of them at most 1,024 revisions back. */
  lemma JournalInterval(run: seq<World>, at: nat, checkpoint: nat)
    requires IsRun(run) && at < |run|
    ensures var s, low := run[at].store, run[at].low;
      && Revisions(s.journal) == Interval(low, s.canon.revision)
      && (DeltaSince(s, checkpoint).Available? <==> low <= checkpoint < s.canon.revision)
      && (DeltaSince(Prune(s), checkpoint).Available? <==>
            low <= checkpoint < s.canon.revision <= checkpoint + 1024)
  {
    RunInv(run, at);
    var h, s, low := run[at].history, run[at].store, run[at].low;
    DeltaAvailability(h, s, low, checkpoint);
    PruneRetained(h, s, low);
    DeltaAvailability(h, Prune(s), PrunedLow(low, s.canon.revision), checkpoint);
  }

  // ---------- size ----------

  ghost predicate ManifestSettled(w: World) {
    w.disk.manifest.Saved? ==> Settled(w.disk.manifest.manifest)
  }

  /** A step in which no recovery change is stopped half-way. */
  ghost predicate WholeStep(w: World, v: World) {
    || (exists op :: CommitStep(w, v, op))
    || PruneStep(w, v) || IndexStep(w, v) || DamageStep(w, v)
    || CatchUpStep(w, v) || SomeReset(w, v)
  }

  ghost predicate WholeAt(run: seq<World>, i: nat)
    requires 0 < i < |run|
  {
    WholeStep(run[i - 1], run[i])
  }

  lemma StepSettled(w: World, v: World)
    requires Inv(w) && WholeStep(w, v) && ManifestSettled(w)
    ensures ManifestSettled(v)
  {
    if CatchUpStep(w, v) {
      if CatchUpAction(w.disk, w.store).Extend? {
        DeltaCorrect(w.history, w.store, w.low, LoadManifest(w.disk).value.revision);
      }
      CatchUpSettles(w.disk, w.store);
    } else if SomeReset(w, v) {
      var barrier :| ResetStep(w, v, barrier);
      ResetChain(w.disk, w.store, barrier);
    }
  }

  /** As long as no recovery change is stopped half-way, every manifest of a run has at most two
      baselines and 127 segments, so the manager never rejects one it saved. */
  lemma {:induction false} RunSettled(run: seq<World>, at: nat)
    requires IsRun(run) && at < |run| && ManifestSettled(run[0])
    requires forall i {:trigger WholeAt(run, i)} :: 0 < i <= at ==> WholeAt(run, i)
    ensures ManifestSettled(run[at])
    ensures run[at].disk.manifest.Saved? ==>
      LoadManifest(run[at].disk).Ok? && |run[at].disk.manifest.manifest.baselines| <= 2
      && |run[at].disk.manifest.manifest.segments| <= 127
    decreases at
  {
    if at > 0 {
      RunSettled(run, at - 1);
      RunInv(run, at - 1);
      assert WholeAt(run, at);
      StepSettled(run[at - 1], run[at]);
    }
  }
}
