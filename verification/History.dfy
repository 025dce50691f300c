/** The change journal against the history of canonical states it was written along. */
module History {
  import opened Model
  import opened Projection
  import opened Commits

  // ---------- selecting rows ----------

  lemma {:induction false} AfterConcat(a: seq<Change>, b: seq<Change>, checkpoint: nat)
    ensures After(a + b, checkpoint) == After(a, checkpoint) + After(b, checkpoint)
    decreases |b|
  {
    if b == [] {
      assert a + b == a;
    } else {
      assert (a + b)[..|a + b| - 1] == a + b[..|b| - 1];
      AfterConcat(a, b[..|b| - 1], checkpoint);
    }
  }

  lemma {:induction false} AfterAll(rows: seq<Change>, checkpoint: nat)
    requires forall i :: 0 <= i < |rows| ==> rows[i].revision > checkpoint
    ensures After(rows, checkpoint) == rows
    decreases |rows|
  {
    if rows != [] {
      AfterAll(rows[..|rows| - 1], checkpoint);
      assert rows == rows[..|rows| - 1] + [rows[|rows| - 1]];
    }
  }

  lemma {:induction false} AfterNone(rows: seq<Change>, checkpoint: nat)
    requires forall i :: 0 <= i < |rows| ==> rows[i].revision <= checkpoint
    ensures After(rows, checkpoint) == []
    decreases |rows|
  {
    if rows != [] {
      AfterNone(rows[..|rows| - 1], checkpoint);
    }
  }

  lemma {:induction false} AfterTwice(rows: seq<Change>, low: nat, checkpoint: nat)
    requires low <= checkpoint
    ensures After(After(rows, low), checkpoint) == After(rows, checkpoint)
    decreases |rows|
  {
    if rows != [] {
      var init, last := rows[..|rows| - 1], [rows[|rows| - 1]];
      AfterTwice(init, low, checkpoint);
      AfterConcat(After(init, low), if last[0].revision > low then last else [], checkpoint);
      assert last[..0] == [];
      assert After(last, checkpoint) == if last[0].revision > checkpoint then last else [];
    }
  }

  /** The rows of an ordered journal after a checkpoint are a suffix of it. */
  lemma {:induction false} AfterSuffix(rows: seq<Change>, checkpoint: nat) returns (cut: nat)
    requires Ordered(rows)
    ensures cut <= |rows| && After(rows, checkpoint) == rows[cut..]
    ensures forall i :: 0 <= i < cut ==> rows[i].revision <= checkpoint
    ensures forall i :: cut <= i < |rows| ==> rows[i].revision > checkpoint
    decreases |rows|
  {
    if rows == [] {
      cut := 0;
    } else if rows[|rows| - 1].revision <= checkpoint {
      AfterNone(rows, checkpoint);
      cut := |rows|;
    } else {
      cut := AfterSuffix(rows[..|rows| - 1], checkpoint);
      assert rows[cut..] == rows[..|rows| - 1][cut..] + [rows[|rows| - 1]];
    }
  }

  lemma RevisionsAfter(rows: seq<Change>, checkpoint: nat)
    requires Ordered(rows)
    ensures Ordered(After(rows, checkpoint))
    ensures Revisions(After(rows, checkpoint)) == set r | r in Revisions(rows) && r > checkpoint
  {
    var cut := AfterSuffix(rows, checkpoint);
    var suffix := rows[cut..];
    forall r | r in Revisions(rows) && r > checkpoint ensures r in Revisions(suffix) {
      var i :| 0 <= i < |rows| && rows[i].revision == r;
      assert suffix[i - cut].revision == r;
    }
    forall r | r in Revisions(suffix) ensures r in Revisions(rows) && r > checkpoint {
      var i :| 0 <= i < |suffix| && suffix[i].revision == r;
      assert rows[i + cut].revision == r;
    }
  }

  // ---------- contiguity ----------

  lemma {:induction false} ContiguousHits(rows: seq<Change>, checkpoint: nat, current: nat, r: nat)
    requires Contiguous(rows, checkpoint, current) && checkpoint < r <= current
    ensures r in Revisions(rows)
  {
    // The first row past which the revision has reached r.
    var i := 0;
    while rows[i].revision < r
      invariant 0 <= i < |rows| && rows[i].revision <= r
      decreases |rows| - i
    {
      if i == |rows| - 1 { assert false; }
      i := i + 1;
    }
    assert rows[i].revision == r;
  }

  /** On ordered rows past the checkpoint, the code's contiguity scan accepts exactly when
      the distinct revisions are (checkpoint, current]. */
  lemma ContiguousMeansCovering(rows: seq<Change>, checkpoint: nat, current: nat)
    requires Ordered(rows) && checkpoint < current
    requires forall i :: 0 <= i < |rows| ==> checkpoint < rows[i].revision
    ensures Contiguous(rows, checkpoint, current) <==> Revisions(rows) == Interval(checkpoint, current)
  {
    if Contiguous(rows, checkpoint, current) {
      forall r: nat | checkpoint < r <= current ensures r in Revisions(rows) {
        ContiguousHits(rows, checkpoint, current, r);
      }
      assert forall i :: 0 <= i < |rows| ==> rows[i].revision <= rows[|rows| - 1].revision;
    }
    if Revisions(rows) == Interval(checkpoint, current) {
      assert checkpoint + 1 in Interval(checkpoint, current) && current in Interval(checkpoint, current);
      var first :| 0 <= first < |rows| && rows[first].revision == checkpoint + 1;
      assert rows[0].revision <= rows[first].revision;
      var last :| 0 <= last < |rows| && rows[last].revision == current;
      assert rows[last].revision <= rows[|rows| - 1].revision;
      assert rows[|rows| - 1].revision in Revisions(rows);
      forall i | 0 <= i < |rows| - 1
        ensures rows[i].revision <= rows[i + 1].revision <= rows[i].revision + 1
      {
        if rows[i].revision < rows[i + 1].revision {
          assert rows[i + 1].revision in Revisions(rows);
          assert rows[i].revision + 1 in Revisions(rows);
          var j :| 0 <= j < |rows| && rows[j].revision == rows[i].revision + 1;
          assert i < j;
        }
      }
    }
  }

  // ---------- history ----------

  /** `h[i]` is the canonical state at revision i. */
  ghost predicate HistoryOk(h: seq<Canon>) {
    && |h| > 0
    && (forall i :: 0 <= i < |h| ==> h[i].revision == i)
    && (forall i {:trigger Consistent(h[i])} :: 0 <= i < |h| ==> Consistent(h[i]))
    && (forall i, j {:trigger Evolves(i, h[i], h[j])} :: 0 <= i <= j < |h| ==> Evolves(i, h[i], h[j]))
  }

  /** The rows after `checkpoint` name everything that changed between `before` and `s`. */
  ghost predicate Accounted(before: Canon, s: Store, checkpoint: nat) {
    && AllNames(After(s.journal, checkpoint)).Some?
    && Covers(AllNames(After(s.journal, checkpoint)).value, before, s.canon)
  }

  /** The journal of `s` holds exactly the revisions (low, current], and its rows after any
      checkpoint from `low` on name everything that changed since that checkpoint. */
  ghost predicate Retained(h: seq<Canon>, s: Store, low: nat) {
    && |h| == s.canon.revision + 1 && h[s.canon.revision] == s.canon
    && low <= s.canon.revision
    && Ordered(s.journal)
    && Revisions(s.journal) == Interval(low, s.canon.revision)
    && forall checkpoint: nat {:trigger Accounted(h[checkpoint], s, checkpoint)} ::
         low <= checkpoint <= s.canon.revision ==> Accounted(h[checkpoint], s, checkpoint)
  }

  lemma CommitHistory(h: seq<Canon>, s: Store, t: Store)
    requires HistoryOk(h) && |h| == s.canon.revision + 1 && h[s.canon.revision] == s.canon && Committed(s, t)
    ensures HistoryOk(h + [t.canon])
  {
    var g := h + [t.canon];
    forall i | 0 <= i < |g| ensures Consistent(g[i]) {
      if i < |h| { assert Consistent(h[i]); }
    }
    forall i, j | 0 <= i <= j < |g| ensures Evolves(i, g[i], g[j]) {
      if j < |h| {
        assert Evolves(i, h[i], h[j]);
      } else if i < |h| {
        assert Evolves(i, h[i], h[s.canon.revision]);
        EvolvesCompose(i, s.canon.revision, h[i], s.canon, t.canon);
      }
    }
  }

  lemma RevisionsConcat(a: seq<Change>, b: seq<Change>)
    ensures Revisions(a + b) == Revisions(a) + Revisions(b)
  {
    forall r | r in Revisions(a) + Revisions(b) ensures r in Revisions(a + b) {
      if r in Revisions(a) {
        var i :| 0 <= i < |a| && a[i].revision == r;
        assert (a + b)[i] == a[i];
      } else {
        var i :| 0 <= i < |b| && b[i].revision == r;
        assert (a + b)[|a| + i] == b[i];
      }
    }
  }

  lemma OrderedConcat(a: seq<Change>, b: seq<Change>, revision: nat)
    requires Ordered(a) && forall r <- Revisions(a) :: r <= revision
    requires forall i :: 0 <= i < |b| ==> b[i].revision == revision + 1
    ensures Ordered(a + b)
  {
    forall i | 0 <= i < |a| ensures a[i].revision <= revision {
      assert a[i].revision in Revisions(a);
    }
  }

  lemma CommitRevisions(s: Store, t: Store, low: nat)
    requires Committed(s, t) && Ordered(s.journal) && low <= s.canon.revision
    requires Revisions(s.journal) == Interval(low, s.canon.revision)
    ensures Ordered(t.journal) && Revisions(t.journal) == Interval(low, t.canon.revision)
  {
    var rows := NewRows(s, t);
    RevisionsConcat(s.journal, rows);
    OrderedConcat(s.journal, rows, s.canon.revision);
    assert rows[0].revision in Revisions(rows);
    assert Revisions(rows) == {t.canon.revision};
  }

  lemma CommitCovers(before: Canon, s: Store, t: Store, checkpoint: nat)
    requires Accounted(before, s, checkpoint)
    requires Appended(s, t, t.canon.revision) && checkpoint < t.canon.revision
    ensures Accounted(before, t, checkpoint)
  {
    var earlier, rows := After(s.journal, checkpoint), NewRows(s, t);
    AfterConcat(s.journal, rows, checkpoint);
    AfterAll(rows, checkpoint);
    assert After(t.journal, checkpoint) == earlier + rows;
    AllNamesConcat(earlier, rows);
    CoversCompose(AllNames(earlier).value, AllNames(rows).value, before, s.canon, t.canon);
  }

  /** A commit extends the retained interval by its own revision and keeps it complete. */
  lemma CommitRetained(h: seq<Canon>, s: Store, t: Store, low: nat)
    requires HistoryOk(h) && Retained(h, s, low) && Committed(s, t)
    ensures Retained(h + [t.canon], t, low)
  {
    var g := h + [t.canon];
    CommitRevisions(s, t, low);
    forall checkpoint: nat | low <= checkpoint <= t.canon.revision
      ensures Accounted(g[checkpoint], t, checkpoint)
    {
      if checkpoint <= s.canon.revision {
        assert Accounted(h[checkpoint], s, checkpoint);
        CommitCovers(h[checkpoint], s, t, checkpoint);
      } else {
        forall i | 0 <= i < |t.journal| ensures t.journal[i].revision <= checkpoint {
          assert t.journal[i].revision in Revisions(t.journal);
        }
        AfterNone(t.journal, checkpoint);
      }
    }
  }

  /** The first retained checkpoint after pruning. */
  function PrunedLow(low: nat, current: nat): nat {
    if current <= RETENTION_REVISIONS || current - RETENTION_REVISIONS <= low then low
        else current - RETENTION_REVISIONS
  }

  /** Dropping the rows up to `cut` does not change what lies after a later checkpoint, nor
      after any checkpoint when nothing is dropped. */
  lemma CutAfter(rows: seq<Change>, low: nat, cut: nat, checkpoint: nat)
    requires forall i :: 0 <= i < |rows| ==> low < rows[i].revision
    requires cut <= checkpoint || cut <= low
    ensures After(After(rows, cut), checkpoint) == After(rows, checkpoint)
  {
    if cut <= checkpoint {
      AfterTwice(rows, cut, checkpoint);
    } else {
      AfterAll(rows, cut);
    }
  }

  lemma CutCovers(before: Canon, s: Store, cut: nat, checkpoint: nat)
    requires After(After(s.journal, cut), checkpoint) == After(s.journal, checkpoint)
    requires Accounted(before, s, checkpoint)
    ensures Accounted(before, Store(s.canon, After(s.journal, cut)), checkpoint)
  {
  }

  lemma CutRetained(h: seq<Canon>, s: Store, low: nat, cut: nat, t: Store, newLow: nat)
    requires Retained(h, s, low) && cut <= s.canon.revision
    requires t == Store(s.canon, After(s.journal, cut))
    requires newLow == if cut <= low then low else cut
    ensures Retained(h, t, newLow)
  {
    RevisionsAfter(s.journal, cut);
    forall i | 0 <= i < |s.journal| ensures low < s.journal[i].revision {
      assert s.journal[i].revision in Revisions(s.journal);
    }
    assert Revisions(t.journal) == Interval(newLow, s.canon.revision);
    forall checkpoint: nat | newLow <= checkpoint <= s.canon.revision
      ensures Accounted(h[checkpoint], t, checkpoint)
    {
      assert Accounted(h[checkpoint], s, checkpoint);
      CutAfter(s.journal, low, cut, checkpoint);
      CutCovers(h[checkpoint], s, cut, checkpoint);
    }
  }

  /** Pruning keeps exactly the revisions above max(low, current - 1024). */
  lemma PruneRetained(h: seq<Canon>, s: Store, low: nat)
    requires Retained(h, s, low)
    ensures Retained(h, Prune(s), PrunedLow(low, s.canon.revision))
    ensures Prune(s).canon == s.canon
  {
    if s.canon.revision > RETENTION_REVISIONS {
      CutRetained(h, s, low, s.canon.revision - RETENTION_REVISIONS, Prune(s), PrunedLow(low, s.canon.revision));
    }
  }

  // ---------- deltas ----------

  lemma RetainedAfter(low: nat, checkpoint: nat, current: nat)
    requires checkpoint < current
    ensures (set r <- Interval(low, current) | r > checkpoint) == Interval(checkpoint, current) <==> low <= checkpoint
  {
  }

  /** Deltas are available exactly for the checkpoints the retained interval bridges. */
  lemma DeltaAvailability(h: seq<Canon>, s: Store, low: nat, checkpoint: nat)
    requires Retained(h, s, low)
    ensures DeltaSince(s, checkpoint).Current? <==> checkpoint == s.canon.revision
    ensures DeltaSince(s, checkpoint).Available? <==> low <= checkpoint < s.canon.revision
  {
    if checkpoint < s.canon.revision {
      var rows := After(s.journal, checkpoint);
      RevisionsAfter(s.journal, checkpoint);
      var cut := AfterSuffix(s.journal, checkpoint);
      ContiguousMeansCovering(rows, checkpoint, s.canon.revision);
      RetainedAfter(low, checkpoint, s.canon.revision);
      if low <= checkpoint {
        assert Accounted(h[checkpoint], s, checkpoint);
      }
    }
  }

  /** The frame of an available delta covers the difference since its checkpoint. */
  lemma CoveredFrame(h: seq<Canon>, s: Store, low: nat, checkpoint: nat)
    requires HistoryOk(h) && Retained(h, s, low) && low <= checkpoint <= s.canon.revision
    ensures Accounted(h[checkpoint], s, checkpoint)
    ensures h[checkpoint].revision == checkpoint && Consistent(s.canon)
  {
  }

  /** Whatever checkpoint is accepted, the patch turns the state of that revision into the
      current one. */
  lemma DeltaCorrect(h: seq<Canon>, s: Store, low: nat, checkpoint: nat)
    requires HistoryOk(h) && Retained(h, s, low)
    requires DeltaSince(s, checkpoint).Available?
    ensures low <= checkpoint < s.canon.revision
    ensures var patch := DeltaSince(s, checkpoint).patch;
      patch.from == checkpoint && patch.target == s.canon.revision && ApplyPatch(h[checkpoint], patch) == s.canon
  {
    DeltaAvailability(h, s, low, checkpoint);
    CoveredFrame(h, s, low, checkpoint);
    var rows := After(s.journal, checkpoint);
    CaptureRestores(AllNames(rows).value, h[checkpoint], s.canon, |rows|);
  }

  /** One row after the rows up to the checkpoint is the whole window. */
  lemma OneRowWindow(journal: seq<Change>, row: Change, checkpoint: nat)
    requires After(journal, checkpoint) == [] && checkpoint < row.revision
    ensures After(journal + [row], checkpoint) == [row] && AllNames([row]) == RowNames(row)
  {
    AfterConcat(journal, [row], checkpoint);
    AfterAll([row], checkpoint);
    assert [] + [row] == [row];
    SingleName(row);
  }

  lemma NothingAfterLive(h: seq<Canon>, s: Store, low: nat)
    requires Retained(h, s, low)
    ensures After(s.journal, s.canon.revision) == []
  {
    forall i | 0 <= i < |s.journal| ensures s.journal[i].revision <= s.canon.revision {
      assert s.journal[i].revision in Revisions(s.journal);
    }
    AfterNone(s.journal, s.canon.revision);
  }

  /** The last row's names are among those of any window that includes it. */
  lemma LastRowNamed(journal: seq<Change>, row: Change, checkpoint: nat)
    requires checkpoint < row.revision && AllNames(After(journal + [row], checkpoint)).Some?
    ensures RowNames(row).Some?
    ensures RowNames(row).value.relationshipDefinitions
         <= AllNames(After(journal + [row], checkpoint)).value.relationshipDefinitions
  {
  }
}
