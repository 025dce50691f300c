/** What opening does to the stored revision of a reachable store. */
module Revision {
  import opened Model
  import opened Projection
  import opened History
  import opened Replay

  lemma FactsBounded(s: Store)
    requires Consistent(s.canon)
    requires forall r <- Revisions(s.journal) :: r <= s.canon.revision
    ensures Maximum(Revisions(s.journal)) <= LatestFact(s) <= s.canon.revision
  {
  }

  lemma {:induction false} IntervalSize(low: nat, high: nat)
    requires low <= high
    ensures |Interval(low, high)| == high - low
    decreases high - low
  {
    if low < high {
      IntervalSize(low, high - 1);
    }
  }

  /** A reachable store opens unchanged, also right after a reconstruction emptied its journal. */
  lemma ReachableOpens(h: seq<Canon>, s: Store, low: nat)
    requires Retained(h, s, low) && Consistent(s.canon)
    ensures OpenStore(s) == Ok(s)
  {
    ConsistentHolds(s.canon);
    FactsBounded(s);
    if low < s.canon.revision {
      assert s.canon.revision in Revisions(s.journal);
      assert s.canon.revision <= Maximum(Revisions(s.journal));
    }
  }

  lemma JournalTop(s: Store, low: nat)
    requires Consistent(s.canon) && low < s.canon.revision
    requires Revisions(s.journal) == Interval(low, s.canon.revision)
    ensures LatestFact(s) == s.canon.revision && Maximum(Revisions(s.journal)) == s.canon.revision
    ensures IsFirst(Revisions(s.journal), low + 1)
    ensures |Revisions(s.journal)| == s.canon.revision - low
  {
    FactsBounded(s);
    assert s.canon.revision in Revisions(s.journal);
    IntervalSize(low, s.canon.revision);
  }

  lemma Repair(s: Store, low: nat, stored: nat)
    requires low < s.canon.revision == LatestFact(s) && Maximum(Revisions(s.journal)) == s.canon.revision
    requires IsFirst(Revisions(s.journal), low + 1) && |Revisions(s.journal)| == s.canon.revision - low
    ensures ReconcileRevision(s.(canon := s.canon.(revision := stored)))
         == if stored <= s.canon.revision then Ok(s) else Err(CorruptStore)
  {
  }

  /** With a journal, a wrong stored revision is repaired exactly when it is not above the
      true one, and rejected otherwise: no wrong revision is ever accepted. */
  lemma RevisionRepair(h: seq<Canon>, s: Store, low: nat, stored: nat)
    requires Retained(h, s, low) && Consistent(s.canon) && s.journal != []
    ensures ReconcileRevision(s.(canon := s.canon.(revision := stored)))
         == if stored <= s.canon.revision then Ok(s) else Err(CorruptStore)
  {
    assert s.journal[0].revision in Revisions(s.journal);
    JournalTop(s, low);
    Repair(s, low, stored);
  }

  /** Without a journal only a revision below the latest surviving fact is noticed. */
  lemma RevisionUnprovable(s: Store, stored: nat)
    requires s.journal == []
    ensures var damaged := s.(canon := s.canon.(revision := stored));
      ReconcileRevision(damaged) == if stored < LatestFact(s) then Err(CorruptStore) else Ok(damaged)
  {
  }

  /** For instance a reconstructed empty store whose revision was overwritten with 7. */
  lemma WrongRevisionAccepted()
    ensures var damaged := Store(EMPTY_CANON.(revision := 7), []); OpenStore(damaged) == Ok(damaged)
  {
    RevisionUnprovable(Store(EMPTY_CANON, []), 7);
  }
}
