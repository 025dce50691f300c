/** What every committing operation keeps, and what its journal rows account for. */
module Commits {
  import opened Model
  import opened Operations
  import opened Projection
  import Definitions

  /** From `before` to `after` no identity is forgotten or reissued, and a node row that
      is not the same row carries a modification revision above `base`. */
  ghost predicate Evolves(base: nat, before: Canon, after: Canon) {
    && before.revision <= after.revision
    && before.issued <= after.issued
    && forall id <- after.nodes.Keys ::
         || (id in before.nodes && after.nodes[id] == before.nodes[id])
         || (id in before.nodes && after.nodes[id].modified > base
             && after.nodes[id].created == before.nodes[id].created)
         || (id !in before.issued && after.nodes[id].modified > base)
  }

  lemma EvolvesCompose(base: nat, middle: nat, a: Canon, b: Canon, c: Canon)
    requires Evolves(base, a, b) && Evolves(middle, b, c) && base <= middle
    ensures Evolves(base, a, c)
  {
  }

  // ---------- one mutation ----------

  /** The row a mutation journals names every row the mutation changes. */
  lemma MutationCovers(c: Canon, m: Mutation, ordinal: nat)
    requires MutationGuard(c, m).None? && c.nodes.Keys <= c.issued
    ensures RowNames(MutationRow(c.revision, ordinal, m)).Some?
    ensures Covers(RowNames(MutationRow(c.revision, ordinal, m)).value, c, MutationEffect(c, m))
  {
  }

  lemma MutationEvolves(c: Canon, m: Mutation)
    requires MutationGuard(c, m).None? && c.nodes.Keys <= c.issued && 0 < c.revision
    ensures Evolves(c.revision - 1, c, MutationEffect(c, m))
  {
  }

  lemma MutationNodes(c: Canon, m: Mutation)
    requires MutationGuard(c, m).None? && 0 < c.revision
    requires forall id <- c.nodes.Keys :: NodeOk(c.nodes[id], c.revision)
    ensures forall id <- MutationEffect(c, m).nodes.Keys :: NodeOk(MutationEffect(c, m).nodes[id], c.revision)
  {
  }

  lemma MutationRelationships(c: Canon, m: Mutation, edge: RelationshipKey)
    requires MutationGuard(c, m).None? && Consistent(c) && 0 < c.revision
    requires edge in MutationEffect(c, m).relationships
    ensures var after := MutationEffect(c, m);
      && edge.source in after.issued && edge.target in after.issued && edge.key != ""
      && 0 < after.relationships[edge].created <= after.relationships[edge].modified <= c.revision
  {
  }

  lemma MutationConsistent(c: Canon, m: Mutation)
    requires MutationGuard(c, m).None? && Consistent(c) && 0 < c.revision
    ensures Consistent(MutationEffect(c, m))
    ensures MutationEffect(c, m).revision == c.revision
  {
    MutationNodes(c, m);
    forall edge | edge in MutationEffect(c, m).relationships.Keys
      ensures var after := MutationEffect(c, m);
        && edge.source in after.issued && edge.target in after.issued && edge.key != ""
        && 0 < after.relationships[edge].created <= after.relationships[edge].modified <= c.revision
    {
      MutationRelationships(c, m, edge);
    }
  }

  // ---------- one batch ----------

  /** The rows `t` holds beyond `s`. */
  function NewRows(s: Store, t: Store): seq<Change>
    requires |s.journal| <= |t.journal|
  {
    t.journal[|s.journal|..]
  }

  /** `t` is `s` with rows appended, all of revision `revision`, that account for every difference. */
  ghost predicate Appended(s: Store, t: Store, revision: nat) {
    && |s.journal| <= |t.journal|
    && t.journal == s.journal + NewRows(s, t)
    && (forall i :: 0 <= i < |NewRows(s, t)| ==> NewRows(s, t)[i].revision == revision)
    && AllNames(NewRows(s, t)).Some?
    && Covers(AllNames(NewRows(s, t)).value, s.canon, t.canon)
  }

  lemma SingleName(row: Change)
    ensures AllNames([row]) == RowNames(row)
  {
    assert [row][..0] == [];
    assert AllNames([]) == Some(NO_NAMES);
    if RowNames(row).Some? {
      assert NO_NAMES.Plus(RowNames(row).value) == RowNames(row).value;
    }
  }

  lemma AppendedRow(s: Store, canon: Canon, row: Change)
    requires RowNames(row).Some? && Covers(RowNames(row).value, s.canon, canon)
    ensures Appended(s, Append(s, canon, row), row.revision)
  {
  }

  lemma AppendedCompose(s: Store, n: Store, t: Store, revision: nat)
    requires Appended(s, n, revision) && Appended(n, t, revision)
    ensures Appended(s, t, revision)
  {
    assert NewRows(s, t) == NewRows(s, n) + NewRows(n, t);
    AllNamesConcat(NewRows(s, n), NewRows(n, t));
    CoversCompose(AllNames(NewRows(s, n)).value, AllNames(NewRows(n, t)).value, s.canon, n.canon, t.canon);
  }

  /** What one transaction at `revision` keeps between two of its states. */
  ghost predicate Progress(s: Store, t: Store, revision: nat) {
    && Appended(s, t, revision)
    && t.canon.revision == revision == s.canon.revision
    && Consistent(t.canon)
    && 0 < revision
    && Evolves(revision - 1, s.canon, t.canon)
  }

  lemma MutationProgress(s: Store, m: Mutation, ordinal: nat)
    requires MutationGuard(s.canon, m).None? && Consistent(s.canon) && 0 < s.canon.revision
    ensures Progress(s, MutateOnce(s, ordinal, m), s.canon.revision)
  {
    MutationConsistent(s.canon, m);
    MutationEvolves(s.canon, m);
    MutationCovers(s.canon, m, ordinal);
    AppendedRow(s, MutationEffect(s.canon, m), MutationRow(s.canon.revision, ordinal, m));
  }

  lemma ProgressCompose(s: Store, n: Store, t: Store, revision: nat)
    requires Progress(s, n, revision) && Progress(n, t, revision)
    ensures Progress(s, t, revision)
  {
    AppendedCompose(s, n, t, revision);
    EvolvesCompose(revision - 1, revision - 1, s.canon, n.canon, t.canon);
  }

  lemma ProgressSelf(s: Store)
    requires Consistent(s.canon) && 0 < s.canon.revision
    ensures Progress(s, s, s.canon.revision)
  {
  }

  lemma {:induction false} BatchProgress(s: Store, mutations: seq<Mutation>, from: nat)
    requires from <= |mutations| && Consistent(s.canon) && 0 < s.canon.revision
    ensures var result := RunBatch(s, mutations, from);
      result.Ok? ==>
        && Progress(s, result.value, s.canon.revision)
        && |result.value.journal| == |s.journal| + |mutations| - from
    decreases |mutations| - from
  {
    if from == |mutations| {
      ProgressSelf(s);
    } else if MutationGuard(s.canon, mutations[from]).None? {
      var next := MutateOnce(s, from, mutations[from]);
      MutationProgress(s, mutations[from], from);
      BatchProgress(next, mutations, from + 1);
      var result := RunBatch(next, mutations, from + 1);
      if result.Ok? {
        ProgressCompose(s, next, result.value, s.canon.revision);
      }
    }
  }

  // ---------- one commit ----------

  /** What a successful commit establishes between the old and the new store. */
  ghost predicate Committed(s: Store, t: Store) {
    && t.canon.revision == s.canon.revision + 1
    && Appended(s, t, t.canon.revision)
    && |s.journal| < |t.journal|
    && Consistent(t.canon)
    && Evolves(s.canon.revision, s.canon, t.canon)
  }

  lemma BumpConsistent(s: Store)
    requires Consistent(s.canon)
    ensures Consistent(Bump(s).canon)
  {
  }

  lemma BatchCommits(s: Store, mutations: seq<Mutation>)
    requires Consistent(s.canon) && mutations != []
    requires RunBatch(Bump(s), mutations, 0).Ok?
    ensures Committed(s, RunBatch(Bump(s), mutations, 0).value)
  {
    BumpConsistent(s);
    BatchProgress(Bump(s), mutations, 0);
    assert NewRows(s, RunBatch(Bump(s), mutations, 0).value) == NewRows(Bump(s), RunBatch(Bump(s), mutations, 0).value);
  }

  lemma PropertyOpCommits(s: Store, op: DefinitionOp<PropertyBody>)
    requires Consistent(s.canon) && CommitPropertyOp(s, op).Ok?
    ensures Committed(s, CommitPropertyOp(s, op).value)
  {
    var t := CommitPropertyOp(s, op).value;
    var row := Change(t.canon.revision, 0, PropertyDefinitionChanged(EventOf(op)), None, Some(op.key),
        ReplacementNote(op));
    var (caption, origin) := if op.Register? || op.Update? then (op.body.caption, op.body.origin) else ("", "");
    BumpConsistent(s);
    Definitions.DefinitionEffectOk(s.canon.propertyDefinitions, StoredPropertyOp(s.canon, op), t.canon.revision,
                                   caption, origin, PropertyUsed(s.canon, op.key));
    AppendedRow(s, t.canon, row);
  }

  lemma RelationshipOpCommits(s: Store, op: DefinitionOp<RelationshipBody>)
    requires Consistent(s.canon) && CommitRelationshipOp(s, op).Ok?
    ensures Committed(s, CommitRelationshipOp(s, op).value)
  {
    var t := CommitRelationshipOp(s, op).value;
    var row := Change(t.canon.revision, 0, RelationshipDefinitionChanged(EventOf(op)), None, Some(op.key),
        ReplacementNote(op));
    var (caption, origin) := if op.Register? || op.Update? then (op.body.forward, op.body.origin) else ("", "");
    BumpConsistent(s);
    Definitions.DefinitionEffectOk(s.canon.relationshipDefinitions, StoredRelationshipOp(s.canon, op), t.canon.revision,
                                   caption, origin, RelationshipUsed(s.canon, op.key));
    AppendedRow(s, t.canon, row);
  }

  /** Every committing call journals at least one row, names every row it changes, keeps
      the canonical state sound and never reissues an identity. */
  lemma CommitFacts(s: Store, op: Op)
    requires Consistent(s.canon) && Commit(s, op).Ok?
    ensures Committed(s, Commit(s, op).value)
  {
    match op {
      case Batch(mutations) => BatchCommits(s, mutations);
      case CreateNodes(ids) => BatchCommits(s, CreationBatch(ids));
      case OnProperty(op) => PropertyOpCommits(s, op);
      case OnRelationship(op) => RelationshipOpCommits(s, op);
    }
  }
}
