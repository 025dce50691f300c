/** What each mutation means for identities, facts and revisions, said without its code. */
module Meaning {
  import opened Model
  import opened Operations
  import opened Commits

  datatype Identity = NeverIssued | IsActive | IsTombstoned | Retired

  /** `resolve_identity`. */
  function Resolve(c: Canon, id: NodeId): Identity {
    if id in c.nodes then (if c.nodes[id].state.Active? then IsActive else IsTombstoned)
    else if id in c.issued then Retired
    else NeverIssued
  }

  /** The lifecycle: creation, tombstone, restore and purge are the only moves. */
  predicate LifecycleMove(before: Identity, after: Identity) {
    || (before.NeverIssued? && after.IsActive?)
    || (before.IsActive? && after.IsTombstoned?)
    || (before.IsTombstoned? && after.IsActive?)
    || (before.IsTombstoned? && after.Retired?)
  }

  predicate MovesIdentity(m: Mutation, id: NodeId) {
    (m.CreateNode? || m.TombstoneNode? || m.RestoreNode? || m.PurgeNode?) && m.node == id
  }

  /** A permitted mutation moves exactly the identity its lifecycle operation names, along
      one lifecycle edge, and leaves every other identity where it was. */
  lemma IdentityMoves(c: Canon, m: Mutation, id: NodeId)
    requires MutationGuard(c, m).None? && Consistent(c)
    ensures var before, after := Resolve(c, id), Resolve(MutationEffect(c, m), id);
      if MovesIdentity(m, id) then LifecycleMove(before, after) else before == after
    ensures m.PurgeNode? ==> Resolve(MutationEffect(c, m), m.node).Retired?
    ensures m.CreateNode? ==> Resolve(c, m.node).NeverIssued?
  {
  }

  /** Over any evolution a retired identity stays retired and an issued one stays issued. */
  lemma IdentityTerminal(base: nat, before: Canon, after: Canon, id: NodeId)
    requires Evolves(base, before, after)
    ensures Resolve(before, id).Retired? ==> Resolve(after, id).Retired?
    ensures !Resolve(before, id).NeverIssued? && before.nodes.Keys <= before.issued ==> !Resolve(after, id).NeverIssued?
  {
  }

  // ---------- facts ----------

  function PropertyAt(c: Canon, id: NodeId, key: Key): Option<PropertyRow> {
    if id in c.nodes then Lookup(c.nodes[id].properties, key) else None
  }

  /** The nodes whose modification revision the mutation advances. */
  function Involved(m: Mutation): set<NodeId> {
    match m
    case AddRelationship(edge) => {edge.source, edge.target}
    case RemoveRelationship(edge) => {edge.source, edge.target}
    case _ => {m.node}
  }

  /** A permitted mutation changes exactly the property row it names; purge drops exactly the
      rows the node owned. */
  lemma PropertyFacts(c: Canon, m: Mutation, id: NodeId, key: Key)
    requires MutationGuard(c, m).None? && Consistent(c)
    ensures PropertyAt(MutationEffect(c, m), id, key) ==
      if m.SetProperty? && m.node == id && m.key == key then Some(PropertyRow(m.value, c.revision))
      else if m.RemoveProperty? && m.node == id && m.key == key then None
      else if m.PurgeNode? && m.node == id then None
      else PropertyAt(c, id, key)
    ensures m.RemoveProperty? ==> PropertyAt(c, m.node, m.key).Some?
  {
  }

  /** Only adding and removing a relationship changes a relationship row: facts about a purged
      node survive it. */
  lemma RelationshipFacts(c: Canon, m: Mutation, edge: RelationshipKey)
    requires MutationGuard(c, m).None?
    ensures Lookup(MutationEffect(c, m).relationships, edge) ==
      if m == AddRelationship(edge) then Some(RelationshipRow(c.revision, c.revision))
      else if m == RemoveRelationship(edge) then None
      else Lookup(c.relationships, edge)
    ensures m == AddRelationship(edge) ==> edge !in c.relationships
    ensures m == RemoveRelationship(edge) ==> edge in c.relationships
  {
  }

  /** Every involved node that remains carries the batch's revision and keeps its creation
      revision, which a created node gets from the batch; the rows of all other nodes are
      untouched. */
  lemma RevisionFacts(c: Canon, m: Mutation, id: NodeId)
    requires MutationGuard(c, m).None? && Consistent(c)
    ensures var after := MutationEffect(c, m);
      && (id !in Involved(m) ==> Lookup(after.nodes, id) == Lookup(c.nodes, id))
      && (id in Involved(m) && id in after.nodes ==> after.nodes[id].modified == c.revision)
      && (id in c.nodes && id in after.nodes ==> after.nodes[id].created == c.nodes[id].created)
      && (m == CreateNode(id) ==> id in after.nodes && after.nodes[id].created == c.revision)
      && after.revision == c.revision
      && after.issued == c.issued + (if m.CreateNode? then {m.node} else {})
      && after.propertyDefinitions == c.propertyDefinitions
      && after.relationshipDefinitions == c.relationshipDefinitions
  {
  }

  // ---------- what one operation undoes ----------

  /** Restoring undoes a tombstone except for the modification revision. */
  lemma RestoreUndoesTombstone(c: Canon, id: NodeId)
    requires MutationGuard(c, TombstoneNode(id)).None?
    ensures var middle := MutationEffect(c, TombstoneNode(id));
      && MutationGuard(middle, RestoreNode(id)).None?
      && MutationEffect(middle, RestoreNode(id)) == c.(nodes := Touch(c.nodes, id, c.revision))
  {
  }

  /** Removing a relationship just added leaves the relationships as they were. */
  lemma RemoveUndoesAdd(c: Canon, edge: RelationshipKey)
    requires MutationGuard(c, AddRelationship(edge)).None? && Consistent(c)
    ensures var middle := MutationEffect(c, AddRelationship(edge));
      && MutationGuard(middle, RemoveRelationship(edge)).None?
      && MutationEffect(middle, RemoveRelationship(edge)).relationships == c.relationships
  {
  }

  // ---------- atomicity ----------

  /** A batch fails with the error of the first mutation its prefix does not permit, and
      succeeds when every prefix permits its next mutation. */
  lemma {:induction false} BatchOutcome(s: Store, mutations: seq<Mutation>, from: nat) returns (at: nat)
    requires from <= |mutations|
    ensures from <= at <= |mutations|
    ensures RunBatch(s, mutations[..at], from).Ok?
    ensures at == |mutations| <==> RunBatch(s, mutations, from).Ok?
    ensures at < |mutations| ==>
      Some(RunBatch(s, mutations, from).error)
      == MutationGuard(RunBatch(s, mutations[..at], from).value.canon, mutations[at])
    decreases |mutations| - from
  {
    if from == |mutations| || MutationGuard(s.canon, mutations[from]).Some? {
      at := from;
    } else {
      at := BatchOutcome(MutateOnce(s, from, mutations[from]), mutations, from + 1);
      assert mutations[..at][from] == mutations[from];
    }
    assert mutations[..|mutations|] == mutations;
  }
}
