/** What every reachable store's keys and values look like, and what definition changes leave
    alone. */
module Validity {
  import opened Model
  import opened Operations
  import opened Core
  import opened Permissions

  /** Every stored key passed `validate_key` and every stored value was valid. */
  ghost predicate Valid(c: Canon) {
    && (forall id, key | id in c.nodes && key in c.nodes[id].properties ::
          ValidKey(key) && c.nodes[id].properties[key].value.valid)
    && (forall edge <- c.relationships.Keys :: ValidKey(edge.key))
    && (forall key <- c.propertyDefinitions.Keys :: ValidKey(key))
    && (forall key <- c.relationshipDefinitions.Keys :: ValidKey(key))
  }

  lemma PropertyStaysValid(c: Canon, m: Mutation, id: NodeId, key: Key)
    requires MutationGuard(c, m).None? && Valid(c)
    requires id in MutationEffect(c, m).nodes && key in MutationEffect(c, m).nodes[id].properties
    ensures ValidKey(key) && MutationEffect(c, m).nodes[id].properties[key].value.valid
  {
    if !m.SetProperty? || m.node != id || m.key != key {
      assert id in c.nodes && key in c.nodes[id].properties;
    }
  }

  lemma MutationKeepsValid(c: Canon, m: Mutation)
    requires MutationGuard(c, m).None? && Valid(c)
    ensures Valid(MutationEffect(c, m))
  {
    var after := MutationEffect(c, m);
    forall id, key | id in after.nodes && key in after.nodes[id].properties
      ensures ValidKey(key) && after.nodes[id].properties[key].value.valid
    {
      PropertyStaysValid(c, m, id, key);
    }
  }

  lemma {:induction false} BatchKeepsValid(s: Store, mutations: seq<Mutation>, from: nat)
    requires from <= |mutations| && Valid(s.canon) && RunBatch(s, mutations, from).Ok?
    ensures Valid(RunBatch(s, mutations, from).value.canon)
    decreases |mutations| - from
  {
    if from < |mutations| {
      MutationKeepsValid(s.canon, mutations[from]);
      BatchKeepsValid(MutateOnce(s, from, mutations[from]), mutations, from + 1);
    }
  }

  lemma CommitKeepsValid(s: Store, op: Op)
    requires Valid(s.canon) && Commit(s, op).Ok?
    ensures Valid(Commit(s, op).value.canon)
  {
    match op {
      case Batch(mutations) => BatchKeepsValid(Bump(s), mutations, 0);
      case CreateNodes(ids) => BatchKeepsValid(Bump(s), CreationBatch(ids), 0);
      case OnProperty(_) =>
      case OnRelationship(_) =>
    }
  }

  lemma StepKeepsValid(w: World, v: World)
    requires Next(w, v) && Valid(w.store.canon)
    ensures Valid(v.store.canon)
  {
    if op :| CommitStep(w, v, op) {
      CommitKeepsValid(w.store, op);
    }
  }

  /** Along any run every stored key and value stays one the checks accept. */
  lemma {:induction false} RunKeepsValid(run: seq<World>, at: nat)
    requires IsRun(run) && at < |run| && Valid(run[0].store.canon)
    ensures Valid(run[at].store.canon)
    decreases at
  {
    if at > 0 {
      RunKeepsValid(run, at - 1);
      assert StepAt(run, at);
      StepKeepsValid(run[at - 1], run[at]);
    }
  }

  // ---------- definitions and facts ----------

  /** A definition is gone only when no fact uses its key and no definition names it, and an
      expected kind changes only while no fact uses the key. */
  lemma UsedDefinitionsStay(s: Store, op: DefinitionOp<PropertyBody>, id: NodeId, key: Key)
    requires Commit(s, OnProperty(op)).Ok? && key in s.canon.propertyDefinitions
    requires id in s.canon.nodes && key in s.canon.nodes[id].properties
    ensures var after := Commit(s, OnProperty(op)).value.canon.propertyDefinitions;
      key in after && (op.Update? ==> after[key].body.expected == s.canon.propertyDefinitions[key].body.expected)
  {
  }

  lemma UsedRelationshipDefinitionsStay(s: Store, op: DefinitionOp<RelationshipBody>, edge: RelationshipKey)
    requires Commit(s, OnRelationship(op)).Ok? && edge.key in s.canon.relationshipDefinitions
    requires edge in s.canon.relationships
    ensures edge.key in Commit(s, OnRelationship(op)).value.canon.relationshipDefinitions
  {
  }

  /** At `run[i]` a node carries the property. */
  ghost predicate PropertyUsedAt(run: seq<World>, i: int, key: Key)
    requires 0 <= i < |run|
  {
    PropertyUsed(run[i].store.canon, key)
  }

  ghost predicate RelationshipUsedAt(run: seq<World>, i: int, key: Key)
    requires 0 <= i < |run|
  {
    RelationshipUsed(run[i].store.canon, key)
  }

  lemma {:induction false} BatchKeepsDefinitions(s: Store, mutations: seq<Mutation>, from: nat)
    requires from <= |mutations| && RunBatch(s, mutations, from).Ok?
    ensures var after := RunBatch(s, mutations, from).value.canon;
      && after.propertyDefinitions == s.canon.propertyDefinitions
      && after.relationshipDefinitions == s.canon.relationshipDefinitions
    decreases |mutations| - from
  {
    if from < |mutations| {
      BatchKeepsDefinitions(MutateOnce(s, from, mutations[from]), mutations, from + 1);
    }
  }

  lemma StepKeepsUsedProperty(w: World, v: World, key: Key)
    requires Next(w, v) && PropertyUsed(w.store.canon, key) && key in w.store.canon.propertyDefinitions
    ensures key in v.store.canon.propertyDefinitions
    ensures v.store.canon.propertyDefinitions[key].body.expected == w.store.canon.propertyDefinitions[key].body.expected
  {
    if op :| CommitStep(w, v, op) {
      match op {
        case Batch(mutations) => BatchKeepsDefinitions(Bump(w.store), mutations, 0);
        case CreateNodes(ids) => BatchKeepsDefinitions(Bump(w.store), CreationBatch(ids), 0);
        case OnProperty(change) =>
          var id :| id in w.store.canon.nodes && key in w.store.canon.nodes[id].properties;
          UsedDefinitionsStay(w.store, change, id, key);
          PropertyDefinitionAfter(w.store, change);
        case OnRelationship(change) => RelationshipDefinitionAfter(w.store, change);
      }
    }
  }

  lemma StepKeepsUsedRelationship(w: World, v: World, key: Key)
    requires Next(w, v) && RelationshipUsed(w.store.canon, key) && key in w.store.canon.relationshipDefinitions
    ensures key in v.store.canon.relationshipDefinitions
  {
    if op :| CommitStep(w, v, op) {
      match op {
        case Batch(mutations) => BatchKeepsDefinitions(Bump(w.store), mutations, 0);
        case CreateNodes(ids) => BatchKeepsDefinitions(Bump(w.store), CreationBatch(ids), 0);
        case OnProperty(change) => PropertyDefinitionAfter(w.store, change);
        case OnRelationship(change) =>
          var edge :| edge in w.store.canon.relationships && edge.key == key;
          UsedRelationshipDefinitionsStay(w.store, change, edge);
      }
    }
  }

  /** As long as some node carries the property, its definition is there with the expected kind it
      had, whatever else happens. */
  lemma {:induction false} RunKeepsUsedProperty(run: seq<World>, from: nat, at: nat, key: Key)
    requires IsRun(run) && from <= at < |run| && key in run[from].store.canon.propertyDefinitions
    requires forall i {:trigger PropertyUsedAt(run, i, key)} :: from <= i < at ==> PropertyUsedAt(run, i, key)
    ensures key in run[at].store.canon.propertyDefinitions
    ensures run[at].store.canon.propertyDefinitions[key].body.expected
         == run[from].store.canon.propertyDefinitions[key].body.expected
    decreases at - from
  {
    if from < at {
      RunKeepsUsedProperty(run, from, at - 1, key);
      assert PropertyUsedAt(run, at - 1, key) && StepAt(run, at);
      StepKeepsUsedProperty(run[at - 1], run[at], key);
    }
  }

  /** And a relationship definition is there as long as some relationship has its key. */
  lemma {:induction false} RunKeepsUsedRelationship(run: seq<World>, from: nat, at: nat, key: Key)
    requires IsRun(run) && from <= at < |run| && key in run[from].store.canon.relationshipDefinitions
    requires forall i {:trigger RelationshipUsedAt(run, i, key)} :: from <= i < at ==> RelationshipUsedAt(run, i, key)
    ensures key in run[at].store.canon.relationshipDefinitions
    decreases at - from
  {
    if from < at {
      RunKeepsUsedRelationship(run, from, at - 1, key);
      assert RelationshipUsedAt(run, at - 1, key) && StepAt(run, at);
      StepKeepsUsedRelationship(run[at - 1], run[at], key);
    }
  }

  // ---------- deprecation ----------

  predicate DeprecatedProperty(c: Canon, key: Key) {
    key in c.propertyDefinitions && c.propertyDefinitions[key].state.Deprecated?
  }

  /** At `run[i]` the table has a definition under the key. */
  ghost predicate DefinedAt(run: seq<World>, i: int, key: Key)
    requires 0 <= i < |run|
  {
    key in run[i].store.canon.propertyDefinitions
  }

  ghost predicate RelationshipDefinedAt(run: seq<World>, i: int, key: Key)
    requires 0 <= i < |run|
  {
    key in run[i].store.canon.relationshipDefinitions
  }

  lemma StepKeepsDeprecated(w: World, v: World, key: Key)
    requires Next(w, v)
    ensures DeprecatedProperty(w.store.canon, key) && key in v.store.canon.propertyDefinitions ==>
      DeprecatedProperty(v.store.canon, key)
    ensures IsDeprecated(w.store.canon, key) && key in v.store.canon.relationshipDefinitions ==>
      IsDeprecated(v.store.canon, key)
  {
    if op :| CommitStep(w, v, op) {
      match op {
        case Batch(mutations) => BatchKeepsDefinitions(Bump(w.store), mutations, 0);
        case CreateNodes(ids) => BatchKeepsDefinitions(Bump(w.store), CreationBatch(ids), 0);
        case OnProperty(change) => PropertyDefinitionAfter(w.store, change);
        case OnRelationship(change) => RelationshipDefinitionAfter(w.store, change);
      }
    }
  }

  /** A deprecated definition stays deprecated until it is removed, so its key takes no new
      property in between. */
  lemma {:induction false} RunKeepsDeprecated(run: seq<World>, from: nat, at: nat, key: Key)
    requires IsRun(run) && from <= at < |run| && DeprecatedProperty(run[from].store.canon, key)
    requires forall i {:trigger DefinedAt(run, i, key)} :: from <= i <= at ==> DefinedAt(run, i, key)
    ensures DeprecatedProperty(run[at].store.canon, key)
    ensures forall id, value :: MutationGuard(run[at].store.canon, SetProperty(id, key, value)).Some?
    decreases at - from
  {
    if from < at {
      assert DefinedAt(run, at, key) && StepAt(run, at);
      RunKeepsDeprecated(run, from, at - 1, key);
      StepKeepsDeprecated(run[at - 1], run[at], key);
    }
  }

  /** And one of a relationship takes no new relationship. */
  lemma {:induction false} RunKeepsDeprecatedRelationship(run: seq<World>, from: nat, at: nat, key: Key)
    requires IsRun(run) && from <= at < |run| && IsDeprecated(run[from].store.canon, key)
    requires forall i {:trigger RelationshipDefinedAt(run, i, key)} ::
      from <= i <= at ==> RelationshipDefinedAt(run, i, key)
    ensures IsDeprecated(run[at].store.canon, key)
    ensures forall source, target ::
      MutationGuard(run[at].store.canon, AddRelationship(RelationshipKey(source, key, target))).Some?
    decreases at - from
  {
    if from < at {
      assert RelationshipDefinedAt(run, at, key) && StepAt(run, at);
      RunKeepsDeprecatedRelationship(run, from, at - 1, key);
      StepKeepsDeprecated(run[at - 1], run[at], key);
    }
  }

  // ---------- what a lifecycle state protects ----------

  /** A tombstoned node's properties change only by purging it, and a new relationship has two
      active endpoints and a relationship definition that is not deprecated, if any. */
  lemma TombstonesAreFrozen(c: Canon, m: Mutation, id: NodeId)
    requires MutationGuard(c, m).None? && c.nodes.Keys <= c.issued
    requires id in c.nodes && c.nodes[id].state.Tombstoned?
    ensures m != PurgeNode(id) ==>
      id in MutationEffect(c, m).nodes && MutationEffect(c, m).nodes[id].properties == c.nodes[id].properties
    ensures m.AddRelationship? ==> m.edge.source != id && m.edge.target != id && !IsDeprecated(c, m.edge.key)
  {
  }

  /** A property set while a definition exists is of the expected kind, and the definition is
      not deprecated. */
  lemma DefinitionsRespected(c: Canon, m: Mutation)
    requires MutationGuard(c, m).None? && m.SetProperty? && m.key in c.propertyDefinitions
    ensures c.propertyDefinitions[m.key].state.Live?
    ensures c.propertyDefinitions[m.key].body.expected.Some?
        ==> c.propertyDefinitions[m.key].body.expected.value == m.value.kind
  {
  }
}
