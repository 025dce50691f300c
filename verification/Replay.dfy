/** Schema constraints, opening a store (`src/record_store/mod.rs`) and replaying a
    recovery patch onto a candidate (`src/record_store/recovery.rs`). */
module Replay {
  import opened Model
  import opened Projection

  // ---------- constraints of the schema text ----------

  predicate ReplacementsExist<B>(definitions: map<Key, Definition<B>>) {
    forall key <- definitions.Keys ::
      definitions[key].replacement.Some? ==> definitions[key].replacement.value in definitions
  }

  predicate DefinitionChecks<B>(definitions: map<Key, Definition<B>>) {
    forall key <- definitions.Keys :: key != "" && 0 < definitions[key].version && 0 < definitions[key].modified
  }

  predicate NodeChecks(row: NodeRow) {
    && 0 < row.created <= row.modified
    && forall key <- row.properties.Keys :: key != "" && 0 < row.properties[key].modified
  }

  /** The foreign keys, and the CHECKs on keys, revisions and versions. */
  predicate SchemaHolds(c: Canon) {
    && (forall id <- c.nodes.Keys :: NodeChecks(c.nodes[id]))
    && (forall edge <- c.relationships.Keys ::
          && edge.source in c.issued && edge.target in c.issued && edge.key != ""
          && 0 < c.relationships[edge].created <= c.relationships[edge].modified)
    && DefinitionChecks(c.propertyDefinitions) && ReplacementsExist(c.propertyDefinitions)
    && DefinitionChecks(c.relationshipDefinitions) && ReplacementsExist(c.relationshipDefinitions)
  }

  lemma DefinitionsHold<B>(definitions: map<Key, Definition<B>>, revision: nat)
    requires DefinitionsOk(definitions, revision)
    ensures DefinitionChecks(definitions) && ReplacementsExist(definitions)
  {
    forall key | key in definitions && definitions[key].replacement.Some?
      ensures definitions[key].replacement.value in definitions
    {
      assert Ends(definitions, key);
      var steps: nat :| EndsWithin(definitions, key, steps);
      assert EndsWithin(definitions, definitions[key].replacement.value, steps - 1);
    }
  }

  /** A consistent state meets these constraints. */
  lemma ConsistentHolds(c: Canon)
    requires Consistent(c)
    ensures SchemaHolds(c)
  {
    DefinitionsHold(c.propertyDefinitions, c.revision);
    DefinitionsHold(c.relationshipDefinitions, c.revision);
    forall id | id in c.nodes.Keys ensures NodeChecks(c.nodes[id]) {
      assert NodeOk(c.nodes[id], c.revision);
    }
  }

  // ---------- opening ----------

  lemma {:induction false} MaximumExists(revisions: set<nat>)
    requires revisions != {}
    ensures exists m :: m in revisions && forall r <- revisions :: r <= m
    decreases |revisions|
  {
    var x :| x in revisions;
    if revisions == {x} {
      assert x in revisions;
    } else {
      MaximumExists(revisions - {x});
      var m :| m in revisions - {x} && forall r <- revisions - {x} :: r <= m;
      var top := if x <= m then m else x;
      forall r | r in revisions ensures r <= top {
        assert r == x || r in revisions - {x};
      }
      assert top in revisions;
    }
  }

  /** `COALESCE(MAX(revision), 0)`. */
  function Maximum(revisions: set<nat>): (m: nat)
    ensures forall r <- revisions :: r <= m
    ensures revisions != {} ==> m in revisions
  {
    if revisions == {} then 0
    else
      MaximumExists(revisions);
      var m :| m in revisions && forall r <- revisions :: r <= m;
      m
  }

  function NodeRevisions(nodes: map<NodeId, NodeRow>): set<nat> {
    set id | id in nodes :: nodes[id].modified
  }

  function PropertyRevisions(nodes: map<NodeId, NodeRow>): set<nat> {
    set id, key | id in nodes && key in nodes[id].properties :: nodes[id].properties[key].modified
  }

  function RelationshipRevisions(relationships: map<RelationshipKey, RelationshipRow>): set<nat> {
    set edge | edge in relationships :: relationships[edge].modified
  }

  function DefinitionRevisions<B>(definitions: map<Key, Definition<B>>): set<nat> {
    set key | key in definitions :: definitions[key].modified
  }

  function Larger(a: nat, b: nat): nat {
    if a < b then b else a
  }

  /** The largest revision any surviving row carries, table by table. */
  function LatestFact(s: Store): nat {
    Larger(Maximum(NodeRevisions(s.canon.nodes)),
      Larger(Maximum(PropertyRevisions(s.canon.nodes)),
        Larger(Maximum(RelationshipRevisions(s.canon.relationships)),
          Larger(Maximum(DefinitionRevisions(s.canon.propertyDefinitions)),
            Larger(Maximum(DefinitionRevisions(s.canon.relationshipDefinitions)),
              Maximum(Revisions(s.journal)))))))
  }

  /** The least element of a non-empty set of revisions: `MIN(revision)`. */
  predicate IsFirst(revisions: set<nat>, first: nat) {
    first in revisions && forall r <- revisions :: first <= r
  }

  /** `reconcile_revision`. */
  function ReconcileRevision(s: Store): Result<Store> {
    var current, latest, rows := s.canon.revision, LatestFact(s), Revisions(s.journal);
    if current == latest then Ok(s)
    else if current < latest && rows != {} && Maximum(rows) == latest
            && (exists first <- rows :: IsFirst(rows, first) && |rows| == latest - first + 1)
    then Ok(s.(canon := s.canon.(revision := latest)))
    else if latest > current || rows != {} then Err(CorruptStore)
    else Ok(s)
  }

  /** `RecordStore::open` on a current-schema file: `validate`, then `reconcile_revision`. */
  function OpenStore(s: Store): Result<Store> {
    if !SchemaHolds(s.canon) || !(s.canon.nodes.Keys <= s.canon.issued) then Err(CorruptStore)
    else ReconcileRevision(s)
  }

  /** What the constraints refuse: a node or relationship with impossible revisions, a relationship
      of an identity that was never issued, an empty key, a dangling replacement. */
  lemma SchemaRefuses(c: Canon, id: NodeId, key: Key, edge: RelationshipKey)
    requires SchemaHolds(c)
    ensures id in c.nodes ==> 0 < c.nodes[id].created <= c.nodes[id].modified
    ensures id in c.nodes && key in c.nodes[id].properties ==> key != "" && 0 < c.nodes[id].properties[key].modified
    ensures edge in c.relationships ==>
      && edge.source in c.issued && edge.target in c.issued && edge.key != ""
      && 0 < c.relationships[edge].created <= c.relationships[edge].modified
    ensures key in c.propertyDefinitions ==>
      var row := c.propertyDefinitions[key];
      && key != "" && 0 < row.version && 0 < row.modified
      && (row.replacement.Some? ==> row.replacement.value in c.propertyDefinitions)
    ensures key in c.relationshipDefinitions ==>
      var row := c.relationshipDefinitions[key];
      && key != "" && 0 < row.version && 0 < row.modified
      && (row.replacement.Some? ==> row.replacement.value in c.relationshipDefinitions)
  {
  }

  /** A file with a node that was never issued, or one the constraints refuse, does not open, and one
      that opens keeps everything but perhaps its revision. */
  lemma OpenChecks(s: Store)
    ensures OpenStore(s).Ok? ==> SchemaHolds(s.canon) && s.canon.nodes.Keys <= s.canon.issued
    ensures OpenStore(s).Ok? ==>
      OpenStore(s).value == s.(canon := s.canon.(revision := OpenStore(s).value.canon.revision))
    ensures OpenStore(s).Err? ==> OpenStore(s).error == CorruptStore
  {
  }

  /** The latest fact is the largest revision on any row of the five tables and the journal, and 0
      without rows. */
  lemma LatestFactMeaning(s: Store, revision: nat)
    ensures LatestFact(s) <= revision <==>
      && (forall id <- s.canon.nodes.Keys ::
            && s.canon.nodes[id].modified <= revision
            && (forall key <- s.canon.nodes[id].properties.Keys ::
                  s.canon.nodes[id].properties[key].modified <= revision))
      && (forall edge <- s.canon.relationships.Keys :: s.canon.relationships[edge].modified <= revision)
      && (forall key <- s.canon.propertyDefinitions.Keys :: s.canon.propertyDefinitions[key].modified <= revision)
      && (forall key <- s.canon.relationshipDefinitions.Keys ::
            s.canon.relationshipDefinitions[key].modified <= revision)
      && (forall row <- s.journal :: row.revision <= revision)
  {
    NodesBounded(s.canon.nodes, revision);
    RelationshipsBounded(s.canon.relationships, revision);
    DefinitionsBounded(s.canon.propertyDefinitions, revision);
    DefinitionsBounded(s.canon.relationshipDefinitions, revision);
    JournalBounded(s.journal, revision);
  }

  lemma NodesBounded(nodes: map<NodeId, NodeRow>, revision: nat)
    ensures Maximum(NodeRevisions(nodes)) <= revision <==> forall id <- nodes.Keys :: nodes[id].modified <= revision
    ensures Maximum(PropertyRevisions(nodes)) <= revision <==>
      forall id <- nodes.Keys ::
        forall key <- nodes[id].properties.Keys :: nodes[id].properties[key].modified <= revision
  {
    forall id | id in nodes ensures nodes[id].modified in NodeRevisions(nodes) {
    }
    forall id, key | id in nodes && key in nodes[id].properties
      ensures nodes[id].properties[key].modified in PropertyRevisions(nodes)
    {
    }
  }

  lemma RelationshipsBounded(relationships: map<RelationshipKey, RelationshipRow>, revision: nat)
    ensures Maximum(RelationshipRevisions(relationships)) <= revision
       <==> forall edge <- relationships.Keys :: relationships[edge].modified <= revision
  {
    forall edge | edge in relationships ensures relationships[edge].modified in RelationshipRevisions(relationships) {
    }
  }

  lemma DefinitionsBounded<B>(definitions: map<Key, Definition<B>>, revision: nat)
    ensures Maximum(DefinitionRevisions(definitions)) <= revision
       <==> forall key <- definitions.Keys :: definitions[key].modified <= revision
  {
    forall key | key in definitions ensures definitions[key].modified in DefinitionRevisions(definitions) {
    }
  }

  lemma JournalBounded(rows: seq<Change>, revision: nat)
    ensures Maximum(Revisions(rows)) <= revision <==> forall row <- rows :: row.revision <= revision
  {
    forall row | row in rows ensures row.revision in Revisions(rows) {
      var i :| 0 <= i < |rows| && rows[i] == row;
    }
  }

  // ---------- replay ----------

  /** Every projected relationship definition has an inverse label: replay inserts an
      absent one as NULL, which the column refuses. */
  predicate InversesPresent(patch: Patch) {
    forall key <- patch.relationshipDefinitions.Keys ::
      patch.relationshipDefinitions[key].Some? ==> patch.relationshipDefinitions[key].value.body.inverse.Some?
  }

  /** `apply_recovery_patch`. */
  function ReplayPatch(s: Store, patch: Patch): Result<Store> {
    if s.canon.revision != patch.from || patch.target <= patch.from then Err(CorruptStore)
    else if !InversesPresent(patch) || !SchemaHolds(ApplyPatch(s.canon, patch)) then Err(ConstraintViolation)
    else Ok(Store(ApplyPatch(s.canon, patch), []))
  }

  /** Replay refuses a frame that does not follow the candidate, one with a relationship definition
      without inverse label, and one whose result breaks a constraint; what it accepts is the
      patched state with an empty journal. */
  lemma ReplayOutcome(s: Store, patch: Patch)
    ensures patch.from != s.canon.revision || patch.target <= patch.from ==> ReplayPatch(s, patch) == Err(CorruptStore)
    ensures patch.from == s.canon.revision < patch.target ==>
      var unlabelled := exists key <- patch.relationshipDefinitions.Keys ::
        patch.relationshipDefinitions[key].Some? && patch.relationshipDefinitions[key].value.body.inverse.None?;
      ReplayPatch(s, patch) ==
        if unlabelled || !SchemaHolds(ApplyPatch(s.canon, patch)) then Err(ConstraintViolation)
        else Ok(Store(ApplyPatch(s.canon, patch), []))
  {
  }

  function ReplayAll(s: Store, patches: seq<Patch>): Result<Store>
    decreases |patches|
  {
    if patches == [] then Ok(s)
    else
      match ReplayPatch(s, patches[0])
      case Err(error) => Err(error)
      case Ok(next) => ReplayAll(next, patches[1..])
  }
}
