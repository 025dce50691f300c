/** Migration of older Record Store files: `src/record_store/migrations.rs` and the ledger and
    relationship conversions of `src/record_store/schema.rs`. */
module Migration {
  import opened Model
  import opened Replay

  const CURRENT_VERSION: nat := 5
  const MINIMUM_READER: nat := 1

  // ---------- files as tables ----------

  type RowId = nat

  datatype NodeEntry = NodeEntry(uuid: NodeId, state: Lifecycle, created: nat, modified: nat)
  datatype OwnedKey = OwnedKey(node: RowId, key: Key)

  /** A relationship of versions 1 to 4: its endpoints are node row ids. */
  datatype RowEdge = RowEdge(source: RowId, key: Key, target: RowId, created: nat, modified: nat)

  /** A relationship of version 5: its endpoints are permanent identities. */
  datatype IdEdge = IdEdge(source: NodeId, key: Key, target: NodeId, created: nat, modified: nat)

  datatype EdgeTable = ByRowId(rows: map<RowId, RowEdge>) | ByIdentity(facts: map<RowId, IdEdge>)

  datatype Meta = Meta(schemaVersion: nat, revision: nat, minimumReader: nat)

  datatype Database =
    | NoTables
    | Database(
        version: nat, meta: Option<Meta>,
        nodes: map<RowId, NodeEntry>, properties: map<OwnedKey, PropertyRow>,
        edges: EdgeTable, ledger: Option<set<NodeId>>,
        propertyDefinitions: map<Key, Definition<PropertyBody>>,
        relationshipDefinitions: map<Key, Definition<StoredBody>>,
        journal: seq<Change>)

  const FRESH_DATABASE :=
    Database(CURRENT_VERSION, Some(Meta(CURRENT_VERSION, 0, MINIMUM_READER)),
             map[], map[], ByIdentity(map[]), Some({}), map[], map[], [])

  // ---------- what SQLite enforces in such files ----------

  ghost predicate UniqueIdentities(nodes: map<RowId, NodeEntry>) {
    forall a, b | a in nodes && b in nodes && nodes[a].uuid == nodes[b].uuid :: a == b
  }

  function RowTuple(edge: RowEdge): (RowId, Key, RowId) {
    (edge.source, edge.key, edge.target)
  }

  function IdTuple(edge: IdEdge): RelationshipKey {
    RelationshipKey(edge.source, edge.key, edge.target)
  }

  ghost predicate UniqueRowTuples(rows: map<RowId, RowEdge>) {
    forall a, b | a in rows && b in rows && RowTuple(rows[a]) == RowTuple(rows[b]) :: a == b
  }

  ghost predicate UniqueIdTuples(facts: map<RowId, IdEdge>) {
    forall a, b | a in facts && b in facts && IdTuple(facts[a]) == IdTuple(facts[b]) :: a == b
  }

  /** The CHECK and UNIQUE constraints of a file in the old form, without its foreign keys. */
  ghost predicate WellFormed(db: Database) {
    && db.Database? && db.edges.ByRowId?
    && UniqueIdentities(db.nodes) && UniqueRowTuples(db.edges.rows)
    && (forall r <- db.nodes.Keys :: 0 < db.nodes[r].created <= db.nodes[r].modified)
    && (forall o <- db.properties.Keys :: o.key != "" && 0 < db.properties[o].modified)
    && (forall r <- db.edges.rows.Keys ::
          db.edges.rows[r].key != "" && 0 < db.edges.rows[r].created <= db.edges.rows[r].modified)
    && DefinitionChecks(db.propertyDefinitions) && DefinitionChecks(db.relationshipDefinitions)
  }

  /** No row `pragma_foreign_key_check` reports on a file in the old form. */
  predicate ReferencesResolve(db: Database)
    requires db.Database?
  {
    && (forall o <- db.properties.Keys :: o.node in db.nodes)
    && (db.edges.ByRowId? ==> forall r <- db.edges.rows.Keys :: Resolves(db.nodes, db.edges.rows[r]))
    && ReplacementsExist(db.propertyDefinitions) && ReplacementsExist(db.relationshipDefinitions)
  }

  // ---------- the conversions ----------

  predicate Resolves(nodes: map<RowId, NodeEntry>, edge: RowEdge) {
    edge.source in nodes && edge.target in nodes
  }

  function Resolved(nodes: map<RowId, NodeEntry>, edge: RowEdge): IdEdge
    requires Resolves(nodes, edge)
  {
    IdEdge(nodes[edge.source].uuid, edge.key, nodes[edge.target].uuid, edge.created, edge.modified)
  }

  /** `INSERT ... SELECT ... JOIN nodes s JOIN nodes t`: a row without both nodes is not selected. */
  function Join(nodes: map<RowId, NodeEntry>, rows: map<RowId, RowEdge>): map<RowId, IdEdge> {
    map r | r in rows && Resolves(nodes, rows[r]) :: Resolved(nodes, rows[r])
  }

  function Identities(nodes: map<RowId, NodeEntry>): set<NodeId> {
    set r | r in nodes :: nodes[r].uuid
  }

  predicate EndpointsIssued(facts: map<RowId, IdEdge>, ledger: set<NodeId>) {
    forall r <- facts.Keys :: facts[r].source in ledger && facts[r].target in ledger
  }

  /** What the metadata UPDATE of the two adoptions matches. */
  predicate MetaMatches(db: Database)
    requires db.Database?
  {
    && db.meta.Some? && db.meta.value.schemaVersion == db.version
    && (db.version <= 3 ==> 1 <= db.meta.value.minimumReader <= db.version)
  }

  class RecordFile {
    var db: Database

    constructor (file: Database)
      ensures db == file
    {
      db := file;
    }

    /** The version 4 batch: a ledger of the identities that still have a node. */
    method CreateLedger() returns (ok: bool)
      requires db.Database?
      modifies this
      ensures ok <==> old(db).ledger.None?
      ensures db == if ok then old(db).(ledger := Some(Identities(old(db).nodes))) else old(db)
    {
      if db.ledger.Some? {
        return false;
      }
      db := db.(ledger := Some(Identities(db.nodes)));
      return true;
    }

    /** The version 5 batch: the relationships are copied into a table keyed by identities,
        whose foreign keys and UNIQUE constraint every inserted row has to meet. */
    method ConvertRelationships() returns (ok: bool)
      requires db.Database?
      modifies this
      ensures ok <==> Converts(old(db))
      ensures db == if ok then old(db).(edges := ByIdentity(Join(old(db).nodes, old(db).edges.rows))) else old(db)
    {
      if db.edges.ByIdentity? || db.ledger.None? {
        return false;
      }
      var selected := Join(db.nodes, db.edges.rows);
      var inserted: map<RowId, IdEdge>, rest := map[], selected.Keys;
      while rest != {}
        invariant rest <= selected.Keys && inserted.Keys == selected.Keys - rest
        invariant forall r <- inserted.Keys :: inserted[r] == selected[r]
        invariant EndpointsIssued(inserted, db.ledger.value) && UniqueIdTuples(inserted)
        invariant db == old(db)
        decreases rest
      {
        var r :| r in rest;
        if selected[r].source !in db.ledger.value || selected[r].target !in db.ledger.value {
          return false;
        }
        if exists other <- inserted.Keys :: IdTuple(inserted[other]) == IdTuple(selected[r]) {
          return false;
        }
        inserted, rest := inserted[r := selected[r]], rest - {r};
      }
      assert inserted == selected;
      db := db.(edges := ByIdentity(inserted));
      return true;
    }

    /** `migrate`, all of it in one transaction. */
    method Migrate() returns (r: Result<()>)
      modifies this
      ensures r.Err? ==> db == old(db)
      ensures r.Ok? <==> Migrates(old(db))
      ensures r.Ok? ==> db == Migrated(old(db))
      ensures old(db).NoTables? ==> r.Ok? && db == FRESH_DATABASE
      ensures old(db).Database? && old(db).version == 5 ==> r.Ok? && db == old(db)
      ensures old(db).Database? && old(db).version > 5 ==> r == Err(UnsupportedSchema)
      ensures old(db).Database? && old(db).version == 0 ==> r == Err(CorruptStore)
      ensures old(db).Database? && 1 <= old(db).version < 5 && r.Err? ==>
        r.error ==
          (if !ReferencesResolve(old(db)) then CorruptStore
           else if (old(db).version <= 3 && old(db).ledger.Some?) || !Converts(WithLedger(old(db)))
           then ConstraintViolation
           else CorruptStore)
    {
      if db.NoTables? {
        db := FRESH_DATABASE;
        return Ok(());
      }
      if 1 <= db.version < CURRENT_VERSION && !ReferencesResolve(db) {
        return Err(CorruptStore);
      }
      if db.version == CURRENT_VERSION {
        return Ok(());
      }
      if db.version == 0 {
        return Err(CorruptStore);
      }
      if db.version > CURRENT_VERSION {
        return Err(UnsupportedSchema);
      }
      var before := db;
      if db.version <= 3 {
        var created := CreateLedger();
        if !created {
          return Err(ConstraintViolation);
        }
      }
      var converted := ConvertRelationships();
      if !converted {
        db := before;
        return Err(ConstraintViolation);
      }
      if !MetaMatches(db) {
        db := before;
        return Err(CorruptStore);
      }
      db := db.(meta := Some(Meta(CURRENT_VERSION, db.meta.value.revision,
                                  if before.version <= 3 then MINIMUM_READER else db.meta.value.minimumReader)),
                version := CURRENT_VERSION);
      return Ok(());
    }
  }

  // ---------- specification ----------

  ghost predicate Converts(db: Database)
    requires db.Database?
  {
    && db.edges.ByRowId? && db.ledger.Some?
    && EndpointsIssued(Join(db.nodes, db.edges.rows), db.ledger.value)
    && UniqueIdTuples(Join(db.nodes, db.edges.rows))
  }

  function WithLedger(db: Database): (r: Database)
    requires db.Database?
    ensures r.Database?
  {
    if db.version <= 3 then db.(ledger := Some(Identities(db.nodes))) else db
  }

  ghost predicate Migrates(db: Database) {
    || db.NoTables?
    || db.version == CURRENT_VERSION
    || (&& 1 <= db.version < CURRENT_VERSION && ReferencesResolve(db)
        && (db.version <= 3 ==> db.ledger.None?)
        && Converts(WithLedger(db)) && MetaMatches(db))
  }

  function Migrated(db: Database): Database
    requires db.Database? && db.version != CURRENT_VERSION ==> db.edges.ByRowId? && db.meta.Some?
  {
    if db.NoTables? then FRESH_DATABASE
    else if db.version == CURRENT_VERSION then db
    else
      var ledgered := WithLedger(db);
      ledgered.(
        version := CURRENT_VERSION,
        meta := Some(Meta(CURRENT_VERSION, db.meta.value.revision,
                          if db.version <= 3 then MINIMUM_READER else db.meta.value.minimumReader)),
        edges := ByIdentity(Join(db.nodes, db.edges.rows)))
  }

  /** A file without tables becomes an empty store of the current version. */
  lemma FreshIsEmpty()
    ensures var db := Migrated(NoTables);
      && db.Database? && db.version == 5 && db.meta == Some(Meta(5, 0, 1))
      && db.nodes == map[] && db.properties == map[] && db.edges == ByIdentity(map[]) && db.ledger == Some({})
      && db.propertyDefinitions == map[] && db.relationshipDefinitions == map[] && db.journal == []
  {
  }

  // ---------- migration preserves meaning ----------

  /** Distinct row tuples stay distinct tuples of identities: nothing merges. */
  lemma TuplesStayUnique(nodes: map<RowId, NodeEntry>, rows: map<RowId, RowEdge>)
    requires UniqueIdentities(nodes) && UniqueRowTuples(rows)
    ensures UniqueIdTuples(Join(nodes, rows))
  {
  }

  /** The join silently loses rows exactly when a reference dangles; that is why the foreign
      keys are checked first. */
  lemma JoinLosesDangling(nodes: map<RowId, NodeEntry>, rows: map<RowId, RowEdge>)
    ensures |Join(nodes, rows)| == |rows| <==> forall r <- rows.Keys :: Resolves(nodes, rows[r])
  {
    var facts := Join(nodes, rows);
    if forall r <- rows.Keys :: Resolves(nodes, rows[r]) {
      assert facts.Keys == rows.Keys;
    } else {
      var r :| r in rows && !Resolves(nodes, rows[r]);
      SubsetSmaller(facts.Keys, rows.Keys, r);
    }
  }

  /** Every relationship keeps its row id, its key, its two revisions and, as identities, its
      endpoints; no row is dropped, added or merged, every endpoint is in the ledger, which is the
      old one or, before version 4, the identities of all nodes. The metadata say version 5 with the
      old revision, and all the other tables stay as they were. */
  lemma MigrationKeepsFacts(db: Database)
    requires WellFormed(db) && 1 <= db.version < CURRENT_VERSION && Migrates(db)
    ensures var after := Migrated(db);
      && after.edges.ByIdentity? && after.edges.facts.Keys == db.edges.rows.Keys
      && (forall r <- db.edges.rows.Keys ::
            Resolves(db.nodes, db.edges.rows[r]) && after.edges.facts[r] == Resolved(db.nodes, db.edges.rows[r]))
      && UniqueIdTuples(after.edges.facts)
      && after.ledger.Some? && EndpointsIssued(after.edges.facts, after.ledger.value)
      && after == db.(version := 5, meta := after.meta, edges := after.edges, ledger := after.ledger)
      && after.meta == Some(Meta(5, db.meta.value.revision,
                                 if db.version <= 3 then 1 else db.meta.value.minimumReader))
      && after.version == 5
      && (db.version == 4 ==> after.ledger == db.ledger)
      && (db.version <= 3 ==>
            forall id :: id in after.ledger.value <==> exists r <- db.nodes.Keys :: db.nodes[r].uuid == id)
  {
  }

  /** When a file in the old form migrates. The ledger of versions 1 to 3 is made on the spot
      and covers every endpoint, so only version 4 can fail on one. */
  lemma MigrationSucceeds(db: Database)
    requires WellFormed(db) && 1 <= db.version < CURRENT_VERSION
    requires db.ledger.Some? <==> db.version == 4
    ensures Migrates(db) <==>
      && (forall o <- db.properties.Keys :: o.node in db.nodes)
      && (forall r <- db.edges.rows.Keys :: db.edges.rows[r].source in db.nodes && db.edges.rows[r].target in db.nodes)
      && ReplacementsExist(db.propertyDefinitions) && ReplacementsExist(db.relationshipDefinitions)
      && db.meta.Some? && db.meta.value.schemaVersion == db.version
      && (db.version <= 3 ==> 1 <= db.meta.value.minimumReader <= db.version)
      && (db.version == 4 ==> forall r <- db.edges.rows.Keys ::
            && db.nodes[db.edges.rows[r].source].uuid in db.ledger.value
            && db.nodes[db.edges.rows[r].target].uuid in db.ledger.value)
  {
    var facts := Join(db.nodes, db.edges.rows);
    TuplesStayUnique(db.nodes, db.edges.rows);
    if db.version <= 3 {
      forall r | r in facts ensures facts[r].source in Identities(db.nodes) && facts[r].target in Identities(db.nodes) {
        assert db.edges.rows[r].source in db.nodes && db.edges.rows[r].target in db.nodes;
      }
    } else if ReferencesResolve(db) {
      assert facts.Keys == db.edges.rows.Keys;
    }
  }

  // ---------- the migrated store in canonical terms ----------

  ghost function NodesOf(db: Database): map<NodeId, NodeRow>
    requires db.Database?
  {
    map id | id in Identities(db.nodes) ::
      var r :| r in db.nodes && db.nodes[r].uuid == id;
      NodeRow(db.nodes[r].state, db.nodes[r].created, db.nodes[r].modified, PropertiesOf(db.properties, r))
  }

  function OwnedKeys(properties: map<OwnedKey, PropertyRow>, r: RowId): set<Key> {
    set o | o in properties && o.node == r :: o.key
  }

  function PropertiesOf(properties: map<OwnedKey, PropertyRow>, r: RowId): map<Key, PropertyRow> {
    map key | key in OwnedKeys(properties, r) :: properties[OwnedKey(r, key)]
  }

  function Tuples(facts: map<RowId, IdEdge>): set<RelationshipKey> {
    set r | r in facts :: IdTuple(facts[r])
  }

  ghost function EdgesOf(facts: map<RowId, IdEdge>): map<RelationshipKey, RelationshipRow> {
    map edge | edge in Tuples(facts) ::
      var r :| r in facts && IdTuple(facts[r]) == edge;
      RelationshipRow(facts[r].created, facts[r].modified)
  }

  ghost function CanonOf(db: Database): Canon
    requires db.Database? && db.edges.ByIdentity? && db.ledger.Some? && db.meta.Some?
  {
    Canon(db.meta.value.revision, db.ledger.value, NodesOf(db), EdgesOf(db.edges.facts),
          db.propertyDefinitions, db.relationshipDefinitions)
  }

  lemma EdgeListed(facts: map<RowId, IdEdge>, r: RowId)
    requires UniqueIdTuples(facts) && r in facts
    ensures IdTuple(facts[r]) in Tuples(facts)
    ensures EdgesOf(facts)[IdTuple(facts[r])] == RelationshipRow(facts[r].created, facts[r].modified)
  {
  }

  /** In canonical terms the migrated relationships are exactly the resolved old ones, each
      with its own two revisions. */
  lemma MigratedRelationships(db: Database)
    requires WellFormed(db) && 1 <= db.version < CURRENT_VERSION && Migrates(db)
    ensures var edges := CanonOf(Migrated(db)).relationships;
      && (forall edge :: edge in edges <==>
            exists r <- db.edges.rows.Keys :: IdTuple(Resolved(db.nodes, db.edges.rows[r])) == edge)
      && (forall r <- db.edges.rows.Keys ::
            edges[IdTuple(Resolved(db.nodes, db.edges.rows[r]))]
              == RelationshipRow(db.edges.rows[r].created, db.edges.rows[r].modified))
  {
    MigrationKeepsFacts(db);
    var facts, edges := Migrated(db).edges.facts, CanonOf(Migrated(db)).relationships;
    forall r | r in db.edges.rows.Keys
      ensures IdTuple(Resolved(db.nodes, db.edges.rows[r])) in edges
      ensures edges[IdTuple(Resolved(db.nodes, db.edges.rows[r]))]
              == RelationshipRow(db.edges.rows[r].created, db.edges.rows[r].modified)
    {
      EdgeListed(facts, r);
    }
    forall edge | edge in edges
      ensures exists r <- db.edges.rows.Keys :: IdTuple(Resolved(db.nodes, db.edges.rows[r])) == edge
    {
      var r :| r in facts && IdTuple(facts[r]) == edge;
      assert r in db.edges.rows.Keys;
    }
  }

  lemma NodesMeetChecks(db: Database)
    requires WellFormed(db)
    ensures NodesOf(db).Keys == Identities(db.nodes)
    ensures forall id <- NodesOf(db).Keys :: NodeChecks(NodesOf(db)[id])
  {
  }

  lemma EdgesMeetChecks(facts: map<RowId, IdEdge>, ledger: set<NodeId>)
    requires EndpointsIssued(facts, ledger)
    requires forall r <- facts.Keys :: facts[r].key != "" && 0 < facts[r].created <= facts[r].modified
    ensures forall edge <- EdgesOf(facts).Keys ::
      && edge.source in ledger && edge.target in ledger && edge.key != ""
      && 0 < EdgesOf(facts)[edge].created <= EdgesOf(facts)[edge].modified
  {
  }

  /** The migrated store meets every constraint of the current schema. It also passes the
      ledger check of `validate`, except that a version 4 file must have had a complete ledger. */
  lemma MigratedStore(db: Database)
    requires WellFormed(db) && 1 <= db.version < CURRENT_VERSION && Migrates(db)
    ensures SchemaHolds(CanonOf(Migrated(db)))
    ensures CanonOf(Migrated(db)).nodes.Keys <= CanonOf(Migrated(db)).issued
       <==> db.version <= 3 || Identities(db.nodes) <= db.ledger.value
  {
    MigratedMeetsSchema(db);
    MigratedNodes(db);
    NodesMeetChecks(db);
  }

  lemma MigratedNodes(db: Database)
    requires WellFormed(db) && 1 <= db.version < CURRENT_VERSION && Migrates(db)
    ensures NodesOf(Migrated(db)) == NodesOf(db)
  {
  }

  lemma MigratedMeetsSchema(db: Database)
    requires WellFormed(db) && 1 <= db.version < CURRENT_VERSION && Migrates(db)
    ensures SchemaHolds(CanonOf(Migrated(db)))
  {
    MigrationKeepsFacts(db);
    MigratedNodes(db);
    NodesMeetChecks(db);
    EdgesMeetChecks(Migrated(db).edges.facts, Migrated(db).ledger.value);
  }
}
