/** The derived Index: `src/index/projection.rs` and the reconcile and rebuild of
    `src/index/mod.rs`. */
module Index {
  import opened Model
  import opened Projection
  import opened History

  datatype IndexedNode = IndexedNode(state: Lifecycle, modified: nat)
  datatype PropertyKey = PropertyKey(node: NodeId, key: Key)

  /** The canonical-projection tables of `index.sqlite` and their checkpoint. */
  datatype Tables = Tables(
    applied: nat,
    nodes: map<NodeId, IndexedNode>,
    properties: map<PropertyKey, PropertyRow>,
    relationships: map<RelationshipKey, nat>,
    propertyDefinitions: map<Key, Definition<PropertyBody>>,
    relationshipDefinitions: map<Key, Definition<RelationshipBody>>)

  const EMPTY_TABLES := Tables(0, map[], map[], map[], map[], map[])

  function IndexRow(row: NodeRow): IndexedNode {
    IndexedNode(row.state, row.modified)
  }

  function PropertyKeys(nodes: map<NodeId, NodeRow>): set<PropertyKey> {
    set id, key | id in nodes && key in nodes[id].properties :: PropertyKey(id, key)
  }

  function FlatProperties(nodes: map<NodeId, NodeRow>): map<PropertyKey, PropertyRow> {
    map pk | pk in PropertyKeys(nodes) :: nodes[pk.node].properties[pk.key]
  }

  function IndexNodes(nodes: map<NodeId, NodeRow>): map<NodeId, IndexedNode> {
    map id | id in nodes :: IndexRow(nodes[id])
  }

  function IndexEdges(relationships: map<RelationshipKey, RelationshipRow>): map<RelationshipKey, nat> {
    map edge | edge in relationships :: relationships[edge].modified
  }

  function ReadAll(definitions: map<Key, Definition<StoredBody>>): map<Key, Definition<RelationshipBody>> {
    map key | key in definitions :: ReadDefinition(definitions[key])
  }

  /** The simple thing every path must reproduce: a full copy of canonical truth. */
  function Project(c: Canon): Tables {
    Tables(c.revision, IndexNodes(c.nodes), FlatProperties(c.nodes), IndexEdges(c.relationships),
           c.propertyDefinitions, ReadAll(c.relationshipDefinitions))
  }

  /** What a projection holds, row by row: lifecycle state and last modification of every node,
      every property row, the last modification of every relationship, and every definition, with an
      empty stored inverse label read as an absent one. */
  lemma ProjectionMeaning(c: Canon, id: NodeId, key: Key, edge: RelationshipKey)
    ensures var t := Project(c);
      && t.applied == c.revision
      && (id in t.nodes <==> id in c.nodes)
      && (id in c.nodes ==> t.nodes[id].state == c.nodes[id].state && t.nodes[id].modified == c.nodes[id].modified)
      && Lookup(t.properties, PropertyKey(id, key))
         == (if id in c.nodes then Lookup(c.nodes[id].properties, key) else None)
      && (edge in t.relationships <==> edge in c.relationships)
      && (edge in c.relationships ==> t.relationships[edge] == c.relationships[edge].modified)
      && Lookup(t.propertyDefinitions, key) == Lookup(c.propertyDefinitions, key)
      && (key in t.relationshipDefinitions <==> key in c.relationshipDefinitions)
      && (key in c.relationshipDefinitions ==>
            var stored, seen := c.relationshipDefinitions[key], t.relationshipDefinitions[key];
            && seen.state == stored.state && seen.replacement == stored.replacement
            && seen.version == stored.version && seen.modified == stored.modified
            && seen.body.forward == stored.body.forward && seen.body.description == stored.body.description
            && seen.body.origin == stored.body.origin
            && (seen.body.inverse.None? <==> stored.body.inverse == "")
            && (seen.body.inverse.Some? ==> seen.body.inverse.value == stored.body.inverse))
  {
    FlatLookup(c.nodes, PropertyKey(id, key));
  }

  // ---------- row operations ----------

  function Without(properties: map<PropertyKey, PropertyRow>, id: NodeId): map<PropertyKey, PropertyRow> {
    map pk | pk in properties && pk.node != id :: properties[pk]
  }

  /** `DELETE FROM indexed_nodes`, with the cascade to the node's properties. */
  function DeleteNode(t: Tables, id: NodeId): Tables {
    t.(nodes := t.nodes - {id},
       properties := Without(t.properties, id))
  }

  /** `insert_node`: upsert the row, delete the node's properties, insert the listed ones. */
  function InsertNode(t: Tables, id: NodeId, row: NodeRow): Tables {
    t.(nodes := t.nodes[id := IndexRow(row)],
       properties := Without(t.properties, id) + FlatProperties(map[id := row]))
  }

  function IndexRelationships(patch: map<RelationshipKey, Option<RelationshipRow>>): map<RelationshipKey, Option<nat>> {
    map edge | edge in patch :: if patch[edge].Some? then Some(patch[edge].value.modified) else None
  }

  ghost predicate RowsPatched(before: map<NodeId, IndexedNode>, patch: map<NodeId, Option<NodeRow>>,
      after: map<NodeId, IndexedNode>)
  {
    forall id :: Lookup(after, id) ==
      if id in patch then (if patch[id].Some? then Some(IndexRow(patch[id].value)) else None)
      else Lookup(before, id)
  }

  ghost predicate PropertiesPatched(before: map<PropertyKey, PropertyRow>, patch: map<NodeId, Option<NodeRow>>,
                                    after: map<PropertyKey, PropertyRow>) {
    forall pk :: Lookup(after, pk) ==
      if pk.node in patch then (if patch[pk.node].Some? then Lookup(patch[pk.node].value.properties, pk.key) else None)
      else Lookup(before, pk)
  }

  /** The node tables after a patch: every named node's rows are exactly the carried ones. */
  ghost predicate NodesPatched(before: Tables, patch: map<NodeId, Option<NodeRow>>, after: Tables) {
    RowsPatched(before.nodes, patch, after.nodes) && PropertiesPatched(before.properties, patch, after.properties)
  }

  lemma FlatLookup(nodes: map<NodeId, NodeRow>, pk: PropertyKey)
    ensures Lookup(FlatProperties(nodes), pk) ==
      if pk.node in nodes then Lookup(nodes[pk.node].properties, pk.key) else None
  {
  }

  lemma DeletePatches(t: Tables, id: NodeId)
    ensures NodesPatched(t, map[id := None], DeleteNode(t, id))
  {
  }

  lemma InsertedProperty(t: Tables, id: NodeId, row: NodeRow, pk: PropertyKey)
    ensures Lookup(Without(t.properties, id) + FlatProperties(map[id := row]), pk) ==
      if pk.node == id then Lookup(row.properties, pk.key) else Lookup(t.properties, pk)
  {
  }

  lemma InsertedProperties(t: Tables, id: NodeId, row: NodeRow)
    ensures PropertiesPatched(t.properties, map[id := Some(row)],
        Without(t.properties, id) + FlatProperties(map[id := row]))
  {
    var after, patch := Without(t.properties, id) + FlatProperties(map[id := row]), map[id := Some(row)];
    forall pk ensures Lookup(after, pk) ==
      if pk.node in patch then (if patch[pk.node].Some? then Lookup(patch[pk.node].value.properties, pk.key) else None)
      else Lookup(t.properties, pk)
    {
      InsertedProperty(t, id, row, pk);
    }
  }

  lemma InsertPatches(t: Tables, id: NodeId, row: NodeRow)
    ensures NodesPatched(t, map[id := Some(row)], InsertNode(t, id, row))
  {
    InsertedProperties(t, id, row);
  }

  lemma PatchedStep(t: Tables, part: map<NodeId, Option<NodeRow>>, middle: Tables, id: NodeId, row: Option<NodeRow>,
      after: Tables)
    requires id !in part
    requires NodesPatched(t, part, middle) && NodesPatched(middle, map[id := row], after)
    ensures NodesPatched(t, part[id := row], after)
  {
  }

  lemma NodesProject(before: map<NodeId, NodeRow>, after: map<NodeId, NodeRow>, keys: set<NodeId>, t: Tables, u: Tables)
    requires SameOutside(keys, before, after)
    requires t.nodes == IndexNodes(before) && t.properties == FlatProperties(before)
    requires NodesPatched(t, Read(after, keys), u)
    ensures u.nodes == IndexNodes(after) && u.properties == FlatProperties(after)
  {
    forall id ensures Lookup(u.nodes, id) == Lookup(IndexNodes(after), id) {
      assert id !in keys ==> Lookup(before, id) == Lookup(after, id);
    }
    MapsEqual(u.nodes, IndexNodes(after));
    forall pk ensures Lookup(u.properties, pk) == Lookup(FlatProperties(after), pk) {
      FlatLookup(before, pk);
      FlatLookup(after, pk);
      assert pk.node !in keys ==> Lookup(before, pk.node) == Lookup(after, pk.node);
    }
    MapsEqual(u.properties, FlatProperties(after));
  }

  lemma EdgesProject(before: map<RelationshipKey, RelationshipRow>, after: map<RelationshipKey, RelationshipRow>,
                     keys: set<RelationshipKey>)
    requires SameOutside(keys, before, after)
    ensures Overlay(IndexEdges(before), IndexRelationships(Read(after, keys))) == IndexEdges(after)
  {
  }

  lemma DefinitionsProject(before: map<Key, Definition<StoredBody>>, after: map<Key, Definition<StoredBody>>,
      keys: set<Key>)
    requires SameOutside(keys, before, after)
    ensures Overlay(ReadAll(before), ReadDefinitions(after, keys)) == ReadAll(after)
  {
  }

  /** The tables a patch leaves: a relation, since the node rows are said by their lookups. */
  ghost predicate Patched(before: Tables, patch: Patch, after: Tables) {
    && NodesPatched(before, patch.nodes, after)
    && after.relationships == Overlay(before.relationships, IndexRelationships(patch.relationships))
    && after.propertyDefinitions == Overlay(before.propertyDefinitions, patch.propertyDefinitions)
    && after.relationshipDefinitions == Overlay(before.relationshipDefinitions, patch.relationshipDefinitions)
    && after.applied == patch.target
  }

  lemma CaptureProjects(names: Names, before: Canon, after: Canon, changeCount: nat, t: Tables, u: Tables)
    requires Covers(names, before, after) && t == Project(before)
    requires Patched(t, Capture(names, after, before.revision, changeCount), u)
    ensures u == Project(after)
  {
    NodesProject(before.nodes, after.nodes, names.nodes, t, u);
    EdgesProject(before.relationships, after.relationships, names.relationships);
    ReadRestores(before.propertyDefinitions, after.propertyDefinitions, names.propertyDefinitions);
    DefinitionsProject(before.relationshipDefinitions, after.relationshipDefinitions, names.relationshipDefinitions);
  }

  /** The fast path equals the full copy: a patch from an accepted checkpoint turns the
      projection of that revision into the projection of the current state. */
  lemma PatchEqualsRebuild(h: seq<Canon>, s: Store, low: nat, t: Tables, u: Tables)
    requires HistoryOk(h) && Retained(h, s, low)
    requires t.applied < |h| && t == Project(h[t.applied])
    requires DeltaSince(s, t.applied).Available? && Patched(t, DeltaSince(s, t.applied).patch, u)
    ensures u == Project(s.canon)
  {
    DeltaAvailability(h, s, low, t.applied);
    CoveredFrame(h, s, low, t.applied);
    var rows := After(s.journal, t.applied);
    CaptureProjects(AllNames(rows).value, h[t.applied], s.canon, |rows|, t, u);
  }

  /** What a successful `reconcile` does to the tables. */
  ghost predicate Reconciled(s: Store, t: Tables, u: Tables) {
    match DeltaSince(s, t.applied)
    case Current(_) => u == t
    case Available(patch) => Patched(t, patch, u)
    case Unavailable(_) => u == Project(s.canon)
  }

  /** The tables are the projection of one revision, or of a revision the store does not have. */
  ghost predicate Tracks(h: seq<Canon>, t: Tables) {
    t.applied < |h| ==> t == Project(h[t.applied])
  }

  /** Whatever the checkpoint, a successful reconcile leaves what a full rebuild would. */
  lemma ReconcileEqualsRebuild(h: seq<Canon>, s: Store, low: nat, t: Tables, u: Tables)
    requires HistoryOk(h) && Retained(h, s, low) && Tracks(h, t) && Reconciled(s, t, u)
    ensures u == Project(s.canon)
  {
    DeltaAvailability(h, s, low, t.applied);
    if DeltaSince(s, t.applied).Available? {
      PatchEqualsRebuild(h, s, low, t, u);
    }
  }
}
