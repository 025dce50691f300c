/** What a delta carries, said by the journal rows and by the mutations that wrote them. */
module Deltas {
  import opened Model
  import opened Operations
  import opened Projection
  import opened Meaning

  /** The row is about the node: as the node itself or as an endpoint of a relationship. */
  predicate Touches(row: Change, id: NodeId) {
    && !row.kind.PropertyDefinitionChanged? && !row.kind.RelationshipDefinitionChanged?
    && (row.node == Some(id)
        || ((row.kind.RelationshipAdded? || row.kind.RelationshipRemoved?) && row.descriptor == Some(TargetNode(id))))
  }

  /** The row adds or removes the relationship. */
  predicate ChangesEdge(row: Change, edge: RelationshipKey) {
    && (row.kind.RelationshipAdded? || row.kind.RelationshipRemoved?)
    && row.node == Some(edge.source) && row.key == Some(edge.key) && row.descriptor == Some(TargetNode(edge.target))
  }

  /** Some row after the checkpoint is about the node. */
  predicate TouchedSince(s: Store, checkpoint: nat, id: NodeId) {
    exists row <- s.journal :: row.revision > checkpoint && Touches(row, id)
  }

  /** The rows after the checkpoint, by their positions. */
  function PositionsAfter(rows: seq<Change>, checkpoint: nat): set<nat> {
    set i: nat | i < |rows| && rows[i].revision > checkpoint
  }

  lemma {:induction false} AfterHolds(rows: seq<Change>, checkpoint: nat, row: Change)
    ensures row in After(rows, checkpoint) <==> row in rows && row.revision > checkpoint
    decreases |rows|
  {
    if rows != [] {
      var earlier, last := rows[..|rows| - 1], rows[|rows| - 1];
      AfterHolds(earlier, checkpoint, row);
      assert rows == earlier + [last];
    }
  }

  lemma {:induction false} AfterCounts(rows: seq<Change>, checkpoint: nat)
    ensures |After(rows, checkpoint)| == |PositionsAfter(rows, checkpoint)|
    decreases |rows|
  {
    if rows != [] {
      var earlier, last := rows[..|rows| - 1], |rows| - 1;
      AfterCounts(earlier, checkpoint);
      assert forall i: nat :: i < last ==> earlier[i] == rows[i];
      if rows[last].revision > checkpoint {
        assert PositionsAfter(rows, checkpoint) == PositionsAfter(earlier, checkpoint) + {last};
      } else {
        assert PositionsAfter(rows, checkpoint) == PositionsAfter(earlier, checkpoint);
      }
    }
  }

  lemma {:induction false} KeysNamed(rows: seq<Change>, edge: RelationshipKey, key: Key)
    requires AllNames(rows).Some?
    ensures edge in AllNames(rows).value.relationships <==> exists row <- rows :: ChangesEdge(row, edge)
    ensures key in AllNames(rows).value.propertyDefinitions
       <==> exists row <- rows :: row.kind.PropertyDefinitionChanged? && row.key == Some(key)
    ensures key in AllNames(rows).value.relationshipDefinitions
       <==> exists row <- rows :: row.kind.RelationshipDefinitionChanged? && row.key == Some(key)
    decreases |rows|
  {
    if rows != [] {
      var earlier, last := rows[..|rows| - 1], rows[|rows| - 1];
      KeysNamed(earlier, edge, key);
      assert rows == earlier + [last];
      assert edge in RowNames(last).value.relationships <==> ChangesEdge(last, edge);
    }
  }

  lemma {:induction false} NamesTouched(rows: seq<Change>, id: NodeId)
    requires AllNames(rows).Some?
    ensures id in AllNames(rows).value.nodes <==> exists row <- rows :: Touches(row, id)
    decreases |rows|
  {
    if rows != [] {
      var earlier, last := rows[..|rows| - 1], rows[|rows| - 1];
      NamesTouched(earlier, id);
      assert rows == earlier + [last];
      assert id in RowNames(last).value.nodes <==> Touches(last, id);
    }
  }

  /** An available delta carries exactly the nodes its window is about, with their present rows,
      and counts the rows of the window. */
  lemma DeltaCarries(s: Store, checkpoint: nat, id: NodeId)
    requires DeltaSince(s, checkpoint).Available?
    ensures var patch := DeltaSince(s, checkpoint).patch;
      && (id in patch.nodes <==> TouchedSince(s, checkpoint, id))
      && (id in patch.nodes ==> patch.nodes[id] == Lookup(s.canon.nodes, id))
      && patch.changeCount == |PositionsAfter(s.journal, checkpoint)|
  {
    var rows := After(s.journal, checkpoint);
    NamesTouched(rows, id);
    AfterCounts(s.journal, checkpoint);
    forall row ensures row in rows <==> row in s.journal && row.revision > checkpoint {
      AfterHolds(s.journal, checkpoint, row);
    }
  }

  /** The same for relationships and definitions. */
  lemma DeltaCarriesKeys(s: Store, checkpoint: nat, edge: RelationshipKey, key: Key)
    requires DeltaSince(s, checkpoint).Available?
    ensures var patch := DeltaSince(s, checkpoint).patch;
      && (edge in patch.relationships <==>
            exists row <- s.journal :: row.revision > checkpoint && ChangesEdge(row, edge))
      && (key in patch.propertyDefinitions <==>
            exists row <- s.journal ::
              row.revision > checkpoint && row.kind.PropertyDefinitionChanged? && row.key == Some(key))
      && (key in patch.relationshipDefinitions <==>
            exists row <- s.journal ::
              row.revision > checkpoint && row.kind.RelationshipDefinitionChanged? && row.key == Some(key))
  {
    var rows := After(s.journal, checkpoint);
    KeysNamed(rows, edge, key);
    forall row ensures row in rows <==> row in s.journal && row.revision > checkpoint {
      AfterHolds(s.journal, checkpoint, row);
    }
  }

  /** The journal row of a mutation is about exactly the nodes the mutation involves. */
  lemma MutationTouches(c: Canon, m: Mutation, ordinal: nat, id: NodeId)
    ensures Touches(MutationRow(c.revision, ordinal, m), id) <==> id in Involved(m)
  {
  }
}
