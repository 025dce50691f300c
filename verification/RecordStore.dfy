/** The `RecordStore` object: one database connection and the methods that change what
    it holds. A transaction works on a local copy and commits by assigning it. */
module RecordStores {
  import opened Model
  import opened Operations
  import opened Projection
  import opened Replay

  datatype Commitment = Commitment(revision: nat, changeCount: nat)

  /** `DELETE` the row, then `INSERT` the carried one if there is one. */
  function PutRow<K, V>(rows: map<K, V>, key: K, row: Option<V>): map<K, V> {
    if row.Some? then rows[key := row.value] else rows - {key}
  }

  lemma OverlayStep<K(!new), V>(rows: map<K, V>, part: map<K, Option<V>>, key: K, row: Option<V>)
    requires key !in part
    ensures Overlay(rows, part[key := row]) == PutRow(Overlay(rows, part), key, row)
  {
  }

  lemma OverlayNothing<K(!new), V>(rows: map<K, V>)
    ensures Overlay(rows, map[]) == rows
  {
  }

  /** `part` is the share of the patch already worked off, `rest` the keys still to come. */
  ghost predicate Split<K, V>(patch: map<K, Option<V>>, part: map<K, Option<V>>, rest: set<K>) {
    rest !! part.Keys && rest + part.Keys == patch.Keys && forall k <- part.Keys :: part[k] == patch[k]
  }

  lemma SplitDone<K, V>(patch: map<K, Option<V>>, part: map<K, Option<V>>)
    requires Split(patch, part, {})
    ensures part == patch
  {
  }

  lemma SplitStep<K, V>(patch: map<K, Option<V>>, part: map<K, Option<V>>, rest: set<K>, key: K)
    requires Split(patch, part, rest) && key in rest
    ensures Split(patch, part[key := patch[key]], rest - {key})
  {
  }

  /** The delete-and-insert loop over a patch. */
  method ReplaceRows<K(==, !new), V>(rows: map<K, V>, patch: map<K, Option<V>>) returns (result: map<K, V>)
    ensures result == Overlay(rows, patch)
  {
    result := rows;
    var rest := patch.Keys;
    ghost var part: map<K, Option<V>> := map[];
    OverlayNothing(rows);
    while rest != {}
      invariant Split(patch, part, rest)
      invariant result == Overlay(rows, part)
      decreases rest
    {
      var key :| key in rest;
      OverlayStep(rows, part, key, patch[key]);
      SplitStep(patch, part, rest, key);
      result := PutRow(result, key, patch[key]);
      part, rest := part[key := patch[key]], rest - {key};
    }
    SplitDone(patch, part);
  }

  lemma SurvivorsStep(part: map<NodeId, Option<NodeRow>>, id: NodeId, row: Option<NodeRow>)
    requires id !in part
    ensures Survivors(part[id := row]) == Survivors(part) + (if row.Some? then {id} else {})
  {
  }

  /** The ledger and the node rows after a replay's node loop. */
  method ReplayNodes(issued: set<NodeId>, nodes: map<NodeId, NodeRow>, patch: map<NodeId, Option<NodeRow>>)
    returns (newIssued: set<NodeId>, newNodes: map<NodeId, NodeRow>)
    ensures newIssued == issued + Survivors(patch)
    ensures newNodes == Overlay(nodes, patch)
  {
    newIssued, newNodes := issued, nodes;
    var rest := patch.Keys;
    ghost var part: map<NodeId, Option<NodeRow>> := map[];
    OverlayNothing(nodes);
    while rest != {}
      invariant Split(patch, part, rest)
      invariant newIssued == issued + Survivors(part)
      invariant newNodes == Overlay(nodes, part)
      decreases rest
    {
      var id :| id in rest;
      OverlayStep(nodes, part, id, patch[id]);
      SurvivorsStep(part, id, patch[id]);
      SplitStep(patch, part, rest, id);
      if patch[id].Some? {
        newIssued := newIssued + {id};
      }
      newNodes := PutRow(newNodes, id, patch[id]);
      part, rest := part[id := patch[id]], rest - {id};
    }
    SplitDone(patch, part);
  }

  // ---------- node creation ----------

  predicate Distinct(ids: seq<NodeId>) {
    forall i, j :: 0 <= i < j < |ids| ==> ids[i] != ids[j]
  }

  predicate AllFresh(issued: set<NodeId>, ids: seq<NodeId>) {
    forall i :: 0 <= i < |ids| ==> ids[i] !in issued
  }

  function CreationRows(revision: nat, ids: seq<NodeId>): seq<Change> {
    seq(|ids|, i requires 0 <= i < |ids| => MutationRow(revision, i, CreateNode(ids[i])))
  }

  function BlankNodes(revision: nat, ids: seq<NodeId>): map<NodeId, NodeRow> {
    map id <- ids :: BlankNode(revision)
  }

  /** The store after creating `ids` in one transaction. */
  function Created(s: Store, ids: seq<NodeId>): Store {
    var revision := s.canon.revision + 1;
    Store(s.canon.(revision := revision, issued := s.canon.issued + (set id <- ids),
                   nodes := s.canon.nodes + BlankNodes(revision, ids)),
          s.journal + CreationRows(revision, ids))
  }

  method ReserveIds(issued: set<NodeId>, ids: seq<NodeId>) returns (r: Result<set<NodeId>>)
    ensures r.Ok? <==> AllFresh(issued, ids) && Distinct(ids)
    ensures r.Ok? ==> r.value == issued + (set id <- ids)
    ensures r.Err? ==> r.error == AlreadyExists
  {
    var ledger := issued;
    for i := 0 to |ids|
      invariant ledger == issued + (set id <- ids[..i])
      invariant AllFresh(issued, ids[..i]) && Distinct(ids[..i])
    {
      if ids[i] in ledger {
        return Err(AlreadyExists);
      }
      ledger := ledger + {ids[i]};
      assert ids[..i + 1] == ids[..i] + [ids[i]];
    }
    assert ids[..|ids|] == ids;
    return Ok(ledger);
  }

  lemma BlankNodesAppend(nodes: map<NodeId, NodeRow>, revision: nat, ids: seq<NodeId>, id: NodeId)
    ensures nodes + BlankNodes(revision, ids + [id]) == (nodes + BlankNodes(revision, ids))[id := BlankNode(revision)]
  {
  }

  lemma CreationRowsAppend(revision: nat, ids: seq<NodeId>, id: NodeId)
    ensures CreationRows(revision, ids + [id])
        == CreationRows(revision, ids) + [MutationRow(revision, |ids|, CreateNode(id))]
  {
  }

  method InsertBlankNodes(s: Store, revision: nat, ids: seq<NodeId>)
      returns (nodes: map<NodeId, NodeRow>, journal: seq<Change>)
    ensures nodes == s.canon.nodes + BlankNodes(revision, ids)
    ensures journal == s.journal + CreationRows(revision, ids)
  {
    nodes, journal := s.canon.nodes, s.journal;
    assert nodes == s.canon.nodes + BlankNodes(revision, []);
    for i := 0 to |ids|
      invariant nodes == s.canon.nodes + BlankNodes(revision, ids[..i])
      invariant journal == s.journal + CreationRows(revision, ids[..i])
    {
      assert ids[..i + 1] == ids[..i] + [ids[i]];
      BlankNodesAppend(s.canon.nodes, revision, ids[..i], ids[i]);
      CreationRowsAppend(revision, ids[..i], ids[i]);
      nodes := nodes[ids[i] := BlankNode(revision)];
      journal := journal + [MutationRow(revision, i, CreateNode(ids[i]))];
    }
    assert ids[..|ids|] == ids;
  }

  lemma FreshSplit(issued: set<NodeId>, head: NodeId, tail: seq<NodeId>)
    requires head !in issued
    ensures AllFresh(issued, [head] + tail) && Distinct([head] + tail)
       <==> AllFresh(issued + {head}, tail) && Distinct(tail)
  {
    var all := [head] + tail;
    if AllFresh(issued, all) && Distinct(all) {
      forall i | 0 <= i < |tail| ensures tail[i] !in issued + {head} {
        assert all[i + 1] == tail[i] && all[0] != all[i + 1];
      }
      forall i, j | 0 <= i < j < |tail| ensures tail[i] != tail[j] {
        assert all[i + 1] != all[j + 1];
      }
    }
  }

  lemma BlankNodesPrepend(nodes: map<NodeId, NodeRow>, revision: nat, head: NodeId, tail: seq<NodeId>)
    ensures nodes + BlankNodes(revision, [head] + tail)
        == nodes[head := BlankNode(revision)] + BlankNodes(revision, tail)
  {
  }

  /** What creating `ids[from..]` from `s` leaves in `t`. */
  ghost predicate CreatedFrom(s: Store, ids: seq<NodeId>, from: nat, t: Store)
    requires from <= |ids|
  {
    && t.canon == s.canon.(issued := s.canon.issued + (set id <- ids[from..]),
                           nodes := s.canon.nodes + BlankNodes(s.canon.revision, ids[from..]))
    && t.journal == s.journal + CreationRows(s.canon.revision, ids)[from..]
  }

  lemma CreatedNone(s: Store, ids: seq<NodeId>)
    ensures CreatedFrom(s, ids, |ids|, s)
  {
  }

  lemma IssuedPrepend(issued: set<NodeId>, head: NodeId, tail: seq<NodeId>)
    ensures issued + (set id <- [head] + tail) == issued + {head} + (set id <- tail)
  {
  }

  lemma RowsFrom(journal: seq<Change>, rows: seq<Change>, from: nat)
    requires from < |rows|
    ensures journal + rows[from..] == journal + [rows[from]] + rows[from + 1..]
  {
  }

  lemma CreatedStep(s: Store, ids: seq<NodeId>, from: nat, t: Store)
    requires from < |ids| && ids[from] !in s.canon.issued
    requires CreatedFrom(MutateOnce(s, from, CreateNode(ids[from])), ids, from + 1, t)
    ensures CreatedFrom(s, ids, from, t)
  {
    var head, tail := ids[from], ids[from + 1..];
    assert ids[from..] == [head] + tail;
    IssuedPrepend(s.canon.issued, head, tail);
    BlankNodesPrepend(s.canon.nodes, s.canon.revision, head, tail);
    RowsFrom(s.journal, CreationRows(s.canon.revision, ids), from);
  }

  lemma {:induction false} CreationRun(s: Store, ids: seq<NodeId>, from: nat)
    requires from <= |ids|
    ensures var result := RunBatch(s, CreationBatch(ids), from);
      && (result.Ok? <==> AllFresh(s.canon.issued, ids[from..]) && Distinct(ids[from..]))
      && (result.Ok? ==> CreatedFrom(s, ids, from, result.value))
      && (result.Err? ==> result.error == AlreadyExists)
    decreases |ids| - from
  {
    if from == |ids| {
      CreatedNone(s, ids);
    } else if ids[from] !in s.canon.issued {
      var next := MutateOnce(s, from, CreateNode(ids[from]));
      CreationRun(next, ids, from + 1);
      assert ids[from..] == [ids[from]] + ids[from + 1..];
      FreshSplit(s.canon.issued, ids[from], ids[from + 1..]);
      if RunBatch(next, CreationBatch(ids), from + 1).Ok? {
        CreatedStep(s, ids, from, RunBatch(next, CreationBatch(ids), from + 1).value);
      }
    } else {
      assert ids[from..][0] == ids[from];
    }
  }

  /** Creating nodes is the batch of their creations: it succeeds exactly on distinct, never
      issued identities, and then issues all of them as blank active nodes at one revision. */
  lemma CreationMeaning(s: Store, ids: seq<NodeId>)
    ensures Commit(s, CreateNodes(ids)) ==
      if ids == [] then Err(Conflict)
      else if AllFresh(s.canon.issued, ids) && Distinct(ids) then Ok(Created(s, ids))
      else Err(AlreadyExists)
  {
    if ids != [] {
      CreationRun(Bump(s), ids, 0);
      assert ids[0..] == ids;
      assert CreationRows(s.canon.revision + 1, ids)[0..] == CreationRows(s.canon.revision + 1, ids);
    }
  }

  class RecordStore {
    var db: Store

    /** A new database: the schema with an empty `store_meta` row at revision 0. */
    constructor Empty()
      ensures db == Store(EMPTY_CANON, [])
    {
      db := Store(EMPTY_CANON, []);
    }

    /** `open` on an existing current-schema file. */
    constructor FromFile(file: Store)
      requires OpenStore(file).Ok?
      ensures Ok(db) == OpenStore(file)
    {
      db := OpenStore(file).value;
    }

    // ---------- committing ----------

    method ApplyBatch(mutations: seq<Mutation>) returns (r: Result<Commitment>)
      modifies this
      ensures r.Ok? <==> Commit(old(db), Batch(mutations)).Ok?
      ensures r.Ok? ==> Ok(db) == Commit(old(db), Batch(mutations))
                        && r.value == Commitment(old(db.canon.revision) + 1, |mutations|)
      ensures r.Err? ==> db == old(db) && Err(r.error) == Commit(old(db), Batch(mutations))
    {
      if mutations == [] {
        return Err(Conflict);
      }
      var transaction := Bump(db);
      var revision := transaction.canon.revision;
      var i := 0;
      while i < |mutations|
        invariant 0 <= i <= |mutations|
        invariant transaction.canon.revision == revision
        invariant RunBatch(transaction, mutations, i) == RunBatch(Bump(old(db)), mutations, 0)
        invariant db == old(db)
      {
        var guard := MutationGuard(transaction.canon, mutations[i]);
        if guard.Some? {
          return Err(guard.value);
        }
        transaction := Store(MutationEffect(transaction.canon, mutations[i]),
                             transaction.journal + [MutationRow(revision, i, mutations[i])]);
        i := i + 1;
      }
      db := transaction;
      r := Ok(Commitment(revision, |mutations|));
    }

    /** `create_nodes`: every identity is reserved before the revision is taken, then the
        node rows and their journal rows are written. */
    method CreateNodes(ids: seq<NodeId>) returns (r: Result<nat>)
      modifies this
      ensures r.Ok? <==> ids != [] && AllFresh(old(db).canon.issued, ids) && Distinct(ids)
      ensures r.Ok? ==> db == Created(old(db), ids) && r.value == db.canon.revision
      ensures r.Err? ==> db == old(db) && r.error == if ids == [] then Conflict else AlreadyExists
    {
      if ids == [] {
        return Err(Conflict);
      }
      var reserved := ReserveIds(db.canon.issued, ids);
      if reserved.Err? {
        return Err(reserved.error);
      }
      var revision := db.canon.revision + 1;
      var nodes, journal := InsertBlankNodes(db, revision, ids);
      db := Store(db.canon.(revision := revision, issued := reserved.value, nodes := nodes), journal);
      r := Ok(revision);
    }

    /** Register, update, deprecate or remove a property definition. */
    method ChangePropertyDefinition(op: DefinitionOp<PropertyBody>) returns (r: Result<nat>)
      modifies this
      ensures r.Ok? ==> Ok(db) == Commit(old(db), OnProperty(op)) && r.value == db.canon.revision
      ensures r.Err? ==> db == old(db) && Err(r.error) == Commit(old(db), OnProperty(op))
    {
      var guard := PropertyOpGuard(db.canon, op);
      if guard.Some? {
        return Err(guard.value);
      }
      var stored := StoredPropertyOp(db.canon, op);
      var transaction := Bump(db);
      var revision := transaction.canon.revision;
      transaction := transaction.(canon := transaction.canon.(propertyDefinitions :=
        DefinitionEffect(transaction.canon.propertyDefinitions, stored, revision)));
      transaction := transaction.(journal := transaction.journal +
        [Change(revision, 0, PropertyDefinitionChanged(EventOf(op)), None, Some(op.key), ReplacementNote(op))]);
      db := transaction;
      r := Ok(revision);
    }

    /** Register, update, deprecate or remove a relationship definition. */
    method ChangeRelationshipDefinition(op: DefinitionOp<RelationshipBody>) returns (r: Result<nat>)
      modifies this
      ensures r.Ok? ==> Ok(db) == Commit(old(db), OnRelationship(op)) && r.value == db.canon.revision
      ensures r.Err? ==> db == old(db) && Err(r.error) == Commit(old(db), OnRelationship(op))
    {
      var guard := RelationshipOpGuard(db.canon, op);
      if guard.Some? {
        return Err(guard.value);
      }
      var stored := StoredRelationshipOp(db.canon, op);
      var transaction := Bump(db);
      var revision := transaction.canon.revision;
      transaction := transaction.(canon := transaction.canon.(relationshipDefinitions :=
        DefinitionEffect(transaction.canon.relationshipDefinitions, stored, revision)));
      transaction := transaction.(journal := transaction.journal +
        [Change(revision, 0, RelationshipDefinitionChanged(EventOf(op)), None, Some(op.key), ReplacementNote(op))]);
      db := transaction;
      r := Ok(revision);
    }

    // ---------- the journal ----------

    /** `SELECT ... WHERE revision > ?1 ORDER BY revision, ordinal`. */
    method RowsAfter(checkpoint: nat) returns (rows: seq<Change>)
      ensures rows == After(db.journal, checkpoint)
    {
      rows := [];
      for i := 0 to |db.journal|
        invariant rows == After(db.journal[..i], checkpoint)
      {
        if db.journal[i].revision > checkpoint {
          rows := rows + [db.journal[i]];
        }
        assert db.journal[..i + 1][..i] == db.journal[..i];
      }
      assert db.journal[..|db.journal|] == db.journal;
    }

    /** `journal_is_contiguous`, with its running `expected` revision. */
    static method JournalIsContiguous(rows: seq<Change>, checkpoint: nat, current: nat) returns (contiguous: bool)
      ensures contiguous <==> Contiguous(rows, checkpoint, current)
    {
      if rows == [] || rows[0].revision != checkpoint + 1 || rows[|rows| - 1].revision != current {
        return false;
      }
      var expected := checkpoint + 1;
      for i := 0 to |rows|
        invariant expected == if i == 0 then checkpoint + 1 else rows[i - 1].revision
        invariant forall a :: 0 <= a < i - 1 ==> rows[a].revision <= rows[a + 1].revision <= rows[a].revision + 1
      {
        if rows[i].revision == expected {
        } else if rows[i].revision == expected + 1 {
          expected := expected + 1;
        } else {
          assert i > 0 && !(rows[i - 1].revision <= rows[i].revision <= rows[i - 1].revision + 1);
          return false;
        }
      }
      return expected == current;
    }

    /** `projection_delta_since`: the named keys are collected row by row, then read from
        the current tables. */
    method ProjectionDeltaSince(checkpoint: nat) returns (delta: JournalDelta)
      ensures delta == DeltaSince(db, checkpoint)
    {
      var current := db.canon.revision;
      if checkpoint == current {
        return Current(current);
      }
      if checkpoint > current {
        return Unavailable(current);
      }
      var rows := RowsAfter(checkpoint);
      var contiguous := JournalIsContiguous(rows, checkpoint, current);
      if !contiguous {
        return Unavailable(current);
      }
      var names := NO_NAMES;
      for i := 0 to |rows|
        invariant AllNames(rows[..i]) == Some(names)
      {
        var named := RowNames(rows[i]);
        assert rows[..i + 1][..i] == rows[..i];
        if named.None? {
          BadRow(rows, i);
          return Unavailable(current);
        }
        names := names.Plus(named.value);
      }
      assert rows[..|rows|] == rows;
      return Available(Capture(names, db.canon, checkpoint, |rows|));
    }

    method PruneChangeJournal()
      modifies this
      ensures db == Prune(old(db))
    {
      if db.canon.revision <= RETENTION_REVISIONS {
        return;
      }
      var kept := RowsAfter(db.canon.revision - RETENTION_REVISIONS);
      db := db.(journal := kept);
    }

    method ClearChangeJournal()
      modifies this
      ensures db == Store(old(db.canon), [])
    {
      db := db.(journal := []);
    }

    // ---------- recovery replay ----------

    method ApplyRecoveryPatch(patch: Patch) returns (r: Result<()>)
      modifies this
      ensures r.Ok? ==> Ok(db) == ReplayPatch(old(db), patch)
      ensures r.Err? ==> db == old(db) && Err(r.error) == ReplayPatch(old(db), patch)
    {
      var current := db.canon.revision;
      if current != patch.from || patch.target <= patch.from {
        return Err(CorruptStore);
      }
      var issued, nodes := ReplayNodes(db.canon.issued + patch.issued, db.canon.nodes, patch.nodes);
      var relationships := ReplaceRows(db.canon.relationships, patch.relationships);
      var propertyDefinitions := ReplaceRows(db.canon.propertyDefinitions, patch.propertyDefinitions);
      if !InversesPresent(patch) {
        return Err(ConstraintViolation);
      }
      var relationshipDefinitions := ReplaceRows(db.canon.relationshipDefinitions,
          StoreDefinitions(patch.relationshipDefinitions));
      var canon := Canon(patch.target, issued, nodes, relationships, propertyDefinitions, relationshipDefinitions);
      if !SchemaHolds(canon) {
        return Err(ConstraintViolation);
      }
      db := Store(canon, []);
      return Ok(());
    }
  }

  lemma BadRow(rows: seq<Change>, i: nat)
    requires i < |rows| && RowNames(rows[i]).None?
    ensures AllNames(rows).None?
  {
  }
}
