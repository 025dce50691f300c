/** The `IndexStore` object: loops over a patch or a snapshot inside a transaction, and the
    candidate-and-promote rebuild. */
module IndexStores {
  import opened Model
  import opened Projection
  import opened History
  import opened RecordStores
  import opened Index

  datatype FailurePoint = BeforeApply | BeforeCheckpoint | DuringRebuild | BeforePromotion

  datatype RebuildReason = JournalUnavailable | Missing | CorruptOrIncompatible | Requested

  datatype Outcome =
    | IsCurrent(revision: nat)
    | Incremental(from: nat, to: nat, changeCount: nat)
    | Rebuilt(revision: nat, reason: RebuildReason)

  /** Which file operations of a promotion succeed: moving the old file away, moving the
      candidate in, opening it, and, after a failure, moving the old file back and opening it. */
  datatype Promotion = Promotion(park: bool, promote: bool, open: bool, restore: bool, reopen: bool)

  /** A full candidate is built and promoted: no failure point fires and the files move. */
  predicate RebuildCompletes(failurePoint: Option<FailurePoint>, files: Promotion) {
    && failurePoint != Some(DuringRebuild) && failurePoint != Some(BeforePromotion)
    && files.park && files.promote && files.open
  }

  /** What the branch the journal leaves open needs. */
  predicate ReconcileCompletes(s: Store, t: Tables, failurePoint: Option<FailurePoint>, files: Promotion) {
    || t.applied == s.canon.revision
    || if Bridged(s, t.applied) then failurePoint != Some(BeforeApply) && failurePoint != Some(BeforeCheckpoint)
       else RebuildCompletes(failurePoint, files)
  }

  /** In terms of the checkpoints the journal bridges: a current Index needs nothing, one the journal
      bridges a patch that is not made to fail, any other a rebuild whose files all move. */
  lemma ReconcileNeeds(h: seq<Canon>, s: Store, low: nat, t: Tables, failurePoint: Option<FailurePoint>,
                       files: Promotion)
    requires Retained(h, s, low)
    ensures ReconcileCompletes(s, t, failurePoint, files) <==>
      if t.applied == s.canon.revision then true
      else if low <= t.applied < s.canon.revision
      then failurePoint != Some(BeforeApply) && failurePoint != Some(BeforeCheckpoint)
      else
        && failurePoint != Some(DuringRebuild) && failurePoint != Some(BeforePromotion)
        && files.park && files.promote && files.open
  {
    DeltaAvailability(h, s, low, t.applied);
  }

  /** The node loop of `apply_patch`. */
  method PatchNodes(t: Tables, patch: map<NodeId, Option<NodeRow>>) returns (u: Tables)
    ensures NodesPatched(t, patch, u)
    ensures u == t.(nodes := u.nodes, properties := u.properties)
  {
    u := t;
    var rest := patch.Keys;
    ghost var part: map<NodeId, Option<NodeRow>> := map[];
    while rest != {}
      invariant Split(patch, part, rest)
      invariant NodesPatched(t, part, u)
      invariant u == t.(nodes := u.nodes, properties := u.properties)
      decreases rest
    {
      var id :| id in rest;
      ghost var middle := u;
      if patch[id].Some? {
        InsertPatches(u, id, patch[id].value);
        u := InsertNode(u, id, patch[id].value);
      } else {
        DeletePatches(u, id);
        u := DeleteNode(u, id);
      }
      PatchedStep(t, part, middle, id, patch[id], u);
      SplitStep(patch, part, rest, id);
      part, rest := part[id := patch[id]], rest - {id};
    }
    SplitDone(patch, part);
  }

  /** `replace_projection` on a fresh candidate: every table is filled from the snapshot. */
  method FillCandidate(snapshot: Canon) returns (candidate: Tables)
    ensures candidate == Project(snapshot)
  {
    candidate := PatchNodes(EMPTY_TABLES, Read(snapshot.nodes, snapshot.nodes.Keys));
    NodesProject(map[], snapshot.nodes, snapshot.nodes.Keys, EMPTY_TABLES, candidate);
    var edges := ReplaceRows(map[], IndexRelationships(Read(snapshot.relationships, snapshot.relationships.Keys)));
    EdgesProject(map[], snapshot.relationships, snapshot.relationships.Keys);
    var properties := ReplaceRows(map[], Read(snapshot.propertyDefinitions, snapshot.propertyDefinitions.Keys));
    ReadRestores(map[], snapshot.propertyDefinitions, snapshot.propertyDefinitions.Keys);
    var relationships := ReplaceRows(map[],
        ReadDefinitions(snapshot.relationshipDefinitions, snapshot.relationshipDefinitions.Keys));
    DefinitionsProject(map[], snapshot.relationshipDefinitions, snapshot.relationshipDefinitions.Keys);
    candidate := candidate.(relationships := edges, propertyDefinitions := properties,
                            relationshipDefinitions := relationships, applied := snapshot.revision);
  }

  class IndexStore {
    var tables: Tables
    var connected: bool
    var failurePoint: Option<FailurePoint>

    constructor (file: Tables)
      ensures tables == file && connected && failurePoint == None
    {
      tables, connected, failurePoint := file, true, None;
    }

    /** `take_failure`: an injected failure fires once. */
    method TakeFailure(point: FailurePoint) returns (fired: bool)
      modifies this`failurePoint
      ensures fired <==> old(failurePoint) == Some(point)
      ensures failurePoint == if fired then None else old(failurePoint)
    {
      fired := failurePoint == Some(point);
      if fired {
        failurePoint := None;
      }
    }

    /** `apply_patch`: all tables and the checkpoint move together or not at all. */
    method ApplyPatch(patch: Patch) returns (r: Result<Outcome>)
      modifies this
      ensures r.Ok? ==> Patched(old(tables), patch, tables)
      ensures r.Ok? ==> r.value == Incremental(patch.from, patch.target, patch.changeCount)
      ensures r.Err? ==> tables == old(tables) && r.error == StoreUnavailable
      ensures r.Ok? <==>
        && old(connected)
        && old(failurePoint) != Some(BeforeApply)
        && old(failurePoint) != Some(BeforeCheckpoint)
      ensures connected == old(connected)
    {
      var before := TakeFailure(BeforeApply);
      if before {
        return Err(StoreUnavailable);
      }
      var failBeforeCheckpoint := TakeFailure(BeforeCheckpoint);
      if !connected {
        return Err(StoreUnavailable);
      }
      var transaction := PatchNodes(tables, patch.nodes);
      var relationships := ReplaceRows(transaction.relationships, IndexRelationships(patch.relationships));
      var propertyDefinitions := ReplaceRows(transaction.propertyDefinitions, patch.propertyDefinitions);
      var relationshipDefinitions := ReplaceRows(transaction.relationshipDefinitions, patch.relationshipDefinitions);
      if failBeforeCheckpoint {
        return Err(StoreUnavailable);
      }
      tables := transaction.(relationships := relationships, propertyDefinitions := propertyDefinitions,
                             relationshipDefinitions := relationshipDefinitions, applied := patch.target);
      return Ok(Incremental(patch.from, patch.target, patch.changeCount));
    }

    /** Reopen the index path after a failed promotion; a path nothing was moved back to
        opens as a new empty Index. */
    method Reopen(restored: bool, opens: bool)
      requires !connected
      modifies this`tables, this`connected
      ensures connected == opens
      ensures tables == if restored || !opens then old(tables) else EMPTY_TABLES
    {
      if opens {
        if !restored {
          tables := EMPTY_TABLES;
        }
        connected := true;
      }
    }

    /** `rebuild`: a full candidate is built beside the live file and then promoted. A failed
        rebuild leaves the previous tables, or an empty Index when they could not be moved back. */
    method Rebuild(records: RecordStore, reason: RebuildReason, files: Promotion) returns (r: Result<Outcome>)
      modifies this
      ensures r.Ok? ==> tables == Project(records.db.canon) && connected
      ensures r.Ok? ==> r.value == Rebuilt(records.db.canon.revision, reason)
      ensures r.Err? ==> r.error == StoreUnavailable && (tables == old(tables) || tables == EMPTY_TABLES)
      ensures r.Ok? <==> RebuildCompletes(old(failurePoint), files)
      ensures r.Err? && files.restore ==> tables == old(tables)
    {
      var during := TakeFailure(DuringRebuild);
      if during {
        return Err(StoreUnavailable);
      }
      var candidate := FillCandidate(records.db.canon);
      var beforePromotion := TakeFailure(BeforePromotion);
      if beforePromotion {
        return Err(StoreUnavailable);
      }
      connected := false;
      if !files.park {
        Reopen(true, files.reopen);
        return Err(StoreUnavailable);
      }
      if !files.promote || !files.open {
        Reopen(files.restore, files.reopen);
        return Err(StoreUnavailable);
      }
      tables, connected := candidate, true;
      return Ok(Rebuilt(records.db.canon.revision, reason));
    }

    /** `reconcile`. */
    method Reconcile(records: RecordStore, files: Promotion) returns (r: Result<Outcome>)
      modifies this
      ensures r.Err? ==> r.error == StoreUnavailable && (tables == old(tables) || tables == EMPTY_TABLES)
      ensures r.Err? && files.restore ==> tables == old(tables)
      ensures r.Ok? ==> Reconciled(records.db, old(tables), tables) && connected
      ensures r.Ok? <==> old(connected) && ReconcileCompletes(records.db, old(tables), old(failurePoint), files)
      ensures r.Ok? ==>
        r.value ==
          if old(tables.applied) == records.db.canon.revision then IsCurrent(records.db.canon.revision)
          else if Bridged(records.db, old(tables.applied)) then
            Incremental(old(tables.applied), records.db.canon.revision,
                        |After(records.db.journal, old(tables.applied))|)
          else Rebuilt(records.db.canon.revision, JournalUnavailable)
    {
      if !connected {
        return Err(StoreUnavailable);
      }
      var delta := records.ProjectionDeltaSince(tables.applied);
      match delta {
        case Current(revision) => return Ok(IsCurrent(revision));
        case Available(patch) => r := ApplyPatch(patch);
        case Unavailable(_) => r := Rebuild(records, JournalUnavailable, files);
      }
    }
  }
}
