/** Journal rows, the keys they name, and final-state patches:
    the pure part of `src/record_store/projection.rs`. */
module Projection {
  import opened Model

  const RETENTION_REVISIONS: nat := 1024

  // ---------- names ----------

  /** The five key sets `projection_delta_since` collects. */
  datatype Names = Names(
    nodes: set<NodeId>, issued: set<NodeId>, relationships: set<RelationshipKey>,
    propertyDefinitions: set<Key>, relationshipDefinitions: set<Key>)
  {
    function Plus(other: Names): Names {
      Names(nodes + other.nodes, issued + other.issued, relationships + other.relationships,
            propertyDefinitions + other.propertyDefinitions,
            relationshipDefinitions + other.relationshipDefinitions)
    }
  }

  const NO_NAMES := Names({}, {}, {}, {}, {})

  /** The keys one row names, or nothing when the row lacks a column its kind needs. */
  function RowNames(row: Change): Option<Names> {
    match row.kind
    case NodeCreated | NodePurged =>
      if row.node.None? then None else Some(NO_NAMES.(nodes := {row.node.value}, issued := {row.node.value}))
    case NodeTombstoned | NodeRestored | PropertySet | PropertyRemoved =>
      if row.node.None? then None else Some(NO_NAMES.(nodes := {row.node.value}))
    case RelationshipAdded | RelationshipRemoved =>
      if row.node.None? || row.key.None? || row.descriptor.None? || !row.descriptor.value.TargetNode? then None
      else
        var target := row.descriptor.value.target;
        Some(NO_NAMES.(nodes := {row.node.value, target},
                       relationships := {RelationshipKey(row.node.value, row.key.value, target)}))
    case PropertyDefinitionChanged(_) =>
      if row.key.None? then None else Some(NO_NAMES.(propertyDefinitions := {row.key.value}))
    case RelationshipDefinitionChanged(_) =>
      if row.key.None? then None else Some(NO_NAMES.(relationshipDefinitions := {row.key.value}))
    case UnknownKind => None
  }

  function AllNames(rows: seq<Change>): Option<Names> {
    if rows == [] then Some(NO_NAMES)
    else
      var rest, last := AllNames(rows[..|rows| - 1]), RowNames(rows[|rows| - 1]);
      if rest.None? || last.None? then None else Some(rest.value.Plus(last.value))
  }

  lemma {:induction false} AllNamesConcat(a: seq<Change>, b: seq<Change>)
    ensures AllNames(a).Some? && AllNames(b).Some? <==> AllNames(a + b).Some?
    ensures AllNames(a + b).Some? ==> AllNames(a + b).value == AllNames(a).value.Plus(AllNames(b).value)
    decreases |b|
  {
    if b == [] {
      assert a + b == a;
    } else {
      assert (a + b)[..|a + b| - 1] == a + b[..|b| - 1];
      AllNamesConcat(a, b[..|b| - 1]);
    }
  }

  // ---------- the journal ----------

  /** `WHERE revision > checkpoint`, in order. */
  function After(rows: seq<Change>, checkpoint: nat): seq<Change> {
    if rows == [] then []
    else
      After(rows[..|rows| - 1], checkpoint)
      + (if rows[|rows| - 1].revision > checkpoint then [rows[|rows| - 1]] else [])
  }

  function Revisions(rows: seq<Change>): set<nat> {
    set i | 0 <= i < |rows| :: rows[i].revision
  }

  /** The revisions of (low, high]. */
  function Interval(low: nat, high: nat): (revisions: set<nat>)
    ensures forall r: nat :: r in revisions <==> low < r <= high
  {
    if high <= low then {} else Interval(low, high - 1) + {high}
  }

  ghost predicate Ordered(rows: seq<Change>) {
    forall i, j :: 0 <= i <= j < |rows| ==> rows[i].revision <= rows[j].revision
  }

  // ---------- patches ----------

  /** `read_relationship_definition`: an empty stored inverse label reads as absent. */
  function ReadBody(body: StoredBody): RelationshipBody {
    RelationshipBody(body.forward, if body.inverse == "" then None else Some(body.inverse),
                     body.description, body.origin)
  }

  function ReadDefinition(row: Definition<StoredBody>): Definition<RelationshipBody> {
    Definition(ReadBody(row.body), row.state, row.replacement, row.version, row.modified)
  }

  function ReadLookup(rows: map<Key, Definition<StoredBody>>, key: Key): Option<Definition<RelationshipBody>> {
    if key in rows then Some(ReadDefinition(rows[key])) else None
  }

  /** A final-state frame. The source lists each row key once, so each list is a map. */
  datatype Patch = Patch(
    from: nat, target: nat, changeCount: nat,
    issued: set<NodeId>,
    nodes: map<NodeId, Option<NodeRow>>,
    relationships: map<RelationshipKey, Option<RelationshipRow>>,
    propertyDefinitions: map<Key, Option<Definition<PropertyBody>>>,
    relationshipDefinitions: map<Key, Option<Definition<RelationshipBody>>>)

  datatype JournalDelta =
    | Current(revision: nat)
    | Available(patch: Patch)
    | Unavailable(currentRevision: nat)

  function Read<K, V>(rows: map<K, V>, keys: set<K>): map<K, Option<V>> {
    map k | k in keys :: Lookup(rows, k)
  }

  function ReadDefinitions(rows: map<Key, Definition<StoredBody>>, keys: set<Key>)
    : map<Key, Option<Definition<RelationshipBody>>>
  {
    map key | key in keys :: ReadLookup(rows, key)
  }

  /** The patch for the named keys with their values read from `c`. */
  function Capture(names: Names, c: Canon, from: nat, changeCount: nat): Patch {
    Patch(from, c.revision, changeCount, names.issued,
          Read(c.nodes, names.nodes),
          Read(c.relationships, names.relationships),
          Read(c.propertyDefinitions, names.propertyDefinitions),
          ReadDefinitions(c.relationshipDefinitions, names.relationshipDefinitions))
  }

  /** `journal_is_contiguous`. */
  predicate Contiguous(rows: seq<Change>, checkpoint: nat, current: nat) {
    && rows != []
    && rows[0].revision == checkpoint + 1
    && rows[|rows| - 1].revision == current
    && forall i :: 0 <= i < |rows| - 1 ==>
         rows[i].revision <= rows[i + 1].revision <= rows[i].revision + 1
  }

  /** `projection_delta_since`. */
  function DeltaSince(s: Store, checkpoint: nat): JournalDelta {
    var current := s.canon.revision;
    if checkpoint == current then Current(current)
    else if checkpoint > current then Unavailable(current)
    else
      var rows := After(s.journal, checkpoint);
      if !Contiguous(rows, checkpoint, current) then Unavailable(current)
      else
        match AllNames(rows)
        case None => Unavailable(current)
        case Some(names) => Available(Capture(names, s.canon, checkpoint, |rows|))
  }

  /** The journal bridges the gap from the checkpoint to the store's revision. */
  predicate Bridged(s: Store, checkpoint: nat) {
    && checkpoint < s.canon.revision
    && var rows := After(s.journal, checkpoint);
       Contiguous(rows, checkpoint, s.canon.revision) && AllNames(rows).Some?
  }

  /** `prune_change_journal`. */
  function Prune(s: Store): Store {
    if s.canon.revision <= RETENTION_REVISIONS then s
    else s.(journal := After(s.journal, s.canon.revision - RETENTION_REVISIONS))
  }

  // ---------- applying a patch ----------

  /** Delete every row the patch names, then insert the ones it carries. */
  function Overlay<K(!new), V>(rows: map<K, V>, patch: map<K, Option<V>>): (result: map<K, V>)
    ensures forall k :: Lookup(result, k) == if k in patch then patch[k] else Lookup(rows, k)
  {
    map k | k in rows.Keys + patch.Keys && (k in patch ==> patch[k].Some?) ::
      if k in patch then patch[k].value else rows[k]
  }

  function StoreDefinition(row: Definition<RelationshipBody>): Definition<StoredBody> {
    Definition(StoredBody(row.body.forward, if row.body.inverse.Some? then row.body.inverse.value else "",
                          row.body.description, row.body.origin),
               row.state, row.replacement, row.version, row.modified)
  }

  function StoreDefinitions(patch: map<Key, Option<Definition<RelationshipBody>>>)
    : map<Key, Option<Definition<StoredBody>>>
  {
    map key | key in patch :: if patch[key].Some? then Some(StoreDefinition(patch[key].value)) else None
  }

  function Survivors(nodes: map<NodeId, Option<NodeRow>>): set<NodeId> {
    set id | id in nodes && nodes[id].Some?
  }

  /** What a patch means for a canonical state. */
  function ApplyPatch(c: Canon, patch: Patch): Canon {
    Canon(patch.target,
          c.issued + patch.issued + Survivors(patch.nodes),
          Overlay(c.nodes, patch.nodes),
          Overlay(c.relationships, patch.relationships),
          Overlay(c.propertyDefinitions, patch.propertyDefinitions),
          Overlay(c.relationshipDefinitions, StoreDefinitions(patch.relationshipDefinitions)))
  }

  /** One patch for two consecutive windows: the later frame wins. */
  function Compose(first: Patch, second: Patch): Patch {
    Patch(first.from, second.target, first.changeCount + second.changeCount,
          first.issued + second.issued,
          first.nodes + second.nodes,
          first.relationships + second.relationships,
          first.propertyDefinitions + second.propertyDefinitions,
          first.relationshipDefinitions + second.relationshipDefinitions)
  }

  // ---------- frames ----------

  ghost predicate SameOutside<K(!new), V>(named: set<K>, before: map<K, V>, after: map<K, V>) {
    forall k :: k !in named ==> Lookup(before, k) == Lookup(after, k)
  }

  /** Every row that differs between the two states is named, and only issued ids are. */
  ghost predicate Covers(names: Names, before: Canon, after: Canon) {
    && before.issued <= after.issued <= before.issued + names.issued
    && names.issued <= after.issued
    && SameOutside(names.nodes, before.nodes, after.nodes)
    && SameOutside(names.relationships, before.relationships, after.relationships)
    && SameOutside(names.propertyDefinitions, before.propertyDefinitions, after.propertyDefinitions)
    && SameOutside(names.relationshipDefinitions, before.relationshipDefinitions, after.relationshipDefinitions)
  }

  lemma CoversCompose(first: Names, second: Names, a: Canon, b: Canon, c: Canon)
    requires Covers(first, a, b) && Covers(second, b, c)
    ensures Covers(first.Plus(second), a, c)
  {
  }

  lemma MapsEqual<K(!new), V>(a: map<K, V>, b: map<K, V>)
    requires forall k :: Lookup(a, k) == Lookup(b, k)
    ensures a == b
  {
    forall k ensures k in a <==> k in b {
      assert Lookup(a, k) == Lookup(b, k);
    }
    assert a.Keys == b.Keys;
    forall k | k in a ensures a[k] == b[k] {
      assert Lookup(a, k) == Lookup(b, k);
    }
  }

  lemma ReadRestores<K(!new), V>(before: map<K, V>, after: map<K, V>, keys: set<K>)
    requires SameOutside(keys, before, after)
    ensures Overlay(before, Read(after, keys)) == after
  {
  }

  lemma ReadDefinitionsRestores(before: map<Key, Definition<StoredBody>>, after: map<Key, Definition<StoredBody>>,
      keys: set<Key>)
    requires SameOutside(keys, before, after)
    ensures Overlay(before, StoreDefinitions(ReadDefinitions(after, keys))) == after
  {
  }

  /** A frame that covers the difference rebuilds the newer state from the older. */
  lemma CaptureRestores(names: Names, before: Canon, after: Canon, changeCount: nat)
    requires Covers(names, before, after) && after.nodes.Keys <= after.issued
    ensures ApplyPatch(before, Capture(names, after, before.revision, changeCount)) == after
  {
    ReadRestores(before.nodes, after.nodes, names.nodes);
    ReadRestores(before.relationships, after.relationships, names.relationships);
    ReadRestores(before.propertyDefinitions, after.propertyDefinitions, names.propertyDefinitions);
    ReadDefinitionsRestores(before.relationshipDefinitions, after.relationshipDefinitions,
        names.relationshipDefinitions);
    SurvivorsIssued(names, after);
    assert before.issued + names.issued + Survivors(Read(after.nodes, names.nodes)) == after.issued;
  }

  lemma SurvivorsIssued(names: Names, c: Canon)
    requires c.nodes.Keys <= c.issued
    ensures Survivors(Read(c.nodes, names.nodes)) <= c.issued
  {
  }

  lemma ReadComposes<K(!new), V>(first: set<K>, second: set<K>, b: map<K, V>, c: map<K, V>)
    requires SameOutside(second, b, c)
    ensures Read(b, first) + Read(c, second) == Read(c, first + second)
  {
  }

  lemma ReadDefinitionsComposes(first: set<Key>, second: set<Key>, b: map<Key, Definition<StoredBody>>,
      c: map<Key, Definition<StoredBody>>)
    requires SameOutside(second, b, c)
    ensures ReadDefinitions(b, first) + ReadDefinitions(c, second) == ReadDefinitions(c, first + second)
  {
  }

  /** Consecutive frames compose to the frame captured over the joined window. */
  lemma CaptureComposes(first: Names, second: Names, a: Canon, b: Canon, c: Canon, m: nat, n: nat)
    requires Covers(second, b, c)
    ensures Compose(Capture(first, b, a.revision, m), Capture(second, c, b.revision, n))
         == Capture(first.Plus(second), c, a.revision, m + n)
  {
    ReadComposes(first.nodes, second.nodes, b.nodes, c.nodes);
    ReadComposes(first.relationships, second.relationships, b.relationships, c.relationships);
    ReadComposes(first.propertyDefinitions, second.propertyDefinitions, b.propertyDefinitions, c.propertyDefinitions);
    ReadDefinitionsComposes(first.relationshipDefinitions, second.relationshipDefinitions,
                            b.relationshipDefinitions, c.relationshipDefinitions);
  }
}
