/** The committing operations of `src/record_store/operations.rs` as guard, effect
    and journal row. `Commit` is what one successful transaction does to a store. */
module Operations {
  import opened Model

  datatype Mutation =
    | CreateNode(node: NodeId)
    | SetProperty(node: NodeId, key: Key, value: PropertyValue)
    | RemoveProperty(node: NodeId, key: Key)
    | AddRelationship(edge: RelationshipKey)
    | RemoveRelationship(edge: RelationshipKey)
    | TombstoneNode(node: NodeId)
    | RestoreNode(node: NodeId)
    | PurgeNode(node: NodeId)

  datatype DefinitionOp<+B> =
    | Register(key: Key, body: B)
    | Update(key: Key, body: B)
    | Deprecate(key: Key, replacement: Option<Key>)
    | Remove(key: Key)

  datatype Op =
    | Batch(mutations: seq<Mutation>)
    | CreateNodes(ids: seq<NodeId>)
    | OnProperty(propertyOp: DefinitionOp<PropertyBody>)
    | OnRelationship(relationshipOp: DefinitionOp<RelationshipBody>)

  // ---------- mutations ----------

  /** `require_node_state`. */
  function RequireState(c: Canon, id: NodeId, expected: Lifecycle): Option<Error> {
    if id !in c.nodes then Some(NotFound)
    else if c.nodes[id].state != expected then Some(Conflict)
    else None
  }

  function ThenRequire(first: Option<Error>, second: Option<Error>): Option<Error> {
    if first.Some? then first else second
  }

  function When(failed: bool, error: Error): Option<Error> {
    if failed then Some(error) else None
  }

  /** `validate_property_definition`. */
  function PropertyAllowed(c: Canon, key: Key, kind: ValueKind): Option<Error> {
    if key !in c.propertyDefinitions then None
    else
      var definition := c.propertyDefinitions[key];
      if definition.state.Deprecated? then Some(Conflict)
      else if definition.body.expected.Some? && definition.body.expected.value != kind then Some(InvalidPropertyValue)
      else None
  }

  predicate IsDeprecated(c: Canon, key: Key) {
    key in c.relationshipDefinitions && c.relationshipDefinitions[key].state.Deprecated?
  }

  /** The first check of `apply_mutation` that fails, in the code's order. */
  function MutationGuard(c: Canon, m: Mutation): Option<Error> {
    match m
    case CreateNode(id) => When(id in c.issued, AlreadyExists)
    case SetProperty(id, key, value) =>
      ThenRequire(When(!ValidKey(key), InvalidProperty),
      ThenRequire(When(!value.valid, InvalidPropertyValue),
      ThenRequire(RequireState(c, id, Active),
      PropertyAllowed(c, key, value.kind))))
    case RemoveProperty(id, key) =>
      ThenRequire(When(!ValidKey(key), InvalidProperty),
      ThenRequire(RequireState(c, id, Active),
      When(id in c.nodes && key !in c.nodes[id].properties, NotFound)))
    case AddRelationship(edge) =>
      ThenRequire(When(!ValidKey(edge.key), InvalidRelationship),
      ThenRequire(RequireState(c, edge.source, Active),
      ThenRequire(RequireState(c, edge.target, Active),
      ThenRequire(When(IsDeprecated(c, edge.key), Conflict),
      When(edge in c.relationships, AlreadyExists)))))
    case RemoveRelationship(edge) =>
      ThenRequire(When(!ValidKey(edge.key), InvalidRelationship),
      ThenRequire(When(edge.source !in c.issued, NotFound),
      ThenRequire(When(edge.target !in c.issued, NotFound),
      When(edge !in c.relationships, NotFound))))
    case TombstoneNode(id) => RequireState(c, id, Active)
    case RestoreNode(id) => RequireState(c, id, Tombstoned)
    case PurgeNode(id) => RequireState(c, id, Tombstoned)
  }

  /** `UPDATE nodes SET modified_revision`, which ignores absent rows. */
  function Touch(nodes: map<NodeId, NodeRow>, id: NodeId, revision: nat): map<NodeId, NodeRow> {
    if id in nodes then nodes[id := nodes[id].(modified := revision)] else nodes
  }

  function BlankNode(revision: nat): NodeRow {
    NodeRow(Active, revision, revision, map[])
  }

  function MutationEffect(c: Canon, m: Mutation): Canon
    requires MutationGuard(c, m).None?
  {
    var revision := c.revision;
    match m
    case CreateNode(id) =>
      c.(issued := c.issued + {id}, nodes := c.nodes[id := BlankNode(revision)])
    case SetProperty(id, key, value) =>
      var row := c.nodes[id];
      c.(nodes := c.nodes[id := row.(modified := revision,
                                     properties := row.properties[key := PropertyRow(value, revision)])])
    case RemoveProperty(id, key) =>
      var row := c.nodes[id];
      c.(nodes := c.nodes[id := row.(modified := revision, properties := row.properties - {key})])
    case AddRelationship(edge) =>
      c.(relationships := c.relationships[edge := RelationshipRow(revision, revision)],
         nodes := Touch(Touch(c.nodes, edge.source, revision), edge.target, revision))
    case RemoveRelationship(edge) =>
      c.(relationships := c.relationships - {edge},
         nodes := Touch(Touch(c.nodes, edge.source, revision), edge.target, revision))
    case TombstoneNode(id) =>
      c.(nodes := c.nodes[id := c.nodes[id].(state := Tombstoned, modified := revision)])
    case RestoreNode(id) =>
      c.(nodes := c.nodes[id := c.nodes[id].(state := Active, modified := revision)])
    case PurgeNode(id) =>
      c.(nodes := c.nodes - {id})
  }

  /** The journal row `apply_mutation` writes. */
  function MutationRow(revision: nat, ordinal: nat, m: Mutation): Change {
    match m
    case CreateNode(id) => Change(revision, ordinal, NodeCreated, Some(id), None, None)
    case SetProperty(id, key, _) => Change(revision, ordinal, PropertySet, Some(id), Some(key), None)
    case RemoveProperty(id, key) => Change(revision, ordinal, PropertyRemoved, Some(id), Some(key), None)
    case AddRelationship(edge) =>
      Change(revision, ordinal, RelationshipAdded, Some(edge.source), Some(edge.key), Some(TargetNode(edge.target)))
    case RemoveRelationship(edge) =>
      Change(revision, ordinal, RelationshipRemoved, Some(edge.source), Some(edge.key), Some(TargetNode(edge.target)))
    case TombstoneNode(id) => Change(revision, ordinal, NodeTombstoned, Some(id), None, None)
    case RestoreNode(id) => Change(revision, ordinal, NodeRestored, Some(id), None, None)
    case PurgeNode(id) => Change(revision, ordinal, NodePurged, Some(id), None, None)
  }

  // ---------- transactions ----------

  /** `next_revision`. */
  function Bump(s: Store): Store {
    s.(canon := s.canon.(revision := s.canon.revision + 1))
  }

  function Append(s: Store, canon: Canon, row: Change): Store {
    Store(canon, s.journal + [row])
  }

  function MutateOnce(s: Store, ordinal: nat, m: Mutation): Store
    requires MutationGuard(s.canon, m).None?
  {
    Append(s, MutationEffect(s.canon, m), MutationRow(s.canon.revision, ordinal, m))
  }

  /** The loop of `apply_batch` from position `from` on. */
  function RunBatch(s: Store, mutations: seq<Mutation>, from: nat): Result<Store>
    requires from <= |mutations|
    decreases |mutations| - from
  {
    if from == |mutations| then Ok(s)
    else
      match MutationGuard(s.canon, mutations[from])
      case Some(error) => Err(error)
      case None => RunBatch(MutateOnce(s, from, mutations[from]), mutations, from + 1)
  }

  function CreationBatch(ids: seq<NodeId>): seq<Mutation> {
    seq(|ids|, i requires 0 <= i < |ids| => CreateNode(ids[i]))
  }

  // ---------- definitions ----------

  function FieldsGuard(key: Key, caption: string, origin: string): Option<Error> {
    ThenRequire(When(!ValidKey(key), InvalidProperty), When(IsBlank(caption) || IsBlank(origin), Conflict))
  }

  /** `validate_replacement`. */
  function ReplacementGuard<B>(definitions: map<Key, Definition<B>>, key: Key, replacement: Option<Key>)
    : Option<Error>
  {
    match replacement
    case None => None
    case Some(other) =>
      ThenRequire(When(!ValidKey(other), InvalidProperty),
      ThenRequire(When(other == key, Conflict),
      ThenRequire(When(other !in definitions, DefinitionNotFound),
      When(other in definitions && !definitions[other].state.Live?, Conflict))))
  }

  predicate IsReplacement<B>(definitions: map<Key, Definition<B>>, key: Key) {
    exists other <- definitions.Keys :: definitions[other].replacement == Some(key)
  }

  /** The checks the two definition tables share; `factsUse` says whether a stored
      fact uses the key. */
  function DefinitionGuard<B>(definitions: map<Key, Definition<B>>, op: DefinitionOp<B>,
                              caption: string, origin: string, factsUse: bool): Option<Error>
  {
    match op
    case Register(key, _) =>
      ThenRequire(FieldsGuard(key, caption, origin), When(key in definitions, AlreadyExists))
    case Update(key, _) =>
      ThenRequire(FieldsGuard(key, caption, "existing"), When(key !in definitions, DefinitionNotFound))
    case Deprecate(key, replacement) =>
      ThenRequire(When(!ValidKey(key), InvalidProperty),
      ThenRequire(When(key !in definitions, DefinitionNotFound),
      ReplacementGuard(definitions, key, replacement)))
    case Remove(key) =>
      ThenRequire(When(key !in definitions, DefinitionNotFound),
      When(factsUse || IsReplacement(definitions, key), Conflict))
  }

  /** What a permitted definition change does to its table. */
  function DefinitionEffect<B>(definitions: map<Key, Definition<B>>, op: DefinitionOp<B>, revision: nat)
    : map<Key, Definition<B>>
    requires !op.Register? ==> op.key in definitions
  {
    match op
    case Register(key, body) => definitions[key := Definition(body, Live, None, 1, revision)]
    case Update(key, body) =>
      var row := definitions[key];
      definitions[key := row.(body := body, version := row.version + 1, modified := revision)]
    case Deprecate(key, replacement) =>
      var row := definitions[key];
      definitions[key := row.(state := Deprecated, replacement := replacement, version := row.version + 1,
          modified := revision)]
    case Remove(key) => definitions - {key}
  }

  function EventOf<B>(op: DefinitionOp<B>): DefinitionEvent {
    match op
    case Register(_, _) => Registered
    case Update(_, _) => Updated
    case Deprecate(_, _) => DeprecatedEvent
    case Remove(_) => Removed
  }

  function ReplacementNote<B>(op: DefinitionOp<B>): Option<Descriptor> {
    if op.Deprecate? && op.replacement.Some? then Some(ReplacementKey(op.replacement.value)) else None
  }

  predicate PropertyUsed(c: Canon, key: Key) {
    exists id <- c.nodes.Keys :: key in c.nodes[id].properties
  }

  predicate RelationshipUsed(c: Canon, key: Key) {
    exists edge <- c.relationships.Keys :: edge.key == key
  }

  /** An update keeps the origin the definition was registered with. */
  function StoredPropertyOp(c: Canon, op: DefinitionOp<PropertyBody>): DefinitionOp<PropertyBody> {
    if op.Update? && op.key in c.propertyDefinitions
    then Update(op.key, op.body.(origin := c.propertyDefinitions[op.key].body.origin))
    else op
  }

  function StoreBody(body: RelationshipBody): StoredBody {
    StoredBody(body.forward, if body.inverse.Some? then body.inverse.value else "", body.description, body.origin)
  }

  function StoredRelationshipOp(c: Canon, op: DefinitionOp<RelationshipBody>): DefinitionOp<StoredBody> {
    match op
    case Register(key, body) => Register(key, StoreBody(body))
    case Update(key, body) =>
      Update(key, if key in c.relationshipDefinitions
                  then StoreBody(body).(origin := c.relationshipDefinitions[key].body.origin)
                  else StoreBody(body))
    case Deprecate(key, replacement) => Deprecate(key, replacement)
    case Remove(key) => Remove(key)
  }

  function PropertyOpGuard(c: Canon, op: DefinitionOp<PropertyBody>): Option<Error> {
    var (caption, origin) := if op.Register? || op.Update? then (op.body.caption, op.body.origin) else ("", "");
    ThenRequire(DefinitionGuard(c.propertyDefinitions, op, caption, origin, PropertyUsed(c, op.key)),
      When(op.Update? && op.key in c.propertyDefinitions
           && c.propertyDefinitions[op.key].body.expected != op.body.expected && PropertyUsed(c, op.key), Conflict))
  }

  function RelationshipOpGuard(c: Canon, op: DefinitionOp<RelationshipBody>): Option<Error> {
    var (caption, origin) := if op.Register? || op.Update? then (op.body.forward, op.body.origin) else ("", "");
    DefinitionGuard(c.relationshipDefinitions, StoredRelationshipOp(c, op), caption, origin,
        RelationshipUsed(c, op.key))
  }

  function CommitPropertyOp(s: Store, op: DefinitionOp<PropertyBody>): Result<Store> {
    match PropertyOpGuard(s.canon, op)
    case Some(error) => Err(error)
    case None =>
      var t := Bump(s);
      Ok(Append(t, t.canon.(propertyDefinitions :=
                              DefinitionEffect(t.canon.propertyDefinitions, StoredPropertyOp(s.canon, op),
                                  t.canon.revision)),
                Change(t.canon.revision, 0, PropertyDefinitionChanged(EventOf(op)), None, Some(op.key),
                    ReplacementNote(op))))
  }

  function CommitRelationshipOp(s: Store, op: DefinitionOp<RelationshipBody>): Result<Store> {
    match RelationshipOpGuard(s.canon, op)
    case Some(error) => Err(error)
    case None =>
      var t := Bump(s);
      Ok(Append(t, t.canon.(relationshipDefinitions :=
                              DefinitionEffect(t.canon.relationshipDefinitions, StoredRelationshipOp(s.canon, op),
                                  t.canon.revision)),
                Change(t.canon.revision, 0, RelationshipDefinitionChanged(EventOf(op)), None, Some(op.key),
                    ReplacementNote(op))))
  }

  /** One committing call: the new store, or the error with nothing written. */
  function Commit(s: Store, op: Op): Result<Store> {
    match op
    case Batch(mutations) => if mutations == [] then Err(Conflict) else RunBatch(Bump(s), mutations, 0)
    case CreateNodes(ids) => if ids == [] then Err(Conflict) else RunBatch(Bump(s), CreationBatch(ids), 0)
    case OnProperty(op) => CommitPropertyOp(s, op)
    case OnRelationship(op) => CommitRelationshipOp(s, op)
  }
}
