/** The canonical data of a Record Store: what the SQLite tables of
    `src/record_store/schema.rs` hold, with a table per map.

    A `NodeId` is the big-endian reading of its 16 UUID bytes, so `<` on it is the
    byte order SQLite uses for BLOB columns. */
module Model {

  datatype Option<+T> = None | Some(value: T)

  /** The error variants the modelled code returns, without their texts. */
  datatype Error =
    | NotFound
    | AlreadyExists
    | Conflict
    | InvalidProperty
    | InvalidPropertyValue
    | InvalidRelationship
    | DefinitionNotFound
    | CorruptStore
    | ConstraintViolation
    | UnsupportedSchema
    | StoreUnavailable

  datatype Result<+T> = Ok(value: T) | Err(error: Error)

  function Lookup<K, V>(m: map<K, V>, k: K): Option<V> {
    if k in m then Some(m[k]) else None
  }

  lemma SubsetSmaller<K>(small: set<K>, large: set<K>, extra: K)
    requires small <= large && extra in large && extra !in small
    ensures |small| < |large|
    decreases small
  {
    if small != {} {
      var x :| x in small;
      SubsetSmaller(small - {x}, large - {x}, extra);
    }
  }

  type NodeId = nat
  type Key = string

  const ID_LIMIT: nat := 0x1_00000000_00000000_00000000_00000000

  /** What `NodeId` guarantees of its value: 128 bits with version nibble 7. */
  predicate IsUuid7(id: NodeId) {
    id < ID_LIMIT && id / 0x1000_0000_0000_0000_0000 % 16 == 7
  }

  datatype Lifecycle = Active | Tombstoned

  datatype ValueKind =
    | NullKind | BooleanKind | IntegerKind | RealKind | TextKind
    | DateKind | DateTimeKind | ListKind | StructuredKind

  /** A property value: its kind, the text it is carried as, and the verdict of
      `PropertyValue::validate` on it. */
  datatype PropertyValue = PropertyValue(kind: ValueKind, carrier: string, valid: bool)

  datatype PropertyRow = PropertyRow(value: PropertyValue, modified: nat)

  /** A row of `nodes` with the `node_properties` rows it owns. */
  datatype NodeRow = NodeRow(state: Lifecycle, created: nat, modified: nat, properties: map<Key, PropertyRow>)

  datatype RelationshipKey = RelationshipKey(source: NodeId, key: Key, target: NodeId)
  datatype RelationshipRow = RelationshipRow(created: nat, modified: nat)

  datatype DefinitionState = Live | Deprecated

  datatype Definition<+B> =
    Definition(body: B, state: DefinitionState, replacement: Option<Key>, version: nat, modified: nat)

  datatype PropertyBody =
    PropertyBody(caption: string, description: Option<string>, expected: Option<ValueKind>, origin: string)

  /** A relationship definition as callers and projections see it. */
  datatype RelationshipBody =
    RelationshipBody(forward: string, inverse: Option<string>, description: Option<string>, origin: string)

  /** The same definition as its table row holds it: an absent inverse label is "". */
  datatype StoredBody =
    StoredBody(forward: string, inverse: string, description: Option<string>, origin: string)

  datatype Canon = Canon(
    revision: nat,
    issued: set<NodeId>,
    nodes: map<NodeId, NodeRow>,
    relationships: map<RelationshipKey, RelationshipRow>,
    propertyDefinitions: map<Key, Definition<PropertyBody>>,
    relationshipDefinitions: map<Key, Definition<StoredBody>>)

  const EMPTY_CANON := Canon(0, {}, map[], map[], map[], map[])

  // ---------- the change journal ----------

  datatype DefinitionEvent = Registered | Updated | DeprecatedEvent | Removed

  datatype ChangeKind =
    | NodeCreated | NodeTombstoned | NodeRestored | NodePurged
    | PropertySet | PropertyRemoved
    | RelationshipAdded | RelationshipRemoved
    | PropertyDefinitionChanged(event: DefinitionEvent)
    | RelationshipDefinitionChanged(event: DefinitionEvent)
    | UnknownKind

  datatype Descriptor = TargetNode(target: NodeId) | ReplacementKey(replacement: Key)

  datatype Change = Change(
    revision: nat, ordinal: nat, kind: ChangeKind,
    node: Option<NodeId>, key: Option<Key>, descriptor: Option<Descriptor>)

  /** The whole content of `records.sqlite`; the journal is listed in
      (revision, ordinal) order. */
  datatype Store = Store(canon: Canon, journal: seq<Change>)

  // ---------- keys ----------

  predicate IsWhitespace(c: char) {
    var n := c as int;
    || 9 <= n <= 13 || n == 32 || n == 0x85 || n == 0xA0 || n == 0x1680
    || 0x2000 <= n <= 0x200A || n == 0x2028 || n == 0x2029 || n == 0x202F
    || n == 0x205F || n == 0x3000
  }

  predicate IsControl(c: char) {
    var n := c as int;
    n < 32 || 127 <= n < 160
  }

  function Utf8Width(c: char): nat {
    var n := c as int;
    if n < 0x80 then 1 else if n < 0x800 then 2 else if n < 0x10000 then 3 else 4
  }

  function Utf8Length(s: string): nat {
    if s == [] then 0 else Utf8Width(s[0]) + Utf8Length(s[1..])
  }

  predicate ValidKey(key: Key) {
    && key != ""
    && Utf8Length(key) <= 255
    && !IsWhitespace(key[0]) && !IsWhitespace(key[|key| - 1])
    && forall c <- key :: !IsControl(c)
  }

  predicate IsBlank(s: string) {
    forall c <- s :: IsWhitespace(c)
  }

  // ---------- what every canonical state keeps ----------

  /** Following replacements from `key` ends, without dangling, within `steps` hops. */
  predicate EndsWithin<B>(definitions: map<Key, Definition<B>>, key: Key, steps: nat)
    decreases steps
  {
    && key in definitions
    && match definitions[key].replacement {
         case None => true
         case Some(next) => steps > 0 && EndsWithin(definitions, next, steps - 1)
       }
  }

  ghost predicate Ends<B>(definitions: map<Key, Definition<B>>, key: Key) {
    exists steps: nat :: EndsWithin(definitions, key, steps)
  }

  ghost predicate DefinitionsOk<B>(definitions: map<Key, Definition<B>>, revision: nat) {
    forall key <- definitions.Keys ::
      && key != ""
      && 0 < definitions[key].version
      && 0 < definitions[key].modified <= revision
      && (definitions[key].state.Live? ==> definitions[key].replacement.None?)
      && Ends(definitions, key)
  }

  ghost predicate NodeOk(row: NodeRow, revision: nat) {
    && 0 < row.created <= row.modified <= revision
    && forall key <- row.properties.Keys :: key != "" && 0 < row.properties[key].modified <= row.modified
  }

  ghost predicate Consistent(c: Canon) {
    && c.nodes.Keys <= c.issued
    && (forall id <- c.nodes.Keys :: NodeOk(c.nodes[id], c.revision))
    && (forall edge <- c.relationships.Keys ::
          && edge.source in c.issued && edge.target in c.issued && edge.key != ""
          && 0 < c.relationships[edge].created <= c.relationships[edge].modified <= c.revision)
    && DefinitionsOk(c.propertyDefinitions, c.revision)
    && DefinitionsOk(c.relationshipDefinitions, c.revision)
  }
}
