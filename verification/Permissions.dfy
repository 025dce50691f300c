/** What each committing call asks for and answers, in terms of lifecycle states, property rows,
    relationship rows and definitions, and what it leaves behind. */
module Permissions {
  import opened Model
  import opened Operations
  import opened Meaning

  // ---------- mutations ----------

  /** An identity can be created exactly when it was never issued. */
  lemma CreatePermitted(c: Canon, id: NodeId)
    requires c.nodes.Keys <= c.issued
    ensures MutationGuard(c, CreateNode(id)) == if Resolve(c, id).NeverIssued? then None else Some(AlreadyExists)
  {
  }

  /** Tombstone takes an active node, restore and purge a tombstoned one. */
  lemma LifecyclePermitted(c: Canon, id: NodeId)
    ensures Resolve(c, id).IsActive? ==>
      && MutationGuard(c, TombstoneNode(id)).None?
      && MutationGuard(c, RestoreNode(id)) == MutationGuard(c, PurgeNode(id)) == Some(Conflict)
    ensures Resolve(c, id).IsTombstoned? ==>
      && MutationGuard(c, TombstoneNode(id)) == Some(Conflict)
      && MutationGuard(c, RestoreNode(id)).None? && MutationGuard(c, PurgeNode(id)).None?
    ensures Resolve(c, id).Retired? || Resolve(c, id).NeverIssued? ==>
      MutationGuard(c, TombstoneNode(id)) == MutationGuard(c, RestoreNode(id)) == MutationGuard(c, PurgeNode(id))
        == Some(NotFound)
  {
  }

  /** A property can be set exactly with a valid key and value on an active node, unless its
      definition is deprecated or expects another kind - whether or not the node has it already. */
  lemma SetPermitted(c: Canon, id: NodeId, key: Key, value: PropertyValue)
    ensures var definition := Lookup(c.propertyDefinitions, key);
      MutationGuard(c, SetProperty(id, key, value)).None? <==>
        && ValidKey(key) && value.valid && Resolve(c, id).IsActive?
        && (definition.Some? ==>
              && definition.value.state.Live?
              && (definition.value.body.expected.None? || definition.value.body.expected == Some(value.kind)))
    ensures var refusal := MutationGuard(c, SetProperty(id, key, value));
      refusal.Some? ==>
        refusal.value ==
        if !ValidKey(key) then InvalidProperty
        else if !value.valid then InvalidPropertyValue
        else if Resolve(c, id).Retired? || Resolve(c, id).NeverIssued? then NotFound
        else if Resolve(c, id).IsTombstoned? then Conflict
        else if c.propertyDefinitions[key].state.Deprecated? then Conflict
        else InvalidPropertyValue
  {
  }

  /** A property can be removed exactly from an active node that has it. */
  lemma RemovePropertyPermitted(c: Canon, id: NodeId, key: Key)
    ensures MutationGuard(c, RemoveProperty(id, key)).None? <==>
      ValidKey(key) && Resolve(c, id).IsActive? && PropertyAt(c, id, key).Some?
    ensures var refusal := MutationGuard(c, RemoveProperty(id, key));
      refusal.Some? ==>
        refusal.value ==
        if !ValidKey(key) then InvalidProperty else if Resolve(c, id).IsTombstoned? then Conflict else NotFound
  {
  }

  /** A relationship can be added exactly between active nodes, once, and not under a deprecated
      definition. */
  lemma AddPermitted(c: Canon, edge: RelationshipKey)
    ensures MutationGuard(c, AddRelationship(edge)).None? <==>
      && ValidKey(edge.key) && Resolve(c, edge.source).IsActive? && Resolve(c, edge.target).IsActive?
      && (edge.key in c.relationshipDefinitions ==> c.relationshipDefinitions[edge.key].state.Live?)
      && Lookup(c.relationships, edge).None?
    ensures var refusal := MutationGuard(c, AddRelationship(edge));
      refusal.Some? ==>
        refusal.value ==
        if !ValidKey(edge.key) then InvalidRelationship
        else if edge.source !in c.nodes then NotFound
        else if Resolve(c, edge.source).IsTombstoned? then Conflict
        else if edge.target !in c.nodes then NotFound
        else if Resolve(c, edge.target).IsTombstoned? then Conflict
        else if edge.key in c.relationshipDefinitions && c.relationshipDefinitions[edge.key].state.Deprecated?
        then Conflict
        else AlreadyExists
  {
  }

  /** A relationship can be removed exactly when it is there, whatever became of its endpoints. */
  lemma RemovePermitted(c: Canon, edge: RelationshipKey)
    requires edge in c.relationships ==> edge.source in c.issued && edge.target in c.issued
    ensures MutationGuard(c, RemoveRelationship(edge)).None? <==>
      ValidKey(edge.key) && Lookup(c.relationships, edge).Some?
    ensures var refusal := MutationGuard(c, RemoveRelationship(edge));
      refusal.Some? ==> refusal.value == (if !ValidKey(edge.key) then InvalidRelationship else NotFound)
  {
  }

  // ---------- keys ----------

  function TrimStart(s: string): string {
    if s != "" && IsWhitespace(s[0]) then TrimStart(s[1..]) else s
  }

  function TrimEnd(s: string): string {
    if s != "" && IsWhitespace(s[|s| - 1]) then TrimEnd(s[..|s| - 1]) else s
  }

  lemma {:induction false} TrimStartShortens(s: string)
    ensures |TrimStart(s)| < |s| || TrimStart(s) == s
    ensures TrimStart(s) == s <==> s == "" || !IsWhitespace(s[0])
    ensures TrimStart(s) == "" <==> IsBlank(s)
  {
    if s != "" && IsWhitespace(s[0]) {
      TrimStartShortens(s[1..]);
      assert s == [s[0]] + s[1..];
    }
  }

  lemma {:induction false} TrimEndShortens(s: string)
    ensures |TrimEnd(s)| < |s| || TrimEnd(s) == s
    ensures TrimEnd(s) == s <==> s == "" || !IsWhitespace(s[|s| - 1])
    ensures TrimEnd(s) == "" <==> IsBlank(s)
  {
    if s != "" && IsWhitespace(s[|s| - 1]) {
      TrimEndShortens(s[..|s| - 1]);
      assert s == s[..|s| - 1] + [s[|s| - 1]];
    }
  }

  lemma {:induction false} TrimStartBlank(s: string)
    ensures IsBlank(TrimStart(s)) <==> IsBlank(s)
  {
    if s != "" && IsWhitespace(s[0]) {
      TrimStartBlank(s[1..]);
      assert s == [s[0]] + s[1..];
    }
  }

  /** `validate_key` and the label checks in terms of trimming: a key is non-empty, at most 255
      bytes, its own trimmed self and free of control characters; a label is blank when nothing is
      left of it. */
  lemma KeyRules(key: string)
    ensures ValidKey(key) <==>
      && key != "" && Utf8Length(key) <= 255 && TrimEnd(TrimStart(key)) == key
      && (forall c <- key :: !IsControl(c))
    ensures IsBlank(key) <==> TrimEnd(TrimStart(key)) == ""
  {
    TrimStartShortens(key);
    TrimEndShortens(TrimStart(key));
    TrimStartBlank(key);
  }

  // ---------- batches ----------

  /** One more mutation at the end of a batch: it sees what the others left, and its effect and
      its journal row come last. */
  lemma BatchGrows(s: Store, mutations: seq<Mutation>, m: Mutation)
    ensures Commit(s, Batch([])) == Err(Conflict)
    ensures var before := if mutations == [] then Ok(s.(canon := s.canon.(revision := s.canon.revision + 1)))
                          else Commit(s, Batch(mutations));
      Commit(s, Batch(mutations + [m])) ==
        match before
        case Err(error) => Err(error)
        case Ok(t) =>
          match MutationGuard(t.canon, m)
          case Some(error) => Err(error)
          case None => Ok(Store(MutationEffect(t.canon, m),
                                t.journal + [MutationRow(t.canon.revision, |mutations|, m)]))
  {
    BatchExtends(Bump(s), mutations, m, 0);
  }

  lemma {:induction false} BatchExtends(s: Store, mutations: seq<Mutation>, m: Mutation, from: nat)
    requires from <= |mutations|
    ensures RunBatch(s, mutations + [m], from) ==
      match RunBatch(s, mutations, from)
      case Err(error) => Err(error)
      case Ok(t) =>
        match MutationGuard(t.canon, m)
        case Some(error) => Err(error)
        case None => Ok(Store(MutationEffect(t.canon, m),
                              t.journal + [MutationRow(t.canon.revision, |mutations|, m)]))
    decreases |mutations| - from
  {
    var longer := mutations + [m];
    if from < |mutations| {
      assert longer[from] == mutations[from];
      if MutationGuard(s.canon, mutations[from]).None? {
        BatchExtends(MutateOnce(s, from, mutations[from]), mutations, m, from + 1);
      }
    } else {
      assert longer[from] == m;
    }
  }

  /** Every journal row tells what its mutation did. */
  lemma RowTells(c: Canon, m: Mutation, ordinal: nat)
    requires MutationGuard(c, m).None? && c.nodes.Keys <= c.issued
    ensures var row := MutationRow(c.revision, ordinal, m);
      row.revision == c.revision && row.ordinal == ordinal && row.node.Some?
    ensures var row := MutationRow(c.revision, ordinal, m);
      var before, after := Resolve(c, row.node.value), Resolve(MutationEffect(c, m), row.node.value);
      && (row.kind.NodeCreated? <==> before.NeverIssued? && after.IsActive?)
      && (row.kind.NodeTombstoned? <==> before.IsActive? && after.IsTombstoned?)
      && (row.kind.NodeRestored? <==> before.IsTombstoned? && after.IsActive?)
      && (row.kind.NodePurged? <==> before.IsTombstoned? && after.Retired?)
      && (row.kind.PropertySet? ==>
            && row.key.Some?
            && PropertyAt(MutationEffect(c, m), row.node.value, row.key.value).Some?
            && PropertyAt(MutationEffect(c, m), row.node.value, row.key.value).value.modified == c.revision)
      && (row.kind.PropertyRemoved? ==>
            && row.key.Some?
            && PropertyAt(c, row.node.value, row.key.value).Some?
            && PropertyAt(MutationEffect(c, m), row.node.value, row.key.value).None?)
    ensures var row := MutationRow(c.revision, ordinal, m);
      row.kind.RelationshipAdded? || row.kind.RelationshipRemoved? ==>
        && row.key.Some? && row.descriptor.Some? && row.descriptor.value.TargetNode?
        && var edge := RelationshipKey(row.node.value, row.key.value, row.descriptor.value.target);
           (edge in c.relationships <==> row.kind.RelationshipRemoved?)
           && (edge in MutationEffect(c, m).relationships <==> row.kind.RelationshipAdded?)
  {
  }

  // ---------- definitions ----------

  /** What a committed change of a property definition leaves under its key; everything else stays. */
  lemma PropertyDefinitionAfter(s: Store, op: DefinitionOp<PropertyBody>)
    requires Commit(s, OnProperty(op)).Ok?
    ensures var t, revision := Commit(s, OnProperty(op)).value, s.canon.revision + 1;
      && t.canon == s.canon.(revision := revision, propertyDefinitions := t.canon.propertyDefinitions)
      && (forall key :: key != op.key ==>
            Lookup(t.canon.propertyDefinitions, key) == Lookup(s.canon.propertyDefinitions, key))
      && (!op.Register? ==> op.key in s.canon.propertyDefinitions)
      && Lookup(t.canon.propertyDefinitions, op.key) ==
           match op {
             case Register(_, body) => Some(Definition(body, Live, None, 1, revision))
             case Update(key, body) =>
               var was := s.canon.propertyDefinitions[key];
               Some(Definition(PropertyBody(body.caption, body.description, body.expected, was.body.origin),
                               was.state, was.replacement, was.version + 1, revision))
             case Deprecate(key, replacement) =>
               var was := s.canon.propertyDefinitions[key];
               Some(Definition(was.body, Deprecated, replacement, was.version + 1, revision))
             case Remove(_) => None
           }
  {
  }

  /** The same for a relationship definition, whose absent inverse label is stored as "". */
  lemma RelationshipDefinitionAfter(s: Store, op: DefinitionOp<RelationshipBody>)
    requires Commit(s, OnRelationship(op)).Ok?
    ensures var t, revision := Commit(s, OnRelationship(op)).value, s.canon.revision + 1;
      && t.canon == s.canon.(revision := revision, relationshipDefinitions := t.canon.relationshipDefinitions)
      && (forall key :: key != op.key ==>
            Lookup(t.canon.relationshipDefinitions, key) == Lookup(s.canon.relationshipDefinitions, key))
      && (!op.Register? ==> op.key in s.canon.relationshipDefinitions)
      && Lookup(t.canon.relationshipDefinitions, op.key) ==
           match op {
             case Register(_, body) =>
               var inverse := if body.inverse.Some? then body.inverse.value else "";
               Some(Definition(StoredBody(body.forward, inverse, body.description, body.origin),
                               Live, None, 1, revision))
             case Update(key, body) =>
               var was := s.canon.relationshipDefinitions[key];
               var inverse := if body.inverse.Some? then body.inverse.value else "";
               Some(Definition(StoredBody(body.forward, inverse, body.description, was.body.origin),
                               was.state, was.replacement, was.version + 1, revision))
             case Deprecate(key, replacement) =>
               var was := s.canon.relationshipDefinitions[key];
               Some(Definition(was.body, Deprecated, replacement, was.version + 1, revision))
             case Remove(_) => None
           }
  {
  }

  /** The one journal row of a definition change. */
  lemma DefinitionRows(s: Store, p: DefinitionOp<PropertyBody>, r: DefinitionOp<RelationshipBody>)
    ensures Commit(s, OnProperty(p)).Ok? ==>
      exists row :: Commit(s, OnProperty(p)).value.journal == s.journal + [row]
        && row.revision == s.canon.revision + 1 && row.key == Some(p.key) && row.node.None?
        && row.ordinal == 0 && row.kind == PropertyDefinitionChanged(
             if p.Register? then Registered else if p.Update? then Updated
             else if p.Deprecate? then DeprecatedEvent else Removed)
        && (row.descriptor.Some? <==> p.Deprecate? && p.replacement.Some?)
        && (row.descriptor.Some? ==> row.descriptor == Some(ReplacementKey(p.replacement.value)))
    ensures Commit(s, OnRelationship(r)).Ok? ==>
      exists row :: Commit(s, OnRelationship(r)).value.journal == s.journal + [row]
        && row.revision == s.canon.revision + 1 && row.key == Some(r.key) && row.node.None?
        && row.ordinal == 0 && row.kind == RelationshipDefinitionChanged(
             if r.Register? then Registered else if r.Update? then Updated
             else if r.Deprecate? then DeprecatedEvent else Removed)
        && (row.descriptor.Some? <==> r.Deprecate? && r.replacement.Some?)
        && (row.descriptor.Some? ==> row.descriptor == Some(ReplacementKey(r.replacement.value)))
  {
  }

  /** A replacement has to be another live definition of the table. */
  predicate Replaces<B>(definitions: map<Key, Definition<B>>, key: Key, replacement: Option<Key>) {
    replacement.Some? ==>
      && ValidKey(replacement.value) && replacement.value != key
      && replacement.value in definitions && definitions[replacement.value].state.Live?
  }

  /** A fact uses the key, or a definition names it as its replacement. */
  predicate Named<B>(definitions: map<Key, Definition<B>>, key: Key) {
    exists other <- definitions.Keys :: definitions[other].replacement == Some(key)
  }

  /** When a property definition can be changed. */
  lemma PropertyChangePermitted(c: Canon, op: DefinitionOp<PropertyBody>)
    ensures var used := exists id <- c.nodes.Keys :: PropertyAt(c, id, op.key).Some?;
      PropertyOpGuard(c, op).None? <==>
        match op {
          case Register(key, body) =>
            ValidKey(key) && !IsBlank(body.caption) && !IsBlank(body.origin) && key !in c.propertyDefinitions
          case Update(key, body) =>
            && ValidKey(key) && !IsBlank(body.caption) && key in c.propertyDefinitions
            && (c.propertyDefinitions[key].body.expected != body.expected ==> !used)
          case Deprecate(key, replacement) =>
            ValidKey(key) && key in c.propertyDefinitions && Replaces(c.propertyDefinitions, key, replacement)
          case Remove(key) => key in c.propertyDefinitions && !used && !Named(c.propertyDefinitions, key)
        }
    ensures var refusal := PropertyOpGuard(c, op);
      refusal.Some? ==>
        refusal.value ==
        match op {
          case Register(key, body) =>
            if !ValidKey(key) then InvalidProperty
            else if IsBlank(body.caption) || IsBlank(body.origin) then Conflict
            else AlreadyExists
          case Update(key, body) =>
            if !ValidKey(key) then InvalidProperty
            else if !IsBlank(body.caption) && key !in c.propertyDefinitions then DefinitionNotFound
            else Conflict
          case Deprecate(key, replacement) =>
            if !ValidKey(key) then InvalidProperty
            else if key !in c.propertyDefinitions then DefinitionNotFound
            else if !ValidKey(replacement.value) then InvalidProperty
            else if replacement.value != key && replacement.value !in c.propertyDefinitions then DefinitionNotFound
            else Conflict
          case Remove(key) => if key !in c.propertyDefinitions then DefinitionNotFound else Conflict
        }
  {
    assert PropertyUsed(c, op.key) <==> exists id <- c.nodes.Keys :: PropertyAt(c, id, op.key).Some?;
    ExistingIsNotBlank();
  }

  lemma ExistingIsNotBlank()
    ensures !IsBlank("existing")
  {
    assert !IsWhitespace("existing"[0]);
  }

  /** When a relationship definition can be changed. */
  lemma RelationshipChangePermitted(c: Canon, op: DefinitionOp<RelationshipBody>)
    ensures var used := exists edge <- c.relationships.Keys :: edge.key == op.key;
      RelationshipOpGuard(c, op).None? <==>
        match op {
          case Register(key, body) =>
            ValidKey(key) && !IsBlank(body.forward) && !IsBlank(body.origin) && key !in c.relationshipDefinitions
          case Update(key, body) => ValidKey(key) && !IsBlank(body.forward) && key in c.relationshipDefinitions
          case Deprecate(key, replacement) =>
            && ValidKey(key) && key in c.relationshipDefinitions
            && Replaces(c.relationshipDefinitions, key, replacement)
          case Remove(key) =>
            key in c.relationshipDefinitions && !used && !Named(c.relationshipDefinitions, key)
        }
    ensures var refusal := RelationshipOpGuard(c, op);
      refusal.Some? ==>
        refusal.value ==
        match op {
          case Register(key, body) =>
            if !ValidKey(key) then InvalidProperty
            else if IsBlank(body.forward) || IsBlank(body.origin) then Conflict
            else AlreadyExists
          case Update(key, body) =>
            if !ValidKey(key) then InvalidProperty
            else if IsBlank(body.forward) then Conflict
            else DefinitionNotFound
          case Deprecate(key, replacement) =>
            if !ValidKey(key) then InvalidProperty
            else if key !in c.relationshipDefinitions then DefinitionNotFound
            else if !ValidKey(replacement.value) then InvalidProperty
            else if replacement.value != key && replacement.value !in c.relationshipDefinitions
            then DefinitionNotFound
            else Conflict
          case Remove(key) => if key !in c.relationshipDefinitions then DefinitionNotFound else Conflict
        }
  {
    ExistingIsNotBlank();
  }

  /** Once deprecated, a key takes no new property and no new relationship. */
  lemma DeprecatedRefuses(s: Store, key: Key, replacement: Option<Key>, id: NodeId, value: PropertyValue,
                          edge: RelationshipKey)
    requires value.valid
    ensures var committed := Commit(s, OnProperty(Deprecate(key, replacement)));
      committed.Ok? && Resolve(s.canon, id).IsActive? ==>
        Commit(committed.value, Batch([SetProperty(id, key, value)])) == Err(Conflict)
    ensures var committed := Commit(s, OnRelationship(Deprecate(key, replacement)));
      committed.Ok? && edge.key == key
        && Resolve(s.canon, edge.source).IsActive? && Resolve(s.canon, edge.target).IsActive? ==>
        Commit(committed.value, Batch([AddRelationship(edge)])) == Err(Conflict)
  {
    if Commit(s, OnProperty(Deprecate(key, replacement))).Ok? {
      BatchGrows(Commit(s, OnProperty(Deprecate(key, replacement))).value, [], SetProperty(id, key, value));
      assert [] + [SetProperty(id, key, value)] == [SetProperty(id, key, value)];
    }
    if Commit(s, OnRelationship(Deprecate(key, replacement))).Ok? {
      BatchGrows(Commit(s, OnRelationship(Deprecate(key, replacement))).value, [], AddRelationship(edge));
      assert [] + [AddRelationship(edge)] == [AddRelationship(edge)];
    }
  }
}
