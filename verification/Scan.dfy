/** Canonical scans over one pinned snapshot: `StableReadSnapshot` of
    `src/record_store/stable_scan.rs`. */
module Scan {
  import opened Model
  import opened Keyset

  // ---------- the orders SQLite compares keys in ----------

  predicate IdLess(a: NodeId, b: NodeId) {
    a < b
  }

  /** BINARY collation: code points, which is also the order of the UTF-8 bytes. */
  predicate TextLess(a: string, b: string) {
    b != "" && (a == "" || a[0] < b[0] || (a[0] == b[0] && TextLess(a[1..], b[1..])))
  }

  /** Source, then key, then target: the first difference decides. */
  predicate EdgeLess(a: RelationshipKey, b: RelationshipKey) {
    if a.source != b.source then a.source < b.source
    else if a.key != b.key then TextLess(a.key, b.key)
    else a.target < b.target
  }

  /** The three alternatives of the continuation query. */
  predicate EdgePast(after: RelationshipKey, edge: RelationshipKey) {
    || edge.source > after.source
    || (edge.source == after.source && TextLess(after.key, edge.key))
    || (edge.source == after.source && edge.key == after.key && edge.target > after.target)
  }

  lemma IdOrder()
    ensures StrictOrder(IdLess)
  {
  }

  lemma {:induction false} TextIrreflexive(a: string)
    ensures !TextLess(a, a)
  {
    if a != "" {
      TextIrreflexive(a[1..]);
    }
  }

  lemma {:induction false} TextTotal(a: string, b: string)
    ensures a == b || TextLess(a, b) || TextLess(b, a)
  {
    if a != "" && b != "" && a[0] == b[0] {
      TextTotal(a[1..], b[1..]);
      assert a == [a[0]] + a[1..] && b == [b[0]] + b[1..];
    }
  }

  lemma {:induction false} TextTransitive(a: string, b: string, c: string)
    requires TextLess(a, b) && TextLess(b, c)
    ensures TextLess(a, c)
  {
    if a != "" && a[0] == b[0] == c[0] {
      TextTransitive(a[1..], b[1..], c[1..]);
    }
  }

  lemma TextOrder()
    ensures StrictOrder(TextLess)
  {
    forall a ensures !TextLess(a, a) { TextIrreflexive(a); }
    forall a, b | a != b ensures TextLess(a, b) || TextLess(b, a) { TextTotal(a, b); }
    forall a, b, c | TextLess(a, b) && TextLess(b, c) ensures TextLess(a, c) { TextTransitive(a, b, c); }
  }

  lemma EdgeOrder()
    ensures StrictOrder(EdgeLess)
  {
    forall a, b | a != b ensures EdgeLess(a, b) || EdgeLess(b, a) { TextTotal(a.key, b.key); }
    forall a, b, c | EdgeLess(a, b) && EdgeLess(b, c) ensures EdgeLess(a, c) {
      EdgeTransitive(a, b, c);
    }
    forall a ensures !EdgeLess(a, a) { }
  }

  lemma EdgeTransitive(a: RelationshipKey, b: RelationshipKey, c: RelationshipKey)
    requires EdgeLess(a, b) && EdgeLess(b, c)
    ensures EdgeLess(a, c)
  {
    if a.source == b.source == c.source && a.key != b.key && b.key != c.key {
      TextTransitive(a.key, b.key, c.key);
      TextIrreflexive(a.key);
    }
  }

  /** The three-way predicate is exactly lexicographic "greater than". */
  lemma PastIsLexicographic(after: RelationshipKey, edge: RelationshipKey)
    ensures EdgePast(after, edge) <==> EdgeLess(after, edge)
  {
    TextIrreflexive(edge.key);
  }

  /** A text comes first when it is a proper prefix, or smaller at the first difference. */
  lemma {:induction false} TextFirstDifference(a: string, b: string, at: nat)
    requires at <= |a| && at <= |b| && a[..at] == b[..at]
    ensures at == |a| < |b| ==> TextLess(a, b)
    ensures at == |b| < |a| ==> !TextLess(a, b)
    ensures at < |a| && at < |b| && a[at] != b[at] ==> (TextLess(a, b) <==> a[at] < b[at])
  {
    if at > 0 {
      assert a[0] == a[..at][0] == b[..at][0] == b[0];
      assert a[1..][..at - 1] == a[..at][1..] == b[1..][..at - 1];
      TextFirstDifference(a[1..], b[1..], at - 1);
    }
  }

  // ---------- cursors ----------

  datatype Collection = IssuedIds | Nodes | Properties(node: NodeId) | Relationships

  /** A decoded token; `after` is absent when its texts are not a key of the collection. */
  datatype Cursor<K> = Cursor(collection: Collection, revision: nat, after: Option<K>)

  datatype ScanPage<T, K> = ScanPage(items: seq<T>, next: Option<Cursor<K>>)

  datatype Node = Node(id: NodeId, state: Lifecycle)
  datatype Property = Property(key: Key, value: PropertyValue)

  function After<K>(cursor: Option<Cursor<K>>): Option<K> {
    if cursor.Some? then cursor.value.after else None
  }

  function NodeIds(items: seq<Node>): seq<NodeId> {
    seq(|items|, i requires 0 <= i < |items| => items[i].id)
  }

  function PropertyNames(items: seq<Property>): seq<Key> {
    seq(|items|, i requires 0 <= i < |items| => items[i].key)
  }

  class StableReadSnapshot {
    const canon: Canon

    constructor (pinned: Canon)
      ensures canon == pinned
    {
      canon := pinned;
    }

    /** The cursors this snapshot takes: its own, and the absent one. */
    predicate Admits<K>(cursor: Option<Cursor<K>>, collection: Collection) {
      cursor.Some? ==>
        && cursor.value.collection == collection
        && cursor.value.revision == canon.revision
        && cursor.value.after.Some?
    }

    /** The cursor of a page's continuation, which this snapshot will take again. */
    function Issue<K>(collection: Collection, next: Option<K>): (cursor: Option<Cursor<K>>)
      ensures After(cursor) == next && Admits(cursor, collection)
    {
      if next.Some? then Some(Cursor(collection, canon.revision, next)) else None
    }

    /** `payload` and the key decoding of `after_string`, `after_node_id`, `after_relationship`. */
    method Payload<K>(cursor: Option<Cursor<K>>, collection: Collection) returns (r: Result<Option<K>>)
      ensures r == if Admits(cursor, collection) then Ok(After(cursor)) else Err(Conflict)
    {
      match cursor {
        case None => return Ok(None);
        case Some(payload) =>
          if payload.collection != collection {
            return Err(Conflict);
          }
          if payload.revision != canon.revision {
            return Err(Conflict);
          }
          if payload.after.None? {
            return Err(Conflict);
          }
          return Ok(payload.after);
      }
    }

    /** `issued_ids_page`. */
    method IssuedIdsPage(limit: nat, cursor: Option<Cursor<NodeId>>) returns (r: Result<ScanPage<NodeId, NodeId>>)
      ensures r.Ok? <==> Admits(cursor, IssuedIds)
      ensures r.Err? ==> r.error == Conflict
      ensures r.Ok? ==> IsPage(IdLess, canon.issued, After(cursor), BoundedLimit(limit),
          Page(r.value.items, After(r.value.next)))
      ensures r.Ok? ==> Admits(r.value.next, IssuedIds)
      ensures r.Ok? ==> forall i, j :: 0 <= i < j < |r.value.items| ==> r.value.items[i] < r.value.items[j]
    {
      var after := Payload(cursor, IssuedIds);
      if after.Err? {
        return Err(after.error);
      }
      IdOrder();
      var rows := Query(IdLess, canon.issued, after.value, BoundedLimit(limit) + 1);
      var page := FinishPage(IdLess, canon.issued, after.value, BoundedLimit(limit), rows);
      return Ok(ScanPage(page.items, Issue(IssuedIds, page.next)));
    }

    /** `nodes_page`. */
    method NodesPage(limit: nat, cursor: Option<Cursor<NodeId>>) returns (r: Result<ScanPage<Node, NodeId>>)
      ensures r.Ok? <==> Admits(cursor, Nodes)
      ensures r.Err? ==> r.error == Conflict
      ensures r.Ok? ==> IsPage(IdLess, canon.nodes.Keys, After(cursor), BoundedLimit(limit),
                               Page(NodeIds(r.value.items), After(r.value.next)))
      ensures r.Ok? ==>
        forall item <- r.value.items :: item.id in canon.nodes && item.state == canon.nodes[item.id].state
      ensures r.Ok? ==> Admits(r.value.next, Nodes)
      ensures r.Ok? ==> forall i, j :: 0 <= i < j < |r.value.items| ==> r.value.items[i].id < r.value.items[j].id
    {
      var after := Payload(cursor, Nodes);
      if after.Err? {
        return Err(after.error);
      }
      IdOrder();
      var rows := Query(IdLess, canon.nodes.Keys, after.value, BoundedLimit(limit) + 1);
      var page := FinishPage(IdLess, canon.nodes.Keys, after.value, BoundedLimit(limit), rows);
      var items := [];
      for i := 0 to |page.items|
        invariant |items| == i
        invariant forall j :: 0 <= j < i ==>
          page.items[j] in canon.nodes && items[j] == Node(page.items[j], canon.nodes[page.items[j]].state)
      {
        assert page.items[i] in Beyond(IdLess, canon.nodes.Keys, after.value);
        items := items + [Node(page.items[i], canon.nodes[page.items[i]].state)];
      }
      assert NodeIds(items) == page.items;
      return Ok(ScanPage(items, Issue(Nodes, page.next)));
    }

    /** `properties_page`. */
    method PropertiesPage(node: NodeId, limit: nat, cursor: Option<Cursor<Key>>)
        returns (r: Result<ScanPage<Property, Key>>)
      ensures node !in canon.nodes ==> r == Err(NotFound)
      ensures node in canon.nodes ==> (r.Ok? <==> Admits(cursor, Properties(node))) && (r.Err? ==> r.error == Conflict)
      ensures r.Ok? ==>
        && IsPage(TextLess, canon.nodes[node].properties.Keys, After(cursor), BoundedLimit(limit),
                  Page(PropertyNames(r.value.items), After(r.value.next)))
        && forall item <- r.value.items ::
             item.key in canon.nodes[node].properties && item.value == canon.nodes[node].properties[item.key].value
      ensures r.Ok? ==> Admits(r.value.next, Properties(node))
    {
      if node !in canon.nodes {
        return Err(NotFound);
      }
      var after := Payload(cursor, Properties(node));
      if after.Err? {
        return Err(after.error);
      }
      TextOrder();
      var owned := canon.nodes[node].properties;
      var rows := Query(TextLess, owned.Keys, after.value, BoundedLimit(limit) + 1);
      var page := FinishPage(TextLess, owned.Keys, after.value, BoundedLimit(limit), rows);
      var items := [];
      for i := 0 to |page.items|
        invariant |items| == i
        invariant forall j :: 0 <= j < i ==>
          page.items[j] in owned && items[j] == Property(page.items[j], owned[page.items[j]].value)
      {
        assert page.items[i] in Beyond(TextLess, owned.Keys, after.value);
        items := items + [Property(page.items[i], owned[page.items[i]].value)];
      }
      assert PropertyNames(items) == page.items;
      return Ok(ScanPage(items, Issue(Properties(node), page.next)));
    }

    /** `relationships_page`, with its two queries. */
    method RelationshipsPage(limit: nat, cursor: Option<Cursor<RelationshipKey>>)
      returns (r: Result<ScanPage<RelationshipKey, RelationshipKey>>)
      ensures r.Ok? <==> Admits(cursor, Relationships)
      ensures r.Err? ==> r.error == Conflict
      ensures r.Ok? ==> IsPage(EdgeLess, canon.relationships.Keys, After(cursor), BoundedLimit(limit),
                               Page(r.value.items, After(r.value.next)))
      ensures r.Ok? ==> Admits(r.value.next, Relationships)
      ensures r.Ok? ==> forall i, j :: 0 <= i < j < |r.value.items| ==>
        var (a, b) := (r.value.items[i], r.value.items[j]);
        || a.source < b.source
        || (a.source == b.source && TextLess(a.key, b.key))
        || (a.source == b.source && a.key == b.key && a.target < b.target)
    {
      var after := Payload(cursor, Relationships);
      if after.Err? {
        return Err(after.error);
      }
      EdgeOrder();
      var rows;
      if after.value.Some? {
        var past := set edge | edge in canon.relationships && EdgePast(after.value.value, edge);
        rows := Query(EdgeLess, past, None, BoundedLimit(limit) + 1);
        forall edge ensures edge in Beyond(EdgeLess, past, None)
            <==> edge in Beyond(EdgeLess, canon.relationships.Keys, after.value)
        {
          PastIsLexicographic(after.value.value, edge);
        }
      } else {
        rows := Query(EdgeLess, canon.relationships.Keys, None, BoundedLimit(limit) + 1);
      }
      var page := FinishPage(EdgeLess, canon.relationships.Keys, after.value, BoundedLimit(limit), rows);
      return Ok(ScanPage(page.items, Issue(Relationships, page.next)));
    }

    /** Follow the cursors of `relationships_page` to the end, asking for `limits(i)` rows of
        the i-th page: the canonical relationships in strict order, each once. */
    method AllRelationships(limits: nat -> nat) returns (all: seq<RelationshipKey>)
      ensures Lists(EdgeLess, canon.relationships.Keys, all)
    {
      EdgeOrder();
      var keys := canon.relationships.Keys;
      all := [];
      var cursor: Option<Cursor<RelationshipKey>> := None;
      var count := 0;
      ghost var taken: seq<Read<RelationshipKey>> := [];
      var more := true;
      while more
        invariant Traversal(EdgeLess, taken) && all == Delivered(taken)
        invariant forall read <- taken :: read.keys == keys
        invariant Admits(cursor, Relationships) && After(cursor) == Continuation(taken)
        invariant more <==> taken == [] || cursor.Some?
        decreases more, |Beyond(EdgeLess, keys, After(cursor))|
      {
        var r := RelationshipsPage(limits(count), cursor);
        var page := r.value;
        ghost var read := Read(keys, limits(count), Page(page.items, After(page.next)));
        assert (taken + [read])[..|taken|] == taken;
        if page.next.Some? {
          PageProgress(EdgeLess, keys, After(cursor), BoundedLimit(limits(count)), read.page);
        }
        taken := taken + [read];
        all, cursor, count := all + page.items, page.next, count + 1;
        more := cursor.Some?;
      }
      ScanExact(EdgeLess, taken, keys);
    }
  }

  /** A cursor is good for the snapshots of its own revision and for its own collection only. */
  lemma CursorsArePinned<K>(a: StableReadSnapshot, b: StableReadSnapshot, c: Collection, d: Collection,
                            cursor: Option<Cursor<K>>)
    requires cursor.Some? && a.Admits(cursor, c)
    ensures b.Admits(cursor, d) <==> a.canon.revision == b.canon.revision && c == d
    ensures cursor.value.after.Some?
  {
  }
}
