/** Watermark traversal of the live Index: `list_nodes_cursor` of `src/index/query.rs`, with
    commits and Index synchronisation between the pages. */
module Traversals {
  import opened Model
  import opened Commits
  import opened History
  import opened Index
  import opened IndexStores
  import opened Keyset

  /** What the traversal orders by: newest modification first, then identity. */
  datatype Position = Position(modified: nat, id: NodeId)

  predicate Sooner(a: Position, b: Position) {
    a.modified > b.modified || (a.modified == b.modified && a.id < b.id)
  }

  lemma SoonerOrder()
    ensures StrictOrder(Sooner)
  {
  }

  /** A decoded token; `after` is absent when its texts are not a revision and an identity. */
  datatype NodesCursor = NodesCursor(revision: nat, after: Option<Position>)

  datatype ListedNode = ListedNode(id: NodeId, state: Lifecycle)

  datatype NodesPage = NodesPage(items: seq<ListedNode>, next: Option<NodesCursor>)

  /** The revision a traversal is pinned to. */
  function Watermark(t: Tables, cursor: Option<NodesCursor>): nat {
    if cursor.Some? then cursor.value.revision else t.applied
  }

  function AfterOf(cursor: Option<NodesCursor>): Option<Position> {
    if cursor.Some? then cursor.value.after else None
  }

  /** The cursors the Index takes at its present revision. */
  predicate Admitted(t: Tables, cursor: Option<NodesCursor>) {
    cursor.Some? ==>
      && cursor.value.revision <= t.applied
      && cursor.value.after.Some?
      && 0 < cursor.value.after.value.modified <= cursor.value.revision
  }

  /** The rows with `modified_revision <= watermark`. */
  function Positions(nodes: map<NodeId, IndexedNode>, watermark: nat): set<Position> {
    set id | id in nodes && nodes[id].modified <= watermark :: Position(nodes[id].modified, id)
  }

  /** The positions of listed nodes in the tables they were read from. */
  function PositionsOf(nodes: map<NodeId, IndexedNode>, items: seq<ListedNode>): seq<Position> {
    seq(|items|, i requires 0 <= i < |items| =>
      Position(if items[i].id in nodes then nodes[items[i].id].modified else 0, items[i].id))
  }

  /** What one successful call answers. */
  ghost predicate Answered(t: Tables, limit: nat, cursor: Option<NodesCursor>, page: NodesPage) {
    && Admitted(t, cursor)
    && (page.next.Some? ==> page.next.value.revision == Watermark(t, cursor) && page.next.value.after.Some?)
    && (forall item <- page.items :: item.id in t.nodes && item.state == t.nodes[item.id].state)
    && IsPage(Sooner, Positions(t.nodes, Watermark(t, cursor)), AfterOf(cursor), BoundedLimit(limit),
              Page(PositionsOf(t.nodes, page.items), AfterOf(page.next)))
  }

  /** `list_nodes_cursor`. */
  method ListNodesCursor(index: IndexStore, limit: nat, cursor: Option<NodesCursor>) returns (r: Result<NodesPage>)
    ensures r.Ok? <==> index.connected && Admitted(index.tables, cursor)
    ensures r.Err? ==> r.error == if index.connected then Conflict else StoreUnavailable
    ensures r.Ok? ==> Answered(index.tables, limit, cursor, r.value)
  {
    if !index.connected {
      return Err(StoreUnavailable);
    }
    var t := index.tables;
    var revision, after := t.applied, None;
    match cursor {
      case None =>
      case Some(payload) =>
        if payload.revision > t.applied {
          return Err(Conflict);
        }
        if payload.after.None? {
          return Err(Conflict);
        }
        var modified := payload.after.value.modified;
        if modified == 0 || modified > payload.revision {
          return Err(Conflict);
        }
        revision, after := payload.revision, payload.after;
    }
    SoonerOrder();
    var keys := Positions(t.nodes, revision);
    var rows := Query(Sooner, keys, after, BoundedLimit(limit) + 1);
    var page := FinishPage(Sooner, keys, after, BoundedLimit(limit), rows);
    var items := [];
    for i := 0 to |page.items|
      invariant |items| == i
      invariant forall j :: 0 <= j < i ==>
        && page.items[j].id in t.nodes && t.nodes[page.items[j].id].modified == page.items[j].modified
        && items[j] == ListedNode(page.items[j].id, t.nodes[page.items[j].id].state)
    {
      assert page.items[i] in Beyond(Sooner, keys, after);
      items := items + [ListedNode(page.items[i].id, t.nodes[page.items[i].id].state)];
    }
    assert PositionsOf(t.nodes, items) == page.items;
    return Ok(NodesPage(items, if page.next.Some? then Some(NodesCursor(revision, page.next)) else None));
  }

  /** The rows of a page: newest modification first and, at the same revision, ascending identity;
      none modified after the watermark. */
  lemma PageInOrder(t: Tables, limit: nat, cursor: Option<NodesCursor>, page: NodesPage, i: nat, j: nat)
    requires Answered(t, limit, cursor, page) && i < j < |page.items|
    ensures page.items[i].id in t.nodes && page.items[j].id in t.nodes
    ensures var (a, b) := (t.nodes[page.items[i].id].modified, t.nodes[page.items[j].id].modified);
      && (a > b || (a == b && page.items[i].id < page.items[j].id))
      && a <= (if cursor.Some? then cursor.value.revision else t.applied)
  {
    assert page.items[i] in page.items && page.items[j] in page.items;
    var positions := PositionsOf(t.nodes, page.items);
    assert positions[i] in positions;
    assert Sooner(positions[i], positions[j]);
  }

  /** The cursors that are refused: of a revision the Index does not have, without a readable key, or
      with a key no row of the watermark can have. */
  lemma RefusedCursors(t: Tables, c: NodesCursor)
    ensures !Admitted(t, Some(c)) <==>
      || c.revision > t.applied || c.after.None?
      || c.after.value.modified == 0 || c.after.value.modified > c.revision
    ensures Admitted(t, None)
  {
  }

  // ---------- a whole traversal ----------

  /** A successful call: the tables it read, the limit asked for, and the page. */
  datatype Call = Call(tables: Tables, limit: nat, page: NodesPage)

  function NextCursor(calls: seq<Call>): Option<NodesCursor> {
    if calls == [] then None else calls[|calls| - 1].page.next
  }

  /** Calls that start without a cursor and pass on every cursor they get. */
  ghost predicate Followed(calls: seq<Call>)
    decreases |calls|
  {
    calls != [] ==>
      var earlier, last := calls[..|calls| - 1], calls[|calls| - 1];
      && Followed(earlier)
      && (earlier != [] ==> NextCursor(earlier).Some?)
      && Answered(last.tables, last.limit, NextCursor(earlier), last.page)
  }

  /** The nodes the calls delivered, in order. */
  function Listed(calls: seq<Call>): seq<ListedNode>
    decreases |calls|
  {
    if calls == [] then [] else Listed(calls[..|calls| - 1]) + calls[|calls| - 1].page.items
  }

  function ReadOf(call: Call, watermark: nat): Read<Position> {
    Read(Positions(call.tables.nodes, watermark), call.limit,
         Page(PositionsOf(call.tables.nodes, call.page.items), AfterOf(call.page.next)))
  }

  function Reads(calls: seq<Call>, watermark: nat): seq<Read<Position>> {
    seq(|calls|, i requires 0 <= i < |calls| => ReadOf(calls[i], watermark))
  }

  /** All pages of a traversal use the watermark of the first, none reads below it, and their
      positions are a keyset traversal. */
  lemma {:induction false} FollowedTraversal(calls: seq<Call>, watermark: nat)
    requires Followed(calls) && (calls != [] ==> calls[0].tables.applied == watermark)
    ensures Traversal(Sooner, Reads(calls, watermark))
    ensures NextCursor(calls).Some? ==> NextCursor(calls).value.revision == watermark
    ensures forall call <- calls :: watermark <= call.tables.applied
    decreases |calls|
  {
    if calls != [] {
      var earlier, last := calls[..|calls| - 1], calls[|calls| - 1];
      FollowedTraversal(earlier, watermark);
      assert Reads(calls, watermark)[..|calls| - 1] == Reads(earlier, watermark);
      assert Watermark(last.tables, NextCursor(earlier)) == watermark;
      assert AfterOf(NextCursor(earlier)) == Continuation(Reads(earlier, watermark));
      assert calls == earlier + [last];
    }
  }

  function Ids(positions: seq<Position>): seq<NodeId> {
    seq(|positions|, i requires 0 <= i < |positions| => positions[i].id)
  }

  function ListedIds(items: seq<ListedNode>): seq<NodeId> {
    seq(|items|, i requires 0 <= i < |items| => items[i].id)
  }

  lemma {:induction false} ListedPositions(calls: seq<Call>, watermark: nat)
    ensures ListedIds(Listed(calls)) == Ids(Delivered(Reads(calls, watermark)))
    decreases |calls|
  {
    if calls != [] {
      var earlier, last := calls[..|calls| - 1], calls[|calls| - 1];
      ListedPositions(earlier, watermark);
      assert Reads(calls, watermark)[..|calls| - 1] == Reads(earlier, watermark);
      var items, positions := last.page.items, PositionsOf(last.tables.nodes, last.page.items);
      assert ListedIds(items) == Ids(positions);
      assert ListedIds(Listed(earlier) + items) == ListedIds(Listed(earlier)) + ListedIds(items);
      var delivered := Delivered(Reads(earlier, watermark));
      assert Ids(delivered + positions) == Ids(delivered) + Ids(positions);
    }
  }

  /** The Index was the projection of some revision of the history at every call. */
  ghost predicate ReadFrom(h: seq<Canon>, calls: seq<Call>) {
    forall call <- calls :: call.tables.applied < |h| && call.tables == Project(h[call.tables.applied])
  }

  lemma DeliveredRow(h: seq<Canon>, calls: seq<Call>, watermark: nat, p: Position) returns (at: nat)
    requires ReadFrom(h, calls) && Followed(calls) && calls != [] && calls[0].tables.applied == watermark
    requires p in Delivered(Reads(calls, watermark))
    ensures watermark <= at < |h| && p.id in h[at].nodes && h[at].nodes[p.id].modified == p.modified <= watermark
  {
    FollowedTraversal(calls, watermark);
    var i := DeliveredFrom(Sooner, Reads(calls, watermark), p);
    assert calls[i] in calls;
    at := calls[i].tables.applied;
  }

  /** A row is at one position only, whenever it is read, as long as it is not past the watermark. */
  lemma OnePosition(h: seq<Canon>, watermark: nat, id: NodeId, i: nat, j: nat)
    requires HistoryOk(h) && watermark <= i < |h| && watermark <= j < |h|
    requires id in h[i].nodes && h[i].nodes[id].modified <= watermark
    requires id in h[j].nodes && h[j].nodes[id].modified <= watermark
    ensures h[i].nodes[id].modified == h[j].nodes[id].modified
  {
    if i <= j {
      assert Evolves(i, h[i], h[j]);
    } else {
      assert Evolves(j, h[j], h[i]);
    }
  }

  /** No node is delivered twice, whatever is committed between the pages. */
  lemma NoNodeTwice(h: seq<Canon>, calls: seq<Call>, i: nat, j: nat)
    requires HistoryOk(h) && ReadFrom(h, calls) && Followed(calls)
    requires i < j < |Listed(calls)|
    ensures Listed(calls)[i].id != Listed(calls)[j].id
  {
    var watermark := calls[0].tables.applied;
    var positions := Delivered(Reads(calls, watermark));
    ListedPositions(calls, watermark);
    FollowedTraversal(calls, watermark);
    SoonerOrder();
    DeliveredSorted(Sooner, Reads(calls, watermark));
    assert ListedIds(Listed(calls))[i] == positions[i].id && ListedIds(Listed(calls))[j] == positions[j].id;
    var a := DeliveredRow(h, calls, watermark, positions[i]);
    var b := DeliveredRow(h, calls, watermark, positions[j]);
    if positions[i].id == positions[j].id {
      OnePosition(h, watermark, positions[i].id, a, b);
    }
  }

  /** And over all pages they come newest modification first, then in ascending identity, with the
      modification each had at a revision it was read at. */
  lemma ListedInOrder(h: seq<Canon>, calls: seq<Call>, i: nat, j: nat) returns (a: nat, b: nat)
    requires HistoryOk(h) && ReadFrom(h, calls) && Followed(calls)
    requires i < j < |Listed(calls)|
    ensures calls[0].tables.applied <= a < |h| && calls[0].tables.applied <= b < |h|
    ensures Listed(calls)[i].id in h[a].nodes && Listed(calls)[j].id in h[b].nodes
    ensures var (first, second) := (h[a].nodes[Listed(calls)[i].id].modified, h[b].nodes[Listed(calls)[j].id].modified);
      first > second || (first == second && Listed(calls)[i].id < Listed(calls)[j].id)
  {
    var watermark := calls[0].tables.applied;
    var positions := Delivered(Reads(calls, watermark));
    ListedPositions(calls, watermark);
    FollowedTraversal(calls, watermark);
    SoonerOrder();
    DeliveredSorted(Sooner, Reads(calls, watermark));
    assert ListedIds(Listed(calls))[i] == positions[i].id && ListedIds(Listed(calls))[j] == positions[j].id;
    a := DeliveredRow(h, calls, watermark, positions[i]);
    b := DeliveredRow(h, calls, watermark, positions[j]);
    assert Sooner(positions[i], positions[j]);
  }

  /** Nothing past the watermark is delivered: every delivered node was in the Index at a
      revision from the watermark on, with a row not modified after the watermark. */
  lemma NothingNewer(h: seq<Canon>, calls: seq<Call>, i: nat)
    requires HistoryOk(h) && ReadFrom(h, calls) && Followed(calls)
    requires i < |Listed(calls)|
    ensures calls != []
    ensures exists at :: calls[0].tables.applied <= at < |h| && Listed(calls)[i].id in h[at].nodes
                         && h[at].nodes[Listed(calls)[i].id].modified <= calls[0].tables.applied
  {
    var watermark := calls[0].tables.applied;
    ListedPositions(calls, watermark);
    assert ListedIds(Listed(calls))[i] == Ids(Delivered(Reads(calls, watermark)))[i];
    var at := DeliveredRow(h, calls, watermark, Delivered(Reads(calls, watermark))[i]);
  }

  /** A row untouched since the watermark is at its position at every revision in between. */
  lemma UntouchedStays(h: seq<Canon>, watermark: nat, id: NodeId, at: nat)
    requires HistoryOk(h) && watermark <= at < |h|
    requires id in h[|h| - 1].nodes && h[|h| - 1].nodes[id].modified <= watermark
    ensures id in h[at].nodes && h[at].nodes[id] == h[|h| - 1].nodes[id]
  {
    assert Evolves(at, h[at], h[|h| - 1]);
  }

  lemma PositionHeld(h: seq<Canon>, calls: seq<Call>, watermark: nat, id: NodeId, k: nat)
    requires HistoryOk(h) && ReadFrom(h, calls) && k < |calls| && watermark <= calls[k].tables.applied
    requires id in h[|h| - 1].nodes && h[|h| - 1].nodes[id].modified <= watermark
    ensures Position(h[|h| - 1].nodes[id].modified, id) in Positions(calls[k].tables.nodes, watermark)
  {
    assert calls[k] in calls;
    UntouchedStays(h, watermark, id, calls[k].tables.applied);
    assert id in calls[k].tables.nodes;
  }

  lemma PositionHeldByAll(h: seq<Canon>, calls: seq<Call>, watermark: nat, id: NodeId)
    requires HistoryOk(h) && ReadFrom(h, calls)
    requires forall call <- calls :: watermark <= call.tables.applied
    requires id in h[|h| - 1].nodes && h[|h| - 1].nodes[id].modified <= watermark
    ensures forall read <- Reads(calls, watermark) :: Position(h[|h| - 1].nodes[id].modified, id) in read.keys
  {
    forall k | 0 <= k < |calls|
      ensures Position(h[|h| - 1].nodes[id].modified, id) in Reads(calls, watermark)[k].keys
    {
      assert calls[k] in calls;
      PositionHeld(h, calls, watermark, id, k);
    }
  }

  lemma ListedAt(calls: seq<Call>, watermark: nat, p: Position) returns (i: nat)
    requires p in Delivered(Reads(calls, watermark))
    ensures i < |Listed(calls)| && Listed(calls)[i].id == p.id
  {
    var delivered := Delivered(Reads(calls, watermark));
    i :| 0 <= i < |delivered| && delivered[i] == p;
    ListedPositions(calls, watermark);
    assert ListedIds(Listed(calls))[i] == Ids(delivered)[i];
  }

  lemma UntouchedAmong(h: seq<Canon>, calls: seq<Call>, watermark: nat, id: NodeId)
    requires HistoryOk(h) && ReadFrom(h, calls) && Followed(calls)
    requires calls != [] && calls[0].tables.applied == watermark && NextCursor(calls).None?
    requires id in h[|h| - 1].nodes && h[|h| - 1].nodes[id].modified <= watermark
    ensures Position(h[|h| - 1].nodes[id].modified, id) in Delivered(Reads(calls, watermark))
  {
    FollowedTraversal(calls, watermark);
    SoonerOrder();
    PositionHeldByAll(h, calls, watermark, id);
    DeliveredOrAhead(Sooner, Reads(calls, watermark), Position(h[|h| - 1].nodes[id].modified, id));
  }

  /** A traversal followed to its end delivers every node that no commit up to the last one
      touched after the watermark. */
  lemma UntouchedDelivered(h: seq<Canon>, calls: seq<Call>, id: NodeId)
    requires HistoryOk(h) && ReadFrom(h, calls) && Followed(calls)
    requires calls != [] && NextCursor(calls).None?
    requires id in h[|h| - 1].nodes && h[|h| - 1].nodes[id].modified <= calls[0].tables.applied
    ensures exists i :: 0 <= i < |Listed(calls)| && Listed(calls)[i].id == id
  {
    var watermark := calls[0].tables.applied;
    UntouchedAmong(h, calls, watermark, id);
    var i := ListedAt(calls, watermark, Position(h[|h| - 1].nodes[id].modified, id));
  }

  /** Every cursor a call issues passes its own validation, at that Index or any later one. */
  lemma IssuedAdmitted(h: seq<Canon>, calls: seq<Call>, later: Tables)
    requires HistoryOk(h) && ReadFrom(h, calls) && Followed(calls) && calls != []
    requires calls[0].tables.applied <= later.applied
    ensures Admitted(later, NextCursor(calls))
  {
    var watermark := calls[0].tables.applied;
    FollowedTraversal(calls, watermark);
    if NextCursor(calls).Some? {
      var last := calls[|calls| - 1];
      LastPosition(calls, watermark);
      assert last in calls;
      RowsModified(h, last.tables.applied);
    }
  }

  lemma LastPosition(calls: seq<Call>, watermark: nat)
    requires Followed(calls) && calls != [] && NextCursor(calls).Some?
    requires Traversal(Sooner, Reads(calls, watermark))
    ensures NextCursor(calls).value.after.Some?
    ensures NextCursor(calls).value.after.value in Positions(calls[|calls| - 1].tables.nodes, watermark)
  {
    var taken := Reads(calls, watermark);
    assert taken[|taken| - 1].page.next.value in taken[|taken| - 1].page.items;
  }

  lemma RowsModified(h: seq<Canon>, at: nat)
    requires HistoryOk(h) && at < |h|
    ensures forall id <- Project(h[at]).nodes.Keys :: 0 < Project(h[at]).nodes[id].modified
  {
    assert Consistent(h[at]);
  }
}
