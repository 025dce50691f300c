/** The tokens of the two traversals: their keys printed into a cursor payload and parsed back. */
module Tokens {
  import opened Model
  import opened IndexStores
  import opened Index
  import opened History
  import opened Core
  import opened Cursors
  import opened Scan
  import opened Traversals
  import opened Validity

  const REVISION_LIMIT: nat := 0x8000_0000_0000_0000

  // ---------- plain texts ----------

  predicate Plain(text: string) {
    forall c <- text :: 32 <= c as nat < 127
  }

  lemma PlainIsShort(text: string)
    requires Plain(text) && |text| <= 255
    ensures ShortText(text)
  {
    forall i | 0 <= i < |text| ensures text[i] as nat < 0x80 {
      assert text[i] in text;
    }
    AsciiLength(text);
  }

  lemma PlainConcat(a: string, b: string)
    requires Plain(a) && Plain(b)
    ensures Plain(a + b)
  {
  }

  // ---------- identities ----------

  function Power16(digits: nat): nat {
    if digits == 0 then 1 else 16 * Power16(digits - 1)
  }

  function HexFixed(n: nat, digits: nat): (text: string)
    ensures |text| == digits
  {
    if digits == 0 then "" else HexFixed(n / 16, digits - 1) + [HexDigit(n % 16)]
  }

  function HexNumber(text: string): Option<nat> {
    if text == "" then Some(0)
    else
      match HexNumber(text[..|text| - 1])
      case None => None
      case Some(high) =>
        match HexValue(text[|text| - 1])
        case None => None
        case Some(low) => Some(16 * high + low)
  }

  lemma {:induction false} HexNumberRoundTrip(n: nat, digits: nat)
    requires n < Power16(digits)
    ensures HexNumber(HexFixed(n, digits)) == Some(n)
  {
    if digits > 0 {
      HexNumberRoundTrip(n / 16, digits - 1);
      assert HexFixed(n, digits)[..digits - 1] == HexFixed(n / 16, digits - 1);
    }
  }

  /** Lower-case hyphenated text: groups of 8, 4, 4, 4 and 12 digits. */
  function PrintId(id: NodeId): string {
    var d := HexFixed(id, 32);
    d[..8] + "-" + d[8..12] + "-" + d[12..16] + "-" + d[16..20] + "-" + d[20..]
  }

  /** `NodeId::from_str` on hyphenated text, in either case. */
  function ParseId(text: string): Option<NodeId> {
    if |text| != 36 || text[8] != '-' || text[13] != '-' || text[18] != '-' || text[23] != '-' then None
    else
      match HexNumber(text[..8] + text[9..13] + text[14..18] + text[19..23] + text[24..])
      case None => None
      case Some(id) => if IsUuid7(id) then Some(id) else None
  }

  lemma Grouped(d: string)
    requires |d| == 32
    ensures var text := d[..8] + "-" + d[8..12] + "-" + d[12..16] + "-" + d[16..20] + "-" + d[20..];
      && |text| == 36 && text[8] == '-' && text[13] == '-' && text[18] == '-' && text[23] == '-'
      && text[..8] + text[9..13] + text[14..18] + text[19..23] + text[24..] == d
  {
  }

  lemma Power16Is128()
    ensures Power16(32) == ID_LIMIT
  {
    assert Power16(8) == 0x1_0000_0000;
    assert Power16(16) == 0x1_0000_0000_0000_0000;
    assert Power16(24) == 0x1_0000_0000_0000_0000_0000_0000;
  }

  lemma IdRoundTrip(id: NodeId)
    requires IsUuid7(id)
    ensures ParseId(PrintId(id)) == Some(id)
  {
    Grouped(HexFixed(id, 32));
    Power16Is128();
    HexNumberRoundTrip(id, 32);
  }

  lemma {:induction false} HexFixedPlain(n: nat, digits: nat)
    ensures Plain(HexFixed(n, digits))
  {
    if digits > 0 {
      HexFixedPlain(n / 16, digits - 1);
      assert HexDigit(n % 16) as nat < 127;
    }
  }

  lemma IdIsPlain(id: NodeId)
    ensures Plain(PrintId(id)) && |PrintId(id)| == 36
  {
    HexFixedPlain(id, 32);
    Grouped(HexFixed(id, 32));
    forall c | c in PrintId(id) ensures c == '-' || c in HexFixed(id, 32) {
    }
  }

  lemma IdIsShort(id: NodeId)
    ensures ShortText(PrintId(id))
  {
    IdIsPlain(id);
    PlainIsShort(PrintId(id));
  }

  // ---------- revisions ----------

  /** `parse::<u64>`: digits after an optional plus sign. */
  function ParseRevisionText(text: string): Option<Word> {
    var digits := if text != "" && text[0] == '+' then text[1..] else text;
    var run := DigitRun(digits, 0);
    if digits == "" || run.rest != "" || run.value >= 0x1_0000_0000_0000_0000 then None else Some(run.value)
  }

  lemma RevisionTextRoundTrip(n: Word)
    ensures ParseRevisionText(Decimal(n)) == Some(n)
  {
    DigitsRead(n, "");
    assert Decimal(n) + "" == Decimal(n);
    assert IsDigit(Decimal(n)[0]);
  }

  lemma RevisionIsShort(n: Word)
    ensures ShortText(Decimal(n))
  {
    RevisionLength(n);
  }

  // ---------- the watermark traversal ----------

  /** "index.nodes.modified_revision_desc.uuid_asc". */
  const NODES_COLLECTION := "index.nodes." + "modified_rev" + "ision_desc" + UUID_ASC
  const UUID_ASC := ".uuid_asc"

  lemma NodesCollectionShort()
    ensures ShortText(NODES_COLLECTION)
  {
    PlainConcat("index.nodes.", "modified_rev");
    PlainConcat("index.nodes." + "modified_rev", "ision_desc");
    PlainConcat("index.nodes." + "modified_rev" + "ision_desc", UUID_ASC);
    PlainIsShort(NODES_COLLECTION);
  }

  /** Positions and watermarks SQLite and the token format can hold. */
  predicate Printable(c: NodesCursor) {
    c.after.Some? && c.revision < REVISION_LIMIT && c.after.value.modified < REVISION_LIMIT && IsUuid7(c.after.value.id)
  }

  function NodesToken(c: NodesCursor): string
    requires Printable(c)
  {
    Token(Payload(1, NODES_COLLECTION, c.revision, [Decimal(c.after.value.modified), PrintId(c.after.value.id)]))
  }

  /** The key of a decoded payload, with the two 64-bit range checks. */
  function PositionOf(p: Payload): Option<Position> {
    if |p.after| != 2 || p.revision >= REVISION_LIMIT then None
    else
      match ParseRevisionText(p.after[0])
      case None => None
      case Some(modified) =>
        if modified >= REVISION_LIMIT then None
        else
          match ParseId(p.after[1])
          case None => None
          case Some(id) => Some(Position(modified, id))
  }

  /** What `list_nodes_cursor` makes of a token. */
  function ReadNodesToken(token: string): Result<NodesCursor> {
    match DecodeCursor(token, NODES_COLLECTION)
    case Err(error) => Err(error)
    case Ok(p) => Ok(NodesCursor(p.revision, PositionOf(p)))
  }

  /** What is read from any token is in range: a UUIDv7 identity and two 63-bit revisions. */
  lemma ReadInRange(token: string)
    ensures var read := ReadNodesToken(token);
      read.Ok? && read.value.after.Some? ==>
        && read.value.revision < 0x8000_0000_0000_0000
        && read.value.after.value.modified < 0x8000_0000_0000_0000
        && IsUuid7(read.value.after.value.id)
  {
  }

  lemma NodesPayloadTaken(collection: string, c: NodesCursor)
    requires ShortText(collection) && Printable(c)
    ensures var p := Payload(1, collection, c.revision, [Decimal(c.after.value.modified), PrintId(c.after.value.id)]);
      DecodeCursor(Token(p), collection) == Ok(p) && PositionOf(p) == c.after
  {
    var modified, id := Decimal(c.after.value.modified), PrintId(c.after.value.id);
    RevisionIsShort(c.after.value.modified);
    IdIsShort(c.after.value.id);
    IssuedTokenFits(collection, c.revision, [modified, id]);
    RevisionTextRoundTrip(c.after.value.modified);
    IdRoundTrip(c.after.value.id);
  }

  lemma NodesTokenRoundTrip(c: NodesCursor)
    requires Printable(c)
    ensures ReadNodesToken(NodesToken(c)) == Ok(c)
  {
    NodesCollectionShort();
    NodesPayloadTaken(NODES_COLLECTION, c);
  }

  /** Every token a traversal issues is taken back: at that Index or any later one it decodes to
      the issued cursor, and that cursor is admitted. */
  lemma IssuedTokenTaken(h: seq<Canon>, calls: seq<Call>, later: Tables)
    requires HistoryOk(h) && ReadFrom(h, calls) && Followed(calls) && calls != []
    requires calls[0].tables.applied <= later.applied && NextCursor(calls).Some?
    requires Printable(NextCursor(calls).value)
    ensures ReadNodesToken(NodesToken(NextCursor(calls).value)) == Ok(NextCursor(calls).value)
    ensures Admitted(later, NextCursor(calls))
  {
    NodesTokenRoundTrip(NextCursor(calls).value);
    IssuedAdmitted(h, calls, later);
  }

  predicate TokenAdmitted(t: Tables, token: string) {
    ReadNodesToken(token).Ok? && Admitted(t, Some(ReadNodesToken(token).value))
  }

  datatype TokenPage = TokenPage(items: seq<ListedNode>, next: Option<string>)

  /** `list_nodes_cursor` from token to token. */
  method ListNodes(index: IndexStore, limit: nat, token: Option<string>) returns (r: Result<TokenPage>)
    requires index.tables.applied < REVISION_LIMIT
    requires forall id <- index.tables.nodes.Keys :: IsUuid7(id)
    ensures r.Ok? <==> index.connected && (token.Some? ==> TokenAdmitted(index.tables, token.value))
    ensures r.Ok? ==>
      exists page: NodesPage ::
        && Answered(index.tables, limit, if token.Some? then Some(ReadNodesToken(token.value).value) else None, page)
        && r.value.items == page.items
        && if page.next.Some? then Printable(page.next.value) && r.value.next == Some(NodesToken(page.next.value))
           else r.value.next.None?
  {
    if !index.connected {
      return Err(StoreUnavailable);
    }
    var cursor := None;
    if token.Some? {
      var read := ReadNodesToken(token.value);
      if read.Err? {
        return Err(read.error);
      }
      cursor := Some(read.value);
    }
    var listed := ListNodesCursor(index, limit, cursor);
    if listed.Err? {
      return Err(listed.error);
    }
    var page := listed.value;
    NextPrintable(index.tables, limit, cursor, page);
    var next := None;
    if page.next.Some? {
      var after := page.next.value.after.value;
      var issued := EncodeCursor(NODES_COLLECTION, page.next.value.revision,
          [Decimal(after.modified), PrintId(after.id)]);
      next := Some(issued);
    }
    return Ok(TokenPage(page.items, next));
  }

  lemma NextPrintable(t: Tables, limit: nat, cursor: Option<NodesCursor>, page: NodesPage)
    requires Answered(t, limit, cursor, page) && t.applied < REVISION_LIMIT
    requires forall id <- t.nodes.Keys :: IsUuid7(id)
    ensures page.next.Some? ==> Printable(page.next.value)
  {
    if page.next.Some? {
      var keys := PositionsOf(t.nodes, page.items);
      assert page.next.value.after.value in keys;
      assert page.next.value.after.value in Positions(t.nodes, Watermark(t, cursor));
    }
  }

  // ---------- the stable scan ----------

  const SNAPSHOT := "record_snap" + "shot."

  /** The part of a collection's name after "record_snapshot.". */
  function CollectionTail(c: Collection): string {
    match c
    case IssuedIds => "issued_ids" + UUID_ASC
    case Nodes => "nodes" + UUID_ASC
    case Properties(node) => "properties." + PrintId(node) + ".key_asc"
    case Relationships => "relationships." + "source_key_" + "target_asc"
  }

  function CollectionName(c: Collection): string {
    SNAPSHOT + CollectionTail(c)
  }

  /** The texts of a continuation key and the key they are read back as. */
  function EdgeTexts(edge: RelationshipKey): seq<string> {
    [PrintId(edge.source), edge.key, PrintId(edge.target)]
  }

  /** `after_relationship`. */
  function EdgeOfTexts(texts: seq<string>): Option<RelationshipKey> {
    if |texts| != 3 then None
    else
      match (ParseId(texts[0]), ParseId(texts[2]))
      case (Some(source), Some(target)) => Some(RelationshipKey(source, texts[1], target))
      case _ => None
  }

  /** `after_node_id`. */
  function IdOfTexts(texts: seq<string>): Option<NodeId> {
    if |texts| != 1 then None else ParseId(texts[0])
  }

  /** `after_string`. */
  function KeyOfTexts(texts: seq<string>): Option<Key> {
    if |texts| != 1 then None else Some(texts[0])
  }

  lemma PropertiesTailPlain(node: NodeId)
    ensures var tail := CollectionTail(Properties(node)); Plain(tail) && |tail| <= 60
  {
    IdIsPlain(node);
    PlainConcat("properties.", PrintId(node));
    PlainConcat("properties." + PrintId(node), ".key_asc");
  }

  lemma RelationshipsTailPlain()
    ensures var tail := CollectionTail(Relationships); Plain(tail) && |tail| <= 60
  {
    PlainConcat("relationships.", "source_key_");
    PlainConcat("relationships." + "source_key_", "target_asc");
  }

  lemma TailPlain(c: Collection)
    ensures Plain(CollectionTail(c)) && |CollectionTail(c)| <= 60
  {
    match c {
      case IssuedIds => PlainConcat("issued_ids", UUID_ASC);
      case Nodes => PlainConcat("nodes", UUID_ASC);
      case Relationships => RelationshipsTailPlain();
      case Properties(node) => PropertiesTailPlain(node);
    }
  }

  lemma CollectionShort(c: Collection)
    ensures ShortText(CollectionName(c))
  {
    TailPlain(c);
    PlainConcat("record_snap", "shot.");
    PlainConcat(SNAPSHOT, CollectionTail(c));
    PlainIsShort(CollectionName(c));
  }

  /** In every reachable state the token behind any relationship is taken back by its own
      collection with the relationship it was made of. */
  lemma RelationshipTokenTaken(run: seq<World>, at: nat, edge: RelationshipKey, revision: Word)
    requires IsRun(run) && at < |run| && Validity.Valid(run[0].store.canon)
    requires edge in run[at].store.canon.relationships && IsUuid7(edge.source) && IsUuid7(edge.target)
    ensures var p := Payload(1, CollectionName(Relationships), revision, EdgeTexts(edge));
      DecodeCursor(Token(p), CollectionName(Relationships)) == Ok(p) && EdgeOfTexts(p.after) == Some(edge)
  {
    RunKeepsValid(run, at);
    CollectionShort(Relationships);
    EdgePayloadTaken(CollectionName(Relationships), edge, revision);
  }

  lemma EdgePayloadTaken(collection: string, edge: RelationshipKey, revision: Word)
    requires ShortText(collection) && ValidKey(edge.key) && IsUuid7(edge.source) && IsUuid7(edge.target)
    ensures var p := Payload(1, collection, revision, EdgeTexts(edge));
      DecodeCursor(Token(p), collection) == Ok(p) && EdgeOfTexts(p.after) == Some(edge)
  {
    ValidKeysAreShort(edge.key);
    IdIsShort(edge.source);
    IdIsShort(edge.target);
    IssuedTokenFits(collection, revision, EdgeTexts(edge));
    IdRoundTrip(edge.source);
    IdRoundTrip(edge.target);
  }

  /** So is the token behind an issued identity or a node, */
  lemma IdentityTokenTaken(c: Collection, id: NodeId, revision: Word)
    requires IsUuid7(id)
    ensures var p := Payload(1, CollectionName(c), revision, [PrintId(id)]);
      DecodeCursor(Token(p), CollectionName(c)) == Ok(p) && IdOfTexts(p.after) == Some(id)
  {
    CollectionShort(c);
    IdIsShort(id);
    IssuedTokenFits(CollectionName(c), revision, [PrintId(id)]);
    IdRoundTrip(id);
  }

  /** and, in every reachable state, the one behind any property. */
  lemma PropertyTokenTaken(run: seq<World>, at: nat, node: NodeId, key: Key, revision: Word)
    requires IsRun(run) && at < |run| && Validity.Valid(run[0].store.canon)
    requires node in run[at].store.canon.nodes && key in run[at].store.canon.nodes[node].properties
    ensures var p := Payload(1, CollectionName(Properties(node)), revision, [key]);
      DecodeCursor(Token(p), CollectionName(Properties(node))) == Ok(p) && KeyOfTexts(p.after) == Some(key)
  {
    RunKeepsValid(run, at);
    ValidKeysAreShort(key);
    CollectionShort(Properties(node));
    IssuedTokenFits(CollectionName(Properties(node)), revision, [key]);
  }
}
