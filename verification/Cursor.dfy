/** The cursor tokens of `src/api.rs`: a small JSON document, in UTF-8, in hexadecimal. */
module Cursors {
  import opened Model

  const MAX_TOKEN: nat := 8192

  type Byte = n: nat | n < 0x100
  type Word = n: nat | n < 0x1_0000_0000_0000_0000

  datatype Payload = Payload(version: Byte, collection: string, revision: Word, after: seq<string>)

  datatype Parsed<+T> = Parsed(value: T, rest: string)

  // ---------- hexadecimal ----------

  function HexDigit(n: nat): (c: char)
    requires n < 16
    ensures HexValue(c) == Some(n)
  {
    if n < 10 then '0' + n as char else 'a' + (n - 10) as char
  }

  /** Digits as `from_str_radix` reads them, in either case. */
  function HexValue(c: char): (n: Option<nat>)
    ensures n.Some? ==> n.value < 16
  {
    if '0' <= c <= '9' then Some((c - '0') as nat)
    else if 'a' <= c <= 'f' then Some(10 + (c - 'a') as nat)
    else if 'A' <= c <= 'F' then Some(10 + (c - 'A') as nat)
    else None
  }

  function Hex(bytes: seq<Byte>): string {
    if bytes == [] then "" else [HexDigit(bytes[0] / 16), HexDigit(bytes[0] % 16)] + Hex(bytes[1..])
  }

  /** `u8::from_str_radix(_, 16)` on two characters: a leading plus sign is taken as well. */
  function PairValue(high: char, low: char): Option<Byte> {
    match HexValue(low)
    case None => None
    case Some(units) =>
      if high == '+' then Some(units)
      else
        match HexValue(high)
        case None => None
        case Some(sixteens) => Some(16 * sixteens + units)
  }

  function Unhex(token: string): Option<seq<Byte>> {
    if token == "" then Some([])
    else if |token| == 1 then None
    else
      match PairValue(token[0], token[1])
      case None => None
      case Some(byte) =>
        match Unhex(token[2..])
        case None => None
        case Some(bytes) => Some([byte] + bytes)
  }

  lemma {:induction false} HexRoundTrip(bytes: seq<Byte>)
    ensures |Hex(bytes)| == 2 * |bytes|
    ensures Utf8Length(Hex(bytes)) == 2 * |bytes|
    ensures Unhex(Hex(bytes)) == Some(bytes)
  {
    if bytes != [] {
      HexRoundTrip(bytes[1..]);
      var token := Hex(bytes);
      assert token[2..] == Hex(bytes[1..]);
      assert token[1..] == [token[1]] + token[2..] && token[1..][1..] == token[2..];
      assert bytes == [bytes[0]] + bytes[1..];
    }
  }

  lemma HexAppend(bytes: seq<Byte>, byte: Byte)
    ensures Hex(bytes + [byte]) == Hex(bytes) + [HexDigit(byte / 16), HexDigit(byte % 16)]
  {
    if bytes == [] {
      assert bytes + [byte] == [byte];
    } else {
      assert (bytes + [byte])[1..] == bytes[1..] + [byte];
      HexAppend(bytes[1..], byte);
    }
  }

  // ---------- UTF-8 ----------

  function Utf8Char(c: char): (bytes: seq<Byte>)
    ensures |bytes| == Utf8Width(c)
  {
    var n := c as nat;
    if n < 0x80 then [n]
    else if n < 0x800 then [0xC0 + n / 0x40, 0x80 + n % 0x40]
    else if n < 0x10000 then [0xE0 + n / 0x1000, 0x80 + n / 0x40 % 0x40, 0x80 + n % 0x40]
    else [0xF0 + n / 0x40000, 0x80 + n / 0x1000 % 0x40, 0x80 + n / 0x40 % 0x40, 0x80 + n % 0x40]
  }

  function Utf8(s: string): (bytes: seq<Byte>)
    ensures |bytes| == Utf8Length(s)
  {
    if s == "" then [] else Utf8Char(s[0]) + Utf8(s[1..])
  }

  predicate IsContinuation(bytes: seq<Byte>, i: nat) {
    i < |bytes| && 0x80 <= bytes[i] < 0xC0
  }

  function Bits(bytes: seq<Byte>, i: nat): nat
    requires IsContinuation(bytes, i)
  {
    bytes[i] - 0x80
  }

  /** The value and width of the first scalar, when the bytes start with a well-formed one. */
  function FirstScalar(bytes: seq<Byte>): Option<(nat, nat)>
    requires bytes != []
  {
    var b: nat := bytes[0];
    if b < 0x80 then Some((b, 1))
    else if 0xC2 <= b < 0xE0 && IsContinuation(bytes, 1) then
      Some(((b - 0xC0) * 0x40 + Bits(bytes, 1), 2))
    else if 0xE0 <= b < 0xF0 && IsContinuation(bytes, 1) && IsContinuation(bytes, 2) then
      var n := (b - 0xE0) * 0x1000 + Bits(bytes, 1) * 0x40 + Bits(bytes, 2);
      if n >= 0x800 && !(0xD800 <= n < 0xE000) then Some((n, 3)) else None
    else if 0xF0 <= b < 0xF5 && IsContinuation(bytes, 1) && IsContinuation(bytes, 2) && IsContinuation(bytes, 3) then
      var n := (b - 0xF0) * 0x40000 + Bits(bytes, 1) * 0x1000 + Bits(bytes, 2) * 0x40 + Bits(bytes, 3);
      if 0x10000 <= n < 0x110000 then Some((n, 4)) else None
    else None
  }

  lemma FirstScalarRange(bytes: seq<Byte>)
    requires bytes != [] && FirstScalar(bytes).Some?
    ensures var (n, width) := FirstScalar(bytes).value;
      1 <= width <= |bytes| && (n < 0xD800 || 0xE000 <= n < 0x110000)
  {
  }

  function Unicode(bytes: seq<Byte>): Option<string>
    decreases |bytes|
  {
    if bytes == [] then Some("")
    else
      match FirstScalar(bytes)
      case None => None
      case Some(scalar) =>
        FirstScalarRange(bytes);
        match Unicode(bytes[scalar.1..])
        case None => None
        case Some(rest) => Some([scalar.0 as char] + rest)
  }

  lemma Base64Digits(n: nat)
    ensures n == n / 0x40 * 0x40 + n % 0x40
    ensures n / 0x1000 == n / 0x40 / 0x40 && n / 0x40000 == n / 0x1000 / 0x40
  {
  }

  lemma ScalarRoundTrip(c: char, rest: seq<Byte>)
    ensures FirstScalar(Utf8Char(c) + rest) == Some((c as nat, Utf8Width(c)))
  {
    var n, bytes := c as nat, Utf8Char(c) + rest;
    Base64Digits(n);
    Base64Digits(n / 0x40);
    Base64Digits(n / 0x1000);
    if n < 0x80 {
    } else if n < 0x800 {
      assert Bits(bytes, 1) == n % 0x40;
    } else if n < 0x10000 {
      assert Bits(bytes, 1) == n / 0x40 % 0x40 && Bits(bytes, 2) == n % 0x40;
    } else {
      assert Bits(bytes, 1) == n / 0x1000 % 0x40 && Bits(bytes, 2) == n / 0x40 % 0x40 && Bits(bytes, 3) == n % 0x40;
    }
  }

  lemma {:induction false} Utf8RoundTrip(s: string)
    ensures Unicode(Utf8(s)) == Some(s)
  {
    if s != "" {
      ScalarRoundTrip(s[0], Utf8(s[1..]));
      assert Utf8(s)[Utf8Width(s[0])..] == Utf8(s[1..]);
      Utf8RoundTrip(s[1..]);
      assert s == [s[0]] + s[1..];
    }
  }

  // ---------- JSON texts ----------

  function EscapeChar(c: char): string {
    var n := c as nat;
    if c == '"' then "\\\""
    else if c == '\\' then "\\\\"
    else if n == 8 then "\\b"
    else if n == 9 then "\\t"
    else if n == 10 then "\\n"
    else if n == 12 then "\\f"
    else if n == 13 then "\\r"
    else if n < 32 then "\\u00" + [HexDigit(n / 16), HexDigit(n % 16)]
    else [c]
  }

  /** The characters of a JSON string up to and including its closing quote. */
  function Quoted(s: string): string {
    if s == "" then "\"" else EscapeChar(s[0]) + Quoted(s[1..])
  }

  function SimpleEscape(c: char): Option<char> {
    if c == '"' then Some('"')
    else if c == '\\' then Some('\\')
    else if c == 'b' then Some(8 as char)
    else if c == 't' then Some('\t')
    else if c == 'n' then Some('\n')
    else if c == 'f' then Some(12 as char)
    else if c == 'r' then Some('\r')
    else None
  }

  function ParseEscape(s: string): (r: Option<Parsed<char>>)
    ensures r.Some? ==> |r.value.rest| < |s|
  {
    if s == "" then None
    else if SimpleEscape(s[0]).Some? then Some(Parsed(SimpleEscape(s[0]).value, s[1..]))
    else if "u00" <= s && |s| >= 5 && HexValue(s[3]).Some? && HexValue(s[4]).Some? then
      Some(Parsed((16 * HexValue(s[3]).value + HexValue(s[4]).value) as char, s[5..]))
    else None
  }

  function ParseChar(s: string): (r: Option<Parsed<char>>)
    requires s != ""
    ensures r.Some? ==> |r.value.rest| < |s|
  {
    if s[0] == '\\' then ParseEscape(s[1..])
    else if s[0] as nat < 32 then None
    else Some(Parsed(s[0], s[1..]))
  }

  function ParseQuoted(s: string): (r: Option<Parsed<string>>)
    ensures r.Some? ==> |r.value.rest| < |s|
    decreases |s|
  {
    if s == "" then None
    else if s[0] == '"' then Some(Parsed("", s[1..]))
    else
      match ParseChar(s)
      case None => None
      case Some(first) =>
        match ParseQuoted(first.rest)
        case None => None
        case Some(others) => Some(Parsed([first.value] + others.value, others.rest))
  }

  lemma CharRoundTrip(c: char, rest: string)
    ensures var text := EscapeChar(c) + rest;
      text[0] != '"' && ParseChar(text) == Some(Parsed(c, rest))
  {
  }

  lemma AnotherChar(text: string, c: char, more: string, others: string, rest: string)
    requires text != "" && text[0] != '"' && ParseChar(text) == Some(Parsed(c, more))
    requires ParseQuoted(more) == Some(Parsed(others, rest))
    ensures ParseQuoted(text) == Some(Parsed([c] + others, rest))
  {
  }

  lemma Regroup(a: string, b: string, c: string)
    ensures a + b + c == a + (b + c)
  {
  }

  lemma {:induction false} QuotedRoundTrip(s: string, rest: string)
    ensures ParseQuoted(Quoted(s) + rest) == Some(Parsed(s, rest))
  {
    if s == "" {
      assert ("\"" + rest)[1..] == rest;
    } else {
      var more := Quoted(s[1..]) + rest;
      Regroup(EscapeChar(s[0]), Quoted(s[1..]), rest);
      CharRoundTrip(s[0], more);
      QuotedRoundTrip(s[1..], rest);
      AnotherChar(Quoted(s) + rest, s[0], more, s[1..], rest);
      assert s == [s[0]] + s[1..];
    }
  }

  // ---------- JSON numbers ----------

  predicate IsDigit(c: char) {
    '0' <= c <= '9'
  }

  function Decimal(n: nat): (text: string)
    ensures text != "" && forall c <- text :: IsDigit(c)
    ensures n > 0 ==> text[0] != '0'
  {
    if n < 10 then ['0' + n as char] else Decimal(n / 10) + ['0' + (n % 10) as char]
  }

  function DigitRun(s: string, value: nat): Parsed<nat>
    decreases |s|
  {
    if s != "" && IsDigit(s[0]) then DigitRun(s[1..], 10 * value + (s[0] - '0') as nat) else Parsed(value, s)
  }

  /** A JSON number without sign, fraction or exponent, and without superfluous zeros. */
  function ParseDecimal(s: string, limit: nat): Option<Parsed<nat>> {
    if s == "" || !IsDigit(s[0]) || (s[0] == '0' && |s| > 1 && IsDigit(s[1])) then None
    else if DigitRun(s, 0).value >= limit then None
    else Some(DigitRun(s, 0))
  }

  lemma {:induction false} DigitsRead(n: nat, rest: string)
    ensures DigitRun(Decimal(n) + rest, 0) == DigitRun(rest, n)
  {
    var last := ['0' + (n % 10) as char];
    assert (last + rest)[1..] == rest;
    if n >= 10 {
      assert Decimal(n) + rest == Decimal(n / 10) + (last + rest);
      DigitsRead(n / 10, last + rest);
    }
  }

  lemma DecimalRoundTrip(n: nat, limit: nat, rest: string)
    requires n < limit && (rest == "" || !IsDigit(rest[0]))
    ensures ParseDecimal(Decimal(n) + rest, limit) == Some(Parsed(n, rest))
  {
    DigitsRead(n, rest);
    var text := Decimal(n) + rest;
    assert IsDigit(text[0]);
    if n == 0 {
      assert Decimal(n) == "0" && (rest != "" ==> text[1] == rest[0]);
    } else {
      assert text[0] == Decimal(n)[0];
    }
  }

  // ---------- JSON arrays ----------

  /** The elements of an array of strings up to and including its closing bracket. */
  function Elements(items: seq<string>): string
    decreases |items|, 1
  {
    if items == [] then "]" else "\"" + Quoted(items[0]) + Following(items)
  }

  function Following(items: seq<string>): string
    requires items != []
    decreases |items|, 0
  {
    if |items| == 1 then "]" else "," + Elements(items[1..])
  }

  function ParseElement(s: string): (r: Option<Parsed<string>>)
    ensures r.Some? ==> |r.value.rest| < |s|
  {
    if s == "" || s[0] != '"' then None else ParseQuoted(s[1..])
  }

  /** The elements after at least one, each followed by a comma or the closing bracket. */
  function ParseElements(s: string): Option<Parsed<seq<string>>>
    decreases |s|
  {
    match ParseElement(s)
    case None => None
    case Some(first) =>
      if first.rest == "" then None
      else if first.rest[0] == ']' then Some(Parsed([first.value], first.rest[1..]))
      else if first.rest[0] != ',' then None
      else
        match ParseElements(first.rest[1..])
        case None => None
        case Some(others) => Some(Parsed([first.value] + others.value, others.rest))
  }

  function ParseArray(s: string): Option<Parsed<seq<string>>> {
    if s != "" && s[0] == ']' then Some(Parsed([], s[1..])) else ParseElements(s)
  }

  lemma AfterQuote(q: string, rest: string)
    ensures ("\"" + q + rest)[0] == '"' && ("\"" + q + rest)[1..] == q + rest
  {
  }

  lemma ElementRoundTrip(item: string, rest: string)
    ensures ParseElement("\"" + Quoted(item) + rest) == Some(Parsed(item, rest))
  {
    AfterQuote(Quoted(item), rest);
    QuotedRoundTrip(item, rest);
  }

  lemma LastElement(text: string, item: string, rest: string)
    requires ParseElement(text) == Some(Parsed(item, "]" + rest))
    ensures ParseElements(text) == Some(Parsed([item], rest))
  {
  }

  lemma AnotherElement(text: string, item: string, more: string, items: seq<string>, rest: string)
    requires ParseElement(text) == Some(Parsed(item, "," + more))
    requires ParseElements(more) == Some(Parsed(items, rest))
    ensures ParseElements(text) == Some(Parsed([item] + items, rest))
  {
  }

  lemma {:induction false} ElementsRoundTrip(items: seq<string>, rest: string)
    requires items != []
    ensures ParseElements(Elements(items) + rest) == Some(Parsed(items, rest))
  {
    ElementRoundTrip(items[0], Following(items) + rest);
    Regroup("\"" + Quoted(items[0]), Following(items), rest);
    if |items| == 1 {
      LastElement(Elements(items) + rest, items[0], rest);
      assert items == [items[0]];
    } else {
      Regroup(",", Elements(items[1..]), rest);
      ElementsRoundTrip(items[1..], rest);
      AnotherElement(Elements(items) + rest, items[0], Elements(items[1..]) + rest, items[1..], rest);
      assert items == [items[0]] + items[1..];
    }
  }

  lemma ArrayRoundTrip(items: seq<string>, rest: string)
    ensures ParseArray(Elements(items) + rest) == Some(Parsed(items, rest))
  {
    if items == [] {
      assert (Elements(items) + rest)[1..] == rest;
    } else {
      ElementsRoundTrip(items, rest);
    }
  }

  // ---------- the payload ----------

  const VERSION_FIELD := "{\"version\":"
  const COLLECTION_FIELD := ",\"collection\":\""
  const REVISION_FIELD := ",\"revision\":"
  const AFTER_FIELD := ",\"after\":["

  function VersionText(version: Byte, rest: string): string {
    VERSION_FIELD + (Decimal(version) + rest)
  }

  function CollectionText(collection: string, rest: string): string {
    COLLECTION_FIELD + (Quoted(collection) + rest)
  }

  function RevisionText(revision: Word, rest: string): string {
    REVISION_FIELD + (Decimal(revision) + rest)
  }

  function AfterText(after: seq<string>): string {
    AFTER_FIELD + (Elements(after) + "}")
  }

  /** What `serde_json::to_vec` writes for a payload. */
  function Json(p: Payload): string {
    VersionText(p.version, CollectionText(p.collection, RevisionText(p.revision, AfterText(p.after))))
  }

  function Expect(prefix: string, s: string): Option<string> {
    if prefix <= s then Some(s[|prefix|..]) else None
  }

  lemma Expected(prefix: string, rest: string)
    ensures Expect(prefix, prefix + rest) == Some(rest)
  {
  }

  function ParseAfter(s: string): Option<seq<string>> {
    match Expect(AFTER_FIELD, s)
    case None => None
    case Some(text) =>
      match ParseArray(text)
      case None => None
      case Some(after) => if after.rest == "}" then Some(after.value) else None
  }

  function ParseRevision(s: string): Option<Parsed<nat>> {
    match Expect(REVISION_FIELD, s)
    case None => None
    case Some(text) => ParseDecimal(text, 0x1_0000_0000_0000_0000)
  }

  function ParseCollection(s: string): Option<Parsed<string>> {
    match Expect(COLLECTION_FIELD, s)
    case None => None
    case Some(text) => ParseQuoted(text)
  }

  function ParseVersion(s: string): Option<Parsed<nat>> {
    match Expect(VERSION_FIELD, s)
    case None => None
    case Some(text) => ParseDecimal(text, 0x100)
  }

  lemma VersionRoundTrip(version: Byte, rest: string)
    requires rest != "" && !IsDigit(rest[0])
    ensures ParseVersion(VersionText(version, rest)) == Some(Parsed(version, rest))
  {
    Expected(VERSION_FIELD, Decimal(version) + rest);
    DecimalRoundTrip(version, 0x100, rest);
  }

  lemma CollectionRoundTrip(collection: string, rest: string)
    ensures CollectionText(collection, rest)[0] == ','
    ensures ParseCollection(CollectionText(collection, rest)) == Some(Parsed(collection, rest))
  {
    Expected(COLLECTION_FIELD, Quoted(collection) + rest);
    QuotedRoundTrip(collection, rest);
  }

  lemma RevisionRoundTrip(revision: Word, rest: string)
    requires rest != "" && !IsDigit(rest[0])
    ensures ParseRevision(RevisionText(revision, rest)) == Some(Parsed(revision, rest))
  {
    Expected(REVISION_FIELD, Decimal(revision) + rest);
    DecimalRoundTrip(revision, 0x1_0000_0000_0000_0000, rest);
  }

  lemma AfterRoundTrip(after: seq<string>)
    ensures AfterText(after)[0] == ','
    ensures ParseAfter(AfterText(after)) == Some(after)
  {
    Expected(AFTER_FIELD, Elements(after) + "}");
    ArrayRoundTrip(after, "}");
  }

  /** A payload in the layout `Json` writes. */
  function ParsePayload(s: string): Option<Payload> {
    match ParseVersion(s)
    case None => None
    case Some(version) =>
      match ParseCollection(version.rest)
      case None => None
      case Some(collection) =>
        match ParseRevision(collection.rest)
        case None => None
        case Some(revision) =>
          match ParseAfter(revision.rest)
          case None => None
          case Some(after) => Some(Payload(version.value, collection.value, revision.value, after))
  }

  lemma JsonRoundTrip(p: Payload)
    ensures ParsePayload(Json(p)) == Some(p)
  {
    var after := AfterText(p.after);
    var revision := RevisionText(p.revision, after);
    AfterRoundTrip(p.after);
    RevisionRoundTrip(p.revision, after);
    CollectionRoundTrip(p.collection, revision);
    VersionRoundTrip(p.version, CollectionText(p.collection, revision));
  }

  // ---------- tokens ----------

  function Token(p: Payload): string {
    Hex(Utf8(Json(p)))
  }

  /** `encode_cursor`: two digits are appended for every byte. */
  method EncodeCursor(collection: string, revision: Word, after: seq<string>) returns (token: string)
    ensures token == Token(Payload(1, collection, revision, after))
  {
    var json := Utf8(Json(Payload(1, collection, revision, after)));
    token := "";
    for i := 0 to |json|
      invariant token == Hex(json[..i])
    {
      assert json[..i + 1] == json[..i] + [json[i]];
      HexAppend(json[..i], json[i]);
      token := token + [HexDigit(json[i] / 16), HexDigit(json[i] % 16)];
    }
    assert json[..|json|] == json;
  }

  predicate IsAscii(s: string) {
    forall c <- s :: c as nat < 0x80
  }

  /** The bytes of a token of acceptable length. A character outside ASCII never completes a
      pair of digits. */
  function TokenBytes(token: string): Option<seq<Byte>> {
    if token == "" || Utf8Length(token) > MAX_TOKEN || Utf8Length(token) % 2 != 0 || !IsAscii(token) then None
    else Unhex(token)
  }

  function BytesPayload(bytes: seq<Byte>): Option<Payload> {
    match Unicode(bytes)
    case None => None
    case Some(text) => ParsePayload(text)
  }

  /** `decode_cursor`. */
  function DecodeCursor(token: string, expected: string): Result<Payload> {
    match TokenBytes(token)
    case None => Err(Conflict)
    case Some(bytes) =>
      match BytesPayload(bytes)
      case None => Err(Conflict)
      case Some(p) => if p.version != 1 || p.collection != expected then Err(Conflict) else Ok(p)
  }

  lemma {:induction false} HexIsAscii(bytes: seq<Byte>)
    ensures IsAscii(Hex(bytes))
  {
    if bytes != [] {
      HexIsAscii(bytes[1..]);
    }
  }

  lemma {:induction false} Utf8Concat(a: string, b: string)
    ensures Utf8Length(a + b) == Utf8Length(a) + Utf8Length(b)
  {
    if a == "" {
      assert a + b == b;
    } else {
      assert (a + b)[1..] == a[1..] + b;
      Utf8Concat(a[1..], b);
    }
  }

  lemma TokenAccepted(token: string, bytes: seq<Byte>)
    requires token != "" && IsAscii(token) && Utf8Length(token) == 2 * |bytes| && Unhex(token) == Some(bytes)
    ensures TokenBytes(token) == if 2 * |bytes| <= MAX_TOKEN then Some(bytes) else None
  {
  }

  lemma BytesRoundTrip(bytes: seq<Byte>)
    requires bytes != []
    ensures TokenBytes(Hex(bytes)) == if 2 * |bytes| <= MAX_TOKEN then Some(bytes) else None
  {
    HexRoundTrip(bytes);
    HexIsAscii(bytes);
    TokenAccepted(Hex(bytes), bytes);
  }

  lemma TextRoundTrip(text: string)
    ensures BytesPayload(Utf8(text)) == ParsePayload(text)
  {
    Utf8RoundTrip(text);
  }

  /** A token round-trips for its own collection exactly when it is within the length limit,
      and for any other collection it is refused. */
  lemma CursorRoundTrip(collection: string, revision: Word, after: seq<string>, expected: string)
    ensures var p := Payload(1, collection, revision, after);
      DecodeCursor(Token(p), expected) ==
        if expected == collection && 2 * Utf8Length(Json(p)) <= 8192 then Ok(p) else Err(Conflict)
  {
    var p := Payload(1, collection, revision, after);
    JsonRoundTrip(p);
    TextRoundTrip(Json(p));
    JsonNonempty(p);
    BytesRoundTrip(Utf8(Json(p)));
  }

  /** Tokens of another version are refused, whatever else they say. */
  lemma OtherVersionsRefused(p: Payload, expected: string)
    requires p.version != 1
    ensures DecodeCursor(Token(p), expected) == Err(Conflict)
  {
    JsonRoundTrip(p);
    TextRoundTrip(Json(p));
    JsonNonempty(p);
    BytesRoundTrip(Utf8(Json(p)));
  }

  /** So are an empty token, one over 8,192 bytes, one of odd length, and one with a character that is
      neither a hexadecimal digit nor a plus sign. */
  lemma MalformedRefused(token: string, expected: string)
    requires
      || token == "" || Utf8Length(token) > 8192 || Utf8Length(token) % 2 != 0
      || exists c <- token :: !('0' <= c <= '9' || 'a' <= c <= 'f' || 'A' <= c <= 'F' || c == '+')
    ensures DecodeCursor(token, expected) == Err(Conflict)
  {
    if Unhex(token).Some? {
      UnhexDigits(token);
    }
  }

  lemma {:induction false} UnhexDigits(token: string)
    requires Unhex(token).Some?
    ensures forall c <- token :: '0' <= c <= '9' || 'a' <= c <= 'f' || 'A' <= c <= 'F' || c == '+'
    decreases |token|
  {
    if token != "" {
      UnhexDigits(token[2..]);
      assert token == [token[0], token[1]] + token[2..];
    }
  }

  /** Issued tokens are lower-case hexadecimal, two digits for every byte of the document. */
  lemma {:induction false} HexIsLowerCase(bytes: seq<Byte>)
    ensures |Hex(bytes)| == 2 * |bytes|
    ensures forall c <- Hex(bytes) :: '0' <= c <= '9' || 'a' <= c <= 'f'
  {
    if bytes != [] {
      HexIsLowerCase(bytes[1..]);
    }
  }

  lemma JsonNonempty(p: Payload)
    ensures Utf8Length(Json(p)) > 0
  {
  }

  // ---------- length ----------

  /** A text whose JSON form is short: what keys, identities and collection names are. */
  predicate ShortText(s: string) {
    Utf8Length(s) <= 255 && forall c <- s :: !IsControl(c)
  }

  lemma {:induction false} QuotedLength(s: string)
    requires forall c <- s :: !IsControl(c)
    ensures Utf8Length(Quoted(s)) <= 2 * Utf8Length(s) + 1
  {
    if s != "" {
      assert forall c <- s[1..] :: c in s;
      QuotedLength(s[1..]);
      assert s[0] in s;
      Utf8Concat(EscapeChar(s[0]), Quoted(s[1..]));
      EscapeLength(s[0]);
    }
  }

  lemma Utf8Single(c: char)
    ensures Utf8Length([c]) == Utf8Width(c)
  {
  }

  lemma EscapeLength(c: char)
    requires !IsControl(c)
    ensures Utf8Length(EscapeChar(c)) <= 2 * Utf8Width(c)
  {
    Utf8Single(c);
    if c == '"' || c == '\\' {
      assert EscapeChar(c) == ['\\'] + [c];
      Utf8Single('\\');
      Utf8Concat(['\\'], [c]);
    }
  }

  lemma {:induction false} ElementsLength(items: seq<string>)
    requires forall item <- items :: ShortText(item)
    ensures Utf8Length(Elements(items)) <= 513 * |items| + 1
  {
    if items == [] {
      assert Utf8Length("]") == 1;
    } else {
      assert items[0] in items;
      QuotedLength(items[0]);
      assert forall item <- items[1..] :: item in items;
      ElementsLength(items[1..]);
      Utf8Concat("\"" + Quoted(items[0]), Following(items));
      Utf8Concat("\"", Quoted(items[0]));
      Utf8Concat(",", Elements(items[1..]));
    }
  }

  function PowerOfTen(digits: nat): nat {
    if digits == 0 then 1 else 10 * PowerOfTen(digits - 1)
  }

  lemma {:induction false} DecimalLength(n: nat, digits: nat)
    requires digits > 0 && n < PowerOfTen(digits)
    ensures Utf8Length(Decimal(n)) <= digits
  {
    Utf8Single('0' + (n % 10) as char);
    if n >= 10 {
      DecimalLength(n / 10, digits - 1);
      Utf8Concat(Decimal(n / 10), ['0' + (n % 10) as char]);
    }
  }

  lemma RevisionLength(revision: Word)
    ensures Utf8Length(Decimal(revision)) <= 20
  {
    assert PowerOfTen(10) == 10_000_000_000 by {
      assert PowerOfTen(5) == 100_000;
    }
    assert PowerOfTen(15) == 1_000_000_000_000_000;
    assert PowerOfTen(20) == 100_000_000_000_000_000_000;
    DecimalLength(revision, 20);
  }

  /** No token a traversal issues exceeds the limit: its collection name and at most three keys
      are texts of at most 255 bytes without control characters, as `validate_key` demands. */
  lemma IssuedTokenFits(collection: string, revision: Word, after: seq<string>)
    requires ShortText(collection) && |after| <= 3 && forall key <- after :: ShortText(key)
    ensures DecodeCursor(Token(Payload(1, collection, revision, after)), collection)
        == Ok(Payload(1, collection, revision, after))
  {
    var p := Payload(1, collection, revision, after);
    JsonLength(p);
    CursorRoundTrip(collection, revision, after, collection);
  }

  lemma {:induction false} AsciiLength(s: string)
    requires forall i :: 0 <= i < |s| ==> s[i] as nat < 0x80
    ensures Utf8Length(s) == |s|
  {
    if s != "" {
      AsciiLength(s[1..]);
    }
  }

  lemma FieldLength(field: string, value: string, rest: string)
    requires forall i :: 0 <= i < |field| ==> field[i] as nat < 0x80
    ensures Utf8Length(field + (value + rest)) == |field| + Utf8Length(value) + Utf8Length(rest)
  {
    AsciiLength(field);
    Utf8Concat(value, rest);
    Utf8Concat(field, value + rest);
  }

  lemma AfterLength(after: seq<string>)
    requires forall key <- after :: ShortText(key)
    ensures Utf8Length(AfterText(after)) <= 12 + 513 * |after|
  {
    ElementsLength(after);
    AsciiLength("}");
    FieldLength(AFTER_FIELD, Elements(after), "}");
  }

  lemma RevisionTextLength(revision: Word, rest: string)
    ensures Utf8Length(RevisionText(revision, rest)) <= 32 + Utf8Length(rest)
  {
    RevisionLength(revision);
    FieldLength(REVISION_FIELD, Decimal(revision), rest);
  }

  lemma CollectionLength(collection: string, rest: string)
    requires ShortText(collection)
    ensures Utf8Length(CollectionText(collection, rest)) <= 526 + Utf8Length(rest)
  {
    QuotedLength(collection);
    FieldLength(COLLECTION_FIELD, Quoted(collection), rest);
  }

  lemma VersionLength(version: Byte, rest: string)
    ensures Utf8Length(VersionText(version, rest)) <= 31 + Utf8Length(rest)
  {
    RevisionLength(version);
    FieldLength(VERSION_FIELD, Decimal(version), rest);
  }

  lemma JsonLength(p: Payload)
    requires ShortText(p.collection) && forall key <- p.after :: ShortText(key)
    ensures Utf8Length(Json(p)) <= 601 + 513 * |p.after|
  {
    var after := AfterText(p.after);
    var revision := RevisionText(p.revision, after);
    AfterLength(p.after);
    RevisionTextLength(p.revision, after);
    CollectionLength(p.collection, revision);
    VersionLength(p.version, CollectionText(p.collection, revision));
  }

  lemma ValidKeysAreShort(key: Key)
    requires ValidKey(key)
    ensures ShortText(key)
  {
  }
}
