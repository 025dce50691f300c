/** Keyset pages: `bounded_limit` of `src/api.rs`, the page queries both traversals issue, and
    what following the continuation of every page delivers. */
module Keyset {
  import opened Model

  const MAX_LIMIT: nat := 1000

  /** `bounded_limit`: zero and oversized limits are brought into 1..=1000. */
  function BoundedLimit(limit: nat): (bounded: nat)
    ensures 1 <= bounded <= 1000
    ensures 1 <= limit <= 1000 ==> bounded == limit
    ensures limit == 0 ==> bounded == 1
    ensures limit > 1000 ==> bounded == 1000
  {
    if limit < 1 then 1 else if limit > MAX_LIMIT then MAX_LIMIT else limit
  }

  // ---------- orders ----------

  ghost predicate StrictOrder<K(!new)>(less: (K, K) -> bool) {
    && (forall a :: !less(a, a))
    && (forall a, b :: a != b ==> less(a, b) || less(b, a))
    && (forall a, b, c :: less(a, b) && less(b, c) ==> less(a, c))
  }

  predicate Sorted<K>(less: (K, K) -> bool, rows: seq<K>) {
    forall i, j :: 0 <= i < j < |rows| ==> less(rows[i], rows[j])
  }

  predicate Follows<K>(less: (K, K) -> bool, after: Option<K>, k: K) {
    after.None? || less(after.value, k)
  }

  /** The keys a query after `after` ranges over. */
  function Beyond<K(==)>(less: (K, K) -> bool, keys: set<K>, after: Option<K>): set<K> {
    set k | k in keys && Follows(less, after, k)
  }

  predicate IsLeast<K(==)>(less: (K, K) -> bool, keys: set<K>, k: K) {
    k in keys && forall other <- keys :: other == k || less(k, other)
  }

  lemma {:induction false} LeastExists<K(!new)>(less: (K, K) -> bool, keys: set<K>)
    requires StrictOrder(less) && keys != {}
    ensures exists k :: IsLeast(less, keys, k)
    decreases |keys|
  {
    var one :| one in keys;
    if keys == {one} {
      assert IsLeast(less, keys, one);
    } else {
      LeastExists(less, keys - {one});
      var least :| IsLeast(less, keys - {one}, least);
      var smaller := if less(one, least) then one else least;
      forall other | other in keys ensures other == smaller || less(smaller, other) {
        assert other == one || other == least || less(least, other);
      }
      assert IsLeast(less, keys, smaller);
    }
  }

  /** `rows` lists exactly `keys`, each once, in order. */
  ghost predicate Lists<K(!new)>(less: (K, K) -> bool, keys: set<K>, rows: seq<K>) {
    Sorted(less, rows) && forall k :: k in rows <==> k in keys
  }

  lemma ListedHead<K(!new)>(less: (K, K) -> bool, keys: set<K>, rows: seq<K>)
    requires Lists(less, keys, rows)
    ensures rows == [] <==> keys == {}
    ensures rows != [] ==> IsLeast(less, keys, rows[0])
  {
    if rows != [] {
      assert rows[0] in rows;
      forall other | other in keys ensures other == rows[0] || less(rows[0], other) {
        var i :| 0 <= i < |rows| && rows[i] == other;
      }
    }
  }

  lemma ListedTail<K(!new)>(less: (K, K) -> bool, keys: set<K>, rows: seq<K>)
    requires StrictOrder(less) && Lists(less, keys, rows) && rows != []
    ensures Lists(less, keys - {rows[0]}, rows[1..])
  {
  }

  /** There is only one such listing. */
  lemma {:induction false} ListingUnique<K(!new)>(less: (K, K) -> bool, keys: set<K>, a: seq<K>, b: seq<K>)
    requires StrictOrder(less) && Lists(less, keys, a) && Lists(less, keys, b)
    ensures a == b
    decreases |a|
  {
    ListedHead(less, keys, a);
    ListedHead(less, keys, b);
    if a != [] {
      ListedTail(less, keys, a);
      ListedTail(less, keys, b);
      ListingUnique(less, keys - {a[0]}, a[1..], b[1..]);
      assert a == [a[0]] + a[1..] && b == [b[0]] + b[1..];
    }
  }

  // ---------- one page ----------

  /** What `WHERE key > after ORDER BY key LIMIT limit` answers over `keys`. */
  ghost predicate Answers<K(!new)>(less: (K, K) -> bool, keys: set<K>, after: Option<K>, limit: nat, rows: seq<K>) {
    && Sorted(less, rows) && |rows| <= limit
    && (forall k <- rows :: k in Beyond(less, keys, after))
    && (forall k <- Beyond(less, keys, after) ::
          k in rows || (|rows| == limit && forall row <- rows :: less(row, k)))
  }

  /** The rows of such a query, smallest key first. */
  method Query<K(==, !new)>(less: (K, K) -> bool, keys: set<K>, after: Option<K>, limit: nat) returns (rows: seq<K>)
    requires StrictOrder(less)
    ensures Answers(less, keys, after, limit, rows)
  {
    rows := [];
    var rest := Beyond(less, keys, after);
    while |rows| < limit && rest != {}
      invariant |rows| <= limit && Sorted(less, rows)
      invariant forall k :: k in Beyond(less, keys, after) <==> k in rows || k in rest
      invariant forall row, k | row in rows && k in rest :: less(row, k)
      decreases rest
    {
      LeastExists(less, rest);
      var least :| IsLeast(less, rest, least);
      rows := rows + [least];
      rest := rest - {least};
    }
  }

  datatype Page<K> = Page(items: seq<K>, next: Option<K>)

  /** A page of at most `limit` keys after `after`: the smallest ones, in order, with the last
      of them as continuation exactly when there are more. */
  ghost predicate IsPage<K(!new)>(less: (K, K) -> bool, keys: set<K>, after: Option<K>, limit: nat, page: Page<K>) {
    && Sorted(less, page.items) && |page.items| <= limit
    && (forall k <- page.items :: k in Beyond(less, keys, after))
    && (page.next.None? ==> forall k <- Beyond(less, keys, after) :: k in page.items)
    && (page.next.Some? ==>
          && |page.items| == limit && page.items != [] && page.next.value == page.items[|page.items| - 1]
          && (forall k <- Beyond(less, keys, after) :: k in page.items || less(page.next.value, k))
          && exists k <- Beyond(less, keys, after) :: less(page.next.value, k))
  }

  /** `finish_page`: one row more than the limit was fetched; it is cut off again and only
      decides whether there is a continuation. */
  method FinishPage<K(!new)>(ghost less: (K, K) -> bool, ghost keys: set<K>, ghost after: Option<K>, limit: nat,
      rows: seq<K>)
    returns (page: Page<K>)
    requires limit > 0 && StrictOrder(less) && Answers(less, keys, after, limit + 1, rows)
    ensures IsPage(less, keys, after, limit, page)
  {
    var hasMore := |rows| > limit;
    var items := if hasMore then rows[..limit] else rows;
    page := Page(items, if hasMore then Some(items[|items| - 1]) else None);
    if hasMore {
      assert less(page.next.value, rows[limit]) && rows[limit] in rows;
      forall k | k in Beyond(less, keys, after) ensures k in items || less(page.next.value, k) {
        if k in rows {
          var i :| 0 <= i < |rows| && rows[i] == k;
          assert i < limit ==> items[i] == k;
        } else {
          assert less(items[|items| - 1], k);
        }
      }
    }
  }

  // ---------- following continuations ----------

  /** One page read: the keys the collection had then, the caller's limit, and the page. */
  datatype Read<K> = Read(keys: set<K>, limit: nat, page: Page<K>)

  /** Where the page after `taken` continues. */
  function Continuation<K>(taken: seq<Read<K>>): Option<K> {
    if taken == [] then None else taken[|taken| - 1].page.next
  }

  /** Each page was asked for with the continuation of the one before. */
  ghost predicate Traversal<K(!new)>(less: (K, K) -> bool, taken: seq<Read<K>>)
    decreases |taken|
  {
    taken != [] ==>
      var earlier, last := taken[..|taken| - 1], taken[|taken| - 1];
      && Traversal(less, earlier)
      && (earlier != [] ==> Continuation(earlier).Some?)
      && IsPage(less, last.keys, Continuation(earlier), BoundedLimit(last.limit), last.page)
  }

  function Delivered<K>(taken: seq<Read<K>>): seq<K>
    decreases |taken|
  {
    if taken == [] then [] else Delivered(taken[..|taken| - 1]) + taken[|taken| - 1].page.items
  }

  lemma SortedConcat<K(!new)>(less: (K, K) -> bool, a: seq<K>, b: seq<K>)
    requires Sorted(less, a) && Sorted(less, b)
    requires forall i, j :: 0 <= i < |a| && 0 <= j < |b| ==> less(a[i], b[j])
    ensures Sorted(less, a + b)
  {
  }

  /** What was delivered is in strict order and ends at the continuation. */
  lemma {:induction false} DeliveredSorted<K(!new)>(less: (K, K) -> bool, taken: seq<Read<K>>)
    requires StrictOrder(less) && Traversal(less, taken)
    ensures Sorted(less, Delivered(taken))
    ensures Continuation(taken).Some? ==>
      forall k <- Delivered(taken) :: k == Continuation(taken).value || less(k, Continuation(taken).value)
    decreases |taken|
  {
    if taken != [] {
      var earlier, last := taken[..|taken| - 1], taken[|taken| - 1];
      DeliveredSorted(less, earlier);
      var before, items := Delivered(earlier), last.page.items;
      forall i, j | 0 <= i < |before| && 0 <= j < |items| ensures less(before[i], items[j]) {
        assert before[i] in before && items[j] in items;
        DeliveredNonempty(earlier);
      }
      SortedConcat(less, before, items);
    }
  }

  lemma DeliveredNonempty<K>(taken: seq<Read<K>>)
    ensures Delivered(taken) != [] ==> taken != []
  {
  }

  /** Each delivered key was in the collection of the page that delivered it. */
  lemma {:induction false} DeliveredFrom<K(!new)>(less: (K, K) -> bool, taken: seq<Read<K>>, k: K) returns (at: nat)
    requires Traversal(less, taken) && k in Delivered(taken)
    ensures at < |taken| && k in taken[at].keys && k in taken[at].page.items
    decreases |taken|
  {
    var earlier, last := taken[..|taken| - 1], taken[|taken| - 1];
    if k in last.page.items {
      return |taken| - 1;
    }
    at := DeliveredFrom(less, earlier, k);
    assert earlier[at] == taken[at];
  }

  /** A key that every page's collection held was delivered, or is still ahead. */
  lemma {:induction false} DeliveredOrAhead<K(!new)>(less: (K, K) -> bool, taken: seq<Read<K>>, k: K)
    requires StrictOrder(less) && Traversal(less, taken) && taken != []
    requires forall read <- taken :: k in read.keys
    ensures k in Delivered(taken) || (Continuation(taken).Some? && less(Continuation(taken).value, k))
    decreases |taken|
  {
    var earlier, last := taken[..|taken| - 1], taken[|taken| - 1];
    if earlier != [] {
      DeliveredOrAhead(less, earlier, k);
    }
    if k !in Delivered(earlier) {
      assert last in taken && k in Beyond(less, last.keys, Continuation(earlier));
    }
  }

  /** Pages over an unchanging collection, with any limits, are its listing cut into pieces. */
  lemma ScanExact<K(!new)>(less: (K, K) -> bool, taken: seq<Read<K>>, keys: set<K>)
    requires StrictOrder(less) && Traversal(less, taken) && taken != []
    requires forall read <- taken :: read.keys == keys
    requires Continuation(taken).None?
    ensures Lists(less, keys, Delivered(taken))
  {
    DeliveredSorted(less, taken);
    forall k | k in keys ensures k in Delivered(taken) {
      DeliveredOrAhead(less, taken, k);
    }
    forall k | k in Delivered(taken) ensures k in keys {
      var at := DeliveredFrom(less, taken, k);
      assert taken[at] in taken;
    }
  }

  /** Every page that has a continuation leaves strictly fewer keys ahead of it. */
  lemma PageProgress<K(!new)>(less: (K, K) -> bool, keys: set<K>, after: Option<K>, limit: nat, page: Page<K>)
    requires StrictOrder(less) && IsPage(less, keys, after, limit, page) && page.next.Some?
    ensures 0 < |Beyond(less, keys, page.next)| < |Beyond(less, keys, after)|
  {
    var before, later := Beyond(less, keys, after), Beyond(less, keys, page.next);
    var more :| more in before && less(page.next.value, more);
    assert more in later;
    assert page.next.value in page.items && page.next.value in before && page.next.value !in later;
    forall k | k in later ensures k in before {
    }
    SubsetSmaller(later, before, page.next.value);
  }

  /** So a scan needs at most as many pages as there are keys: it always ends. */
  lemma {:induction false} ScanEnds<K(!new)>(less: (K, K) -> bool, taken: seq<Read<K>>, keys: set<K>)
    requires StrictOrder(less) && Traversal(less, taken) && taken != []
    requires forall read <- taken :: read.keys == keys
    ensures Continuation(taken).Some? ==> |taken| + |Beyond(less, keys, Continuation(taken))| <= |keys|
    ensures |taken| <= 1 || |taken| <= |keys|
    decreases |taken|
  {
    var earlier, last := taken[..|taken| - 1], taken[|taken| - 1];
    assert last in taken;
    if earlier == [] {
      assert Beyond(less, keys, None) == keys;
    } else {
      ScanEnds(less, earlier, keys);
      LastProgress(less, earlier, keys);
    }
    if last.page.next.Some? {
      PageProgress(less, keys, Continuation(earlier), BoundedLimit(last.limit), last.page);
    }
  }

  /** A continuation always has something ahead. */
  lemma LastProgress<K(!new)>(less: (K, K) -> bool, taken: seq<Read<K>>, keys: set<K>)
    requires StrictOrder(less) && Traversal(less, taken) && taken != []
    requires forall read <- taken :: read.keys == keys
    requires Continuation(taken).Some?
    ensures 0 < |Beyond(less, keys, Continuation(taken))|
  {
    var last := taken[|taken| - 1];
    assert last in taken;
    PageProgress(less, keys, Continuation(taken[..|taken| - 1]), BoundedLimit(last.limit), last.page);
  }
}
