/** Keyset pagination: one page call, and following the tokens while the table changes. */
module Paging {
  import opened Wrappers
  import opened Slugs
  import opened Json
  import opened PageToken
  import opened TokenLanguage

  /** One row of a table, in primary-key order; the order is the database collation, of which only
      strictness and totality are assumed. */
  datatype Entry<T> = Entry(id: Bytes, data: T)

  type Order = (Bytes, Bytes) -> bool

  ghost predicate StrictOrder(less: Order) {
    && (forall x :: !less(x, x))
    && (forall x, y, z :: less(x, y) && less(y, z) ==> less(x, z))
    && (forall x, y :: x == y || less(x, y) || less(y, x))
  }

  ghost predicate Sorted<T>(less: Order, rows: seq<Entry<T>>) {
    forall i, j | 0 <= i < j < |rows| :: less(rows[i].id, rows[j].id)
  }

  // ---- The query ----

  predicate Follows(less: Order, cursor: Option<Bytes>, id: Bytes) {
    cursor.None? || less(cursor.value, id)
  }

  /** WHERE id > cursor, in index order. */
  function Above<T>(less: Order, rows: seq<Entry<T>>, cursor: Option<Bytes>): seq<Entry<T>> {
    if rows == [] then []
    else (if Follows(less, cursor, rows[0].id) then [rows[0]] else []) + Above(less, rows[1..], cursor)
  }

  function First<T>(rows: seq<T>, n: nat): seq<T> { if n < |rows| then rows[..n] else rows }

  /** SELECT ... WHERE id > cursor ORDER BY id LIMIT limit. */
  function Select<T>(less: Order, rows: seq<Entry<T>>, cursor: Option<Bytes>, limit: nat): seq<Entry<T>> {
    First(Above(less, rows, cursor), limit)
  }

  // ---- One call ----

  /** A page and, if more rows follow, the id its token will carry. */
  datatype Page<T> = Page(rows: seq<Entry<T>>, next: Option<Bytes>)

  /** The page a call must return when it starts after the cursor. */
  function PageAfter<T>(less: Order, rows: seq<Entry<T>>, cursor: Option<Bytes>, pageSize: nat): Page<T>
    requires pageSize >= 1
  {
    var above := Above(less, rows, cursor);
    if |above| > pageSize then Page(above[..pageSize], Some(above[pageSize - 1].id)) else Page(above, None)
  }

  function TokenOf(next: Option<Bytes>): Bytes {
    if next.None? then [] else EncodePageToken(next.value)
  }

  /** None: the token is refused. */
  function CursorOf(token: Bytes): Option<Option<Bytes>> {
    if token == [] then Some(None)
    else match DecodePageToken(token)
      case None => None
      case Some(id) => Some(Some(id))
  }

  predicate SafeId(id: Bytes) { id != [] && ValidUtf8(id) }

  /** An empty token starts or ends a scan, and no other token is empty; a token made from a safe id means that id. */
  lemma TokenMeaning(next: Option<Bytes>)
    requires next.Some? ==> SafeId(next.value)
    ensures CursorOf(TokenOf(next)) == Some(next)
    ensures TokenOf(next) == [] <==> next.None?
  {
    if next.Some? { TokenRoundTrip(next.value); }
  }

  /** Where the database may fail: running the query, reading a row, or ending the result set. */
  datatype Fault = NoFault | QueryFails | RowFails(at: nat) | EndFails

  predicate Harmless(fault: Fault, rows: nat) { fault.NoFault? || (fault.RowFails? && fault.at >= rows) }

  datatype Listed<T> = Listed(rows: seq<Entry<T>>, token: Bytes) | BadToken | DatabaseFailed

  /** The loop over the result set: every row, in the order the query gave them, or nothing. */
  method Collect<T>(rows: seq<T>, fault: Fault) returns (out: Option<seq<T>>)
    ensures out == if Harmless(fault, |rows|) then Some(rows) else None
  {
    if fault.QueryFails? {
      return None;
    }
    var read: seq<T> := [];
    for i := 0 to |rows|
      invariant read == rows[..i]
      invariant fault.RowFails? ==> fault.at >= i
    {
      if fault == RowFails(i) {
        return None;
      }
      read := read + [rows[i]];
    }
    if fault.EndFails? {
      return None;
    }
    assert read == rows;
    return Some(read);
  }

  /** The page after the cursor with the token for the next one, if the database delivers the whole result set. */
  ghost function Answer<T>(less: Order, table: seq<Entry<T>>, cursor: Option<Bytes>, pageSize: nat, fault: Fault):
    Listed<T>
    requires pageSize >= 1
  {
    var expected := PageAfter(less, table, cursor, pageSize);
    if Harmless(fault, |Select(less, table, cursor, pageSize + 1)|)
    then Listed(expected.rows, if expected.next.None? then [] else EncodePageToken(expected.next.value))
    else DatabaseFailed
  }

  lemma Accepted(token: Bytes)
    ensures DecodePageToken(token).None? <==> forall id :: !TokenNames(token, id)
    ensures forall id | TokenNames(token, id) :: DecodePageToken(token) == Some(id)
  {
    if DecodePageToken(token).Some? { AcceptedTokens(token, DecodePageToken(token).value); }
    forall id | TokenNames(token, id) ensures DecodePageToken(token) == Some(id) { AcceptedTokens(token, id); }
  }

  /** List: ask for one row more than the page holds; the surplus row tells that there is a next page. The
      query is the database's answer on the table as it is when the call runs. */
  method List<T>(ghost less: Order, ghost table: seq<Entry<T>>, token: Bytes, pageSize: nat,
                 query: (Option<Bytes>, nat) -> seq<Entry<T>>, fault: Fault)
    returns (page: Listed<T>)
    requires pageSize >= 1
    requires forall cursor, limit :: query(cursor, limit) == Select(less, table, cursor, limit)
    ensures page.BadToken? <==> token != [] && forall id :: !TokenNames(token, id)
    ensures token == [] ==> page == Answer(less, table, None, pageSize, fault)
    ensures forall id | token != [] && TokenNames(token, id) :: page == Answer(less, table, Some(id), pageSize, fault)
    ensures fault.NoFault? ==> !page.DatabaseFailed?
    ensures fault.QueryFails? || fault.EndFails? ==> !page.Listed?
    ensures fault.RowFails? && page.Listed? ==> |page.rows| <= fault.at
  {
    Accepted(token);
    var cursor: Option<Bytes> := None;
    if token != [] {
      var decoded := DecodePageToken(token);
      if decoded.None? {
        return BadToken;
      }
      cursor := decoded;
    }
    var read := Collect(query(cursor, pageSize + 1), fault);
    if read.None? {
      return DatabaseFailed;
    }
    var out := read.value;
    var next: Bytes := [];
    ghost var above := Above(less, table, cursor);
    if |out| > pageSize {
      var last := out[pageSize - 1];
      assert out == above[..pageSize + 1] && out[..pageSize] == above[..pageSize];
      next := EncodePageToken(last.id);
      out := out[..pageSize];
    }
    return Listed(out, next);
  }

  // ---- Facts about the query on a sorted table ----

  ghost predicate HasId<T>(rows: seq<Entry<T>>, id: Bytes) { exists e :: e in rows && e.id == id }

  lemma {:induction false} AboveMember<T>(less: Order, rows: seq<Entry<T>>, cursor: Option<Bytes>, e: Entry<T>)
    ensures e in Above(less, rows, cursor) <==> e in rows && Follows(less, cursor, e.id)
  {
    if rows == [] {
    } else {
      AboveMember(less, rows[1..], cursor, e);
      assert e in rows <==> e == rows[0] || e in rows[1..] by { assert rows == [rows[0]] + rows[1..]; }
    }
  }

  lemma {:induction false} AboveSorted<T>(less: Order, rows: seq<Entry<T>>, cursor: Option<Bytes>)
    requires Sorted(less, rows)
    ensures Sorted(less, Above(less, rows, cursor))
  {
    if rows == [] {
    } else {
      var rest := Above(less, rows[1..], cursor);
      AboveSorted(less, rows[1..], cursor);
      forall i | 0 <= i < |rest| ensures less(rows[0].id, rest[i].id) {
        AboveMember(less, rows[1..], cursor, rest[i]);
        var j :| 0 <= j < |rows[1..]| && rows[1..][j] == rest[i];
        assert rows[j + 1] == rest[i];
      }
    }
  }

  /** On a sorted table the rows after the i-th one are those above its id. */
  lemma {:induction false} AboveIsSuffix<T>(less: Order, rows: seq<Entry<T>>, i: nat)
    requires StrictOrder(less) && Sorted(less, rows) && 0 < i <= |rows|
    ensures Above(less, rows, Some(rows[i - 1].id)) == rows[i..]
  {
    var cursor := Some(rows[i - 1].id);
    if i == 1 {
      AboveAll(less, rows[1..], cursor);
      assert !less(rows[0].id, rows[0].id);
    } else {
      assert !less(rows[i - 1].id, rows[0].id) by { assert less(rows[0].id, rows[i - 1].id); }
      assert rows[1..][i - 2] == rows[i - 1];
      AboveIsSuffix(less, rows[1..], i - 1);
      assert rows[1..][i - 1..] == rows[i..];
    }
  }

  lemma {:induction false} AboveAll<T>(less: Order, rows: seq<Entry<T>>, cursor: Option<Bytes>)
    requires forall i | 0 <= i < |rows| :: Follows(less, cursor, rows[i].id)
    ensures Above(less, rows, cursor) == rows
  {
    if rows == [] {
    } else {
      AboveAll(less, rows[1..], cursor);
    }
  }

  // ---- Following the tokens while the table changes ----

  /** Ids that survive the trip through a token; every stored id does. */
  ghost predicate TokenSafe<T>(rows: seq<Entry<T>>) {
    forall e | e in rows :: SafeId(e.id)
  }

  function Rows<T>(pages: seq<Page<T>>): seq<Entry<T>> {
    if pages == [] then [] else pages[0].rows + Rows(pages[1..])
  }

  lemma PushPage<T>(page: Page<T>, rest: seq<Page<T>>)
    ensures Rows([page] + rest) == page.rows + Rows(rest)
  {
    assert ([page] + rest)[1..] == rest;
  }

  /** The last page carried no token. */
  predicate Ended<T>(pages: seq<Page<T>>) { pages != [] && pages[|pages| - 1].next.None? }

  /** The pages a caller gets by following the tokens. Call number k meets the table tables[k], which
      committed transactions may have changed in any way since the call before, and asks for sizes[k] rows.
      None: some call refused its token. */
  function Scan<T>(less: Order, tables: seq<seq<Entry<T>>>, sizes: seq<nat>, token: Bytes): Option<seq<Page<T>>>
    requires |tables| == |sizes| && forall k | 0 <= k < |sizes| :: sizes[k] >= 1
    decreases |tables|
  {
    if tables == [] then Some([])
    else match CursorOf(token)
      case None => None
      case Some(cursor) =>
        var page := PageAfter(less, tables[0], cursor, sizes[0]);
        if page.next.None? then Some([page])
        else match Scan(less, tables[1..], sizes[1..], TokenOf(page.next))
          case None => None
          case Some(rest) => Some([page] + rest)
  }

  /** Cutting a sorted sequence: its members go to the left part, or lie above the last id of that part. */
  lemma CutFacts<T>(less: Order, rows: seq<Entry<T>>, k: nat, e: Entry<T>)
    requires Sorted(less, rows) && 1 <= k <= |rows|
    ensures e in rows ==> e in rows[..k] || less(rows[k - 1].id, e.id)
    ensures e in rows[..k] ==> e in rows
  {
    if e in rows {
      var i :| 0 <= i < |rows| && rows[i] == e;
      if i < k { assert rows[..k][i] == e; }
    }
  }

  /** One page: rows of the table above the cursor, in order; if there is a next page it starts after the
      last id of this one and nothing between was skipped; if there is none, nothing above the cursor was. */
  lemma PageFacts<T>(less: Order, rows: seq<Entry<T>>, cursor: Option<Bytes>, pageSize: nat)
    requires Sorted(less, rows) && pageSize >= 1
    ensures var page := PageAfter(less, rows, cursor, pageSize);
      && Sorted(less, page.rows)
      && |page.rows| <= pageSize && (page.next.Some? ==> |page.rows| == pageSize)
      && (forall e | e in page.rows :: e in rows && Follows(less, cursor, e.id))
      && (page.next.None? ==> forall e | e in rows && Follows(less, cursor, e.id) :: e in page.rows)
      && (page.next.Some? ==>
            && page.rows != [] && page.next.value == page.rows[|page.rows| - 1].id
            && forall e | e in rows && Follows(less, cursor, e.id) :: e in page.rows || less(page.next.value, e.id))
  {
    AboveSorted(less, rows, cursor);
    var page := PageAfter(less, rows, cursor, pageSize);
    forall e | e in page.rows ensures e in rows && Follows(less, cursor, e.id) {
      PageFact(less, rows, cursor, pageSize, e);
    }
    assert forall e | e in page.rows :: e in rows && Follows(less, cursor, e.id);
    forall e | e in rows && Follows(less, cursor, e.id)
      ensures e in page.rows || (page.next.Some? && less(page.next.value, e.id))
    {
      PageFact(less, rows, cursor, pageSize, e);
    }
  }

  lemma PageFact<T>(less: Order, rows: seq<Entry<T>>, cursor: Option<Bytes>, pageSize: nat, e: Entry<T>)
    requires Sorted(less, rows) && pageSize >= 1
    ensures var page := PageAfter(less, rows, cursor, pageSize);
      && (e in page.rows ==> e in rows && Follows(less, cursor, e.id))
      && (e in rows && Follows(less, cursor, e.id) ==>
            e in page.rows || (page.next.Some? && less(page.next.value, e.id)))
  {
    AboveSorted(less, rows, cursor);
    AboveMember(less, rows, cursor, e);
    var above := Above(less, rows, cursor);
    if |above| > pageSize { CutFacts(less, above, pageSize, e); }
  }

  /** Page k holds rows of the table call k met; ids ascend across all pages, above the cursor; and an ended
      scan has every id above the cursor that each call found in its table. */
  ghost predicate ScanSound<T>(less: Order, tables: seq<seq<Entry<T>>>, cursor: Option<Bytes>, pages: seq<Page<T>>) {
    && |pages| <= |tables|
    && (forall k, e | 0 <= k < |pages| && e in pages[k].rows :: e in tables[k])
    && Sorted(less, Rows(pages))
    && (forall e | e in Rows(pages) :: Follows(less, cursor, e.id))
    && (Ended(pages) ==>
          forall id | Follows(less, cursor, id) && AllHave(tables[..|pages|], id) :: HasId(Rows(pages), id))
  }

  ghost predicate AllHave<T>(tables: seq<seq<Entry<T>>>, id: Bytes) {
    forall k | 0 <= k < |tables| :: HasId(tables[k], id)
  }

  lemma SortedJoin<T>(less: Order, a: seq<Entry<T>>, b: seq<Entry<T>>)
    requires StrictOrder(less) && Sorted(less, a) && Sorted(less, b)
    requires a != [] && forall e | e in b :: less(a[|a| - 1].id, e.id)
    ensures Sorted(less, a + b)
  {
    forall i, j | 0 <= i < j < |a + b| ensures less((a + b)[i].id, (a + b)[j].id) {
      if i < |a| <= j {
        assert b[j - |a|] in b;
        assert i == |a| - 1 || less(a[i].id, a[|a| - 1].id);
      }
    }
  }

  /** The scan with cursors in place of tokens. */
  function Follow<T>(less: Order, tables: seq<seq<Entry<T>>>, sizes: seq<nat>, cursor: Option<Bytes>): seq<Page<T>>
    requires |tables| == |sizes| && forall k | 0 <= k < |sizes| :: sizes[k] >= 1
    decreases |tables|
  {
    if tables == [] then []
    else
      var page := PageAfter(less, tables[0], cursor, sizes[0]);
      if page.next.None? then [page] else [page] + Follow(less, tables[1..], sizes[1..], page.next)
  }

  /** When ids survive the trip through a token, following tokens is following cursors and nothing is refused. */
  lemma {:induction false} TokensCarryCursors<T>(
      less: Order, tables: seq<seq<Entry<T>>>, sizes: seq<nat>, token: Bytes, cursor: Option<Bytes>)
    requires StrictOrder(less) && |tables| == |sizes| && forall i | 0 <= i < |sizes| :: sizes[i] >= 1
    requires forall i | 0 <= i < |tables| :: Sorted(less, tables[i]) && TokenSafe(tables[i])
    requires CursorOf(token) == Some(cursor)
    ensures Scan(less, tables, sizes, token) == Some(Follow(less, tables, sizes, cursor))
    decreases |tables|
  {
    if tables == [] {
    } else {
      var page := PageAfter(less, tables[0], cursor, sizes[0]);
      PageFacts(less, tables[0], cursor, sizes[0]);
      if page.next.Some? {
        assert page.rows[|page.rows| - 1] in page.rows;
        TokenMeaning(page.next);
        TokensCarryCursors(less, tables[1..], sizes[1..], TokenOf(page.next), page.next);
      }
    }
  }

  lemma {:induction false} FollowIsSound<T>(
      less: Order, tables: seq<seq<Entry<T>>>, sizes: seq<nat>, cursor: Option<Bytes>)
    requires StrictOrder(less) && |tables| == |sizes| && forall i | 0 <= i < |sizes| :: sizes[i] >= 1
    requires forall i | 0 <= i < |tables| :: Sorted(less, tables[i])
    ensures ScanSound(less, tables, cursor, Follow(less, tables, sizes, cursor))
    decreases |tables|
  {
    if tables == [] {
    } else {
      var page := PageAfter(less, tables[0], cursor, sizes[0]);
      PageFacts(less, tables[0], cursor, sizes[0]);
      if page.next.None? {
        ScanLastPage(less, tables, cursor, page);
      } else {
        FollowIsSound(less, tables[1..], sizes[1..], page.next);
        ScanNextPage(less, tables, cursor, page, Follow(less, tables[1..], sizes[1..], page.next));
      }
    }
  }

  lemma ScanLastPage<T>(less: Order, tables: seq<seq<Entry<T>>>, cursor: Option<Bytes>, page: Page<T>)
    requires tables != [] && Sorted(less, page.rows)
    requires forall e :: e in page.rows <==> e in tables[0] && Follows(less, cursor, e.id)
    ensures ScanSound(less, tables, cursor, [page])
  {
    assert Rows([page]) == page.rows by { PushPage(page, []); assert [page] + [] == [page]; }
    forall id | Follows(less, cursor, id) && AllHave(tables[..1], id) ensures HasId(page.rows, id) {
      assert HasId(tables[..1][0], id);
      var e :| e in tables[0] && e.id == id;
      assert e in page.rows;
    }
  }

  lemma ScanNextPage<T>(
      less: Order, tables: seq<seq<Entry<T>>>, cursor: Option<Bytes>, page: Page<T>, rest: seq<Page<T>>)
    requires StrictOrder(less) && tables != [] && page.rows != [] && Sorted(less, page.rows)
    requires page.next == Some(page.rows[|page.rows| - 1].id)
    requires forall e | e in page.rows :: e in tables[0] && Follows(less, cursor, e.id)
    requires forall e | e in tables[0] && Follows(less, cursor, e.id) :: e in page.rows || less(page.next.value, e.id)
    requires ScanSound(less, tables[1..], page.next, rest)
    ensures ScanSound(less, tables, cursor, [page] + rest)
  {
    var last, pages := page.rows[|page.rows| - 1], [page] + rest;
    assert last in page.rows && Follows(less, cursor, last.id);
    PushPage(page, rest);
    SortedJoin(less, page.rows, Rows(rest));
    forall e | e in Rows(pages) ensures Follows(less, cursor, e.id) {
      assert e in page.rows || e in Rows(rest);
    }
    forall k, e | 0 <= k < |pages| && e in pages[k].rows ensures e in tables[k] {
      if k > 0 { assert pages[k] == rest[k - 1] && tables[k] == tables[1..][k - 1]; }
    }
    if Ended(pages) { ScanKeepsIds(less, tables, cursor, page, rest); }
  }

  lemma ScanKeepsIds<T>(
      less: Order, tables: seq<seq<Entry<T>>>, cursor: Option<Bytes>, page: Page<T>, rest: seq<Page<T>>)
    requires tables != [] && page.next.Some? && |rest| < |tables| && Ended([page] + rest)
    requires forall e | e in tables[0] && Follows(less, cursor, e.id) :: e in page.rows || less(page.next.value, e.id)
    requires Ended(rest) ==>
      forall id | Follows(less, page.next, id) && AllHave(tables[1..][..|rest|], id) :: HasId(Rows(rest), id)
    ensures forall id | Follows(less, cursor, id) && AllHave(tables[..|rest| + 1], id) :: HasId(Rows([page] + rest), id)
  {
    PushPage(page, rest);
    assert rest != [] && ([page] + rest)[|rest|] == rest[|rest| - 1];
    forall id | Follows(less, cursor, id) && AllHave(tables[..|rest| + 1], id)
      ensures HasId(page.rows + Rows(rest), id)
    {
      assert HasId(tables[..|rest| + 1][0], id);
      var e :| e in tables[0] && e.id == id;
      if e in page.rows {
        assert e in page.rows + Rows(rest);
      } else {
        forall k | 0 <= k < |rest| ensures HasId(tables[1..][..|rest|][k], id) {
          assert tables[1..][..|rest|][k] == tables[..|rest| + 1][k + 1];
        }
        assert AllHave(tables[1..][..|rest|], id);
        var f :| f in Rows(rest) && f.id == id;
        assert f in page.rows + Rows(rest);
      }
    }
  }

  /** Following the tokens from the start, with any page sizes and any committed changes in between, even of
      the cursor row: no token is refused; page k holds rows of the table call k met; ids come strictly
      ascending across the pages, so none twice; and once a page without a token arrives, every id that each
      call found in its table has been returned. */
  lemma ScanUnderChange<T>(less: Order, tables: seq<seq<Entry<T>>>, sizes: seq<nat>)
    requires StrictOrder(less) && |tables| == |sizes| && forall k | 0 <= k < |sizes| :: sizes[k] >= 1
    requires forall k | 0 <= k < |tables| :: Sorted(less, tables[k]) && TokenSafe(tables[k])
    ensures Scan(less, tables, sizes, []).Some?
    ensures var pages := Scan(less, tables, sizes, []).value;
      var rows := Rows(pages);
      && |pages| <= |tables|
      && (forall k, e | 0 <= k < |pages| && e in pages[k].rows :: e in tables[k])
      && Sorted(less, rows)
      && (forall i, j | 0 <= i < |rows| && 0 <= j < |rows| && rows[i].id == rows[j].id :: i == j)
      && (Ended(pages) ==> forall id | AllHave(tables[..|pages|], id) :: HasId(rows, id))
  {
    TokensCarryCursors(less, tables, sizes, [], None);
    FollowIsSound(less, tables, sizes, None);
    var pages := Scan(less, tables, sizes, []).value;
    var rows := Rows(pages);
    forall i, j | 0 <= i < |rows| && 0 <= j < |rows| && rows[i].id == rows[j].id ensures i == j {
      assert !less(rows[i].id, rows[j].id) && !less(rows[j].id, rows[i].id);
    }
    forall id | Ended(pages) && AllHave(tables[..|pages|], id) ensures HasId(rows, id) {
      assert Follows(less, None, id);
    }
  }

  /** Tables whose ids are validated slugs never produce a token the next call refuses. */
  lemma SlugTablesAreTokenSafe<T>(rows: seq<Entry<T>>)
    requires forall e | e in rows :: ValidID(e.id)
    ensures TokenSafe(rows)
  {
    forall e | e in rows ensures SafeId(e.id) {
      ValidIDIsSlug(e.id);
      AsciiIsUtf8(e.id);
    }
  }

  // ---- A table that does not change ----

  function AfterRow<T>(rows: seq<Entry<T>>, i: nat): Option<Bytes>
    requires i <= |rows|
  {
    if i == 0 then None else Some(rows[i - 1].id)
  }

  /** max(1, ceil(n / p)) */
  function PageCount(n: nat, p: nat): nat
    requires p >= 1
  {
    if n == 0 then 1 else (n + p - 1) / p
  }

  /** The number of takings of at most p each that use up n, and one when n is 0. */
  function Turns(n: nat, p: nat): (k: nat)
    requires p >= 1
    ensures k >= 1
  {
    if n <= p then 1 else 1 + Turns(n - p, p)
  }

  lemma {:induction false} TurnsAreCeiling(n: nat, p: nat)
    requires p >= 1
    ensures Turns(n, p) == PageCount(n, p)
  {
    if n > p {
      TurnsAreCeiling(n - p, p);
      PageCountStep(n, p);
    } else if n > 0 {
      DivisionUnique(n + p - 1, p, 1, n - 1);
    }
  }

  lemma PageCountStep(n: nat, p: nat)
    requires p >= 1 && n > p
    ensures PageCount(n, p) == 1 + PageCount(n - p, p)
  {
    var m := n - p + p - 1;
    assert (m + p) / p == m / p + 1 by {
      assert m == m / p * p + m % p;
      assert m + p == (m / p + 1) * p + m % p;
      DivisionUnique(m + p, p, m / p + 1, m % p);
    }
  }

  lemma DivisionUnique(n: nat, p: nat, q: nat, r: nat)
    requires p >= 1 && r < p && n == q * p + r
    ensures n / p == q
  {
    var d := n / p - q;
    var rest := n % p;
    assert n == n / p * p + rest;
    assert d * p == r - rest;
    MulAtLeast(d, p);
  }

  lemma MulAtLeast(d: int, p: int)
    requires p >= 0
    ensures d >= 1 ==> d * p >= p
    ensures d <= -1 ==> d * p <= 0 - p
  {
    assert d * p == (d - 1) * p + p == (d + 1) * p - p;
  }

  /** The page after the i-th row holds the next p rows. */
  function PageAtRow<T>(rows: seq<Entry<T>>, p: nat, i: nat): Page<T>
    requires p >= 1 && i <= |rows|
  {
    if i + p < |rows| then Page(rows[i..i + p], AfterRow(rows, i + p)) else Page(rows[i..], None)
  }

  lemma SortedPage<T>(less: Order, rows: seq<Entry<T>>, p: nat, i: nat)
    requires StrictOrder(less) && Sorted(less, rows) && p >= 1 && i <= |rows|
    ensures PageAfter(less, rows, AfterRow(rows, i), p) == PageAtRow(rows, p, i)
  {
    if i == 0 { AboveAll(less, rows, None); } else { AboveIsSuffix(less, rows, i); }
    assert Above(less, rows, AfterRow(rows, i)) == rows[i..];
    if i + p < |rows| {
      assert rows[i..][..p] == rows[i..i + p];
    }
  }

  /** The rows cut into slices of p. */
  function Slices<T>(rows: seq<Entry<T>>, p: nat): (pages: seq<Page<T>>)
    requires p >= 1
    ensures pages != []
  {
    if |rows| > p then [Page(rows[..p], Some(rows[p - 1].id))] + Slices(rows[p..], p) else [Page(rows, None)]
  }

  lemma SlicesStep<T>(rows: seq<Entry<T>>, p: nat, i: nat)
    requires p >= 1 && i <= |rows|
    ensures Slices(rows[i..], p) ==
      if i + p >= |rows| then [PageAtRow(rows, p, i)] else [PageAtRow(rows, p, i)] + Slices(rows[i + p..], p)
  {
    var rest := rows[i..];
    if i + p < |rows| {
      assert rest[..p] == rows[i..i + p] && rest[p..] == rows[i + p..];
    }
  }

  lemma {:induction false} SlicesJoin<T>(rows: seq<Entry<T>>, p: nat)
    requires p >= 1
    ensures Rows(Slices(rows, p)) == rows
  {
    if |rows| > p {
      SlicesJoin(rows[p..], p);
      PushPage(Page(rows[..p], Some(rows[p - 1].id)), Slices(rows[p..], p));
      assert rows == rows[..p] + rows[p..];
    } else {
      PushPage(Page(rows, None), []);
    }
  }

  lemma {:induction false} SliceCount<T>(rows: seq<Entry<T>>, p: nat)
    requires p >= 1
    ensures |Slices(rows, p)| == Turns(|rows|, p)
  {
    if |rows| > p {
      SliceCount(rows[p..], p);
    }
  }

  ghost predicate OnlyTheLastEnds<T>(pages: seq<Page<T>>) {
    forall k | 0 <= k < |pages| :: pages[k].next.None? <==> k == |pages| - 1
  }

  lemma {:induction false} SlicesEnd<T>(rows: seq<Entry<T>>, p: nat)
    requires p >= 1
    ensures OnlyTheLastEnds(Slices(rows, p))
  {
    if |rows| > p {
      SlicesEnd(rows[p..], p);
      PushEnds(Page(rows[..p], Some(rows[p - 1].id)), Slices(rows[p..], p));
    }
  }

  lemma PushEnds<T>(page: Page<T>, rest: seq<Page<T>>)
    requires page.next.Some? && rest != [] && OnlyTheLastEnds(rest)
    ensures OnlyTheLastEnds([page] + rest)
  {
    var pages := [page] + rest;
    forall k | 0 <= k < |pages| ensures pages[k].next.None? <==> k == |pages| - 1 {
      if k > 0 { assert pages[k] == rest[k - 1]; }
    }
  }

  function Repeat<X>(x: X, n: nat): (r: seq<X>)
    ensures |r| == n && forall i | 0 <= i < n :: r[i] == x
  {
    if n == 0 then [] else [x] + Repeat(x, n - 1)
  }

  /** Following cursors when every call with one cursor gives one page. */
  function FollowFixed<T>(pageAt: Option<Bytes> -> Page<T>, cursor: Option<Bytes>, calls: nat): seq<Page<T>>
    decreases calls
  {
    if calls == 0 then []
    else
      var page := pageAt(cursor);
      if page.next.None? then [page] else [page] + FollowFixed(pageAt, page.next, calls - 1)
  }

  lemma {:induction false} FollowRepeats<T>(
      less: Order, rows: seq<Entry<T>>, p: nat, pageAt: Option<Bytes> -> Page<T>, cursor: Option<Bytes>, calls: nat)
    requires p >= 1 && forall c :: pageAt(c) == PageAfter(less, rows, c, p)
    ensures Follow(less, Repeat(rows, calls), Repeat(p, calls), cursor) == FollowFixed(pageAt, cursor, calls)
    decreases calls
  {
    if calls == 0 {
    } else {
      assert Repeat(rows, calls)[1..] == Repeat(rows, calls - 1) && Repeat(p, calls)[1..] == Repeat(p, calls - 1);
      FollowRepeats(less, rows, p, pageAt, pageAt(cursor).next, calls - 1);
    }
  }

  /** The pages of at most `calls` calls, from the i-th row on. */
  function FixedPages<T>(rows: seq<Entry<T>>, p: nat, i: nat, calls: nat): seq<Page<T>>
    requires p >= 1 && i <= |rows|
    decreases calls
  {
    if calls == 0 then []
    else if i + p >= |rows| then [PageAtRow(rows, p, i)]
    else [PageAtRow(rows, p, i)] + FixedPages(rows, p, i + p, calls - 1)
  }

  lemma {:induction false} FollowIsFixed<T>(
      pageAt: Option<Bytes> -> Page<T>, rows: seq<Entry<T>>, p: nat, i: nat, calls: nat)
    requires p >= 1 && i <= |rows| && forall j | 0 <= j <= |rows| :: pageAt(AfterRow(rows, j)) == PageAtRow(rows, p, j)
    ensures FollowFixed(pageAt, AfterRow(rows, i), calls) == FixedPages(rows, p, i, calls)
    decreases calls
  {
    if calls > 0 && i + p < |rows| { FollowIsFixed(pageAt, rows, p, i + p, calls - 1); }
  }

  lemma {:induction false} FixedIsSlices<T>(rows: seq<Entry<T>>, p: nat, i: nat, calls: nat)
    requires p >= 1 && i <= |rows| && calls >= |Slices(rows[i..], p)|
    ensures FixedPages(rows, p, i, calls) == Slices(rows[i..], p)
    decreases calls
  {
    SlicesStep(rows, p, i);
    if i + p < |rows| {
      FixedIsSlices(rows, p, i + p, calls - 1);
    }
  }

  /** On an unchanging table of n rows, given max(1, ceil(n/p)) calls or more, following the tokens ends after
      exactly that many pages; together they are the whole sorted table, and only the last carries no token. */
  lemma PagesAreTheTable<T>(less: Order, rows: seq<Entry<T>>, p: nat, calls: nat)
    requires StrictOrder(less) && Sorted(less, rows) && TokenSafe(rows) && p >= 1
    requires calls >= PageCount(|rows|, p)
    ensures Scan(less, Repeat(rows, calls), Repeat(p, calls), []).Some?
    ensures var pages := Scan(less, Repeat(rows, calls), Repeat(p, calls), []).value;
      && Rows(pages) == rows
      && |pages| == PageCount(|rows|, p)
      && OnlyTheLastEnds(pages)
  {
    TokensCarryCursors(less, Repeat(rows, calls), Repeat(p, calls), [], None);
    SliceCount(rows, p);
    TurnsAreCeiling(|rows|, p);
    assert rows[0..] == rows;
    var pageAt := c => PageAfter(less, rows, c, p);
    forall j | 0 <= j <= |rows| ensures pageAt(AfterRow(rows, j)) == PageAtRow(rows, p, j) {
      SortedPage(less, rows, p, j);
    }
    FollowRepeats(less, rows, p, pageAt, None, calls);
    FollowIsFixed(pageAt, rows, p, 0, calls);
    FixedIsSlices(rows, p, 0, calls);
    SlicesEnd(rows, p);
    SlicesJoin(rows, p);
  }
}
