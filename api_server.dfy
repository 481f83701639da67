/** api_server.py: the decisions and arithmetic of the REST endpoints over
    the detected_plates table -- the confirmation gate of delete-all, the
    not-found answer of delete, the pagination of the listing, and the
    LIKE search with its empty-query refusal. */
module Api {
  import opened Records
  import opened Text
  import opened StoreSpec
  import PlateStore

  /** The value the X-Confirm-Delete header must carry. */
  const CONFIRM_TOKEN: string := "YES_DELETE_ALL"

  const CONFIRM_MESSAGE: string := "Vui lòng thêm header X-Confirm-Delete: YES_DELETE_ALL để xác nhận"
  const DELETED_ALL_MESSAGE: string := "Đã xóa tất cả biển số"
  const EMPTY_QUERY_MESSAGE: string := "Vui lòng nhập từ khóa tìm kiếm"

  const HTTP_BAD_REQUEST: nat := 400
  const HTTP_NOT_FOUND: nat := 404

  /** Python's sqlite3 binds an int parameter as a 64-bit SQLite INTEGER and
      raises OverflowError for any value outside that range. */
  predicate FitsInt64(x: int) {
    -0x8000_0000_0000_0000 <= x <= 0x7FFF_FFFF_FFFF_FFFF
  }

  /** An endpoint's answer: the success body, a refusal with its HTTP status
      and message, or an uncaught exception (HTTP 500). */
  datatype Reply<T> = Success(value: T) | Failure(status: nat, message: string) | ServerError

  // ------------------------------------------------------------- deletion

  /** DELETE /api/plates/all: refused with 400 unless the header is exactly
      the token; otherwise every detection row goes, and the other tables
      and the AUTOINCREMENT counter stay. */
  method DeleteAllPlates(db: PlateStore.AdvancedPlateDB, confirm: Option<string>) returns (r: Reply<string>)
    requires db.Valid()
    modifies db
    ensures db.Valid()
    ensures confirm != Some(CONFIRM_TOKEN) ==>
              r == Failure(HTTP_BAD_REQUEST, CONFIRM_MESSAGE) && db.Tables() == old(db.Tables())
    ensures confirm == Some(CONFIRM_TOKEN) ==>
              r == Success(DELETED_ALL_MESSAGE) && db.Tables() == old(db.Tables()).(events := map[])
  {
    if confirm != Some(CONFIRM_TOKEN) {
      return Failure(HTTP_BAD_REQUEST, CONFIRM_MESSAGE);
    }
    db.events := map[];
    r := Success(DELETED_ALL_MESSAGE);
  }

  /** DELETE /api/plates/<id>: an id too large to bind makes the first
      SELECT raise (HTTP 500) with no change; 404 and no change for an
      absent id; otherwise exactly that row goes, with no tombstone.  The
      success answer carries the id its message names. */
  method DeletePlate(db: PlateStore.AdvancedPlateDB, id: nat) returns (r: Reply<nat>)
    requires db.Valid()
    modifies db
    ensures db.Valid()
    ensures !FitsInt64(id) ==> r == ServerError && db.Tables() == old(db.Tables())
    ensures FitsInt64(id) && id !in old(db.events) ==>
              r == Failure(HTTP_NOT_FOUND, PlateStore.NOT_FOUND_MESSAGE) && db.Tables() == old(db.Tables())
    ensures FitsInt64(id) && id in old(db.events) ==>
              r == Success(id) && db.Tables() == old(db.Tables()).(events := old(db.events) - {id})
  {
    if !FitsInt64(id) {
      return ServerError;
    }
    if id !in db.events {
      return Failure(HTTP_NOT_FOUND, PlateStore.NOT_FOUND_MESSAGE);
    }
    db.events := db.events - {id};
    r := Success(id);
  }

  // ----------------------------------------------------------- pagination

  /** Python's // : the floor of a / b. */
  function FloorDiv(a: int, b: int): (q: int)
    requires b != 0
    ensures b > 0 ==> q * b <= a < q * b + b
    ensures b < 0 ==> q * b >= a > q * b + b
  {
    if b > 0 then a / b else (-a) / (-b)
  }

  /** offset = (page - 1) * per_page. */
  function Offset(page: int, perPage: int): (offset: int)
    ensures perPage > 0 ==> (offset < 0 <==> page < 1)
    ensures page >= 1 && perPage >= 0 ==> offset >= 0
  {
    (page - 1) * perPage
  }

  /** total_pages = (total + per_page - 1) // per_page; a per_page of 0
      raises ZeroDivisionError. */
  function TotalPages(total: nat, perPage: int): (n: Option<int>)
    ensures perPage == 0 <==> n.None?
    ensures perPage > 0 ==> n.Some? && n.value >= 0 && (n.value == 0 <==> total == 0)
  {
    if perPage == 0 then None else Some(FloorDiv(total + perPage - 1, perPage))
  }

  /** SQLite's LIMIT limit OFFSET offset over rows in query order: a
      negative offset counts as 0 and a negative limit means no limit. */
  function Window<T>(rows: seq<T>, limit: int, offset: int): (w: seq<T>)
    ensures |w| <= |rows|
    ensures 0 <= offset <= |rows| && 0 <= limit ==>
              |w| == (if offset + limit <= |rows| then limit else |rows| - offset)
    ensures 0 <= offset <= |rows| ==> offset + |w| <= |rows| && w == rows[offset..offset + |w|]
    ensures offset < 0 ==> w == rows[..|w|]
    ensures offset < 0 && 0 <= limit ==> |w| == (if limit <= |rows| then limit else |rows|)
    ensures limit < 0 && 0 <= offset <= |rows| ==> w == rows[offset..]
    ensures limit < 0 && offset < 0 ==> w == rows
    ensures offset >= |rows| ==> w == []
  {
    var start := if offset < 0 then 0 else if offset > |rows| then |rows| else offset;
    var end := if limit < 0 || start + limit > |rows| then |rows| else start + limit;
    rows[start..end]
  }

  /** For a positive page size, total_pages is the ceiling of
      total / per_page: enough pages for every row, and not one more. */
  lemma TotalPagesIsCeiling(total: nat, perPage: int)
    requires perPage > 0
    ensures TotalPages(total, perPage).Some?
    ensures var n := TotalPages(total, perPage).value;
      n >= 0 && total <= n * perPage < total + perPage
  {
    var n := FloorDiv(total + perPage - 1, perPage);
    assert n * perPage <= total + perPage - 1 < n * perPage + perPage;
  }

  /** Row offset + k of the listing sits at position k of the window that
      starts at offset, for any k below the page size. */
  lemma WindowAt<T>(rows: seq<T>, perPage: int, offset: int, k: int)
    requires 0 <= offset && 0 <= k < perPage && offset + k < |rows|
    ensures k < |Window(rows, perPage, offset)|
    ensures Window(rows, perPage, offset)[k] == rows[offset + k]
  {
  }

  /** Scaling by a positive factor keeps a strict order. */
  lemma ProductOrder(a: int, b: int, c: int)
    requires c > 0 && a * c < b * c
    ensures a < b
  {
  }

  /** With a positive page size, row i of the listing is shown on page
      i / per_page + 1, at position i % per_page, and that page is within
      total_pages. */
  lemma EveryRowOnItsPage<T>(rows: seq<T>, perPage: int, i: int)
    requires perPage > 0 && 0 <= i < |rows|
    ensures var page := i / perPage + 1;
      && 1 <= page <= TotalPages(|rows|, perPage).value
      && i % perPage < |Window(rows, perPage, Offset(page, perPage))|
      && Window(rows, perPage, Offset(page, perPage))[i % perPage] == rows[i]
  {
    var q, m := i / perPage, i % perPage;
    assert i == q * perPage + m && 0 <= m < perPage && 0 <= q;
    RowOnPage(rows, perPage, q, m);
  }

  /** Row q * per_page + m, for m below the page size, is at position m of
      page q + 1, and that page is within total_pages. */
  lemma RowOnPage<T>(rows: seq<T>, perPage: int, q: int, m: int)
    requires perPage > 0 && 0 <= q && 0 <= m < perPage && q * perPage + m < |rows|
    ensures 1 <= q + 1 <= TotalPages(|rows|, perPage).value
    ensures m < |Window(rows, perPage, Offset(q + 1, perPage))|
    ensures Window(rows, perPage, Offset(q + 1, perPage))[m] == rows[q * perPage + m]
  {
    var offset := q * perPage;
    assert Offset(q + 1, perPage) == offset;
    assert 0 <= offset by {
      assert q * perPage >= 0 * perPage;
    }
    WindowAt(rows, perPage, offset, m);
    TotalPagesIsCeiling(|rows|, perPage);
    var n := TotalPages(|rows|, perPage).value;
    ProductOrder(q, n, perPage);
  }

  /** A page number of 0 or below asks for a negative offset, which SQLite
      treats as 0: the first page is returned. */
  lemma NonPositivePageIsFirst<T>(rows: seq<T>, perPage: int, page: int)
    requires perPage > 0 && page <= 1
    ensures Window(rows, perPage, Offset(page, perPage)) == Window(rows, perPage, Offset(1, perPage))
  {
    assert Offset(page, perPage) <= 0;
  }

  /** The body of GET /api/plates. */
  datatype Listing = Listing(total: nat, page: int, perPage: int, totalPages: int, data: seq<Event>)

  /** GET /api/plates over the table listed in ORDER BY timestamp DESC
      order: the count, the requested window, and the page count; an
      uncaught OverflowError when the limit or the offset does not fit a
      64-bit INTEGER, or ZeroDivisionError when per_page is 0. */
  function GetAllPlates(rows: seq<Event>, page: int, perPage: int): (r: Reply<Listing>)
    ensures r.ServerError? <==>
              perPage == 0 || !FitsInt64(perPage) || !FitsInt64(Offset(page, perPage))
    ensures r.Success? ==>
              && r.value.total == |rows|
              && r.value.data == Window(rows, perPage, Offset(page, perPage))
              && r.value.totalPages == FloorDiv(|rows| + perPage - 1, perPage)
    ensures r.Success? && perPage > 0 ==> |r.value.data| <= perPage
  {
    if !FitsInt64(perPage) || !FitsInt64(Offset(page, perPage)) then ServerError
    else match TotalPages(|rows|, perPage)
    case None => ServerError
    case Some(n) => Success(Listing(|rows|, page, perPage, n, Window(rows, perPage, Offset(page, perPage))))
  }

  // --------------------------------------------------------------- search

  /** SQLite's LIKE with no ESCAPE: % matches any run of characters, _ any
      one character, and other characters match up to ASCII case. */
  predicate Like(s: string, p: string)
    decreases |p|, |s|
  {
    if p == [] then s == []
    else if p[0] == '%' then Like(s, p[1..]) || (s != [] && Like(s[1..], p))
    else s != [] && (p[0] == '_' || UpperChar(p[0]) == UpperChar(s[0])) && Like(s[1..], p[1..])
  }

  predicate NoWildcards(q: string) {
    forall i :: 0 <= i < |q| ==> q[i] != '%' && q[i] != '_'
  }

  /** t starts with q, ignoring ASCII case. */
  predicate StartsFolded(t: string, q: string) {
    |q| <= |t| && Upper(t[..|q|]) == Upper(q)
  }

  /** q occurs in s, ignoring ASCII case. */
  ghost predicate ContainsFolded(s: string, q: string) {
    exists i :: 0 <= i <= |s| && StartsFolded(s[i..], q)
  }

  /** A trailing % matches whatever is left. */
  lemma {:induction false} LikeAnyRest(s: string)
    ensures Like(s, "%")
    decreases |s|
  {
    if s != [] {
      LikeAnyRest(s[1..]);
    }
  }

  /** A literal followed by % matches exactly the strings that start with
      the literal, up to case. */
  lemma {:induction false} LikeLiteralPrefix(s: string, q: string)
    requires NoWildcards(q)
    ensures Like(s, q + "%") <==> StartsFolded(s, q)
    decreases |q|
  {
    if q == [] {
      assert q + "%" == "%";
      LikeAnyRest(s);
    } else {
      var p := q + "%";
      assert p[0] == q[0] && p[1..] == q[1..] + "%";
      assert NoWildcards(q[1..]) by {
        forall i | 0 <= i < |q[1..]| ensures q[1..][i] != '%' && q[1..][i] != '_' {
          assert q[1..][i] == q[i + 1];
        }
      }
      if s != [] {
        LikeLiteralPrefix(s[1..], q[1..]);
        if |q| <= |s| {
          assert s[..|q|] == [s[0]] + s[1..][..|q| - 1];
          assert Upper(s[..|q|]) == [UpperChar(s[0])] + Upper(s[1..][..|q| - 1]);
          assert Upper(q) == [UpperChar(q[0])] + Upper(q[1..]);
        }
      }
    }
  }

  /** A leading % lets the rest of the pattern match any suffix. */
  lemma {:induction false} LikeAnyPrefix(s: string, p: string)
    ensures Like(s, "%" + p) <==> exists i :: 0 <= i <= |s| && Like(s[i..], p)
    decreases |s|
  {
    var pp := "%" + p;
    assert pp[1..] == p;
    assert s[0..] == s;
    if s != [] {
      LikeAnyPrefix(s[1..], p);
      if exists i :: 0 <= i <= |s| && Like(s[i..], p) {
        var i :| 0 <= i <= |s| && Like(s[i..], p);
        if i > 0 {
          assert s[1..][i - 1..] == s[i..];
        }
      }
      if exists j :: 0 <= j <= |s[1..]| && Like(s[1..][j..], p) {
        var j :| 0 <= j <= |s[1..]| && Like(s[1..][j..], p);
        assert s[1..][j..] == s[j + 1..];
      }
    }
  }

  /** The search pattern '%q%' for a query without wildcards matches
      exactly the plates that contain the query, ignoring ASCII case. */
  lemma SearchIsSubstring(s: string, q: string)
    requires NoWildcards(q)
    ensures Like(s, "%" + q + "%") <==> ContainsFolded(s, q)
  {
    assert "%" + q + "%" == "%" + (q + "%");
    LikeAnyPrefix(s, q + "%");
    if ContainsFolded(s, q) {
      var i :| 0 <= i <= |s| && StartsFolded(s[i..], q);
      LikeLiteralPrefix(s[i..], q);
    }
    if exists i :: 0 <= i <= |s| && Like(s[i..], q + "%") {
      var i :| 0 <= i <= |s| && Like(s[i..], q + "%");
      LikeLiteralPrefix(s[i..], q);
    }
  }

  /** a is b with some elements left out, the rest kept in b's order. */
  ghost predicate IsSubsequence<T>(a: seq<T>, b: seq<T>)
    decreases |b|
  {
    if a == [] then true
    else if b == [] then false
    else (a[0] == b[0] && IsSubsequence(a[1..], b[1..])) || IsSubsequence(a, b[1..])
  }

  /** Timestamps never increase along the rows: ORDER BY timestamp DESC. */
  ghost predicate NewestFirst(rows: seq<Event>) {
    forall i, j :: 0 <= i < j < |rows| ==> rows[i].timestamp >= rows[j].timestamp
  }

  /** A subsequence of a newest-first listing is newest first. */
  lemma {:induction false} SubsequenceNewestFirst(a: seq<Event>, b: seq<Event>)
    requires IsSubsequence(a, b)
    ensures NewestFirst(b) ==> NewestFirst(a)
    decreases |b|
  {
    if a != [] && NewestFirst(b) {
      if a[0] == b[0] && IsSubsequence(a[1..], b[1..]) {
        SubsequenceNewestFirst(a[1..], b[1..]);
        SubsequenceHeadBound(a[1..], b[1..], b[0].timestamp);
      } else {
        SubsequenceNewestFirst(a, b[1..]);
      }
    }
  }

  /** Every row of a subsequence of b is bounded as every row of b is. */
  lemma {:induction false} SubsequenceHeadBound(a: seq<Event>, b: seq<Event>, t: int)
    requires IsSubsequence(a, b) && forall j :: 0 <= j < |b| ==> b[j].timestamp <= t
    ensures forall j :: 0 <= j < |a| ==> a[j].timestamp <= t
    decreases |b|
  {
    if a != [] {
      if a[0] == b[0] && IsSubsequence(a[1..], b[1..]) {
        SubsequenceHeadBound(a[1..], b[1..], t);
        assert forall j :: 1 <= j < |a| ==> a[j] == a[1..][j - 1];
      } else {
        SubsequenceHeadBound(a, b[1..], t);
        assert forall j :: 1 <= j < |b| ==> b[j] == b[1..][j - 1];
      }
    }
  }

  /** The rows whose plate matches the pattern: each matching row as often
      as the listing holds it, no other row, in listing order. */
  function Matching(rows: seq<Event>, pattern: string): (r: seq<Event>)
    ensures |r| <= |rows|
    ensures forall e :: multiset(r)[e] == if Like(e.plate, pattern) then multiset(rows)[e] else 0
    ensures IsSubsequence(r, rows)
  {
    if rows == [] then []
    else
      var head := if Like(rows[0].plate, pattern) then [rows[0]] else [];
      var tail := Matching(rows[1..], pattern);
      assert multiset(rows) == multiset([rows[0]]) + multiset(rows[1..]) by {
        assert rows == [rows[0]] + rows[1..];
      }
      assert multiset(head + tail) == multiset(head) + multiset(tail);
      assert IsSubsequence(head + tail, rows) by {
        if head == [] {
          assert head + tail == tail;
        } else {
          assert (head + tail)[1..] == tail;
        }
      }
      head + tail
  }

  /** GET /api/plates/search?q=...: an empty query is refused with 400
      before the table is read; otherwise the rows whose plate matches
      '%q%'. */
  function SearchPlates(rows: seq<Event>, q: string): (r: Reply<seq<Event>>)
    ensures q == [] <==> r == Failure(HTTP_BAD_REQUEST, EMPTY_QUERY_MESSAGE)
    ensures q != [] ==> r.Success? && forall e :: e in r.value <==> e in rows && Like(e.plate, "%" + q + "%")
    ensures q != [] ==> forall e :: multiset(r.value)[e] == if Like(e.plate, "%" + q + "%") then multiset(rows)[e] else 0
    ensures q != [] ==> IsSubsequence(r.value, rows) && (NewestFirst(rows) ==> NewestFirst(r.value))
  {
    if q == [] then Failure(HTTP_BAD_REQUEST, EMPTY_QUERY_MESSAGE)
    else
      var m := Matching(rows, "%" + q + "%");
      SubsequenceNewestFirst(m, rows);
      Success(m)
  }
}
