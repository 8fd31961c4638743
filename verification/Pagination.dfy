/** findAll's pages, each cut from its own query ordered by created_at, newest first. */
module Pagination {
  import opened Arithmetic

  datatype Row = Row(id: string, createdAt: int)

  function Min(a: int, b: int): int {
    if a < b then a else b
  }

  /** skip and take, with pages numbered from 1. */
  function Page<T>(rows: seq<T>, page: int, limit: int): seq<T>
    requires page >= 1 && limit >= 1
  {
    Bounds(page, limit);
    var skip := (page - 1) * limit;
    rows[Min(skip, |rows|)..Min(skip + limit, |rows|)]
  }

  lemma Bounds(page: int, limit: int)
    requires page >= 1 && limit >= 1
    ensures 0 <= (page - 1) * limit && (page - 1) * limit + limit == page * limit
  {
  }

  function TotalPages(total: nat, limit: int): (pages: nat)
    requires limit >= 1
    ensures pages * limit >= total
    ensures pages > 0 ==> (pages - 1) * limit < total
  {
    if total == 0 then 0
    else
      var pages := (total - 1) / limit + 1;
      assert (total - 1) / limit * limit <= total - 1 < (total - 1) / limit * limit + limit;
      pages
  }

  /** Pages 1 to n of one ordered result. */
  function Pages<T>(rows: seq<T>, n: nat, limit: int): seq<T>
    requires limit >= 1
  {
    if n == 0 then [] else Pages(rows, n - 1, limit) + Page(rows, n, limit)
  }

  lemma {:induction false} PagesArePrefix<T>(rows: seq<T>, n: nat, limit: int)
    requires limit >= 1
    ensures 0 <= n * limit && Pages(rows, n, limit) == rows[..Min(n * limit, |rows|)]
  {
    if n > 0 {
      PagesArePrefix(rows, n - 1, limit);
      Bounds(n, limit);
    }
  }

  /** Read from one ordered result, the pages put together are the result, and none of them is empty. */
  lemma {:induction false} PagesMakeTheResult<T>(rows: seq<T>, limit: int, page: int)
    requires limit >= 1 && page >= 1
    ensures Pages(rows, TotalPages(|rows|, limit), limit) == rows
    ensures Page(rows, page, limit) != [] <==> page <= TotalPages(|rows|, limit)
  {
    var pages := TotalPages(|rows|, limit);
    PagesArePrefix(rows, pages, limit);
    Bounds(page, limit);
    if page <= pages {
      MulMonotone(page - 1, pages - 1, limit);
    } else {
      MulMonotone(pages, page - 1, limit);
    }
  }

  // Each page is its own query, and rows created at one instant come in any order

  /** One of the orders the query may give for a table. */
  ghost predicate Lists(rows: seq<Row>, table: set<Row>) {
    && (forall i, j | 0 <= i < j < |rows| :: rows[i] != rows[j])
    && (forall r :: r in rows <==> r in table)
    && (forall i, j | 0 <= i < j < |rows| :: rows[i].createdAt >= rows[j].createdAt)
  }

  /** Rows created at one instant lie on both sides of the boundary after some page. */
  ghost predicate TieAcrossPages(rows: seq<Row>, limit: int) {
    exists page :: IsTie(rows, page, limit)
  }

  predicate IsTie(rows: seq<Row>, page: int, limit: int) {
    page >= 1 && 0 < page * limit < |rows| && rows[page * limit - 1].createdAt == rows[page * limit].createdAt
  }

  ghost predicate OnPage(results: seq<seq<Row>>, r: Row, page: int, limit: int)
    requires limit >= 1
  {
    1 <= page <= |results| && r in Page(results[page - 1], page, limit)
  }

  /** Page n comes from the nth result; every row is on exactly one page. */
  ghost predicate Partitioned(results: seq<seq<Row>>, table: set<Row>, limit: int)
    requires limit >= 1
  {
    forall r | r in table ::
      && (exists page :: OnPage(results, r, page, limit))
      && (forall p, q | OnPage(results, r, p, limit) && OnPage(results, r, q, limit) :: p == q)
  }

  ghost predicate AreResults(results: seq<seq<Row>>, table: set<Row>, limit: int)
    requires limit >= 1
  {
    |results| == TotalPages(|table|, limit) && forall i | 0 <= i < |results| :: Lists(results[i], table)
  }

  ghost predicate AlwaysPartitioned(table: set<Row>, limit: int)
    requires limit >= 1
  {
    forall results | AreResults(results, table, limit) :: Partitioned(results, table, limit)
  }

  function Elements(rows: seq<Row>): set<Row> {
    set r | r in rows
  }

  lemma {:induction false} ElementsSize(rows: seq<Row>)
    requires forall i, j | 0 <= i < j < |rows| :: rows[i] != rows[j]
    ensures |Elements(rows)| == |rows|
  {
    if rows != [] {
      var front, last := rows[..|rows| - 1], rows[|rows| - 1];
      ElementsSize(front);
      assert Elements(rows) == Elements(front) + {last};
      assert last !in Elements(front);
    }
  }

  lemma ListsSize(rows: seq<Row>, table: set<Row>)
    requires Lists(rows, table)
    ensures |rows| == |table|
  {
    ElementsSize(rows);
    assert Elements(rows) == table;
  }

  /** Where no tie crosses, every order puts the same rows before the boundary. */
  lemma SamePrefix(a: seq<Row>, b: seq<Row>, table: set<Row>, m: nat)
    requires Lists(a, table) && Lists(b, table) && 0 < m < |a| && a[m - 1].createdAt > a[m].createdAt
    ensures |b| == |a| && Elements(b[..m]) == Elements(a[..m])
  {
    ListsSize(a, table);
    ListsSize(b, table);
    ElementsSize(a[..m]);
    ElementsSize(b[..m]);
    var newer := Elements(a[..m]);
    forall i, j | 0 <= i < j < |b| && b[j] in newer ensures b[i] in newer {
      NewerIsPrefix(a, table, m, b[j], b[i]);
    }
    if i :| 0 <= i < m && b[i] !in newer {
      assert newer <= Elements(b[..i]) by {
        forall r | r in newer ensures r in b[..i] {
          assert r in b;
          var j :| 0 <= j < |b| && b[j] == r;
          assert j < i;
          assert b[..i][j] == r;
        }
      }
      ElementsSize(b[..i]);
      SubsetSize(newer, Elements(b[..i]));
    }
    assert Elements(b[..m]) <= newer;
    SubsetEqual(Elements(b[..m]), newer);
  }

  lemma NewerIsPrefix(a: seq<Row>, table: set<Row>, m: nat, r: Row, s: Row)
    requires Lists(a, table) && 0 < m < |a| && a[m - 1].createdAt > a[m].createdAt
    requires r in a[..m] && s in table && s.createdAt >= r.createdAt
    ensures s in a[..m]
  {
    var i :| 0 <= i < m && a[i] == r;
    var j :| 0 <= j < |a| && a[j] == s;
    assert a[i].createdAt >= a[m - 1].createdAt;
    assert j < m;
    assert a[..m][j] == s;
  }

  lemma SubsetSize<T>(a: set<T>, b: set<T>)
    requires a <= b
    ensures |a| <= |b|
  {
    assert b == a + (b - a);
  }

  lemma SubsetEqual<T>(a: set<T>, b: set<T>)
    requires a <= b && |a| == |b|
    ensures a == b
  {
    if r :| r in b && r !in a {
      SubsetSize(a + {r}, b);
    }
  }

  /** Before any page boundary, every order has the same rows. */
  lemma SameBoundary(a: seq<Row>, b: seq<Row>, table: set<Row>, limit: int, page: int)
    requires Lists(a, table) && Lists(b, table) && limit >= 1 && page >= 0 && !TieAcrossPages(a, limit)
    ensures 0 <= page * limit && |b| == |a|
    ensures Elements(a[..Min(page * limit, |a|)]) == Elements(b[..Min(page * limit, |a|)])
  {
    ListsSize(a, table);
    ListsSize(b, table);
    MulMonotone(0, page, limit);
    var m := page * limit;
    if 0 < m < |a| {
      assert page >= 1;
      assert !IsTie(a, page, limit);
      SamePrefix(a, b, table, m);
    } else if m >= |a| {
      assert a[..|a|] == a && b[..|a|] == b;
    }
  }

  lemma InPage(rows: seq<Row>, table: set<Row>, limit: int, page: int, r: Row)
    requires Lists(rows, table) && limit >= 1 && page >= 1
    ensures 0 <= (page - 1) * limit <= page * limit
    ensures r in Page(rows, page, limit) <==>
      r in Elements(rows[..Min(page * limit, |rows|)]) && r !in Elements(rows[..Min((page - 1) * limit, |rows|)])
  {
    Bounds(page, limit);
    var lo, hi := Min((page - 1) * limit, |rows|), Min(page * limit, |rows|);
    assert Page(rows, page, limit) == rows[lo..hi];
    if r in rows[lo..hi] {
      var i :| lo <= i < hi && rows[i] == r;
      assert rows[..hi][i] == r;
    }
    if r in rows[..hi] && r !in rows[..lo] {
      var i :| 0 <= i < hi && rows[i] == r;
      assert forall k | 0 <= k < lo :: rows[..lo][k] == rows[k] != r;
      assert rows[lo..hi][i - lo] == r;
    }
  }

  lemma SamePage(a: seq<Row>, b: seq<Row>, table: set<Row>, limit: int, page: int, r: Row)
    requires Lists(a, table) && Lists(b, table) && limit >= 1 && page >= 1 && !TieAcrossPages(a, limit)
    ensures r in Page(a, page, limit) <==> r in Page(b, page, limit)
  {
    SameBoundary(a, b, table, limit, page);
    SameBoundary(a, b, table, limit, page - 1);
    InPage(a, table, limit, page, r);
    InPage(b, table, limit, page, r);
  }

  /** A row of one result is on the page its position says, and on no other. */
  lemma PageOfPosition(a: seq<Row>, table: set<Row>, limit: int, i: nat, page: int)
    requires Lists(a, table) && limit >= 1 && page >= 1 && i < |a|
    ensures a[i] in Page(a, page, limit) <==> page == i / limit + 1
  {
    Bounds(page, limit);
    var lo, hi := Min((page - 1) * limit, |a|), Min(page * limit, |a|);
    assert Page(a, page, limit) == a[lo..hi];
    assert a[i] in a[lo..hi] <==> lo <= i < hi by {
      if lo <= i < hi {
        assert a[lo..hi][i - lo] == a[i];
      }
      if a[i] in a[lo..hi] {
        var j :| lo <= j < hi && a[j] == a[i];
        assert j == i;
      }
    }
    QuotientIs(i, page - 1, limit);
  }

  lemma QuotientIs(i: nat, q: int, limit: int)
    requires limit >= 1
    ensures q * limit <= i < q * limit + limit <==> q == i / limit
  {
    var k := i / limit;
    assert k * limit <= i < k * limit + limit;
    if q < k {
      MulMonotone(q + 1, k, limit);
      assert (q + 1) * limit == q * limit + limit;
    } else if q > k {
      MulMonotone(k + 1, q, limit);
      assert (k + 1) * limit == k * limit + limit;
    }
  }

  lemma NoTieMeansPartitioned(a: seq<Row>, table: set<Row>, limit: int, results: seq<seq<Row>>)
    requires Lists(a, table) && limit >= 1 && !TieAcrossPages(a, limit) && AreResults(results, table, limit)
    ensures Partitioned(results, table, limit)
  {
    ListsSize(a, table);
    forall r | r in table
      ensures exists page :: OnPage(results, r, page, limit)
      ensures forall p, q | OnPage(results, r, p, limit) && OnPage(results, r, q, limit) :: p == q
    {
      assert r in a;
      var i :| 0 <= i < |a| && a[i] == r;
      var home := i / limit + 1;
      LastPage(i, |a|, limit);
      forall page | 1 <= page <= |results| ensures OnPage(results, r, page, limit) <==> page == home {
        SamePage(a, results[page - 1], table, limit, page, r);
        PageOfPosition(a, table, limit, i, page);
      }
      assert OnPage(results, r, home, limit);
    }
  }

  lemma LastPage(i: nat, total: nat, limit: int)
    requires limit >= 1 && i < total
    ensures 1 <= i / limit + 1 <= TotalPages(total, limit)
  {
    var pages := TotalPages(total, limit);
    var k := i / limit;
    assert k * limit <= i;
    if k >= pages {
      MulMonotone(pages, k, limit);
    }
  }

  /** The two neighbours of a page boundary change places. */
  function Swapped(a: seq<Row>, m: nat): seq<Row>
    requires 0 < m < |a|
  {
    a[m - 1 := a[m]][m := a[m - 1]]
  }

  /** One query per page, the one after the boundary in the other order. */
  function TieResults(a: seq<Row>, b: seq<Row>, page: nat, pages: nat): (results: seq<seq<Row>>)
    ensures |results| == pages
    ensures forall i | 0 <= i < pages :: results[i] == if i == page then b else a
  {
    seq(pages, i => if i == page then b else a)
  }

  /** With a tie across a boundary, two orders put one row on both sides of it. */
  lemma TieRepeatsARow(a: seq<Row>, table: set<Row>, limit: int, page: int)
    requires Lists(a, table) && limit >= 1 && IsTie(a, page, limit)
    ensures !AlwaysPartitioned(table, limit)
  {
    ListsSize(a, table);
    var b := Swapped(a, page * limit);
    SwapLists(a, table, page * limit);
    var pages := TotalPages(|table|, limit);
    if pages <= page {
      MulMonotone(pages, page, limit);
    }
    var results := TieResults(a, b, page, pages);
    assert AreResults(results, table, limit);
    PageBesideBoundary(a, page, limit);
    PageBesideBoundary(b, page, limit);
    OnBothSides(results, table, a[page * limit - 1], page, limit);
  }

  lemma PageBesideBoundary(rows: seq<Row>, page: int, limit: int)
    requires limit >= 1 && page >= 1 && 0 < page * limit < |rows|
    ensures rows[page * limit - 1] in Page(rows, page, limit)
    ensures rows[page * limit] in Page(rows, page + 1, limit)
  {
    Bounds(page, limit);
    Bounds(page + 1, limit);
    assert Page(rows, page, limit)[page * limit - 1 - (page - 1) * limit] == rows[page * limit - 1];
    assert Page(rows, page + 1, limit)[0] == rows[page * limit];
  }

  lemma OnBothSides(results: seq<seq<Row>>, table: set<Row>, r: Row, page: int, limit: int)
    requires limit >= 1 && 1 <= page < |results| && r in table
    requires r in Page(results[page - 1], page, limit) && r in Page(results[page], page + 1, limit)
    ensures !Partitioned(results, table, limit)
  {
    assert OnPage(results, r, page, limit) && OnPage(results, r, page + 1, limit);
  }

  lemma SwapLists(a: seq<Row>, table: set<Row>, m: nat)
    requires Lists(a, table) && 0 < m < |a| && a[m - 1].createdAt == a[m].createdAt
    ensures Lists(Swapped(a, m), table)
  {
    var b := Swapped(a, m);
    forall r ensures r in b <==> r in table {
      if r in a {
        var i :| 0 <= i < |a| && a[i] == r;
        assert b[if i == m then m - 1 else if i == m - 1 then m else i] == r;
      }
    }
  }

  /** However each query orders the rows it may order freely, every row is on exactly one page, exactly
      when no two rows created at one instant lie on both sides of a page boundary. */
  lemma {:induction false} PagesPartitionExactlyWhen(a: seq<Row>, table: set<Row>, limit: int)
    requires Lists(a, table) && limit >= 1
    ensures AlwaysPartitioned(table, limit) <==> !TieAcrossPages(a, limit)
  {
    if TieAcrossPages(a, limit) {
      var page :| IsTie(a, page, limit);
      TieRepeatsARow(a, table, limit, page);
    } else {
      forall results | AreResults(results, table, limit) ensures Partitioned(results, table, limit) {
        NoTieMeansPartitioned(a, table, limit, results);
      }
    }
  }
}
