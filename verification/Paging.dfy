/** The two paging loops: `SandboxClient.list` (client/sandbox.py) and the transfer list
    (client/storage_api.py), against a server whose list does not change meanwhile. */
module Paging {
  import opened Sequences

  datatype Page<T> = Page(rows: seq<T>, total: nat)

  /** The number of rows on the full pages before page p; pages are counted from 1. */
  function RowsBefore(p: nat, pageSize: nat): nat
    requires p > 0
  {
    if p == 1 then 0 else RowsBefore(p - 1, pageSize) + pageSize
  }

  lemma {:induction false} RowsBeforeIsProduct(p: nat, pageSize: nat)
    requires p > 0
    ensures RowsBefore(p, pageSize) == (p - 1) * pageSize
  {
    if p == 1 {
    } else {
      RowsBeforeIsProduct(p - 1, pageSize);
      assert (p - 1) * pageSize == (p - 2) * pageSize + pageSize;
    }
  }

  /** The server's answer for page number p. */
  function FetchPage<T>(items: seq<T>, pageSize: nat, p: nat): Page<T>
    requires p > 0
  {
    var before := RowsBefore(p, pageSize);
    Page(items[Min(before, |items|)..Min(before + pageSize, |items|)], |items|)
  }

  /** The smallest number of pages of this size that hold n rows. */
  ghost predicate IsPageCount(n: nat, pageSize: nat, pages: nat) {
    RowsBefore(pages + 1, pageSize) >= n && (pages > 0 ==> RowsBefore(pages, pageSize) < n)
  }

  /** That number is the quotient rounded up. */
  lemma {:induction false} PageCountIsCeiling(n: nat, pageSize: nat, pages: nat)
    requires pageSize > 0
    ensures IsPageCount(n, pageSize, pages) <==> pages == (n + pageSize - 1) / pageSize
  {
    RowsBeforeIsProduct(pages + 1, pageSize);
    if pages > 0 {
      RowsBeforeIsProduct(pages, pageSize);
    }
    CeilingIff(n, pageSize, pages);
  }

  lemma {:induction false} CeilingIff(n: nat, pageSize: nat, pages: nat)
    requires pageSize > 0
    ensures pages == (n + pageSize - 1) / pageSize
       <==> pages * pageSize >= n && (pages > 0 ==> (pages - 1) * pageSize < n)
  {
    QuotientIff(n + pageSize - 1, pageSize, pages);
    assert (pages - 1) * pageSize == pages * pageSize - pageSize;
    assert pages == 0 ==> pages * pageSize == 0;
  }

  lemma {:induction false} QuotientIff(x: nat, d: nat, q: nat)
    requires d > 0
    ensures q == x / d <==> q * d <= x < q * d + d
  {
    var k := x / d;
    assert x == k * d + x % d && x % d < d;
    if q < k { MulMonotone(q + 1, k, d); }
    if k < q { MulMonotone(k + 1, q, d); }
  }

  lemma {:induction false} MulMonotone(a: nat, b: nat, d: nat)
    requires a <= b
    ensures a * d <= b * d && a * d == (a - 1) * d + d
  {
  }

  /** `SandboxClient.list`: all the items, once and in order, in as few requests as
      possible (one for an empty list). */
  method ListSandboxes<T>(items: seq<T>, queryPageSize: nat) returns (result: seq<T>, requests: nat)
    ensures result == items
    ensures var pageSize := if queryPageSize == 0 then 200 else queryPageSize;
            requests >= 1 && (IsPageCount(|items|, pageSize, requests) || (items == [] && requests == 1))
  {
    var pageSize := if queryPageSize == 0 then 200 else queryPageSize;
    var currentPage := 1;
    result, requests := [], 0;
    while true
      invariant currentPage == requests + 1
      invariant RowsBefore(currentPage, pageSize) <= |items|
      invariant result == items[..RowsBefore(currentPage, pageSize)]
      invariant requests > 0 ==> RowsBefore(currentPage, pageSize) < |items|
      decreases |items| - RowsBefore(currentPage, pageSize)
    {
      var page := FetchPage(items, pageSize, currentPage);
      RowsBeforeIsProduct(currentPage + 1, pageSize);
      result := result + page.rows;
      requests := requests + 1;
      if page.rows == [] || currentPage * pageSize >= page.total {
        break;
      }
      currentPage := currentPage + 1;
    }
  }

  lemma {:induction false} NextPage(p: nat, pageSize: nat)
    requires pageSize > 0 && p > 0
    ensures RowsBefore(p + 1, pageSize) == RowsBefore(p, pageSize) + pageSize
    ensures RowsBefore(p, pageSize) > 0 <==> p > 1
  {
  }

  /** The transfer list: exactly the items from the starting page on.  From the first
      page it costs what the other loop costs; from a later page it always asks for one
      empty page at the end, because it compares the rows it has with the total. */
  method ListTransfers<T>(items: seq<T>, pageSize: nat, startPage: nat) returns (tasks: seq<T>, requests: nat)
    requires pageSize > 0 && startPage > 0
    ensures tasks == items[Min(RowsBefore(startPage, pageSize), |items|)..]
    ensures startPage == 1 ==>
              requests >= 1 && (IsPageCount(|items|, pageSize, requests) || (items == [] && requests == 1))
    ensures startPage > 1 && RowsBefore(startPage, pageSize) < |items| ==>
              requests >= 2 && IsPageCount(|items|, pageSize, startPage + requests - 2)
    ensures startPage > 1 && RowsBefore(startPage, pageSize) >= |items| ==> requests == 1
  {
    tasks, requests := [], 0;
    var pageNumber := startPage;
    ghost var start, at, n := RowsBefore(startPage, pageSize), RowsBefore(startPage, pageSize), |items|;
    NextPage(startPage, pageSize);
    hide RowsBefore;
    while true
      invariant pageNumber == startPage + requests && at == RowsBefore(pageNumber, pageSize)
      invariant start <= at && (start == 0 <==> startPage == 1)
      invariant tasks == items[Min(start, n)..Min(at, n)]
      invariant requests == 0 ==> at == start
      invariant requests > 0 ==> start < n && at - pageSize < n && (startPage == 1 ==> at < n)
      decreases n + pageSize - at
    {
      var page := FetchPage(items, pageSize, pageNumber);
      AppendPage(items, Min(start, n), Min(at, n), Min(at + pageSize, n));
      NextPage(pageNumber, pageSize);
      tasks := tasks + page.rows;
      requests := requests + 1;
      if page.rows == [] || |tasks| >= page.total {
        return;
      }
      pageNumber := pageNumber + 1;
      at := at + pageSize;
    }
  }

  lemma {:induction false} AppendPage<T>(items: seq<T>, a: nat, b: nat, c: nat)
    requires a <= b <= c <= |items|
    ensures items[a..b] + items[b..c] == items[a..c]
  {
  }
}
