/**
  The page arithmetic shared by the list-items query and the seen history
  (`if (page) { ... }`): page size, the `from`/`to` window, the number of
  pages, the "Invalid page number" error and the LIMIT/OFFSET slice.
 */
module Pagination {
  import opened Entities

  /** `limit ?? 15`. */
  const DefaultItemsPerPage: nat := 15

  function ItemsPerPage(limit: Option<nat>): (r: nat)
    ensures limit.None? ==> r == DefaultItemsPerPage
    ensures limit.Some? ==> r == limit.value
  {
    if limit.Some? then limit.value else DefaultItemsPerPage
  }

  /** `Math.ceil(n / d)` for a positive divisor. */
  function CeilDiv(n: nat, d: nat): (r: nat)
    requires d > 0
    ensures (r - 1) * d < n <= r * d
  {
    if n == 0 then 0
    else
      var q := (n - 1) / d;
      assert q * d <= n - 1 < (q + 1) * d;
      q + 1
  }

  /** One page of a result together with its position in the whole result. */
  datatype Paged<T> = Paged(from: int, to: int, data: seq<T>, total: nat, page: nat, totalPages: Option<nat>)

  datatype Window = Window(from: nat, to: nat, totalPages: Option<nat>)

  /**
    The window of page `page` (counted from 1) in a result of `total` rows;
    None is the "Invalid page number" error. `totalPages` is absent when the
    page size is 0 (`Math.ceil(total / 0)` is not a finite number).
   */
  function PageWindow(total: nat, page: nat, itemsPerPage: nat): (r: Option<Window>)
    requires page >= 1
    ensures r.None? <==> itemsPerPage * (page - 1) > total
    ensures r.Some? ==> r.value.from == itemsPerPage * (page - 1)
    ensures r.Some? ==> r.value.to == if total < itemsPerPage * page then total else itemsPerPage * page
    ensures r.Some? ==> r.value.from <= r.value.to <= total
    ensures r.Some? ==> (r.value.totalPages.Some? <==> itemsPerPage > 0)
    ensures r.Some? && itemsPerPage > 0 ==>
      (r.value.totalPages.value - 1) * itemsPerPage < total <= r.value.totalPages.value * itemsPerPage
  {
    var from := itemsPerPage * (page - 1);
    var upTo := itemsPerPage * page;
    if from > total then None
    else
      assert from <= upTo by {
        assert upTo == from + itemsPerPage;
      }
      Some(Window(from, if total < upTo then total else upTo,
                  if itemsPerPage > 0 then Some(CeilDiv(total, itemsPerPage)) else None))
  }

  /** `LIMIT take OFFSET skip` on an ordered result. */
  function Slice<T>(rows: seq<T>, skip: nat, take: nat): (r: seq<T>)
    ensures skip >= |rows| ==> r == []
    ensures skip < |rows| ==> r == rows[skip..if skip + take < |rows| then skip + take else |rows|]
  {
    if skip >= |rows| then []
    else rows[skip..if skip + take < |rows| then skip + take else |rows|]
  }

  /**
    The paged response: the count is the size of the whole ordered result,
    the data its LIMIT/OFFSET slice.
   */
  function Paginate<T>(rows: seq<T>, page: nat, itemsPerPage: nat): (r: Result<Paged<T>>)
    requires page >= 1
    ensures r.Failure? <==> itemsPerPage * (page - 1) > |rows|
    ensures r.Success? ==> r.value.total == |rows| && r.value.page == page
  {
    match PageWindow(|rows|, page, itemsPerPage)
    case None => Failure("Invalid page number")
    case Some(w) =>
      Success(Paged(w.from, w.to, Slice(rows, itemsPerPage * (page - 1), itemsPerPage), |rows|, page, w.totalPages))
  }

  /** The data of a page are exactly the rows `from` (inclusive) to `to` (exclusive). */
  lemma PaginateData<T>(rows: seq<T>, page: nat, itemsPerPage: nat)
    requires page >= 1
    requires Paginate(rows, page, itemsPerPage).Success?
    ensures var p := Paginate(rows, page, itemsPerPage).value;
      0 <= p.from <= p.to <= |rows| && p.data == rows[p.from..p.to] && |p.data| == p.to - p.from
  {
    var w := PageWindow(|rows|, page, itemsPerPage).value;
    assert itemsPerPage * page == itemsPerPage * (page - 1) + itemsPerPage;
  }

  /** A page that starts exactly at the end of the result is allowed and empty. */
  lemma PageAtEndIsEmpty<T>(rows: seq<T>, page: nat, itemsPerPage: nat)
    requires page >= 1
    requires itemsPerPage * (page - 1) == |rows|
    ensures Paginate(rows, page, itemsPerPage).Success?
    ensures Paginate(rows, page, itemsPerPage).value.data == []
  {
  }

  /**
    A page that is accepted lies at most one past the last page, and a page
    that holds at least one row lies within the page count.
   */
  lemma {:induction false} AcceptedPageNumber(total: nat, page: nat, itemsPerPage: nat)
    requires page >= 1 && itemsPerPage > 0
    requires PageWindow(total, page, itemsPerPage).Some?
    ensures var w := PageWindow(total, page, itemsPerPage).value;
      page <= w.totalPages.value + 1 && (w.from < total ==> page <= w.totalPages.value)
  {
    var w := PageWindow(total, page, itemsPerPage).value;
    var n := w.totalPages.value;
    if page > n + 1 {
      MulMonotone(itemsPerPage, n + 1, page - 1);
    }
    if w.from < total && page > n {
      MulMonotone(itemsPerPage, n, page - 1);
    }
  }

  lemma MulMonotone(k: nat, a: nat, b: nat)
    requires a <= b
    ensures k * a <= k * b
  {
  }

  /**
    Every row of the result appears on exactly the page its index
    determines, at the position its index determines.
   */
  lemma {:induction false} RowOnItsPage<T>(rows: seq<T>, i: nat, itemsPerPage: nat)
    requires i < |rows| && itemsPerPage > 0
    ensures var page := i / itemsPerPage + 1;
      var r := Paginate(rows, page, itemsPerPage);
      r.Success? && i % itemsPerPage < |r.value.data| && r.value.data[i % itemsPerPage] == rows[i]
  {
    var page := i / itemsPerPage + 1;
    var skip := itemsPerPage * (page - 1);
    assert skip == (i / itemsPerPage) * itemsPerPage;
    assert skip + i % itemsPerPage == i;
    PaginateData(rows, page, itemsPerPage);
  }

  /**
    The guard of the media-items route: a page number that is present and
    not positive is rejected (an absent page is not, since `undefined <= 0`
    is false).
   */
  predicate PageRejected(page: Option<int>) {
    page.Some? && page.value <= 0
  }
}
