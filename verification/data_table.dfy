/** Paging and header clicks of frontend/src/components/DataTable.jsx: ten
    rows per page, navigation clamped to the existing pages, the five-button
    page window and the "shown a-b of n" line. */
module DataTable {
  import opened Wrappers
  import opened JsValues
  import opened TableSort

  const ItemsPerPage: nat := 10

  /** `currentPage` starts at 1 and is only ever set to 1 or to a page >= 1. */
  type PageNumber = p: int | p >= 1 witness 1

  function Min(a: int, b: int): int {
    if a <= b then a else b
  }

  /** `Math.ceil(n / itemsPerPage)` */
  function TotalPages(n: nat): (t: nat)
    ensures t * ItemsPerPage >= n
    ensures t > 0 ==> (t - 1) * ItemsPerPage < n
    ensures t == 0 <==> n == 0
  {
    (n + ItemsPerPage - 1) / ItemsPerPage
  }

  /** `sortedData.slice(startIndex, endIndex)`, the slice clamped to the length. */
  function PageItems<T>(sorted: seq<T>, page: PageNumber): (items: seq<T>)
    ensures |items| <= ItemsPerPage
    ensures page < TotalPages(|sorted|) ==> |items| == ItemsPerPage
    ensures page > TotalPages(|sorted|) ==> items == []
  {
    var start := Min((page - 1) * ItemsPerPage, |sorted|);
    var end := Min(page * ItemsPerPage, |sorted|);
    sorted[start..end]
  }

  /** Pages 1 to k one after the other. */
  function PagesUpTo<T>(sorted: seq<T>, k: nat): seq<T> {
    if k == 0 then [] else PagesUpTo(sorted, k - 1) + PageItems(sorted, k)
  }

  lemma {:induction false} PagesUpToPrefix<T>(sorted: seq<T>, k: nat)
    ensures PagesUpTo(sorted, k) == sorted[..Min(k * ItemsPerPage, |sorted|)]
  {
    if k > 0 {
      PagesUpToPrefix(sorted, k - 1);
    }
  }

  /** Paging loses and repeats nothing: all pages in order are the sorted data. */
  lemma {:induction false} PagesCoverData<T>(sorted: seq<T>)
    ensures PagesUpTo(sorted, TotalPages(|sorted|)) == sorted
  {
    PagesUpToPrefix(sorted, TotalPages(|sorted|));
  }

  /** The header line "Показано first-last из n": `startIndex + 1` and
      `Math.min(endIndex, n)`. */
  function ShownRange(page: PageNumber, n: nat): (range: (int, int))
    ensures range.0 == (page - 1) * ItemsPerPage + 1
    ensures range.1 <= n
    ensures range.1 == if n < page * ItemsPerPage then n else page * ItemsPerPage
  {
    ((page - 1) * ItemsPerPage + 1, Min(page * ItemsPerPage, n))
  }

  /** For a page that exists, the line names exactly the rows on the page. */
  lemma {:induction false} ShownRangeMatchesPage<T>(sorted: seq<T>, page: PageNumber)
    requires page <= TotalPages(|sorted|)
    ensures var (first, last) := ShownRange(page, |sorted|);
      1 <= first <= last <= |sorted| && PageItems(sorted, page) == sorted[first - 1..last]
  {
  }

  /** The component state besides its data prop. */
  datatype TableState = TableState(config: SortConfig, page: PageNumber)

  const InitialTable: TableState := TableState(InitialSortConfig, 1)

  function Flip(d: Direction): Direction {
    if d == Asc then Desc else Asc
  }

  /** `handleSort(key)`: the same column flips its direction, another column
      starts ascending; either way back to page 1. */
  function HandleSort(st: TableState, key: string): (st': TableState)
    ensures st'.page == 1 && st'.config.key == Some(key)
    ensures st.config.key == Some(key) ==> st'.config.direction != st.config.direction
    ensures st.config.key != Some(key) ==> st'.config.direction == Asc
  {
    var direction := if st.config.key == Some(key) then Flip(st.config.direction) else Asc;
    TableState(SortConfig(Some(key), direction), 1)
  }

  /** Clicking the same header twice restores the sort it started from. */
  lemma {:induction false} SortTwiceRestores(st: TableState, key: string)
    requires st.config.key == Some(key)
    ensures HandleSort(HandleSort(st, key), key).config == st.config
  {
  }

  /** `handlePageChange(newPage)`: applied only for an existing page. */
  function HandlePageChange(st: TableState, newPage: int, n: nat): (st': TableState)
    ensures st'.config == st.config
    ensures 1 <= newPage <= TotalPages(n) ==> st'.page == newPage
    ensures !(1 <= newPage <= TotalPages(n)) ==> st' == st
  {
    if 1 <= newPage <= TotalPages(n) then st.(page := newPage) else st
  }

  /** The current page exists (page 1 always counts, even with no rows). */
  predicate PageInRange(st: TableState, n: nat) {
    st.page == 1 || st.page <= TotalPages(n)
  }

  /** Sorting and page changes keep the current page within the data. */
  lemma {:induction false} TransitionsKeepPageInRange(st: TableState, n: nat, key: string, newPage: int)
    requires PageInRange(st, n)
    ensures PageInRange(HandleSort(st, key), n)
    ensures PageInRange(HandlePageChange(st, newPage, n), n)
    ensures PageInRange(InitialTable, n)
  {
  }

  /** The page buttons: `Math.min(5, totalPages)` numbers, centred on the
      current page where possible. */
  function PageWindow(current: PageNumber, total: nat): (window: seq<int>)
    ensures |window| == Min(5, total)
    ensures forall i :: 0 <= i < |window| ==> 1 <= window[i] <= total
    ensures forall i :: 0 < i < |window| ==> window[i] == window[i - 1] + 1
    ensures current <= total ==> current in window
    ensures total > 5 && current <= 3 ==> window[0] == 1
    ensures total > 5 && 3 < current < total - 2 ==> window[2] == current
    ensures total > 5 && current >= total - 2 ==> window[4] == total
  {
    var first :=
      if total <= 5 then 1
      else if current <= 3 then 1
      else if current >= total - 2 then total - 4
      else current - 2;
    var window := seq(Min(5, total), i requires 0 <= i < Min(5, total) => first + i);
    assert current <= total ==> window[current - first] == current;
    window
  }

  /** What the component renders. */
  datatype TableView =
    | NoRows
    | Rows(rows: seq<Record>, first: int, last: int, count: nat, totalPages: nat, window: seq<int>)

  /** The render: "no data" for an empty prop, otherwise the current page of
      the sorted data, the shown range and, with more than one page, the
      page buttons. */
  function View(data: seq<Record>, st: TableState): TableView {
    if |data| == 0 then NoRows
    else
      var sorted := SortedData(data, st.config);
      var total := TotalPages(|sorted|);
      var (first, last) := ShownRange(st.page, |sorted|);
      Rows(PageItems(sorted, st.page), first, last, |sorted|, total,
        if total > 1 then PageWindow(st.page, total) else [])
  }

  /** As long as the current page exists, the view shows a non-empty page,
      a range within the data and a window holding the current page. */
  lemma {:induction false} ViewWellFormed(data: seq<Record>, st: TableState)
    requires |data| > 0 && PageInRange(st, |data|)
    ensures var v := View(data, st);
      && v.Rows? && 1 <= v.first <= v.last <= |data|
      && |v.rows| == v.last - v.first + 1
      && (v.totalPages > 1 ==> st.page in v.window)
  {
    ShownRangeMatchesPage(SortedData(data, st.config), st.page);
  }

  /** The component keeps `currentPage` when its data prop changes, e.g.
      after a filter narrows the batch. */
  function OnDataChangeAsWritten(st: TableState): (st': TableState)
    ensures st' == st
  {
    st
  }

  /** On page 5 of 50 rows, a filter leaving 12 rows gives an empty page and
      the line "Показано 41-12 из 12". */
  lemma {:induction false} StalePageInvertsRange(st: TableState, data: seq<Record>)
    requires st.page == 5 && |data| == 12
    ensures PageInRange(st, 50) && !PageInRange(st, 12)
    ensures var v := View(data, OnDataChangeAsWritten(st));
      v.Rows? && v.rows == [] && v.first == 41 && v.last == 12
  {
  }

  /** A data change sends the table back to page 1, as sorting does. */
  function OnDataChange(st: TableState): (st': TableState)
    ensures st'.page == 1 && st'.config == st.config
  {
    st.(page := 1)
  }

  /** With the reset, every data change leaves a well-formed view. */
  lemma {:induction false} DataChangeKeepsViewWellFormed(data: seq<Record>, st: TableState)
    requires |data| > 0
    ensures PageInRange(OnDataChange(st), |data|)
    ensures var v := View(data, OnDataChange(st));
      v.Rows? && 1 <= v.first <= v.last <= |data| && |v.rows| > 0
  {
    ViewWellFormed(data, OnDataChange(st));
  }
}
