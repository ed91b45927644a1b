/** The application state of frontend/src/App.jsx: the loaded batch, the two
    filters, the filtered view every component renders, and the filter
    option lists. The records the front end filters on carry `category`
    and `transaction_type` fields (the financial schema), while the backend
    emits activity records; both are plain records here. */
module App {
  import opened Wrappers
  import opened JsValues
  import opened Seqs

  /** The `filters` state: "" means no restriction. */
  datatype FilterState = FilterState(category: string, transactionType: string)

  const InitialFilters: FilterState := FilterState("", "")

  /** `items.filter(item => item[key] === value)` for a string value. */
  function KeepEqual(items: seq<Record>, key: string, value: string): (kept: seq<Record>)
    ensures |kept| <= |items|
  {
    if |items| == 0 then []
    else
      var last := items[|items| - 1];
      KeepEqual(items[..|items| - 1], key, value) + (if Get(last, key) == Str(value) then [last] else [])
  }

  /** The filter keeps every matching record as often as it occurs, and
      nothing else. */
  lemma {:induction false} KeepEqualCounts(items: seq<Record>, key: string, value: string)
    ensures forall x :: multiset(KeepEqual(items, key, value))[x] ==
                        if Get(x, key) == Str(value) then multiset(items)[x] else 0
  {
    if |items| > 0 {
      var init := items[..|items| - 1];
      var last := items[|items| - 1];
      assert items == init + [last];
      KeepEqualCounts(init, key, value);
    }
  }

  /** The filter effect: the category filter, then the transaction-type
      filter, each applied only when set. */
  function ApplyFilters(data: seq<Record>, f: FilterState): seq<Record> {
    var byCategory := if f.category != "" then KeepEqual(data, "category", f.category) else data;
    if f.transactionType != "" then KeepEqual(byCategory, "transaction_type", f.transactionType)
    else byCategory
  }

  /** A record passes every filter that is set. */
  predicate Matches(r: Record, f: FilterState) {
    && (f.category != "" ==> Get(r, "category") == Str(f.category))
    && (f.transactionType != "" ==> Get(r, "transaction_type") == Str(f.transactionType))
  }

  /** s is obtained from t by deleting elements. */
  predicate IsSubsequence<T(==)>(s: seq<T>, t: seq<T>)
    decreases |t|
  {
    if |s| == 0 then true
    else if |t| == 0 then false
    else if s[|s| - 1] == t[|t| - 1] then IsSubsequence(s[..|s| - 1], t[..|t| - 1])
    else IsSubsequence(s, t[..|t| - 1])
  }

  lemma {:induction false} KeepEqualIsSubsequence(items: seq<Record>, key: string, value: string)
    ensures IsSubsequence(KeepEqual(items, key, value), items)
  {
    if |items| > 0 {
      var init := items[..|items| - 1];
      KeepEqualIsSubsequence(init, key, value);
      var k := KeepEqual(items, key, value);
      if Get(items[|items| - 1], key) == Str(value) {
        assert k[..|k| - 1] == KeepEqual(init, key, value);
      } else {
        assert k == KeepEqual(init, key, value);
        SubsequenceDropLast(k, items);
      }
    }
  }

  lemma {:induction false} SubsequenceTransitive<T>(a: seq<T>, b: seq<T>, c: seq<T>)
    requires IsSubsequence(a, b) && IsSubsequence(b, c)
    ensures IsSubsequence(a, c)
    decreases |c|
  {
    if |a| > 0 && |c| > 0 {
      if |b| > 0 && b[|b| - 1] == c[|c| - 1] {
        if a[|a| - 1] == b[|b| - 1] {
          SubsequenceTransitive(a[..|a| - 1], b[..|b| - 1], c[..|c| - 1]);
        } else {
          SubsequenceTransitive(a, b[..|b| - 1], c[..|c| - 1]);
          SubsequenceDropLast(a, c);
        }
      } else {
        SubsequenceTransitive(a, b, c[..|c| - 1]);
        SubsequenceDropLast(a, c);
      }
    }
  }

  /** A subsequence of the prefix without the last element is a subsequence of the whole. */
  lemma {:induction false} SubsequenceDropLast<T>(a: seq<T>, c: seq<T>)
    requires |c| > 0 && IsSubsequence(a, c[..|c| - 1])
    ensures IsSubsequence(a, c)
    decreases |c|, 1
  {
    if |a| > 0 && a[|a| - 1] == c[|c| - 1] {
      var c' := c[..|c| - 1];
      if |c'| > 0 && a[|a| - 1] == c'[|c'| - 1] {
        assert IsSubsequence(a[..|a| - 1], c'[..|c'| - 1]);
        SubsequenceDropLast(a[..|a| - 1], c');
      } else {
        assert |c'| > 0;
        SubsequenceOfInit(a, c');
      }
    }
  }

  lemma {:induction false} SubsequenceOfInit<T>(a: seq<T>, c: seq<T>)
    requires |a| > 0 && IsSubsequence(a, c)
    ensures IsSubsequence(a[..|a| - 1], c)
    decreases |c|, 2
  {
    if |c| > 0 {
      if a[|a| - 1] == c[|c| - 1] {
        SubsequenceDropLast(a[..|a| - 1], c);
      } else {
        SubsequenceOfInit(a, c[..|c| - 1]);
        SubsequenceDropLast(a[..|a| - 1], c);
      }
    }
  }

  lemma {:induction false} SubsequenceReflexive<T>(a: seq<T>)
    ensures IsSubsequence(a, a)
  {
    if |a| > 0 {
      SubsequenceReflexive(a[..|a| - 1]);
    }
  }

  /** The filtered view keeps records in their original order. */
  lemma {:induction false} FilteredIsSubsequence(data: seq<Record>, f: FilterState)
    ensures IsSubsequence(ApplyFilters(data, f), data)
  {
    SubsequenceReflexive(data);
    var byCategory := if f.category != "" then KeepEqual(data, "category", f.category) else data;
    if f.category != "" {
      KeepEqualIsSubsequence(data, "category", f.category);
    }
    if f.transactionType != "" {
      KeepEqualIsSubsequence(byCategory, "transaction_type", f.transactionType);
      SubsequenceTransitive(ApplyFilters(data, f), byCategory, data);
    }
  }

  /** Sound and complete: a record occurs in the view exactly as often as in
      the batch when it matches every set filter, and not at all otherwise. */
  lemma {:induction false} FilterExact(data: seq<Record>, f: FilterState)
    ensures forall x :: multiset(ApplyFilters(data, f))[x] == if Matches(x, f) then multiset(data)[x] else 0
    ensures forall i :: 0 <= i < |ApplyFilters(data, f)| ==> Matches(ApplyFilters(data, f)[i], f)
    ensures forall i :: 0 <= i < |data| && Matches(data[i], f) ==> data[i] in ApplyFilters(data, f)
  {
    var r := ApplyFilters(data, f);
    var byCategory := if f.category != "" then KeepEqual(data, "category", f.category) else data;
    KeepEqualCounts(data, "category", f.category);
    KeepEqualCounts(byCategory, "transaction_type", f.transactionType);
    forall i | 0 <= i < |r| ensures Matches(r[i], f) {
      assert r[i] in multiset(r);
    }
    forall i | 0 <= i < |data| && Matches(data[i], f) ensures data[i] in r {
      assert data[i] in multiset(data);
      assert data[i] in multiset(r);
    }
  }

  /** With no filter set, which is the initial state, the view is the batch. */
  lemma {:induction false} UnfilteredIsIdentity(data: seq<Record>)
    ensures ApplyFilters(data, InitialFilters) == data
  {
  }

  /** Filtering the view again with the same filters changes nothing. */
  lemma {:induction false} FilterIdempotent(data: seq<Record>, f: FilterState)
    ensures ApplyFilters(ApplyFilters(data, f), f) == ApplyFilters(data, f)
  {
    var r := ApplyFilters(data, f);
    FilterExact(data, f);
    FilterKeepsAllMatching(r, f);
  }

  /** When every record matches, filtering returns the sequence unchanged. */
  lemma {:induction false} FilterKeepsAllMatching(s: seq<Record>, f: FilterState)
    requires forall i :: 0 <= i < |s| ==> Matches(s[i], f)
    ensures ApplyFilters(s, f) == s
  {
    if f.category != "" {
      KeepEqualKeepsAll(s, "category", f.category);
    }
    if f.transactionType != "" {
      KeepEqualKeepsAll(s, "transaction_type", f.transactionType);
    }
  }

  lemma {:induction false} KeepEqualKeepsAll(s: seq<Record>, key: string, value: string)
    requires forall i :: 0 <= i < |s| ==> Get(s[i], key) == Str(value)
    ensures KeepEqual(s, key, value) == s
  {
    if |s| > 0 {
      var init := s[..|s| - 1];
      var last := s[|s| - 1];
      forall i | 0 <= i < |init| ensures Get(init[i], key) == Str(value) {
        assert init[i] == s[i];
      }
      KeepEqualKeepsAll(init, key, value);
      assert Get(last, key) == Str(value);
      assert KeepEqual(s, key, value) == KeepEqual(init, key, value) + [last];
      assert init + [last] == s;
    }
  }

  /** `[...new Set(data.map(item => item[key]))].filter(Boolean)`: the
      distinct truthy values of a field, in order of first appearance. */
  function Facet(data: seq<Record>, key: string): (values: seq<Value>)
    ensures NoDuplicates(values)
    ensures forall i :: 0 <= i < |values| ==> Truthy(values[i])
    ensures forall i :: 0 <= i < |values| ==> exists j :: 0 <= j < |data| && Get(data[j], key) == values[i]
    ensures forall j :: 0 <= j < |data| && Truthy(Get(data[j], key)) ==> Get(data[j], key) in values
  {
    var column := Column(data, key);
    var d := Distinct(column);
    var values := KeepTruthy(d);
    FacetValuesOccur(data, key, d, values);
    FacetValuesComplete(data, key, d, values);
    values
  }

  lemma {:induction false} FacetValuesOccur(data: seq<Record>, key: string, d: seq<Value>, values: seq<Value>)
    requires d == Distinct(Column(data, key)) && values == KeepTruthy(d)
    ensures forall i :: 0 <= i < |values| ==> exists j :: 0 <= j < |data| && Get(data[j], key) == values[i]
  {
    var column := Column(data, key);
    forall i | 0 <= i < |values|
      ensures exists j :: 0 <= j < |data| && Get(data[j], key) == values[i]
    {
      assert values[i] in d;
      var j :| 0 <= j < |column| && column[j] == values[i];
    }
  }

  lemma {:induction false} FacetValuesComplete(data: seq<Record>, key: string, d: seq<Value>, values: seq<Value>)
    requires d == Distinct(Column(data, key)) && values == KeepTruthy(d)
    ensures forall j :: 0 <= j < |data| && Truthy(Get(data[j], key)) ==> Get(data[j], key) in values
  {
    var column := Column(data, key);
    forall j | 0 <= j < |data| && Truthy(Get(data[j], key)) ensures Get(data[j], key) in values {
      assert column[j] in d;
    }
  }

  /** `data.map(item => item[key])` */
  function Column(data: seq<Record>, key: string): (column: seq<Value>)
    ensures |column| == |data|
    ensures forall i :: 0 <= i < |data| ==> column[i] == Get(data[i], key)
  {
    seq(|data|, i requires 0 <= i < |data| => Get(data[i], key))
  }

  /** `.filter(Boolean)` */
  function KeepTruthy(s: seq<Value>): (r: seq<Value>)
    ensures forall x :: x in r <==> x in s && Truthy(x)
    ensures NoDuplicates(s) ==> NoDuplicates(r)
    ensures IsSubsequence(r, s)
  {
    if |s| == 0 then []
    else
      var init := KeepTruthy(s[..|s| - 1]);
      var last := s[|s| - 1];
      assert s == s[..|s| - 1] + [last];
      if Truthy(last) then
        assert (init + [last])[..|init|] == init;
        init + [last]
      else
        SubsequenceDropLast(init, s);
        init
  }

  /** Facet values keep the order in which they first appear in the batch. */
  lemma {:induction false} FacetFirstAppearance(data: seq<Record>, key: string)
    ensures var values := Facet(data, key); var column := Column(data, key);
      forall i, j :: 0 <= i < j < |values| ==>
        values[i] in column && values[j] in column &&
        FirstIndex(column, values[i]) < FirstIndex(column, values[j])
  {
    var column := Column(data, key);
    var d := Distinct(column);
    var values := KeepTruthy(d);
    assert values == Facet(data, key);
    DistinctFirstAppearance(column);
    SubsequenceOrder(values, d);
    forall i, j | 0 <= i < j < |values|
      ensures values[i] in column && values[j] in column
      ensures FirstIndex(column, values[i]) < FirstIndex(column, values[j])
    {
      var a, b :| 0 <= a < b < |d| && d[a] == values[i] && d[b] == values[j];
      assert FirstIndex(column, d[a]) < FirstIndex(column, d[b]);
    }
  }

  /** Elements of a subsequence of a duplicate-free sequence keep their relative order. */
  lemma {:induction false} SubsequenceOrder<T>(s: seq<T>, t: seq<T>)
    requires IsSubsequence(s, t) && NoDuplicates(t)
    ensures forall i :: 0 <= i < |s| ==> s[i] in t
    ensures forall i, j :: 0 <= i < j < |s| ==> exists a, b :: 0 <= a < b < |t| && t[a] == s[i] && t[b] == s[j]
    decreases |t|
  {
    if |s| > 0 && |t| > 0 {
      var t' := t[..|t| - 1];
      if s[|s| - 1] == t[|t| - 1] {
        var s' := s[..|s| - 1];
        SubsequenceOrder(s', t');
        forall i, j | 0 <= i < j < |s|
          ensures exists a, b :: 0 <= a < b < |t| && t[a] == s[i] && t[b] == s[j]
        {
          if j < |s| - 1 {
            var a, b :| 0 <= a < b < |t'| && t'[a] == s'[i] && t'[b] == s'[j];
            assert t[a] == s[i] && t[b] == s[j];
          } else {
            assert s'[i] in t';
            var a :| 0 <= a < |t'| && t'[a] == s'[i];
            assert t[a] == s[i] && t[|t| - 1] == s[j];
          }
        }
        forall i | 0 <= i < |s| ensures s[i] in t {
          if i < |s| - 1 { assert s'[i] in t'; }
        }
      } else {
        SubsequenceOrder(s, t');
        forall i, j | 0 <= i < j < |s|
          ensures exists a, b :: 0 <= a < b < |t| && t[a] == s[i] && t[b] == s[j]
        {
          var a, b :| 0 <= a < b < |t'| && t'[a] == s[i] && t'[b] == s[j];
          assert t[a] == s[i] && t[b] == s[j];
        }
        forall i | 0 <= i < |s| ensures s[i] in t {
          assert s[i] in t';
        }
      }
    }
  }

  /** The state App keeps: the batch, the filters and the error banner. */
  datatype AppState = AppState(data: seq<Record>, filters: FilterState, error: Option<string>)

  const InitialState: AppState := AppState([], InitialFilters, None)

  /** What MetricsCards, Dashboard and DataTable are given. */
  function FilteredData(st: AppState): seq<Record> {
    ApplyFilters(st.data, st.filters)
  }

  /** The option lists handed to Filters. */
  function Categories(st: AppState): seq<Value> {
    Facet(st.data, "category")
  }

  function TransactionTypes(st: AppState): seq<Value> {
    Facet(st.data, "transaction_type")
  }

  /** `loadSampleData` once the request settles: a response replaces the
      batch wholesale; a failure keeps the batch and shows the message. */
  function LoadSampleData(st: AppState, response: Result<seq<Record>, string>): (st': AppState)
    ensures st'.filters == st.filters
    ensures response.Success? ==> st'.data == response.value && st'.error == None
    ensures response.Failure? ==> st'.data == st.data && st'.error.Some?
  {
    match response
    case Success(records) => AppState(records, st.filters, None)
    case Failure(message) => AppState(st.data, st.filters, Some("Ошибка при загрузке данных: " + message))
  }

  /** `handleFileUpload(fileData)`: the uploaded batch replaces the current one. */
  function HandleFileUpload(st: AppState, records: seq<Record>): (st': AppState)
    ensures st'.data == records && st'.filters == st.filters && st'.error == None
  {
    AppState(records, st.filters, None)
  }

  /** `handleFilterChange(newFilters)` */
  function HandleFilterChange(st: AppState, f: FilterState): (st': AppState)
    ensures st'.filters == f && st'.data == st.data && st'.error == st.error
  {
    st.(filters := f)
  }
}
