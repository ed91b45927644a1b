/** The filter panel of frontend/src/components/Filters.jsx: three handlers
    that produce the next filter state and the condition for showing the
    reset link. */
module Filters {
  import opened JsValues
  import opened App

  /** `handleCategoryChange`: `{...filters, category: value}` */
  function HandleCategoryChange(f: FilterState, value: string): (f': FilterState)
    ensures f'.category == value && f'.transactionType == f.transactionType
  {
    f.(category := value)
  }

  /** `handleTransactionTypeChange`: `{...filters, transactionType: value}` */
  function HandleTransactionTypeChange(f: FilterState, value: string): (f': FilterState)
    ensures f'.transactionType == value && f'.category == f.category
  {
    f.(transactionType := value)
  }

  /** `handleReset`: both filters cleared, whatever they were. */
  function HandleReset(f: FilterState): (f': FilterState)
    ensures f'.category == "" && f'.transactionType == ""
  {
    FilterState("", "")
  }

  /** The reset link is rendered when `filters.category || filters.transactionType`. */
  predicate ShowsReset(f: FilterState) {
    f.category != "" || f.transactionType != ""
  }

  /** When the reset link is hidden the filters restrict nothing, and after
      a reset the link is hidden and the view is the whole batch again. */
  lemma {:induction false} ResetRestoresBatch(f: FilterState, data: seq<Record>)
    ensures !ShowsReset(f) ==> ApplyFilters(data, f) == data
    ensures !ShowsReset(HandleReset(f))
    ensures ApplyFilters(data, HandleReset(f)) == data
  {
  }

  /** The link is shown exactly when some record could be filtered out:
      with a filter set, a batch exists that the filters change. */
  lemma {:induction false} ShowsResetIffRestricting(f: FilterState)
    ensures ShowsReset(f) <==> exists data :: ApplyFilters(data, f) != data
  {
    if ShowsReset(f) {
      var r: Record := map[];
      assert !Matches(r, f);
      FilterExact([r], f);
      assert ApplyFilters([r], f) != [r] by {
        assert r !in ApplyFilters([r], f);
      }
    }
  }

  /** A record that carries an offered value. */
  lemma {:induction false} OfferedValueOccurs(data: seq<Record>, key: string, v: Value) returns (j: nat)
    requires v in Facet(data, key)
    ensures j < |data| && Get(data[j], key) == v
  {
    var k :| 0 <= k < |Facet(data, key)| && Facet(data, key)[k] == v;
    j :| 0 <= j < |data| && Get(data[j], key) == v;
  }

  /** Choosing a text category offered in the drop-down shows only records
      of that category, whatever the type filter; with no type filter it
      shows at least one. The drop-down also offers numeric categories, but
      the select hands back the string "5", and `"5" !== 5` keeps every
      record with the number 5 out. */
  lemma {:induction false} ChoosingOfferedCategory(data: seq<Record>, f: FilterState, v: Value)
    requires v in Facet(data, "category") && v.Str?
    ensures var view := ApplyFilters(data, HandleCategoryChange(f, v.str));
      forall i :: 0 <= i < |view| ==> Get(view[i], "category") == v
    ensures f.transactionType == "" ==> |ApplyFilters(data, HandleCategoryChange(f, v.str))| > 0
  {
    var f' := HandleCategoryChange(f, v.str);
    var view := ApplyFilters(data, f');
    FilterExact(data, f');
    forall i | 0 <= i < |view| ensures Get(view[i], "category") == v {
      assert Matches(view[i], f');
    }
    if f.transactionType == "" {
      var j := OfferedValueOccurs(data, "category", v);
      assert Matches(data[j], f');
      assert data[j] in view;
    }
  }
}
