/** The `sortedData` memo of frontend/src/components/DataTable.jsx: the
    comparator, and what the sorted view is for each kind of column. */
module TableSort {
  import opened Wrappers
  import opened JsValues
  import opened Sorting

  datatype Direction = Asc | Desc

  /** `sortConfig`: the column sorted on (none at first) and the direction. */
  datatype SortConfig = SortConfig(key: Option<string>, direction: Direction)

  const InitialSortConfig: SortConfig := SortConfig(None, Asc)

  /** The comparator: a null or undefined value goes after the other one,
      whatever the direction; two numbers compare by difference (a NaN
      difference counts as 0, as `Array.prototype.sort` reads it); anything
      else compares the lower-cased strings. */
  function Compare(a: Record, b: Record, key: string, dir: Direction): int {
    var av := Get(a, key);
    var bv := Get(b, key);
    if Nullish(av) then 1
    else if Nullish(bv) then -1
    else if IsNumber(av) && IsNumber(bv) then
      if av.NaN? || bv.NaN? then 0
      else if dir == Asc then av.num - bv.num
      else bv.num - av.num
    else
      var aStr := ToLower(ToJsString(av));
      var bStr := ToLower(ToJsString(bv));
      if dir == Asc then LocaleCompare(aStr, bStr) else LocaleCompare(bStr, aStr)
  }

  /** "a sorts strictly before b" under the comparator. */
  function Before(key: string, dir: Direction): (Record, Record) -> bool {
    (a: Record, b: Record) => Compare(a, b, key, dir) < 0
  }

  /** `sortedData`: the input itself when no column is chosen, otherwise a
      sorted copy (the input array is not touched). */
  function SortedData(data: seq<Record>, config: SortConfig): (sorted: seq<Record>)
    ensures config.key.None? ==> sorted == data
    ensures |sorted| == |data| && multiset(sorted) == multiset(data)
  {
    if config.key.None? || config.key.value == "" then data
    else InsertionSort(data, Before(config.key.value, config.direction))
  }

  /** The order a user expects from the column header: null and undefined
      last; numbers by value; strings by their lower-cased form; reversed for
      Desc. A number and a string are not related by it. */
  predicate InOrder(a: Record, b: Record, key: string, dir: Direction) {
    var av := Get(a, key);
    var bv := Get(b, key);
    if Nullish(av) then Nullish(bv)
    else if Nullish(bv) then true
    else if av.Num? && bv.Num? then
      if dir == Asc then av.num <= bv.num else bv.num <= av.num
    else if av.Str? && bv.Str? then
      if dir == Asc then !LexLess(ToLower(bv.str), ToLower(av.str))
      else !LexLess(ToLower(av.str), ToLower(bv.str))
    else true
  }

  function Ordering(key: string, dir: Direction): (Record, Record) -> bool {
    (a: Record, b: Record) => InOrder(a, b, key, dir)
  }

  /** Every record has a number, or nothing, under the key. */
  predicate NumericColumn(data: seq<Record>, key: string) {
    forall i :: 0 <= i < |data| ==> Nullish(Get(data[i], key)) || Get(data[i], key).Num?
  }

  /** Every record has a string, or nothing, under the key. */
  predicate TextColumn(data: seq<Record>, key: string) {
    forall i :: 0 <= i < |data| ==> Nullish(Get(data[i], key)) || Get(data[i], key).Str?
  }

  predicate SameKind(a: Value, b: Value) {
    || Nullish(a) || Nullish(b)
    || (a.Num? && b.Num?)
    || (a.Str? && b.Str?)
  }

  lemma {:induction false} PairConsistent(a: Record, b: Record, key: string, dir: Direction)
    requires SameKind(Get(a, key), Get(b, key))
    ensures Compare(a, b, key, dir) < 0 <==> !InOrder(b, a, key, dir)
    ensures InOrder(a, b, key, dir) || InOrder(b, a, key, dir)
  {
    var av := Get(a, key);
    var bv := Get(b, key);
    if av.Str? && bv.Str? {
      LexLessTrichotomy(ToLower(av.str), ToLower(bv.str));
    }
  }

  lemma {:induction false} TripleTransitive(a: Record, b: Record, c: Record, key: string, dir: Direction)
    requires SameKind(Get(a, key), Get(b, key)) && SameKind(Get(b, key), Get(c, key))
    requires SameKind(Get(a, key), Get(c, key))
    requires InOrder(a, b, key, dir) && InOrder(b, c, key, dir)
    ensures InOrder(a, c, key, dir)
  {
    var av, bv, cv := Get(a, key), Get(b, key), Get(c, key);
    if av.Str? && bv.Str? && cv.Str? {
      var x, y, z := ToLower(av.str), ToLower(bv.str), ToLower(cv.str);
      LexLessTrichotomy(x, y);
      LexLessTrichotomy(y, z);
      LexLessTrichotomy(x, z);
      if dir == Asc {
        if LexLess(z, x) {
          if LexLess(y, x) {} else if x == y {} else { LexLessTransitive(z, x, y); }
        }
      } else {
        if LexLess(x, z) {
          if LexLess(x, y) {} else if x == y {} else { LexLessTransitive(y, x, z); }
        }
      }
    }
  }

  /** On a numeric or a text column the comparator is a consistent one: its
      "before" is the strict part of InOrder, which is a total preorder. */
  lemma {:induction false} ColumnConsistent(data: seq<Record>, key: string, dir: Direction)
    requires NumericColumn(data, key) || TextColumn(data, key)
    ensures Consistent(data, Before(key, dir), Ordering(key, dir))
  {
    var less := Before(key, dir);
    var le := Ordering(key, dir);
    forall a, b | a in data && b in data
      ensures (less(a, b) <==> !le(b, a)) && (le(a, b) || le(b, a))
    {
      PairConsistent(a, b, key, dir);
    }
    forall a, b, c | a in data && b in data && c in data && le(a, b) && le(b, c)
      ensures le(a, c)
    {
      TripleTransitive(a, b, c, key, dir);
    }
  }

  /** Sorting a numeric or a text column orders it: numbers ascending for Asc
      and descending for Desc, strings by their lower-cased form likewise,
      missing values last. */
  lemma {:induction false} SortOrdersColumn(data: seq<Record>, key: string, dir: Direction)
    requires key != ""
    requires NumericColumn(data, key) || TextColumn(data, key)
    ensures var sorted := SortedData(data, SortConfig(Some(key), dir));
      forall i, j :: 0 <= i < j < |sorted| ==> InOrder(sorted[i], sorted[j], key, dir)
  {
    ColumnConsistent(data, key, dir);
    SortSorted(data, Before(key, dir), Ordering(key, dir));
  }

  /** Records with a null or undefined key come after all others, in both
      directions and whatever the column holds. */
  lemma {:induction false} NullsLast(data: seq<Record>, key: string, dir: Direction)
    requires key != ""
    ensures var sorted := SortedData(data, SortConfig(Some(key), dir));
      forall i, j :: 0 <= i < j < |sorted| && Nullish(Get(sorted[i], key)) ==> Nullish(Get(sorted[j], key))
  {
    var less := Before(key, dir);
    var missing := (r: Record) => Nullish(Get(r, key));
    SortPartitions(data, less, missing);
  }

  /** Sorting the sorted view again with the same settings changes nothing. */
  lemma {:induction false} SortIsIdempotent(data: seq<Record>, config: SortConfig)
    requires config.key.Some? ==> NumericColumn(data, config.key.value) || TextColumn(data, config.key.value)
    ensures SortedData(SortedData(data, config), config) == SortedData(data, config)
  {
    if config.key.Some? && config.key.value != "" {
      ColumnConsistent(data, config.key.value, config.direction);
      SortIdempotent(data, Before(config.key.value, config.direction), Ordering(config.key.value, config.direction));
    }
  }
}
