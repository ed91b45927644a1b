/** The three charts of frontend/src/components/Dashboard.jsx: the average
    score per course (bar), the activity per day over the last 30 dates
    (line) and the share of each activity type (pie). Each chart is built
    by accumulating into a plain object keyed by a key. */
module Dashboard {
  import opened JsValues
  import opened Seqs
  import opened Sorting

  const Unspecified: string := "Не указано"

  /** `item[key] || 'Не указано'`, used as an object key. */
  function LabelOf(v: Value): string {
    if Truthy(v) then ToJsString(v) else Unspecified
  }

  /** One key of an accumulator object with its running sum and count. */
  datatype Group = Group(key: string, sum: int, count: nat)

  /** One accumulation step: the key and the amount added to its sum. */
  type Entry = (string, int)

  function Labels(groups: seq<Group>): (labels: seq<string>)
    ensures |labels| == |groups|
    ensures forall i :: 0 <= i < |groups| ==> labels[i] == groups[i].key
  {
    seq(|groups|, i requires 0 <= i < |groups| => groups[i].key)
  }

  function TotalCount(groups: seq<Group>): nat {
    if |groups| == 0 then 0 else TotalCount(groups[..|groups| - 1]) + groups[|groups| - 1].count
  }

  function TotalSum(groups: seq<Group>): int {
    if |groups| == 0 then 0 else TotalSum(groups[..|groups| - 1]) + groups[|groups| - 1].sum
  }

  /** Replacing one group changes the totals by the difference. */
  lemma {:induction false} TotalsUpdate(groups: seq<Group>, i: nat, g: Group)
    requires i < |groups|
    ensures TotalCount(groups[i := g]) == TotalCount(groups) - groups[i].count + g.count
    ensures TotalSum(groups[i := g]) == TotalSum(groups) - groups[i].sum + g.sum
  {
    var n := |groups|;
    var init := groups[..n - 1];
    if i < n - 1 {
      assert groups[i := g][..n - 1] == init[i := g];
      TotalsUpdate(init, i, g);
    } else {
      assert groups[i := g][..n - 1] == init;
    }
  }

  function Keys(entries: seq<Entry>): (keys: seq<string>)
    ensures |keys| == |entries|
    ensures forall i :: 0 <= i < |entries| ==> keys[i] == entries[i].0
  {
    seq(|entries|, i requires 0 <= i < |entries| => entries[i].0)
  }

  function SumAmounts(entries: seq<Entry>): int {
    if |entries| == 0 then 0 else SumAmounts(entries[..|entries| - 1]) + entries[|entries| - 1].1
  }

  /** The sum of the amounts entered under one key. */
  function SumFor(entries: seq<Entry>, key: string): int {
    if |entries| == 0 then 0
    else
      var last := entries[|entries| - 1];
      SumFor(entries[..|entries| - 1], key) + (if last.0 == key then last.1 else 0)
  }

  /** `acc[key] = (acc[key] || 0) + amount` on an object whose keys are
      distinct: an existing key grows in place, a new key comes last
      (object keys keep insertion order). */
  function AddTo(groups: seq<Group>, key: string, amount: int): (r: seq<Group>)
    requires NoDuplicates(Labels(groups))
    ensures NoDuplicates(Labels(r))
    ensures |r| == if key in Labels(groups) then |groups| else |groups| + 1
    ensures forall i :: 0 <= i < |groups| ==>
      r[i] == if groups[i].key == key then Group(key, groups[i].sum + amount, groups[i].count + 1) else groups[i]
    ensures key !in Labels(groups) ==> r[|groups|] == Group(key, amount, 1)
    ensures TotalCount(r) == TotalCount(groups) + 1
    ensures TotalSum(r) == TotalSum(groups) + amount
  {
    if key in Labels(groups) then
      var i := FirstIndex(Labels(groups), key);
      assert forall j :: 0 <= j < |groups| ==> (groups[j].key == key <==> j == i);
      Bump(groups, i, amount)
    else
      Append(groups, key, amount)
  }

  /** The group at index i takes one more entry. */
  function Bump(groups: seq<Group>, i: nat, amount: int): (r: seq<Group>)
    requires i < |groups| && NoDuplicates(Labels(groups))
    ensures NoDuplicates(Labels(r)) && |r| == |groups|
    ensures forall j :: 0 <= j < |groups| ==>
      r[j] == if j == i then Group(groups[i].key, groups[i].sum + amount, groups[i].count + 1) else groups[j]
    ensures TotalCount(r) == TotalCount(groups) + 1
    ensures TotalSum(r) == TotalSum(groups) + amount
  {
    var g := Group(groups[i].key, groups[i].sum + amount, groups[i].count + 1);
    TotalsUpdate(groups, i, g);
    var r := groups[i := g];
    assert forall j :: 0 <= j < |r| ==> r[j].key == groups[j].key;
    r
  }

  /** A new last group for a key not seen before. */
  function Append(groups: seq<Group>, key: string, amount: int): (r: seq<Group>)
    requires NoDuplicates(Labels(groups)) && key !in Labels(groups)
    ensures NoDuplicates(Labels(r)) && r == groups + [Group(key, amount, 1)]
    ensures TotalCount(r) == TotalCount(groups) + 1
    ensures TotalSum(r) == TotalSum(groups) + amount
  {
    var r := groups + [Group(key, amount, 1)];
    assert r[..|groups|] == groups;
    assert forall j :: 0 <= j < |groups| ==> r[j].key == groups[j].key != key;
    r
  }

  /** Keys keep their places; a new key comes last. */
  lemma {:induction false} AddToLabels(groups: seq<Group>, key: string, amount: int)
    requires NoDuplicates(Labels(groups))
    ensures Labels(AddTo(groups, key, amount)) == if key in Labels(groups) then Labels(groups) else Labels(groups) + [key]
  {
  }

  /** `entries.forEach(...)` into an empty object. */
  function GroupBy(entries: seq<Entry>): (groups: seq<Group>)
    ensures NoDuplicates(Labels(groups))
    ensures TotalCount(groups) == |entries|
    ensures TotalSum(groups) == SumAmounts(entries)
  {
    if |entries| == 0 then []
    else
      var last := entries[|entries| - 1];
      AddTo(GroupBy(entries[..|entries| - 1]), last.0, last.1)
  }

  lemma {:induction false} CountAbsent(s: seq<string>, x: string)
    requires x !in s
    ensures Count(s, x) == 0
  {
    if |s| > 0 {
      CountAbsent(s[..|s| - 1], x);
    }
  }

  lemma {:induction false} SumForAbsent(entries: seq<Entry>, key: string)
    requires key !in Keys(entries)
    ensures SumFor(entries, key) == 0
  {
    if |entries| > 0 {
      var init := entries[..|entries| - 1];
      assert Keys(entries) == Keys(init) + [entries[|entries| - 1].0];
      SumForAbsent(init, key);
    }
  }

  /** The accumulator holds the distinct keys in order of first appearance,
      each with the number of its entries and the sum of their amounts. */
  lemma {:induction false} GroupByMatchesReference(entries: seq<Entry>)
    ensures Labels(GroupBy(entries)) == Distinct(Keys(entries))
    ensures forall i :: 0 <= i < |GroupBy(entries)| ==>
      && GroupBy(entries)[i].count == Count(Keys(entries), GroupBy(entries)[i].key)
      && GroupBy(entries)[i].sum == SumFor(entries, GroupBy(entries)[i].key)
  {
    GroupByLabels(entries);
    GroupByTallies(entries);
  }

  lemma {:induction false} GroupByLabels(entries: seq<Entry>)
    ensures Labels(GroupBy(entries)) == Distinct(Keys(entries))
  {
    if |entries| > 0 {
      var init := entries[..|entries| - 1];
      var keys := Keys(entries);
      assert keys[..|keys| - 1] == Keys(init);
      GroupByLabels(init);
      AddToLabels(GroupBy(init), entries[|entries| - 1].0, entries[|entries| - 1].1);
    }
  }

  lemma {:induction false} GroupByTallies(entries: seq<Entry>)
    ensures forall i :: 0 <= i < |GroupBy(entries)| ==>
      && GroupBy(entries)[i].count == Count(Keys(entries), GroupBy(entries)[i].key)
      && GroupBy(entries)[i].sum == SumFor(entries, GroupBy(entries)[i].key)
  {
    if |entries| > 0 {
      var init := entries[..|entries| - 1];
      var last := entries[|entries| - 1];
      assert entries == init + [last];
      GroupByTallies(init);
      GroupByLabels(init);
      TallyStep(init, last, GroupBy(init));
    }
  }

  /** One entry more: its key's tallies grow by one and its amount. */
  lemma {:induction false} UnfoldLast(init: seq<Entry>, last: Entry, k: string)
    ensures Count(Keys(init + [last]), k) == Count(Keys(init), k) + (if last.0 == k then 1 else 0)
    ensures SumFor(init + [last], k) == SumFor(init, k) + (if last.0 == k then last.1 else 0)
  {
    var keys := Keys(init + [last]);
    assert keys[..|keys| - 1] == Keys(init);
    assert (init + [last])[..|init|] == init;
  }

  lemma {:induction false} TallyStep(init: seq<Entry>, last: Entry, g: seq<Group>)
    requires NoDuplicates(Labels(g)) && Labels(g) == Distinct(Keys(init))
    requires forall i :: 0 <= i < |g| ==> g[i].count == Count(Keys(init), g[i].key) && g[i].sum == SumFor(init, g[i].key)
    ensures var r := AddTo(g, last.0, last.1);
      forall i :: 0 <= i < |r| ==>
        r[i].count == Count(Keys(init + [last]), r[i].key) && r[i].sum == SumFor(init + [last], r[i].key)
  {
    var r := AddTo(g, last.0, last.1);
    forall i | 0 <= i < |r|
      ensures r[i].count == Count(Keys(init + [last]), r[i].key) && r[i].sum == SumFor(init + [last], r[i].key)
    {
      if i == |g| {
        assert last.0 !in Keys(init);
      }
      TallyAt(init, last, g, i);
    }
  }

  lemma {:induction false} TallyAt(init: seq<Entry>, last: Entry, g: seq<Group>, i: nat)
    requires NoDuplicates(Labels(g))
    requires i < |g| || (i == |g| && last.0 !in Labels(g))
    requires i < |g| ==> g[i].count == Count(Keys(init), g[i].key) && g[i].sum == SumFor(init, g[i].key)
    requires i == |g| ==> last.0 !in Keys(init)
    ensures var r := AddTo(g, last.0, last.1);
      r[i].count == Count(Keys(init + [last]), r[i].key) && r[i].sum == SumFor(init + [last], r[i].key)
  {
    var r := AddTo(g, last.0, last.1);
    UnfoldLast(init, last, r[i].key);
    if i == |g| {
      CountAbsent(Keys(init), last.0);
      SumForAbsent(init, last.0);
    }
  }

  /** Every key present has a positive count, so every average is defined. */
  lemma {:induction false} GroupCountsPositive(entries: seq<Entry>)
    ensures forall i :: 0 <= i < |GroupBy(entries)| ==> GroupBy(entries)[i].count >= 1
  {
    var g := GroupBy(entries);
    forall i | 0 <= i < |g| ensures g[i].count >= 1 {
      assert Labels(g)[i] == g[i].key;
      CountOfExact(entries, g[i].key);
    }
  }

  lemma {:induction false} CountPresent(s: seq<string>, x: string)
    requires x in s
    ensures Count(s, x) >= 1
  {
    if s[|s| - 1] != x {
      CountPresent(s[..|s| - 1], x);
    }
  }

  /** `acc[key]` on an accumulator: the count under a key, 0 when absent. */
  function CountOf(groups: seq<Group>, key: string): (n: nat)
    requires NoDuplicates(Labels(groups))
    ensures forall i :: 0 <= i < |groups| && groups[i].key == key ==> n == groups[i].count
    ensures key !in Labels(groups) ==> n == 0
  {
    if key in Labels(groups) then groups[FirstIndex(Labels(groups), key)].count else 0
  }

  // ---------------------------------------------------------------------
  // Bar chart: average score per course

  /** One `(course || 'Не указано', score || 0)` step per record. */
  function CourseEntries(data: seq<Record>): (entries: seq<Entry>)
    ensures |entries| == |data|
    ensures forall i :: 0 <= i < |data| ==>
      entries[i] == (LabelOf(Get(data[i], "course")), OrZero(Get(data[i], "score")))
  {
    seq(|data|, i requires 0 <= i < |data| => (LabelOf(Get(data[i], "course")), OrZero(Get(data[i], "score"))))
  }

  /** `courseScores` and `courseCounts`, with the first-visit test on the key
      being present rather than on its running sum being truthy. */
  function CourseScores(data: seq<Record>): seq<Group> {
    GroupBy(CourseEntries(data))
  }

  /** Every course bar averages exactly the scores of that course's records. */
  lemma {:induction false} CourseScoresExact(data: seq<Record>)
    ensures Labels(CourseScores(data)) == Distinct(Keys(CourseEntries(data)))
    ensures forall i :: 0 <= i < |CourseScores(data)| ==>
      && CourseScores(data)[i].count >= 1
      && CourseScores(data)[i].count == Count(Keys(CourseEntries(data)), CourseScores(data)[i].key)
      && CourseScores(data)[i].sum == SumFor(CourseEntries(data), CourseScores(data)[i].key)
    ensures TotalCount(CourseScores(data)) == |data|
  {
    GroupByMatchesReference(CourseEntries(data));
    GroupCountsPositive(CourseEntries(data));
  }

  /** The step as written: `if (!courseScores[course])` also fires when the
      course is present but its running sum is 0, and then restarts both
      its sum and its count. */
  function AddToAsWritten(groups: seq<Group>, key: string, amount: int): (r: seq<Group>)
    requires NoDuplicates(Labels(groups))
    ensures Labels(r) == if key in Labels(groups) then Labels(groups) else Labels(groups) + [key]
    ensures forall i :: 0 <= i < |groups| && groups[i].key != key ==> r[i] == groups[i]
    ensures forall i :: 0 <= i < |r| && r[i].key == key ==>
      1 <= r[i].count <= (if i < |groups| then groups[i].count else 0) + 1
  {
    if key in Labels(groups) then
      var i := FirstIndex(Labels(groups), key);
      var g := if groups[i].sum == 0 then Group(key, amount, 1)
        else Group(key, groups[i].sum + amount, groups[i].count + 1);
      var r := groups[i := g];
      assert Labels(r) == Labels(groups);
      r
    else
      var r := groups + [Group(key, amount, 1)];
      assert Labels(r) == Labels(groups) + [key];
      r
  }

  /** The fold as written: the keys are right, and every group has at least
      one record but never more than the entries under its key (a restart
      drops the earlier ones). */
  function GroupByAsWritten(entries: seq<Entry>): (groups: seq<Group>)
    ensures Labels(groups) == Distinct(Keys(entries))
    ensures forall i :: 0 <= i < |groups| ==> 1 <= groups[i].count <= Count(Keys(entries), groups[i].key)
  {
    if |entries| == 0 then []
    else
      var init := entries[..|entries| - 1];
      var last := entries[|entries| - 1];
      var keys := Keys(entries);
      assert keys[..|keys| - 1] == Keys(init);
      assert entries == init + [last];
      var g := GroupByAsWritten(init);
      AsWrittenStep(init, last, g);
      AddToAsWritten(g, last.0, last.1)
  }

  /** One as-written step keeps every count between 1 and its key's entries. */
  lemma {:induction false} AsWrittenStep(init: seq<Entry>, last: Entry, g: seq<Group>)
    requires NoDuplicates(Labels(g))
    requires forall i :: 0 <= i < |g| ==> 1 <= g[i].count <= Count(Keys(init), g[i].key)
    ensures var r := AddToAsWritten(g, last.0, last.1);
      forall i :: 0 <= i < |r| ==> 1 <= r[i].count <= Count(Keys(init + [last]), r[i].key)
  {
    var r := AddToAsWritten(g, last.0, last.1);
    forall i | 0 <= i < |r| ensures 1 <= r[i].count <= Count(Keys(init + [last]), r[i].key) {
      AsWrittenAt(init, last, g, i);
    }
  }

  lemma {:induction false} AsWrittenAt(init: seq<Entry>, last: Entry, g: seq<Group>, i: nat)
    requires NoDuplicates(Labels(g))
    requires forall j :: 0 <= j < |g| ==> 1 <= g[j].count <= Count(Keys(init), g[j].key)
    requires i < |AddToAsWritten(g, last.0, last.1)|
    ensures var r := AddToAsWritten(g, last.0, last.1);
      1 <= r[i].count <= Count(Keys(init + [last]), r[i].key)
  {
    var r := AddToAsWritten(g, last.0, last.1);
    UnfoldLast(init, last, r[i].key);
    assert Labels(r)[i] == r[i].key;
    if r[i].key != last.0 {
      assert i < |g| && r[i] == g[i];
    }
  }

  /** The bars as written name the same courses as the corrected ones, and
      each averages over at least one and at most all of its course's records. */
  function CourseScoresAsWritten(data: seq<Record>): (groups: seq<Group>)
    ensures Labels(groups) == Labels(CourseScores(data))
    ensures forall i :: 0 <= i < |groups| ==>
      1 <= groups[i].count <= Count(Keys(CourseEntries(data)), groups[i].key)
  {
    GroupByLabels(CourseEntries(data));
    GroupByAsWritten(CourseEntries(data))
  }

  /** Every bar drawn has at least one record, so no drawn average divides by zero. */
  lemma {:induction false} AsWrittenCountsPositive(data: seq<Record>)
    ensures forall i :: 0 <= i < |CourseScoresAsWritten(data)| ==> CourseScoresAsWritten(data)[i].count >= 1
  {
    var g := CourseScoresAsWritten(data);
    forall i | 0 <= i < |g| ensures g[i].count >= 1 {
      assert 1 <= g[i].count;
    }
  }

  /** Two records of course "A" scored 0 and 80: the code averages 80 over
      one record instead of 80 over two. */
  lemma {:induction false} ZeroScoreRestartsCourse()
    ensures var data := [map["course" := Str("A"), "score" := Num(0)],
                         map["course" := Str("A"), "score" := Num(80)]];
      && CourseScoresAsWritten(data) == [Group("A", 80, 1)]
      && CourseScores(data) == [Group("A", 80, 2)]
  {
    var data := [map["course" := Str("A"), "score" := Num(0)],
                 map["course" := Str("A"), "score" := Num(80)]];
    assert LabelOf(Str("A")) == "A";
    assert CourseEntries(data) == [("A", 0), ("A", 80)];
    ZeroThenEightyAsWritten();
    ZeroThenEightyCorrected();
  }

  lemma {:induction false} ZeroThenEightyAsWritten()
    ensures GroupByAsWritten([("A", 0), ("A", 80)]) == [Group("A", 80, 1)]
  {
    var e: seq<Entry> := [("A", 0), ("A", 80)];
    assert e[..1] == [("A", 0)] && e[..1][..0] == [];
    assert GroupByAsWritten(e[..1]) == [Group("A", 0, 1)];
  }

  lemma {:induction false} ZeroThenEightyCorrected()
    ensures GroupBy([("A", 0), ("A", 80)]) == [Group("A", 80, 2)]
  {
    var e: seq<Entry> := [("A", 0), ("A", 80)];
    assert e[..1] == [("A", 0)] && e[..1][..0] == [];
    var g0 := GroupBy(e[..1][..0]);
    assert g0 == [] && |Labels(g0)| == 0;
    var g := GroupBy(e[..1]);
    assert g == AddTo(g0, "A", 0) == Append(g0, "A", 0);
    assert g == [Group("A", 0, 1)];
    assert Labels(g)[0] == "A";
    var r := AddTo(g, "A", 80);
    assert |r| == 1 && r[0] == Group("A", 80, 2);
    assert GroupBy(e) == r;
  }

  // ---------------------------------------------------------------------
  // Line chart: activity per day

  /** Record r enters the line chart under date x: its date is truthy and
      reads x as an object key. */
  predicate DatedAs(r: Record, x: string) {
    Truthy(Get(r, "date")) && ToJsString(Get(r, "date")) == x
  }

  /** The number of records of the batch dated x. */
  function DatedCount(data: seq<Record>, x: string): nat {
    if |data| == 0 then 0
    else DatedCount(data[..|data| - 1], x) + (if DatedAs(data[|data| - 1], x) then 1 else 0)
  }

  /** The number of records of the batch with a truthy date. */
  function DatedRecords(data: seq<Record>): nat {
    if |data| == 0 then 0
    else DatedRecords(data[..|data| - 1]) + (if Truthy(Get(data[|data| - 1], "date")) then 1 else 0)
  }

  /** One `(date, 1)` step per record whose date is truthy: one step per
      dated record, and as many steps under each date as records carry it. */
  function DateEntries(data: seq<Record>): (entries: seq<Entry>)
    ensures |entries| == DatedRecords(data) <= |data|
    ensures forall i :: 0 <= i < |entries| ==> entries[i].1 == 1
    ensures forall x :: Count(Keys(entries), x) == DatedCount(data, x)
    ensures forall x :: x in Keys(entries) <==>
      exists j :: 0 <= j < |data| && DatedAs(data[j], x)
  {
    if |data| == 0 then []
    else
      var init := DateEntries(data[..|data| - 1]);
      var date := Get(data[|data| - 1], "date");
      assert forall j :: 0 <= j < |data| - 1 ==> data[..|data| - 1][j] == data[j];
      if Truthy(date) then
        var entries := init + [(ToJsString(date), 1)];
        assert Keys(entries) == Keys(init) + [ToJsString(date)];
        CountStep(init, (ToJsString(date), 1));
        entries
      else init
  }

  lemma {:induction false} CountStep(init: seq<Entry>, last: Entry)
    ensures forall x :: Count(Keys(init + [last]), x) == Count(Keys(init), x) + (if last.0 == x then 1 else 0)
  {
    forall x ensures Count(Keys(init + [last]), x) == Count(Keys(init), x) + (if last.0 == x then 1 else 0) {
      UnfoldLast(init, last, x);
    }
  }

  /** `(a, b) => a < b` on strings, the order of a comparator-less `sort()`. */
  function StringLess(): (string, string) -> bool {
    (a: string, b: string) => LexLess(a, b)
  }

  /** `Object.keys(dateActivity).sort()` */
  function SortedDates(data: seq<Record>): seq<string> {
    InsertionSort(Labels(GroupBy(DateEntries(data))), StringLess())
  }

  /** `sortedDates.map(date => dateActivity[date])` */
  function DateCounts(data: seq<Record>): (counts: seq<nat>)
    ensures |counts| == |SortedDates(data)|
  {
    CountsFor(GroupBy(DateEntries(data)), SortedDates(data))
  }

  /** `keys.map(key => acc[key])` */
  function CountsFor(groups: seq<Group>, keys: seq<string>): (counts: seq<nat>)
    requires NoDuplicates(Labels(groups))
    ensures |counts| == |keys|
    ensures forall i :: 0 <= i < |keys| ==> counts[i] == CountOf(groups, keys[i])
  {
    seq(|keys|, i requires 0 <= i < |keys| => CountOf(groups, keys[i]))
  }

  /** Looking up keys that are present gives their reference counts. */
  lemma {:induction false} CountsForExact(entries: seq<Entry>, keys: seq<string>)
    requires forall i :: 0 <= i < |keys| ==> keys[i] in Labels(GroupBy(entries))
    ensures forall i :: 0 <= i < |keys| ==>
      CountsFor(GroupBy(entries), keys)[i] == Count(Keys(entries), keys[i]) >= 1
  {
    forall i | 0 <= i < |keys|
      ensures CountsFor(GroupBy(entries), keys)[i] == Count(Keys(entries), keys[i]) >= 1
    {
      CountOfExact(entries, keys[i]);
    }
  }

  lemma {:induction false} CountOfExact(entries: seq<Entry>, key: string)
    requires key in Labels(GroupBy(entries))
    ensures CountOf(GroupBy(entries), key) == Count(Keys(entries), key) >= 1
  {
    var groups := GroupBy(entries);
    var k :| 0 <= k < |groups| && groups[k].key == key;
    GroupByTallies(entries);
    GroupByLabels(entries);
    assert key in Keys(entries);
    CountPresent(Keys(entries), key);
  }

  /** `xs.slice(-n)`: the last n elements, or all of them when there are
      fewer; `-0` is `0`, so `slice(-0)` is the whole sequence too. */
  function LastN<T>(s: seq<T>, n: nat): (r: seq<T>)
    ensures |r| == if n == 0 || |s| < n then |s| else n
    ensures r == s[|s| - |r|..]
  {
    if n == 0 || |s| <= n then s else s[|s| - n..]
  }

  const DaysShown: nat := 30

  lemma {:induction false} StringOrderConsistent(u: seq<string>)
    ensures Consistent(u, StringLess(), (a: string, b: string) => !LexLess(b, a))
  {
    forall a, b | a in u && b in u
      ensures !LexLess(b, a) || !LexLess(a, b)
    {
      LexLessTrichotomy(a, b);
    }
    forall a, b, c | a in u && b in u && c in u && !LexLess(b, a) && !LexLess(c, b)
      ensures !LexLess(c, a)
    {
      LexLessTrichotomy(a, b);
      LexLessTrichotomy(b, c);
      LexLessTrichotomy(a, c);
      if LexLess(a, b) && LexLess(b, c) {
        LexLessTransitive(a, b, c);
      }
    }
  }

  /** The line chart's dates are the distinct truthy dates: each appears
      once, and they come in strictly increasing string order. */
  lemma {:induction false} DatesStrictlyIncreasing(data: seq<Record>)
    ensures var dates := SortedDates(data);
      forall i, j :: 0 <= i < j < |dates| ==> LexLess(dates[i], dates[j])
  {
    var labels := Labels(GroupBy(DateEntries(data)));
    var dates := SortedDates(data);
    var le := (a: string, b: string) => !LexLess(b, a);
    StringOrderConsistent(labels);
    SortSorted(labels, StringLess(), le);
    forall i, j | 0 <= i < j < |dates| ensures LexLess(dates[i], dates[j]) {
      assert le(dates[i], dates[j]);
      DistinctSorted(labels, dates, i, j);
      LexLessTrichotomy(dates[i], dates[j]);
    }
  }

  /** A date is on the chart's axis exactly when some record carries it. */
  lemma {:induction false} DatesAreRecordDates(data: seq<Record>)
    ensures forall x :: x in SortedDates(data) <==>
      exists j :: 0 <= j < |data| && DatedAs(data[j], x)
  {
    var entries := DateEntries(data);
    SortSameElements(Labels(GroupBy(entries)), StringLess());
    GroupKeysAreEntryKeys(entries);
  }

  /** The accumulator has a group for exactly the keys entered. */
  lemma {:induction false} GroupKeysAreEntryKeys(entries: seq<Entry>)
    ensures forall x :: x in Labels(GroupBy(entries)) <==> x in Keys(entries)
  {
    var labels := Labels(GroupBy(entries));
    var keys := Keys(entries);
    GroupByLabels(entries);
    forall x | x in labels ensures x in keys {
      var i :| 0 <= i < |labels| && labels[i] == x;
    }
    forall x | x in keys ensures x in labels {
      var i :| 0 <= i < |keys| && keys[i] == x;
    }
  }

  /** Each date is paired with the number of records on that date. */
  lemma {:induction false} DateCountsExact(data: seq<Record>)
    ensures forall i :: 0 <= i < |SortedDates(data)| ==>
      DateCounts(data)[i] == DatedCount(data, SortedDates(data)[i]) >= 1
  {
    var labels := Labels(GroupBy(DateEntries(data)));
    SortSameElements(labels, StringLess());
    CountsForExact(DateEntries(data), SortedDates(data));
  }

  /** A permutation of a sequence without duplicates has none either. */
  lemma {:induction false} DistinctSorted(labels: seq<string>, dates: seq<string>, i: int, j: int)
    requires NoDuplicates(labels) && multiset(dates) == multiset(labels)
    requires 0 <= i < j < |dates|
    ensures dates[i] != dates[j]
  {
    if dates[i] == dates[j] {
      var x := dates[i];
      assert dates == dates[..j] + [x] + dates[j + 1..];
      assert x in dates[..j];
      assert multiset(dates)[x] >= 2;
      NoDuplicatesMultiplicity(labels, x);
    }
  }

  lemma {:induction false} NoDuplicatesMultiplicity(s: seq<string>, x: string)
    requires NoDuplicates(s)
    ensures multiset(s)[x] <= 1
  {
    if |s| > 0 {
      var init := s[..|s| - 1];
      assert s == init + [s[|s| - 1]];
      NoDuplicatesMultiplicity(init, x);
      if s[|s| - 1] == x {
        assert x !in init;
      }
    }
  }

  /** Every dated record is counted once in the line chart's source: the
      per-date counts add up to the number of records with a truthy date. */
  lemma {:induction false} DateCountsTotal(data: seq<Record>)
    ensures TotalCount(GroupBy(DateEntries(data))) == DatedRecords(data)
    ensures TotalSum(GroupBy(DateEntries(data))) == DatedRecords(data)
  {
    OnesSum(DateEntries(data));
  }

  lemma {:induction false} OnesSum(entries: seq<Entry>)
    requires forall i :: 0 <= i < |entries| ==> entries[i].1 == 1
    ensures SumAmounts(entries) == |entries|
  {
    if |entries| > 0 {
      OnesSum(entries[..|entries| - 1]);
    }
  }

  // ---------------------------------------------------------------------
  // Pie chart: activity types

  /** One `(activity_type || 'Не указано', 1)` step per record. */
  function TypeEntries(data: seq<Record>): (entries: seq<Entry>)
    ensures |entries| == |data|
    ensures forall i :: 0 <= i < |data| ==> entries[i] == (LabelOf(Get(data[i], "activity_type")), 1)
  {
    seq(|data|, i requires 0 <= i < |data| => (LabelOf(Get(data[i], "activity_type")), 1))
  }

  const Palette: seq<string> := [
    "rgba(59, 130, 246, 0.8)",
    "rgba(16, 185, 129, 0.8)",
    "rgba(245, 158, 11, 0.8)",
    "rgba(239, 68, 68, 0.8)",
    "rgba(139, 92, 246, 0.8)",
    "rgba(236, 72, 153, 0.8)"
  ]

  /** `colors.slice(0, activityTypes.length)` */
  function SliceColors(n: nat): (colors: seq<string>)
    ensures |colors| == if n < |Palette| then n else |Palette|
    ensures colors == Palette[..|colors|]
  {
    if n < |Palette| then Palette[..n] else Palette
  }

  function SumNats(s: seq<nat>): nat {
    if |s| == 0 then 0 else SumNats(s[..|s| - 1]) + s[|s| - 1]
  }

  lemma {:induction false} TotalCountAsSum(groups: seq<Group>, counts: seq<nat>)
    requires |counts| == |groups| && forall i :: 0 <= i < |groups| ==> counts[i] == groups[i].count
    ensures SumNats(counts) == TotalCount(groups)
  {
    if |groups| > 0 {
      TotalCountAsSum(groups[..|groups| - 1], counts[..|counts| - 1]);
    }
  }

  datatype Line = Line(dates: seq<string>, counts: seq<nat>)

  /** `lineData`: the last (at most) 30 sorted dates, each with its own count. */
  function LineChart(data: seq<Record>): (line: Line)
    ensures |line.dates| == |line.counts|
    ensures |line.dates| == if |SortedDates(data)| < DaysShown then |SortedDates(data)| else DaysShown
    ensures line.dates == SortedDates(data)[|SortedDates(data)| - |line.dates|..]
    ensures forall i :: 0 <= i < |line.dates| ==> line.counts[i] == DatedCount(data, line.dates[i])
  {
    var dates := SortedDates(data);
    var counts := DateCounts(data);
    DateCountsExact(data);
    LastNAligned(dates, counts, DaysShown, (d: string, n: nat) => n == DatedCount(data, d));
    Line(LastN(dates, DaysShown), LastN(counts, DaysShown))
  }

  /** Taking the same tail of two aligned sequences keeps them aligned. */
  lemma {:induction false} LastNAligned<A, B>(a: seq<A>, b: seq<B>, n: nat, paired: (A, B) -> bool)
    requires |a| == |b| && forall i :: 0 <= i < |a| ==> paired(a[i], b[i])
    ensures |LastN(a, n)| == |LastN(b, n)|
    ensures forall i :: 0 <= i < |LastN(a, n)| ==> paired(LastN(a, n)[i], LastN(b, n)[i])
  {
    var la := LastN(a, n);
    var lb := LastN(b, n);
    var k := |a| - |la|;
    forall i | 0 <= i < |la| ensures paired(la[i], lb[i]) {
      assert la[i] == a[k + i] && lb[i] == b[k + i];
    }
  }

  datatype Pie = Pie(types: seq<string>, counts: seq<nat>, colors: seq<string>)

  /** `pieData`: the activity types in order of first appearance, each
      with its number of records; the slices add up to the batch, and only
      the first six get a colour. */
  function PieChart(data: seq<Record>): (pie: Pie)
    ensures pie.types == Distinct(Keys(TypeEntries(data)))
    ensures |pie.counts| == |pie.types|
    ensures forall i :: 0 <= i < |pie.types| ==> pie.counts[i] == Count(Keys(TypeEntries(data)), pie.types[i])
    ensures SumNats(pie.counts) == |data|
    ensures |pie.colors| == if |pie.types| < |Palette| then |pie.types| else |Palette|
  {
    var groups := GroupBy(TypeEntries(data));
    var types := Labels(groups);
    var counts := CountsFor(groups, types);
    GroupByLabels(TypeEntries(data));
    CountsForExact(TypeEntries(data), types);
    TotalCountAsSum(groups, counts);
    Pie(types, counts, SliceColors(|types|))
  }

  /** What the component renders for its data prop. */
  datatype Charts = Placeholder | Charts(courses: seq<Group>, line: Line, pie: Pie)

  /** The component as written: the bar chart comes from the as-written
      accumulation, so a course whose running sum passes through 0 loses
      the records before that point (see `ZeroScoreRestartsCourse`). */
  function Render(data: seq<Record>): (c: Charts)
    ensures c.Placeholder? <==> |data| == 0
    ensures c.Charts? ==> Labels(c.courses) == Distinct(Keys(CourseEntries(data)))
    ensures c.Charts? ==> |c.line.dates| <= DaysShown && SumNats(c.pie.counts) == |data|
  {
    if |data| == 0 then Placeholder
    else
      var courses := CourseScoresAsWritten(data);
      GroupByLabels(CourseEntries(data));
      var line := LineChart(data);
      var pie := PieChart(data);
      Charts(courses, line, pie)
  }

  /** The component with the corrected bar chart: every record lands in
      exactly one course bar. */
  function RenderCorrected(data: seq<Record>): (c: Charts)
    ensures c.Placeholder? <==> |data| == 0
    ensures c.Charts? ==> Labels(c.courses) == Distinct(Keys(CourseEntries(data)))
    ensures c.Charts? ==> TotalCount(c.courses) == |data|
    ensures c.Charts? ==> |c.line.dates| <= DaysShown && SumNats(c.pie.counts) == |data|
  {
    if |data| == 0 then Placeholder
    else
      CourseScoresExact(data);
      Charts(CourseScores(data), LineChart(data), PieChart(data))
  }
}
