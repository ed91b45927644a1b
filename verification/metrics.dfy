/** The four summary cards of frontend/src/components/MetricsCards.jsx. */
module Metrics {
  import opened JsValues
  import opened Seqs
  import App
  import Dashboard

  /** `(sum / count).toFixed(k)`, kept as the exact ratio; a batch with no
      records shows 0 instead. */
  datatype Average = NoRecords | Ratio(sum: int, count: nat)

  datatype Cards = Cards(
    totalRecords: nat,
    averageScore: Average,
    averageTime: Average,
    totalTime: int,
    uniqueStudents: nat)

  /** `data.reduce((sum, item) => sum + (item[key] || 0), 0)` */
  function SumField(data: seq<Record>, key: string): int {
    if |data| == 0 then 0 else SumField(data[..|data| - 1], key) + OrZero(Get(data[|data| - 1], key))
  }

  function AverageOf(data: seq<Record>, key: string): (a: Average)
    ensures a.NoRecords? <==> |data| == 0
    ensures a.Ratio? ==> a.sum == SumField(data, key) && a.count == |data| && a.count >= 1
  {
    if |data| > 0 then Ratio(SumField(data, key), |data|) else NoRecords
  }

  /** `new Set(data.map(item => item.student)).size`; a missing student
      counts as one more value, `undefined`. */
  function UniqueStudents(data: seq<Record>): (n: nat)
    ensures n == |set x | x in App.Column(data, "student")|
    ensures n <= |data|
    ensures |data| > 0 ==> n >= 1
  {
    DistinctSize(App.Column(data, "student"));
    |Distinct(App.Column(data, "student"))|
  }

  function ComputeCards(data: seq<Record>): (c: Cards)
    ensures c.totalRecords == |data|
    ensures c.averageScore == AverageOf(data, "score")
    ensures c.averageTime == AverageOf(data, "time_min")
    ensures c.totalTime == SumField(data, "time_min")
    ensures c.uniqueStudents == UniqueStudents(data)
  {
    Cards(|data|, AverageOf(data, "score"), AverageOf(data, "time_min"), SumField(data, "time_min"), UniqueStudents(data))
  }

  /** When every record's field is a number in [lo, hi], so is the average. */
  lemma {:induction false} SumFieldBounds(data: seq<Record>, key: string, lo: int, hi: int)
    requires forall i :: 0 <= i < |data| ==> Get(data[i], key).Num? && lo <= Get(data[i], key).num <= hi
    ensures |data| * lo <= SumField(data, key) <= |data| * hi
  {
    if |data| > 0 {
      var init := data[..|data| - 1];
      assert forall i :: 0 <= i < |init| ==> init[i] == data[i];
      SumFieldBounds(init, key, lo, hi);
      var v := Get(data[|data| - 1], key).num;
      assert SumField(data, key) == SumField(init, key) + v;
      assert |data| * lo == |init| * lo + lo && |data| * hi == |init| * hi + hi;
    }
  }

  lemma {:induction false} AverageWithinBounds(data: seq<Record>, key: string, lo: int, hi: int)
    requires |data| > 0
    requires forall i :: 0 <= i < |data| ==> Get(data[i], key).Num? && lo <= Get(data[i], key).num <= hi
    ensures var a := AverageOf(data, key); a.Ratio? && a.count * lo <= a.sum <= a.count * hi
  {
    SumFieldBounds(data, key, lo, hi);
  }

  lemma {:induction false} SumFieldMatchesEntries(data: seq<Record>)
    ensures Dashboard.SumAmounts(Dashboard.CourseEntries(data)) == SumField(data, "score")
  {
    if |data| > 0 {
      var init := data[..|data| - 1];
      assert Dashboard.CourseEntries(data)[..|data| - 1] == Dashboard.CourseEntries(init);
      SumFieldMatchesEntries(init);
    }
  }

  /** The score card and the bar chart agree: the course groups split the
      records and their scores between them without loss. */
  lemma {:induction false} CardsAgreeWithCourseChart(data: seq<Record>)
    ensures Dashboard.TotalCount(Dashboard.CourseScores(data)) == ComputeCards(data).totalRecords
    ensures |data| > 0 ==> Dashboard.TotalSum(Dashboard.CourseScores(data)) == ComputeCards(data).averageScore.sum
  {
    SumFieldMatchesEntries(data);
  }

  /** As written, the bar chart and the record card disagree: two records
      of course "A" scored 0 and 80 make a single-record bar. */
  lemma {:induction false} CardsDisagreeWithCourseChartAsWritten()
    ensures var data := [map["course" := Str("A"), "score" := Num(0)],
                         map["course" := Str("A"), "score" := Num(80)]];
      && Dashboard.TotalCount(Dashboard.CourseScoresAsWritten(data)) == 1
      && ComputeCards(data).totalRecords == 2
  {
    Dashboard.ZeroScoreRestartsCourse();
    assert Dashboard.TotalCount([Dashboard.Group("A", 80, 1)]) == 1;
  }

  /** Narrowing the filters never raises the record count or the number of
      distinct students. */
  lemma {:induction false} FilterNeverAddsStudents(data: seq<Record>, f: App.FilterState)
    ensures ComputeCards(App.ApplyFilters(data, f)).totalRecords <= ComputeCards(data).totalRecords
    ensures ComputeCards(App.ApplyFilters(data, f)).uniqueStudents <= ComputeCards(data).uniqueStudents
  {
    var r := App.ApplyFilters(data, f);
    App.FilterExact(data, f);
    var small := set x | x in App.Column(r, "student");
    var large := set x | x in App.Column(data, "student");
    forall x | x in small ensures x in large {
      var i :| 0 <= i < |r| && App.Column(r, "student")[i] == x;
      assert r[i] in multiset(r);
      assert r[i] in multiset(data);
      var j :| 0 <= j < |data| && data[j] == r[i];
      assert App.Column(data, "student")[j] == x;
    }
    SubsetCardinality(small, large);
    assert |multiset(r)| <= |multiset(data)| by {
      assert multiset(r) <= multiset(data);
    }
  }

  lemma {:induction false} SubsetCardinality<T>(a: set<T>, b: set<T>)
    requires a <= b
    ensures |a| <= |b|
  {
    assert b == a + (b - a);
  }
}
