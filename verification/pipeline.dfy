/** How the server's records meet the client: the JSON body of
    `/api/sample-data` and `/api/upload` arrives as plain objects, and the
    client's filters and cards read fields of those objects. */
module Pipeline {
  import opened JsValues
  import JsParseInt
  import Server
  import App
  import Metrics

  /** `JSON.parse(JSON.stringify(r))` for a flat object: NaN is written as
      `null`, a field holding `undefined` is left out, and numbers, strings
      and `null` arrive as they were. */
  function JsonRoundTrip(r: Record): (j: Record)
    ensures forall k :: k in j ==> k in r && !j[k].NaN? && !j[k].Undefined?
    ensures forall k :: k in r && (r[k].Num? || r[k].Str? || r[k].Null?) ==> k in j && j[k] == r[k]
    ensures forall k :: k in r && r[k].NaN? ==> k in j && j[k] == Null
    ensures forall k :: k in r && r[k].Undefined? ==> k !in j
  {
    map k | k in r && !r[k].Undefined? :: if r[k].NaN? then Null else r[k]
  }

  /** The records as the client sees them after `res.json(...)` on the
      server and JSON decoding on the client. */
  function AsRecords(records: seq<Server.ActivityRecord>): (rs: seq<Record>)
    ensures |rs| == |records|
    ensures forall i :: 0 <= i < |records| ==> rs[i] == JsonRoundTrip(Server.ToRecord(records[i]))
    ensures forall i :: 0 <= i < |records| && IsNumber(records[i].score) && IsNumber(records[i].timeMin) ==>
      rs[i].Keys == Server.RecordFields
    ensures forall i :: 0 <= i < |records| ==>
      Get(rs[i], "score") == if records[i].score.NaN? then Null else records[i].score
  {
    var rs := seq(|records|, i requires 0 <= i < |records| => JsonRoundTrip(Server.ToRecord(records[i])));
    forall i | 0 <= i < |records| && IsNumber(records[i].score) && IsNumber(records[i].timeMin)
      ensures rs[i].Keys == Server.RecordFields
    {
      Server.ToRecordFields(records[i]);
      assert forall k :: k in rs[i] <==> k in Server.RecordFields;
    }
    rs
  }

  /** A CSV score that does not parse is NaN on the server and reaches the
      client as `null`, which the cards read as 0 and the table sorts last. */
  lemma {:induction false} UnparsableScoreArrivesNull()
    ensures var records := Server.NormalizeRows([map["score" := "abc"]]);
      && records[0].score == NaN
      && Get(AsRecords(records)[0], "score") == Null
      && OrZero(Get(AsRecords(records)[0], "score")) == 0
      && Nullish(Get(AsRecords(records)[0], "score"))
  {
    var row: Server.Row := map["score" := "abc"];
    assert Server.FirstFilledAt(row, Server.ScoreAliases, 0);
    JsParseInt.ParseIntNoDigits("abc");
  }

  lemma {:induction false} NoTruthyField(rs: seq<Record>, key: string)
    requires forall i :: 0 <= i < |rs| ==> key !in rs[i]
    ensures App.Facet(rs, key) == []
  {
    if |App.Facet(rs, key)| > 0 {
      assert false;
    }
  }

  /** Server records carry neither `category` nor `transaction_type`, so the
      filter drop-downs offer nothing beyond "all" for them. */
  lemma {:induction false} ServerRecordsOfferNoFilters(records: seq<Server.ActivityRecord>)
    ensures App.Facet(AsRecords(records), "category") == []
    ensures App.Facet(AsRecords(records), "transaction_type") == []
  {
    var rs := AsRecords(records);
    forall i | 0 <= i < |rs| ensures "category" !in rs[i] && "transaction_type" !in rs[i] {
      Server.ToRecordFields(records[i]);
    }
    NoTruthyField(rs, "category");
    NoTruthyField(rs, "transaction_type");
  }

  /** For generated sample data the score card lies in [60, 99] and the time
      card in [30, 149]. */
  lemma {:induction false} SampleCardsInRange(records: seq<Server.ActivityRecord>)
    requires |records| > 0
    requires forall k :: 0 <= k < |records| ==> Server.IsSampleRecord(records[k], k + 1)
    ensures var a := Metrics.AverageOf(AsRecords(records), "score");
      a.Ratio? && 60 * a.count <= a.sum <= 99 * a.count
    ensures var a := Metrics.AverageOf(AsRecords(records), "time_min");
      a.Ratio? && 30 * a.count <= a.sum <= 149 * a.count
  {
    var rs := AsRecords(records);
    forall i | 0 <= i < |rs|
      ensures Get(rs[i], "score").Num? && 60 <= Get(rs[i], "score").num <= 99
      ensures Get(rs[i], "time_min").Num? && 30 <= Get(rs[i], "time_min").num <= 149
    {
      Server.ToRecordFields(records[i]);
    }
    Metrics.AverageWithinBounds(rs, "score", 60, 99);
    Metrics.AverageWithinBounds(rs, "time_min", 30, 149);
  }
}
