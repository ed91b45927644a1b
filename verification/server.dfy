/** The backend (backend/server.js): turning parsed CSV rows into activity
    records, the upload decision, and the sample-data generator. The
    csv-parser stream, multer's disk storage and Express are outside the
    model: the rows a stream produced, the uploaded file's metadata and the
    random numbers drawn are parameters. */
module Server {
  import opened Wrappers
  import opened JsValues
  import opened JsParseInt

  /** One row as csv-parser emits it: header name to cell text. */
  type Row = map<string, string>

  /** The fields of every record the backend produces. */
  const RecordFields: set<string> :=
    {"id", "student", "course", "date", "activity_type", "score", "time_min"}

  /** Header names tried for each field, in the order of the `||` chains. */
  const StudentAliases: seq<string> := ["student", "Student"]
  const CourseAliases: seq<string> := ["course", "Course"]
  const DateAliases: seq<string> := ["date", "Date"]
  const ActivityTypeAliases: seq<string> := ["activity_type", "activityType", "activity_type"]
  const ScoreAliases: seq<string> := ["score", "Score"]
  const TimeAliases: seq<string> := ["time_min", "timeMin", "time_min"]

  /** A cell that is present and truthy (non-empty). */
  predicate Filled(row: Row, key: string) {
    key in row && row[key] != ""
  }

  /** aliases[i] is the first alias with a filled cell. */
  predicate FirstFilledAt(row: Row, aliases: seq<string>, i: int) {
    && 0 <= i < |aliases|
    && Filled(row, aliases[i])
    && forall j :: 0 <= j < i ==> !Filled(row, aliases[j])
  }

  predicate NoneFilled(row: Row, aliases: seq<string>) {
    forall i :: 0 <= i < |aliases| ==> !Filled(row, aliases[i])
  }

  /** `row[a0] || row[a1] || ...` over the aliases; None when every cell is
      missing or empty. */
  function FirstFilled(row: Row, aliases: seq<string>): (r: Option<string>)
    ensures r.None? <==> NoneFilled(row, aliases)
    ensures r.Some? ==> exists i :: FirstFilledAt(row, aliases, i) && r.value == row[aliases[i]]
  {
    if |aliases| == 0 then None
    else if Filled(row, aliases[0]) then Some(row[aliases[0]])
    else
      var rest := FirstFilled(row, aliases[1..]);
      assert forall i :: FirstFilledAt(row, aliases[1..], i) ==> FirstFilledAt(row, aliases, i + 1);
      assert NoneFilled(row, aliases[1..]) ==> NoneFilled(row, aliases);
      rest
  }

  /** A text field: the first filled alias, or "" when there is none. */
  predicate ResolvedText(row: Row, aliases: seq<string>, v: Value) {
    || (exists i :: 0 <= i < |aliases| && FirstFilledAt(row, aliases, i) && v == Str(row[aliases[i]]))
    || (NoneFilled(row, aliases) && v == Str(""))
  }

  /** The value `parseInt` returns: a number or NaN. */
  function NumberValue(p: Option<int>): (v: Value)
    ensures IsNumber(v)
  {
    match p
    case Some(n) => Num(n)
    case None => NaN
  }

  /** A record as the backend builds it, before it becomes a plain object. */
  datatype ActivityRecord = ActivityRecord(
    id: int, student: string, course: string, date: string, activityType: string,
    score: Value, timeMin: Value)

  /** The object literal of the handler: field names as the JSON carries them. */
  function ToRecord(a: ActivityRecord): Record {
    map[
      "id" := Num(a.id),
      "student" := Str(a.student),
      "course" := Str(a.course),
      "date" := Str(a.date),
      "activity_type" := Str(a.activityType),
      "score" := a.score,
      "time_min" := a.timeMin
    ]
  }

  /** The shape every backend record has. */
  predicate WellShaped(r: Record) {
    && r.Keys == RecordFields
    && r["id"].Num?
    && r["student"].Str? && r["course"].Str? && r["date"].Str? && r["activity_type"].Str?
    && IsNumber(r["score"]) && IsNumber(r["time_min"])
  }

  /** Every field of the datatype lands under its JSON name, and no other field exists. */
  lemma {:induction false} ToRecordFields(a: ActivityRecord)
    ensures ToRecord(a).Keys == RecordFields
    ensures var r := ToRecord(a);
      && r["id"] == Num(a.id) && r["student"] == Str(a.student) && r["course"] == Str(a.course)
      && r["date"] == Str(a.date) && r["activity_type"] == Str(a.activityType)
      && r["score"] == a.score && r["time_min"] == a.timeMin
    ensures IsNumber(a.score) && IsNumber(a.timeMin) ==> WellShaped(ToRecord(a))
  {
  }

  /** `parseInt(row.id) || accepted + 1`, where `accepted` counts the
      records already pushed; a missing id reads as `parseInt(undefined)`. */
  function RecordId(row: Row, accepted: nat): (id: int)
    ensures "id" in row && ParseInt(row["id"]).Some? && ParseInt(row["id"]).value != 0 ==>
      id == ParseInt(row["id"]).value
    ensures ("id" !in row || ParseInt(row["id"]) in {None, Some(0)}) ==> id == accepted + 1
  {
    ParseIntNoDigits("undefined");
    var parsed := ParseInt(if "id" in row then row["id"] else "undefined");
    if parsed.Some? && parsed.value != 0 then parsed.value else accepted + 1
  }

  /** `row.a || row.b || ''` */
  function TextField(row: Row, aliases: seq<string>): (v: Value)
    ensures ResolvedText(row, aliases, v)
  {
    Str(FirstFilled(row, aliases).GetOr(""))
  }

  /** `parseInt(row.a || row.b || 0)`: with no filled alias the number 0
      is converted to "0" and parsed. */
  function NumberField(row: Row, aliases: seq<string>): (v: Value)
    ensures IsNumber(v)
    ensures NoneFilled(row, aliases) ==> v == Num(0)
    ensures forall i :: FirstFilledAt(row, aliases, i) ==> v == NumberValue(ParseInt(row[aliases[i]]))
  {
    ParseIntDecimalRoundTrip(0);
    assert IntToDecimal(0) == "0";
    FirstFilledUnique(row, aliases);
    NumberValue(ParseInt(FirstFilled(row, aliases).GetOr("0")))
  }

  lemma {:induction false} FirstFilledUnique(row: Row, aliases: seq<string>)
    ensures forall i, j :: FirstFilledAt(row, aliases, i) && FirstFilledAt(row, aliases, j) ==> i == j
  {
  }

  /** The record built in the `'data'` handler for one row, `accepted`
      being the number of records pushed before it. It never fails. */
  function NormalizeRow(row: Row, accepted: nat): (a: ActivityRecord)
    ensures "id" in row && ParseInt(row["id"]).Some? && ParseInt(row["id"]).value != 0 ==>
      a.id == ParseInt(row["id"]).value
    ensures ("id" !in row || ParseInt(row["id"]) in {None, Some(0)}) ==> a.id == accepted + 1
    ensures ResolvedText(row, StudentAliases, Str(a.student))
    ensures ResolvedText(row, CourseAliases, Str(a.course))
    ensures ResolvedText(row, DateAliases, Str(a.date))
    ensures ResolvedText(row, ActivityTypeAliases, Str(a.activityType))
    ensures IsNumber(a.score) && IsNumber(a.timeMin)
    ensures NoneFilled(row, ScoreAliases) ==> a.score == Num(0)
    ensures forall i :: FirstFilledAt(row, ScoreAliases, i) ==>
      a.score == NumberValue(ParseInt(row[ScoreAliases[i]]))
    ensures NoneFilled(row, TimeAliases) ==> a.timeMin == Num(0)
    ensures forall i :: FirstFilledAt(row, TimeAliases, i) ==>
      a.timeMin == NumberValue(ParseInt(row[TimeAliases[i]]))
  {
    ActivityRecord(
      RecordId(row, accepted),
      TextField(row, StudentAliases).str,
      TextField(row, CourseAliases).str,
      TextField(row, DateAliases).str,
      TextField(row, ActivityTypeAliases).str,
      NumberField(row, ScoreAliases),
      NumberField(row, TimeAliases))
  }

  /** The records of one upload: one per row, in row order; the k-th row
      (counting from 0) falls back to id k + 1. */
  function NormalizeRows(rows: seq<Row>): (records: seq<ActivityRecord>)
    ensures |records| == |rows|
    ensures forall k :: 0 <= k < |rows| ==> records[k] == NormalizeRow(rows[k], k)
  {
    seq(|rows|, k requires 0 <= k < |rows| => NormalizeRow(rows[k], k))
  }

  /** A row without a usable id takes the running count, which can equal an
      explicit id of another row: ids are not unique. */
  lemma {:induction false} FallbackIdCanCollide()
    ensures var records := NormalizeRows([map["id" := "2"], map[]]);
      records[0].id == records[1].id == 2
  {
    ParseIntDecimalRoundTrip(2);
    assert IntToDecimal(2) == "2";
    ParseIntNoDigits("undefined");
  }

  // ---------------------------------------------------------------------
  // Upload

  /** The metadata multer has for the uploaded part. */
  datatype UploadedFile = UploadedFile(mimetype: string, originalName: string, size: nat)

  /** What csv-parser delivered: all rows, or a stream error. */
  datatype CsvStream = Rows(rows: seq<Row>) | StreamError(message: string)

  datatype UploadOutcome =
    | Accepted(records: seq<ActivityRecord>)
    | WrongType
    | TooLarge
    | NoFile
    | EmptyFile
    | ParseFailed(message: string)

  /** multer's `limits.fileSize`: 10 MiB. */
  const MaxFileSize: nat := 10 * 1024 * 1024

  /** The path with trailing slashes removed. */
  function TrimTrailingSlashes(p: string): (r: string)
    ensures |r| <= |p| && r == p[..|r|]
    ensures |r| > 0 ==> r[|r| - 1] != '/'
  {
    if |p| > 0 && p[|p| - 1] == '/' then TrimTrailingSlashes(p[..|p| - 1]) else p
  }

  /** Index of the last occurrence of c in s, or -1. */
  function LastIndexOf(s: string, c: char): (k: int)
    ensures -1 <= k < |s|
    ensures k >= 0 ==> s[k] == c
    ensures forall i :: k < i < |s| ==> s[i] != c
  {
    if |s| == 0 then -1
    else if s[|s| - 1] == c then |s| - 1
    else LastIndexOf(s[..|s| - 1], c)
  }

  /** The last path component, as POSIX `path.basename` without a suffix. */
  function LastComponent(p: string): (b: string)
    ensures '/' !in b
  {
    var q := TrimTrailingSlashes(p);
    q[LastIndexOf(q, '/') + 1..]
  }

  /** POSIX `path.extname`: from the last dot of the last component, unless
      that dot starts the component or the component is "..". */
  function ExtName(p: string): string {
    var b := LastComponent(p);
    var d := LastIndexOf(b, '.');
    if d <= 0 || b == ".." then "" else b[d..]
  }

  predicate EndsWith(s: string, suffix: string) {
    |s| >= |suffix| && s[|s| - |suffix|..] == suffix
  }

  /** `path.extname(name) === '.csv'` exactly when the last component ends in
      ".csv" and has something in front of that suffix. */
  lemma {:induction false} CsvExtension(p: string)
    ensures ExtName(p) == ".csv" <==> EndsWith(LastComponent(p), ".csv") && |LastComponent(p)| >= 5
  {
    var b := LastComponent(p);
    var d := LastIndexOf(b, '.');
    if EndsWith(b, ".csv") && |b| >= 5 {
      assert b[|b| - 4] == '.';
      assert d == |b| - 4 by {
        assert b[|b| - 3..] == "csv";
        assert forall i :: |b| - 4 < i < |b| ==> b[i] != '.';
      }
    }
    if ExtName(p) == ".csv" {
      assert b[d..] == ".csv";
      assert d == |b| - 4;
    }
  }

  /** multer's `fileFilter`: a CSV mimetype or a ".csv" extension. */
  predicate AcceptsFile(f: UploadedFile) {
    f.mimetype == "text/csv" || ExtName(f.originalName) == ".csv"
  }

  /** POST /api/upload: the file filter and the size limit act before the
      handler; then a missing file, a stream error and an empty result are
      failures, and any other result is the whole batch. */
  function Upload(file: Option<UploadedFile>, stream: CsvStream): (o: UploadOutcome)
    ensures file.None? <==> o == NoFile
    ensures file.Some? && !AcceptsFile(file.value) ==> o == WrongType
    ensures o.Accepted? <==>
      file.Some? && AcceptsFile(file.value) && file.value.size <= MaxFileSize
      && stream.Rows? && |stream.rows| > 0
    ensures file.Some? && AcceptsFile(file.value) && file.value.size > MaxFileSize ==> o == TooLarge
    ensures file.Some? && AcceptsFile(file.value) && file.value.size <= MaxFileSize && stream.StreamError? ==>
      o == ParseFailed(stream.message)
    ensures o.Accepted? ==> o.records == NormalizeRows(stream.rows) && |o.records| == |stream.rows|
    ensures o == EmptyFile <==>
      file.Some? && AcceptsFile(file.value) && file.value.size <= MaxFileSize && stream == Rows([])
  {
    match file
    case None => NoFile
    case Some(f) =>
      if !AcceptsFile(f) then WrongType
      else if f.size > MaxFileSize then TooLarge
      else
        match stream
        case StreamError(message) => ParseFailed(message)
        case Rows(rows) =>
          if |rows| == 0 then EmptyFile else Accepted(NormalizeRows(rows))
  }

  /** The HTTP status of each outcome. */
  function Status(o: UploadOutcome): (code: int)
    ensures code == 200 <==> o.Accepted?
    ensures code == 500 <==> o.ParseFailed?
    ensures !o.Accepted? && !o.ParseFailed? ==> code == 400
  {
    match o
    case Accepted(_) => 200
    case ParseFailed(_) => 500
    case _ => 400
  }

  /** An error that reaches the error middleware: one multer raised (with
      its code), or the `Error` the file filter passed to its callback. */
  datatype UploadError = MulterError(code: string, message: string) | PlainError(message: string)

  /** The message the file filter's `Error` carries. */
  const FileTypeMessage: string := "Только CSV файлы разрешены!"

  /** The `error` text the multer error middleware answers with. */
  function MiddlewareText(e: UploadError): string {
    match e
    case MulterError(code, message) =>
      if code == "LIMIT_FILE_SIZE" then "Размер файла превышает 10MB"
      else "Ошибка загрузки файла: " + message
    case PlainError(message) => message
  }

  /** The `error` text of each failure response. A rejected type and an
      oversize file are answered by the middleware, from the error the
      filter and the size limit raise; the others by the handler. */
  function ErrorText(o: UploadOutcome): (text: string)
    requires !o.Accepted?
    ensures o == WrongType ==> text == MiddlewareText(PlainError(FileTypeMessage))
    ensures o == TooLarge ==> forall m :: text == MiddlewareText(MulterError("LIMIT_FILE_SIZE", m))
    ensures |text| > 0
  {
    match o
    case WrongType => "Только CSV файлы разрешены!"
    case TooLarge => "Размер файла превышает 10MB"
    case NoFile => "Файл не был загружен"
    case EmptyFile => "CSV файл пуст или имеет неверный формат"
    case ParseFailed(_) => "Ошибка при парсинге CSV файла"
  }

  /** The client can tell the failures apart by their text: only parse
      failures share one. */
  lemma {:induction false} ErrorTextsDistinguish(o1: UploadOutcome, o2: UploadOutcome)
    requires !o1.Accepted? && !o2.Accepted?
    requires ErrorText(o1) == ErrorText(o2)
    ensures o1 == o2 || (o1.ParseFailed? && o2.ParseFailed?)
  {
  }

  /** A file the filter rejects is refused before any parsing: the outcome
      does not depend on what the stream would have produced. */
  lemma {:induction false} RejectedBeforeParsing(f: UploadedFile, s1: CsvStream, s2: CsvStream)
    requires !AcceptsFile(f)
    ensures Upload(Some(f), s1) == Upload(Some(f), s2) == WrongType
    ensures Status(Upload(Some(f), s1)) == 400
  {
  }

  // ---------------------------------------------------------------------
  // Sample data

  const Courses: seq<string> :=
    ["Математика", "Физика", "Химия", "Биология", "История", "Литература"]
  const ActivityTypes: seq<string> :=
    ["Лекция", "Практика", "Лабораторная", "Экзамен", "Домашнее задание"]
  const Students: seq<string> :=
    ["Иванов Иван", "Петров Петр", "Сидорова Анна", "Козлова Мария", "Смирнов Алексей",
     "Волкова Елена", "Новиков Дмитрий", "Морозова Ольга"]

  /** `parseInt(req.query.count) || 100` */
  const DefaultSampleCount: int := 100

  /** The count the endpoint asks for: the parsed query parameter unless it is
      missing, NaN or 0. */
  function RequestedCount(query: Option<string>): (count: int)
    ensures count != 0
    ensures query.Some? && ParseInt(query.value).Some? && ParseInt(query.value).value != 0 ==>
      count == ParseInt(query.value).value
    ensures query.None? || ParseInt(query.value) in {None, Some(0)} ==> count == DefaultSampleCount
  {
    ParseIntNoDigits("undefined");
    var parsed := ParseInt(if query.Some? then query.value else "undefined");
    if parsed.Some? && parsed.value != 0 then parsed.value else DefaultSampleCount
  }

  /** The six `Math.random()` results one generated record consumes, in
      [0, 1) as the function guarantees. */
  datatype Draw = Draw(day: real, student: real, course: real, activity: real, score: real, time: real)

  predicate InUnitInterval(x: real) {
    0.0 <= x < 1.0
  }

  predicate ValidDraw(d: Draw) {
    && InUnitInterval(d.day) && InUnitInterval(d.student) && InUnitInterval(d.course)
    && InUnitInterval(d.activity) && InUnitInterval(d.score) && InUnitInterval(d.time)
  }

  /** `Math.floor(x * n)` for a random x. */
  function RandomBelow(x: real, n: nat): (k: nat)
    requires InUnitInterval(x) && n > 0
    ensures k < n
  {
    var f := (x * n as real).Floor;
    assert f as real <= x * n as real < n as real;
    f
  }

  /** `String(n).padStart(2, '0')`: two decimal digits that read back as n. */
  function TwoDigits(n: nat): (s: string)
    requires n < 100
    ensures |s| == 2 && IsDecimalDigit(s[0]) && IsDecimalDigit(s[1])
    ensures (s[0] as int - '0' as int) * 10 + (s[1] as int - '0' as int) == n
  {
    [DigitChar(n / 10), DigitChar(n % 10)]
  }

  /** First day of each month of 2025, as a day of the year counted from 0. */
  const MonthStarts: seq<nat> := [0, 31, 59, 90, 120, 151, 181, 212, 243, 273, 304, 334]

  /** The month (1-12) a 2025 day of the year falls in, searching down from m. */
  function MonthOf(dayOfYear: nat, m: nat): (month: nat)
    requires 1 <= m <= 12
    requires m < 12 ==> dayOfYear < MonthStarts[m]
    ensures 1 <= month <= m
    ensures MonthStarts[month - 1] <= dayOfYear
    ensures month < 12 ==> dayOfYear < MonthStarts[month]
  {
    if MonthStarts[m - 1] <= dayOfYear then m else MonthOf(dayOfYear, m - 1)
  }

  /** The ISO date `offset` days after 2024-12-28 (the generator's start
      date), for offsets below 365. */
  function IsoDate(offset: nat): (s: string)
    requires offset < 365
    ensures |s| == 10 && s[4] == '-' && s[7] == '-'
    ensures forall i :: 0 <= i < 10 && i != 4 && i != 7 ==> IsDecimalDigit(s[i])
    ensures s[..4] == if offset < 4 then "2024" else "2025"
  {
    if offset < 4 then "2024-12-" + TwoDigits(28 + offset)
    else
      var dayOfYear := offset - 4;
      var month := MonthOf(dayOfYear, 12);
      var day := dayOfYear - MonthStarts[month - 1] + 1;
      "2025-" + TwoDigits(month) + "-" + TwoDigits(day)
  }

  /** Two-digit strings compare as the numbers they spell. */
  lemma {:induction false} TwoDigitsOrdered(n: nat, m: nat)
    requires n < m < 100
    ensures LexLess(TwoDigits(n), TwoDigits(m))
  {
    var a := TwoDigits(n);
    var b := TwoDigits(m);
    if n / 10 < m / 10 {
      LexLessAt(a, b, 0);
    } else {
      assert a[..1] == b[..1];
      LexLessAt(a, b, 1);
    }
  }

  lemma {:induction false} MonthStartsIncreasing(i: nat, j: nat)
    requires i <= j < 12
    ensures MonthStarts[i] <= MonthStarts[j]
  {
    if i < j {
      MonthStartsIncreasing(i, j - 1);
      assert MonthStarts[j - 1] < MonthStarts[j];
    }
  }

  /** A later day of the year never falls in an earlier month. */
  lemma {:induction false} MonthOfMonotone(a: nat, b: nat)
    requires a <= b
    ensures MonthOf(a, 12) <= MonthOf(b, 12)
  {
    var ma := MonthOf(a, 12);
    var mb := MonthOf(b, 12);
    if ma > mb {
      MonthStartsIncreasing(mb, ma - 1);
    }
  }

  /** Generated dates sort as the days they stand for: a later offset gives
      a later string, so distinct offsets give distinct dates. */
  lemma {:induction false} IsoDateOrdered(a: nat, b: nat)
    requires a < b < 365
    ensures LexLess(IsoDate(a), IsoDate(b))
  {
    if b < 4 {
      DecemberOrdered(a, b);
    } else if a < 4 {
      YearBoundary(IsoDate(a), IsoDate(b));
    } else {
      Ordered2025(a, b);
    }
  }

  lemma {:induction false} Ordered2025(a: nat, b: nat)
    requires 4 <= a < b < 365
    ensures LexLess(IsoDate(a), IsoDate(b))
  {
    var x := a - 4;
    var y := b - 4;
    MonthOfMonotone(x, y);
    Date2025Parts(x);
    Date2025Parts(y);
    var ma := MonthOf(x, 12);
    var mb := MonthOf(y, 12);
    MonthDayOrdered(ma, x - MonthStarts[ma - 1] + 1, mb, y - MonthStarts[mb - 1] + 1);
  }

  lemma {:induction false} DecemberOrdered(a: nat, b: nat)
    requires a < b < 4
    ensures LexLess(IsoDate(a), IsoDate(b))
  {
    TwoDigitsOrdered(28 + a, 28 + b);
    LexLessPrefix("2024-12-", TwoDigits(28 + a), TwoDigits(28 + b));
  }

  lemma {:induction false} YearBoundary(sa: string, sb: string)
    requires |sa| >= 4 && |sb| >= 4 && sa[..4] == "2024" && sb[..4] == "2025"
    ensures LexLess(sa, sb)
  {
    assert sa[..3] == sa[..4][..3] && sb[..3] == sb[..4][..3];
    assert sa[3] == sa[..4][3] && sb[3] == sb[..4][3];
    LexLessAt(sa, sb, 3);
  }

  /** A 2025 date is its month and its day of the month. */
  lemma {:induction false} Date2025Parts(dayOfYear: nat)
    requires dayOfYear < 361
    ensures var month := MonthOf(dayOfYear, 12);
      var day := dayOfYear - MonthStarts[month - 1] + 1;
      && 1 <= day < 100
      && IsoDate(dayOfYear + 4) == "2025-" + TwoDigits(month) + "-" + TwoDigits(day)
  {
  }

  /** "2025-mm-dd" strings compare by month, then by day. */
  lemma {:induction false} MonthDayOrdered(ma: nat, da: nat, mb: nat, db: nat)
    requires ma < 100 && da < 100 && mb < 100 && db < 100
    requires ma < mb || (ma == mb && da < db)
    ensures LexLess("2025-" + TwoDigits(ma) + "-" + TwoDigits(da), "2025-" + TwoDigits(mb) + "-" + TwoDigits(db))
  {
    if ma < mb {
      TwoDigitsOrdered(ma, mb);
      LexLessSuffix(TwoDigits(ma), TwoDigits(mb), "-" + TwoDigits(da), "-" + TwoDigits(db));
      LexLessPrefix("2025-", TwoDigits(ma) + ("-" + TwoDigits(da)), TwoDigits(mb) + ("-" + TwoDigits(db)));
      assert "2025-" + TwoDigits(ma) + "-" + TwoDigits(da) == "2025-" + (TwoDigits(ma) + ("-" + TwoDigits(da)));
      assert "2025-" + TwoDigits(mb) + "-" + TwoDigits(db) == "2025-" + (TwoDigits(mb) + ("-" + TwoDigits(db)));
    } else {
      TwoDigitsOrdered(da, db);
      LexLessPrefix("2025-" + TwoDigits(ma) + "-", TwoDigits(da), TwoDigits(db));
    }
  }

  /** What every generated record satisfies: ids, fixed vocabularies, a date
      in the year after the start date, score in [60, 99] and time in
      [30, 149] (the source comments say up to 100 and 150, the arithmetic
      stops one short). */
  ghost predicate IsSampleRecord(a: ActivityRecord, id: int) {
    && a.id == id
    && a.student in Students
    && a.course in Courses
    && a.activityType in ActivityTypes
    && (exists offset :: 0 <= offset < 365 && a.date == IsoDate(offset))
    && a.score.Num? && 60 <= a.score.num <= 99
    && a.timeMin.Num? && 30 <= a.timeMin.num <= 149
  }

  /** One iteration of the generator loop. */
  function SampleRecord(id: int, d: Draw): (a: ActivityRecord)
    requires ValidDraw(d)
    ensures IsSampleRecord(a, id)
  {
    var offset := RandomBelow(d.day, 365);
    ActivityRecord(
      id,
      Students[RandomBelow(d.student, |Students|)],
      Courses[RandomBelow(d.course, |Courses|)],
      IsoDate(offset),
      ActivityTypes[RandomBelow(d.activity, |ActivityTypes|)],
      Num(RandomBelow(d.score, 40) + 60),
      Num(RandomBelow(d.time, 120) + 30))
  }

  /** `generateSampleData(count)`: the loop `for (i = 1; i <= count; i++)`,
      with draws[i - 1] the random numbers of iteration i. */
  method GenerateSampleData(count: int, draws: seq<Draw>) returns (data: seq<ActivityRecord>)
    requires count <= |draws|
    requires forall i :: 0 <= i < |draws| ==> ValidDraw(draws[i])
    ensures |data| == if count > 0 then count else 0
    ensures forall k :: 0 <= k < |data| ==> IsSampleRecord(data[k], k + 1)
  {
    data := [];
    var i := 1;
    while i <= count
      invariant 1 <= i <= (if count > 0 then count + 1 else 1)
      invariant |data| == i - 1
      invariant forall k :: 0 <= k < |data| ==> IsSampleRecord(data[k], k + 1)
    {
      data := data + [SampleRecord(i, draws[i - 1])];
      i := i + 1;
    }
  }

  /** GET /api/sample-data: the generator run on the requested count. */
  method SampleData(query: Option<string>, draws: seq<Draw>) returns (data: seq<ActivityRecord>)
    requires RequestedCount(query) <= |draws|
    requires forall i :: 0 <= i < |draws| ==> ValidDraw(draws[i])
    ensures |data| == if RequestedCount(query) > 0 then RequestedCount(query) else 0
    ensures query.None? ==> |data| == DefaultSampleCount
    ensures RequestedCount(query) < 0 ==> data == []
    ensures forall k :: 0 <= k < |data| ==> IsSampleRecord(data[k], k + 1)
  {
    data := GenerateSampleData(RequestedCount(query), draws);
  }
}
