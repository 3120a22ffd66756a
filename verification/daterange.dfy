/** The date range `main` asks the events API for: the `--start` / `--end`
    flags when given, otherwise the whole calendar month after the current
    one; and the `time` query parameter built from it. */
module DateRange {
  import opened Wrappers
  import opened Decimal
  import opened Calendar
  import opened Datestamp

  datatype Range = Range(start: Date, end: Date)

  const MillisPerDay: int := 86_400_000

  /** `t.Unix() * 1000` for a midnight-UTC time: the milliseconds elapsed
      since 1970-01-01T00:00:00Z. The epoch itself is 0, and 2000-03-01 is
      the well-known Unix instant 951 868 800 s. */
  function UnixMillis(d: Date): (ms: int)
    requires 1 <= d.month <= 12
    ensures d == Date(1970, 1, 1) ==> ms == 0
    ensures d == Date(2000, 3, 1) ==> ms == 951_868_800_000
    ensures ms % MillisPerDay == 0 && ms / MillisPerDay == DaysFromCivil(d)
  {
    DaysFromCivil(d) * MillisPerDay
  }

  /** Moving a midnight-UTC time by n × 24 h moves the bound sent to the API
      by exactly n × 86 400 000 ms. */
  lemma UnixMillisAddDays(d: Date, n: int)
    requires ValidDate(d)
    ensures UnixMillis(AddDays(d, n)) == UnixMillis(d) + n * MillisPerDay
  {
    AddDaysIsLinear(d, n);
  }

  /** The range used when neither flag is given, for a clock reading in
      year `nowYear`, month `nowMonth` (time.Month is always 1..12). */
  function DefaultRange(nowYear: int, nowMonth: int): (r: Range)
    requires 1 <= nowMonth <= 12
    ensures ValidDate(r.start) && ValidDate(r.end)
    ensures MonthAfter(r.start.year, r.start.month, nowYear, nowMonth) && r.start.day == 1
    ensures r.end.year == r.start.year && r.end.month == r.start.month
    ensures r.end.day == DaysIn(r.end.year, r.end.month)
  {
    var month := nowMonth + 1;
    var start := TimeDate(nowYear, month, 1);
    FirstOfMonth(nowYear, month);
    var following := TimeDate(nowYear, month + 1, 1);
    FirstOfMonth(nowYear, month + 1);
    DayBeforeFirst(following.year, following.month);
    var lastDayOfMonth := AddDays(following, -1).day;
    var end := TimeDate(nowYear, month, lastDayOfMonth);
    Range(start, end)
  }

  /** The default range starts no later than it ends, and the day after its
      end is the first day of the month after it, so it covers the month. */
  lemma DefaultRangeCoversMonth(nowYear: int, nowMonth: int)
    requires 1 <= nowMonth <= 12
    ensures
      var r := DefaultRange(nowYear, nowMonth);
      var next := TimeDate(r.start.year, r.start.month + 1, 1);
      && UnixMillis(r.start) <= UnixMillis(r.end)
      && DaysFromCivil(r.end) + 1 == DaysFromCivil(next)
      && next.day == 1 && MonthAfter(next.year, next.month, r.start.year, r.start.month)
  {
    var r := DefaultRange(nowYear, nowMonth);
    var y, m := r.start.year, r.start.month;
    assert r.start == Date(y, m, 1) && r.end == Date(y, m, DaysIn(y, m));
    LastDayPrecedesNextMonth(y, m);
    var d0, d1 := DaysFromCivil(r.start), DaysFromCivil(r.end);
    assert d0 <= d1;
    assert d0 * MillisPerDay <= d1 * MillisPerDay;
  }

  // Examples: April gives May; December rolls over into January of the
  // next year; February follows the leap-year rule.

  lemma AprilGivesMay()
    ensures DefaultRange(2024, 4) == Range(Date(2024, 5, 1), Date(2024, 5, 31))
  {
  }

  lemma DecemberRollsOver()
    ensures DefaultRange(2023, 12) == Range(Date(2024, 1, 1), Date(2024, 1, 31))
  {
  }

  lemma LeapFebruary()
    ensures DefaultRange(2024, 1) == Range(Date(2024, 2, 1), Date(2024, 2, 29))
  {
  }

  lemma CommonFebruary()
    ensures DefaultRange(2023, 1) == Range(Date(2023, 2, 1), Date(2023, 2, 28))
  {
  }

  lemma CenturyFebruary()
    ensures DefaultRange(1900, 1) == Range(Date(1900, 2, 1), Date(1900, 2, 28))
  {
  }

  lemma FourCenturyFebruary()
    ensures DefaultRange(2000, 1) == Range(Date(2000, 2, 1), Date(2000, 2, 29))
  {
  }

  /** The flag fallback in `main`: a flag that still holds the zero time
      counts as not given and is replaced by the default. */
  function Resolve(startFlag: FlagValue, endFlag: FlagValue, nowYear: int, nowMonth: int): (r: Range)
    requires 1 <= nowMonth <= 12
    ensures !startFlag.IsZero() ==> r.start == startFlag.date
    ensures !endFlag.IsZero() ==> r.end == endFlag.date
    ensures startFlag.IsZero() ==>
              ValidDate(r.start) && r.start.day == 1 && MonthAfter(r.start.year, r.start.month, nowYear, nowMonth)
    ensures endFlag.IsZero() ==>
              ValidDate(r.end) && MonthAfter(r.end.year, r.end.month, nowYear, nowMonth)
              && r.end.day == DaysIn(r.end.year, r.end.month)
  {
    var default := DefaultRange(nowYear, nowMonth);
    Range(if startFlag.IsZero() then default.start else startFlag.date,
          if endFlag.IsZero() then default.end else endFlag.date)
  }

  // ---------------------------------------------------------------------
  // The `time` query parameter.

  /** The leftmost comma of s at or after `from`. */
  function FindComma(s: string, from: nat): (r: Option<nat>)
    requires from <= |s|
    ensures r.Some? ==> from <= r.value < |s| && s[r.value] == ','
    ensures r.Some? ==> forall j :: from <= j < r.value ==> s[j] != ','
    ensures r.None? ==> forall j :: from <= j < |s| ==> s[j] != ','
    decreases |s| - from
  {
    if from == |s| then None
    else if s[from] == ',' then Some(from)
    else FindComma(s, from + 1)
  }

  /** Reference reader for the parameter, as the API would split it. */
  function ParseTimeParam(s: string): Option<(int, int)> {
    match FindComma(s, 0)
    case None => None
    case Some(i) =>
      match (ParseInt(s[..i]), ParseInt(s[i + 1..]))
      case (Some(a), Some(b)) => Some((a, b))
      case _ => None
  }

  lemma ItoaHasNoComma(n: int)
    ensures forall j :: 0 <= j < |Itoa(n)| ==> Itoa(n)[j] != ','
  {
  }

  /** `<start ms>,<end ms>`, both written by strconv.FormatInt in base 10.
      The bounds the program sends read back as exactly the ones it computed. */
  function TimeParam(r: Range): (s: string)
    requires 1 <= r.start.month <= 12 && 1 <= r.end.month <= 12
    ensures ParseTimeParam(s) == Some((UnixMillis(r.start), UnixMillis(r.end)))
  {
    IntPairRoundTrip(UnixMillis(r.start), UnixMillis(r.end));
    Itoa(UnixMillis(r.start)) + "," + Itoa(UnixMillis(r.end))
  }

  /** Two integers written with a comma between them read back as the pair. */
  lemma IntPairRoundTrip(x: int, y: int)
    ensures ParseTimeParam(Itoa(x) + "," + Itoa(y)) == Some((x, y))
  {
    var a, b := Itoa(x), Itoa(y);
    var s := a + "," + b;
    ItoaHasNoComma(x);
    assert forall j :: 0 <= j < |a| ==> s[j] == a[j];
    assert s[|a|] == ',';
    assert FindComma(s, 0) == Some(|a|);
    assert s[..|a|] == a && s[|a| + 1..] == b;
    ItoaRoundTrip(x);
    ItoaRoundTrip(y);
  }

  /** The `params` map `main` hands to the HTTP request. */
  function QueryParams(apiKey: string, r: Range): (q: map<string, string>)
    requires 1 <= r.start.month <= 12 && 1 <= r.end.month <= 12
    ensures q.Keys == {"key", "category", "city", "country", "text_format", "page", "time"}
    ensures q["key"] == apiKey
    ensures ParseTimeParam(q["time"]) == Some((UnixMillis(r.start), UnixMillis(r.end)))
  {
    map[
      "key" := apiKey,
      "category" := "34",
      "city" := "Bristol",
      "country" := "GB",
      "text_format" := "plain",
      "page" := "50",
      "time" := TimeParam(r)
    ]
  }
}
