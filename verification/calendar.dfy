/** Proleptic Gregorian civil dates at midnight UTC, the only instants the
    date-range computation produces. Go's time.Date accepts any month and day
    and normalizes them by carrying into neighbouring months and years; that
    normalization is modelled here on (year, month, day) triples, and tied to
    Go's linear day count by DaysFromCivil. */
module Calendar {

  datatype Date = Date(year: int, month: int, day: int)

  predicate IsLeap(y: int) {
    y % 4 == 0 && (y % 100 != 0 || y % 400 == 0)
  }

  function DaysIn(y: int, m: int): (n: int)
    requires 1 <= m <= 12
    ensures 28 <= n <= 31
    ensures m == 2 ==> (n == 29 <==> IsLeap(y))
  {
    if m == 2 then (if IsLeap(y) then 29 else 28)
    else if m == 4 || m == 6 || m == 9 || m == 11 then 30
    else 31
  }

  predicate ValidDate(d: Date) {
    1 <= d.month <= 12 && 1 <= d.day <= DaysIn(d.year, d.month)
  }

  /** The month `m` of year `y`, for any integer `m`, brought into 1..12 by
      carrying whole years, as time.Date does. */
  function NormalizeMonth(y: int, m: int): (r: (int, int))
    ensures 1 <= r.1 <= 12
    ensures r.0 * 12 + r.1 == y * 12 + m
  {
    (y + (m - 1) / 12, (m - 1) % 12 + 1)
  }

  /** Day `d` counted from the first of month `m` (1..12) of year `y`,
      carried into earlier or later months until it is a real date. */
  function NormalizeDay(y: int, m: int, d: int): (r: Date)
    requires 1 <= m <= 12
    ensures ValidDate(r)
    decreases if d < 1 then 32 - d else d
  {
    if d < 1 then
      var (py, pm) := PreviousMonth(y, m);
      NormalizeDay(py, pm, d + DaysIn(py, pm))
    else if d > DaysIn(y, m) then
      var (ny, nm) := NextMonth(y, m);
      NormalizeDay(ny, nm, d - DaysIn(y, m))
    else
      Date(y, m, d)
  }

  /** time.Date(y, m, d, 0, 0, 0, 0, time.UTC), as a civil date. */
  function TimeDate(y: int, m: int, d: int): (r: Date)
    ensures ValidDate(r)
  {
    var ym := NormalizeMonth(y, m);
    NormalizeDay(ym.0, ym.1, d)
  }

  /** `t.Add(n * 24 * time.Hour)` for a midnight-UTC time `t`. */
  function AddDays(t: Date, n: int): (r: Date)
    requires ValidDate(t)
    ensures ValidDate(r)
  {
    TimeDate(t.year, t.month, t.day + n)
  }

  /** (y, m) is the calendar month right after (py, pm). */
  predicate MonthAfter(y: int, m: int, py: int, pm: int) {
    y * 12 + m == py * 12 + pm + 1
  }

  /** The month before (y, m), both with months in 1..12. */
  function PreviousMonth(y: int, m: int): (r: (int, int))
    requires 1 <= m <= 12
    ensures 1 <= r.1 <= 12 && MonthAfter(y, m, r.0, r.1)
  {
    if m == 1 then (y - 1, 12) else (y, m - 1)
  }

  /** The month after (y, m), both with months in 1..12. */
  function NextMonth(y: int, m: int): (r: (int, int))
    requires 1 <= m <= 12
    ensures 1 <= r.1 <= 12 && MonthAfter(r.0, r.1, y, m)
  {
    if m == 12 then (y + 1, 1) else (y, m + 1)
  }

  /** time.Date(y, m, 1) is the first of the month `m` names. */
  lemma FirstOfMonth(y: int, m: int)
    ensures
      var ym := NormalizeMonth(y, m);
      TimeDate(y, m, 1) == Date(ym.0, ym.1, 1)
  {
  }

  /** The day before the first of a month is the last day of the month
      before it. */
  lemma DayBeforeFirst(y: int, m: int)
    requires 1 <= m <= 12
    ensures
      var p := PreviousMonth(y, m);
      AddDays(Date(y, m, 1), -1) == Date(p.0, p.1, DaysIn(p.0, p.1))
  {
    var ym := NormalizeMonth(y, m);
    assert ym == (y, m);
    var p := PreviousMonth(y, m);
    assert TimeDate(y, m, 0) == NormalizeDay(y, m, 0);
    assert NormalizeDay(y, m, 0) == NormalizeDay(p.0, p.1, DaysIn(p.0, p.1));
    assert NormalizeDay(p.0, p.1, DaysIn(p.0, p.1)) == Date(p.0, p.1, DaysIn(p.0, p.1));
  }

  // ---------------------------------------------------------------------
  // Day numbers: days since 1970-01-01, Go's linear view of a UTC instant.

  /** Leap years among 1..y for y >= 0, extended to all integers by floors. */
  function LeapsUpTo(y: int): int {
    y / 4 - y / 100 + y / 400
  }

  function DaysBeforeYear(y: int): int {
    365 * (y - 1970) + LeapsUpTo(y - 1) - LeapsUpTo(1969)
  }

  function DaysBeforeMonth(y: int, m: int): int
    requires 1 <= m <= 12
  {
    [0, 31, 59, 90, 120, 151, 181, 212, 243, 273, 304, 334][m - 1]
      + (if m > 2 && IsLeap(y) then 1 else 0)
  }

  /** Days from 1970-01-01 to `d`; multiply by 86400 for Time.Unix(). A
      valid date falls inside its own year's run of day numbers. */
  function DaysFromCivil(d: Date): (r: int)
    requires 1 <= d.month <= 12
    ensures d == Date(1970, 1, 1) ==> r == 0
    ensures ValidDate(d) ==>
              0 <= r - DaysBeforeYear(d.year) < if IsLeap(d.year) then 366 else 365
  {
    DaysBeforeYear(d.year) + DaysBeforeMonth(d.year, d.month) + d.day - 1
  }

  lemma LeapStep(y: int)
    ensures LeapsUpTo(y) - LeapsUpTo(y - 1) == if IsLeap(y) then 1 else 0
  {
    FloorStep4(y);
    FloorStep100(y);
    FloorStep400(y);
  }

  lemma FloorStep4(y: int)
    ensures y / 4 - (y - 1) / 4 == if y % 4 == 0 then 1 else 0
  {
  }

  lemma FloorStep100(y: int)
    ensures y / 100 - (y - 1) / 100 == if y % 100 == 0 then 1 else 0
  {
  }

  lemma FloorStep400(y: int)
    ensures y / 400 - (y - 1) / 400 == if y % 400 == 0 then 1 else 0
  {
  }

  /** A year has 366 days exactly when it is a leap year. */
  lemma {:induction false} YearLength(y: int)
    ensures DaysBeforeYear(y + 1) - DaysBeforeYear(y) == if IsLeap(y) then 366 else 365
  {
    LeapStep(y);
  }

  /** The first of the month after (y, m) lies DaysIn(y, m) days later. */
  lemma {:induction false} MonthLength(y: int, m: int)
    requires 1 <= m <= 12
    ensures
      var (ny, nm) := NextMonth(y, m);
      DaysFromCivil(Date(ny, nm, 1)) == DaysFromCivil(Date(y, m, 1)) + DaysIn(y, m)
  {
    if m == 12 {
      YearLength(y);
    }
  }

  /** The day after the last of a month is the first of the next month. */
  lemma LastDayPrecedesNextMonth(y: int, m: int)
    requires 1 <= m <= 12
    ensures
      var next := TimeDate(y, m + 1, 1);
      && next.day == 1 && MonthAfter(next.year, next.month, y, m)
      && DaysFromCivil(Date(y, m, DaysIn(y, m))) + 1 == DaysFromCivil(next)
  {
    FirstOfMonth(y, m + 1);
    MonthLength(y, m);
  }

  /** Go computes time.Date linearly: the day number of the first of the
      normalized month plus d - 1. The civil normalization agrees. */
  lemma {:induction false} NormalizeDayIsLinear(y: int, m: int, d: int)
    requires 1 <= m <= 12
    ensures DaysFromCivil(NormalizeDay(y, m, d)) == DaysFromCivil(Date(y, m, 1)) + d - 1
    decreases if d < 1 then 32 - d else d
  {
    if d < 1 {
      var (py, pm) := PreviousMonth(y, m);
      NormalizeDayIsLinear(py, pm, d + DaysIn(py, pm));
      MonthLength(py, pm);
    } else if d > DaysIn(y, m) {
      var (ny, nm) := NextMonth(y, m);
      NormalizeDayIsLinear(ny, nm, d - DaysIn(y, m));
      MonthLength(y, m);
    }
  }

  lemma TimeDateIsLinear(y: int, m: int, d: int)
    ensures
      var ym := NormalizeMonth(y, m);
      DaysFromCivil(TimeDate(y, m, d)) == DaysFromCivil(Date(ym.0, ym.1, 1)) + d - 1
  {
    var ym := NormalizeMonth(y, m);
    NormalizeDayIsLinear(ym.0, ym.1, d);
  }

  /** Adding n days to a civil date moves its day number by exactly n. */
  lemma AddDaysIsLinear(t: Date, n: int)
    requires ValidDate(t)
    ensures DaysFromCivil(AddDays(t, n)) == DaysFromCivil(t) + n
  {
    NormalizeDayIsLinear(t.year, t.month, t.day + n);
  }

  /** A date that is already valid is left as it is by time.Date. */
  lemma TimeDateOfValid(d: Date)
    requires ValidDate(d)
    ensures TimeDate(d.year, d.month, d.day) == d
  {
  }

  // ---------------------------------------------------------------------
  // The day number identifies the civil date, so modelling Time.Day() on
  // civil triples is faithful to Go's instant-based computation.

  predicate Before(a: Date, b: Date) {
    a.year < b.year
    || (a.year == b.year && a.month < b.month)
    || (a.year == b.year && a.month == b.month && a.day < b.day)
  }

  lemma {:induction false} DaysBeforeYearMonotone(a: int, b: int)
    requires a < b
    ensures DaysBeforeYear(a) + (if IsLeap(a) then 366 else 365) <= DaysBeforeYear(b)
    decreases b - a
  {
    YearLength(a);
    if a + 1 < b {
      DaysBeforeYearMonotone(a + 1, b);
    }
  }

  lemma DaysFromCivilOrdered(a: Date, b: Date)
    requires ValidDate(a) && ValidDate(b) && Before(a, b)
    ensures DaysFromCivil(a) < DaysFromCivil(b)
  {
    if a.year < b.year {
      DaysBeforeYearMonotone(a.year, b.year);
    }
  }

  /** Two valid dates with the same day number are the same date. */
  lemma DaysFromCivilInjective(a: Date, b: Date)
    requires ValidDate(a) && ValidDate(b)
    ensures DaysFromCivil(a) == DaysFromCivil(b) ==> a == b
  {
    if Before(a, b) {
      DaysFromCivilOrdered(a, b);
    } else if Before(b, a) {
      DaysFromCivilOrdered(b, a);
    }
  }

  /** Two anchors for the day count: the Unix epoch is day 0, and
      2000-03-01 is day 11017 (Unix time 951 868 800 s). */
  lemma Epoch()
    ensures DaysFromCivil(Date(1970, 1, 1)) == 0
    ensures DaysFromCivil(Date(2000, 3, 1)) == 11017
  {
  }
}
