/** The `--start` / `--end` command-line values: a `YYYY-MM-DD` reader with
    the rules of time.ParseInLocation("2006-01-02", value, time.UTC), and the
    set-once flag that stores the parsed date at midnight UTC. */
module Datestamp {
  import opened Wrappers
  import opened Decimal
  import opened Calendar

  /** Digits at every position of s[lo..hi]. */
  predicate DigitsAt(s: string, lo: nat, hi: nat)
    requires lo <= hi <= |s|
  {
    AllDigits(s[lo..hi])
  }

  /** The layout's shape: four year digits, '-', two month digits, '-', two
      day digits, and nothing after. */
  predicate Shaped(s: string) {
    |s| == 10 && DigitsAt(s, 0, 4) && s[4] == '-' && DigitsAt(s, 5, 7) && s[7] == '-' && DigitsAt(s, 8, 10)
  }

  /** The date a well-shaped string names, before range checks. */
  function Fields(s: string): Date
    requires Shaped(s)
  {
    Date(DigitsToNat(s[0..4]), DigitsToNat(s[5..7]), DigitsToNat(s[8..10]))
  }

  /** A month outside 1..12 or a day outside the month (leap years counted)
      is a parse error, as is any other shape. */
  function Parse(s: string): (r: Option<Date>)
    ensures r.Some? ==> ValidDate(r.value) && 0 <= r.value.year <= 9999
  {
    if Shaped(s) && ValidDate(Fields(s)) then
      FourDigitsBound(s[0..4]);
      Some(Fields(s))
    else None
  }

  lemma FourDigitsBound(s: string)
    requires |s| == 4 && AllDigits(s)
    ensures DigitsToNat(s) <= 9999
  {
    FourDigits(s);
  }

  function Pad2(n: nat): (s: string)
    requires n < 100
    ensures |s| == 2 && AllDigits(s)
  {
    [DigitChar(n / 10), DigitChar(n % 10)]
  }

  function Pad4(n: nat): (s: string)
    requires n < 10000
    ensures |s| == 4 && AllDigits(s)
  {
    Pad2(n / 100) + Pad2(n % 100)
  }

  /** The date written in the layout `2006-01-02`. */
  function Format(d: Date): (s: string)
    requires ValidDate(d) && 0 <= d.year <= 9999
    ensures Shaped(s)
  {
    var s := Pad4(d.year) + "-" + Pad2(d.month) + "-" + Pad2(d.day);
    assert s[0..4] == Pad4(d.year) && s[5..7] == Pad2(d.month) && s[8..10] == Pad2(d.day);
    s
  }

  lemma Pad2Value(n: nat)
    requires n < 100
    ensures DigitsToNat(Pad2(n)) == n
  {
    TwoDigits(Pad2(n));
  }

  lemma Pad4Value(n: nat)
    requires n < 10000
    ensures DigitsToNat(Pad4(n)) == n
  {
    var s := Pad4(n);
    FourDigits(s);
    TwoDigits(Pad2(n / 100));
    TwoDigits(Pad2(n % 100));
    Pad2Value(n / 100);
    Pad2Value(n % 100);
  }

  /** Every date with a four-digit year reads back from its own text. */
  lemma ParseFormat(d: Date)
    requires ValidDate(d) && 0 <= d.year <= 9999
    ensures Parse(Format(d)) == Some(d)
  {
    var s := Format(d);
    assert s[0..4] == Pad4(d.year) && s[5..7] == Pad2(d.month) && s[8..10] == Pad2(d.day);
    Pad4Value(d.year);
    Pad2Value(d.month);
    Pad2Value(d.day);
  }

  lemma Pad2OfValue(s: string)
    requires |s| == 2 && AllDigits(s)
    ensures DigitsToNat(s) < 100 && Pad2(DigitsToNat(s)) == s
  {
    TwoDigits(s);
    var a, b := DigitValue(s[0]), DigitValue(s[1]);
    assert (10 * a + b) / 10 == a && (10 * a + b) % 10 == b;
    DigitCharOfValue(s[0]);
    DigitCharOfValue(s[1]);
  }

  lemma Pad4OfValue(s: string)
    requires |s| == 4 && AllDigits(s)
    ensures DigitsToNat(s) < 10000 && Pad4(DigitsToNat(s)) == s
  {
    FourDigits(s);
    TwoDigits(s[..2]);
    TwoDigits(s[2..]);
    var hi, lo := DigitsToNat(s[..2]), DigitsToNat(s[2..]);
    assert DigitsToNat(s) == 100 * hi + lo;
    assert DigitsToNat(s) / 100 == hi && DigitsToNat(s) % 100 == lo;
    Pad2OfValue(s[..2]);
    Pad2OfValue(s[2..]);
    assert s == s[..2] + s[2..];
  }

  /** Only the text Format writes is accepted: the reader and the writer are
      inverse to each other. */
  lemma FormatParse(s: string, d: Date)
    requires Parse(s) == Some(d)
    ensures Format(d) == s
  {
    Pad4OfValue(s[0..4]);
    Pad2OfValue(s[5..7]);
    Pad2OfValue(s[8..10]);
    var t := Format(d);
    assert t[0..4] == s[0..4] && t[5..7] == s[5..7] && t[8..10] == s[8..10];
    assert t == t[0..4] + [t[4]] + t[5..7] + [t[7]] + t[8..10];
    assert s == s[0..4] + [s[4]] + s[5..7] + [s[7]] + s[8..10];
  }

  lemma ParseExamples()
    ensures Parse("2024-02-29") == Some(Date(2024, 2, 29))
    ensures Parse("2023-02-29") == None
    ensures Parse("2024-13-01") == None
    ensures Parse("2024-1-01") == None
    ensures Parse("2024-01-01x") == None
  {
    ParseFormat(Date(2024, 2, 29));
    assert Format(Date(2024, 2, 29)) == "2024-02-29";
    var bad := "2023-02-29";
    assert bad[0..4] == "2023" && bad[5..7] == "02" && bad[8..10] == "29";
    assert bad[0..4][..3][..2][..1][..0] == [];
    assert bad[5..7][..1][..0] == [];
    assert bad[8..10][..1][..0] == [];
    var month13 := "2024-13-01";
    assert month13[5..7] == "13" && month13[5..7][..1][..0] == [];
  }

  // ---------------------------------------------------------------------
  // The flag value.

  /** A datestampFlagValue: a time at midnight UTC, kept as its civil date.
      Go's zero time, 0001-01-01 00:00 UTC, stands for "not given". */
  datatype FlagValue = FlagValue(date: Date) {
    predicate IsZero() {
      date == ZeroDate
    }
  }

  const ZeroDate := Date(1, 1, 1)
  const Unset := FlagValue(ZeroDate)

  datatype FlagError = AlreadySet | ParseFailed

  /** What Set leaves behind: the flag's value and the error it returned. */
  datatype SetOutcome = SetOutcome(flag: FlagValue, err: Option<FlagError>)

  /** datestampFlagValue.Set: refuses a second value, keeps the old value on
      any error, and otherwise stores the parsed date. */
  function Set(f: FlagValue, value: string): (r: SetOutcome)
    ensures !f.IsZero() ==> r.flag == f && r.err == Some(AlreadySet)
    ensures f.IsZero() && Parse(value).None? ==> r.flag == f && r.err == Some(ParseFailed)
    ensures f.IsZero() && Parse(value).Some? ==>
              r.err.None? && ValidDate(r.flag.date) && 0 <= r.flag.date.year <= 9999
              && Format(r.flag.date) == value
  {
    if f != Unset then SetOutcome(f, Some(AlreadySet))
    else match Parse(value)
      case None => SetOutcome(f, Some(ParseFailed))
      case Some(d) =>
        FormatParse(value, d);
        SetOutcome(FlagValue(d), None)
  }

  /** A flag given twice is refused the second time, unless the first value
      was the zero date itself. */
  lemma SecondSetRejected(a: string, b: string)
    requires Parse(a).Some? && a != "0001-01-01"
    ensures Set(Set(Unset, a).flag, b) == SetOutcome(Set(Unset, a).flag, Some(AlreadySet))
  {
  }

  /** "0001-01-01" parses to the zero time, so the flag stays unset and a
      later value is still accepted. */
  lemma ZeroDateStaysUnset(b: string)
    requires Parse(b).Some?
    ensures Set(Unset, "0001-01-01") == SetOutcome(Unset, None)
    ensures Set(Set(Unset, "0001-01-01").flag, b).err.None?
  {
    ParseFormat(ZeroDate);
    assert Format(ZeroDate) == "0001-01-01";
  }
}
