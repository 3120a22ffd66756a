# events_aggregator in Dafny

A verified model of the pure logic inside `events_aggregator`, a small Go
command-line tool. The tool asks the Meetup "open events" API for one month
of tech events in Bristol and prints each event as a Markdown block. Most of
the program is I/O: an HTTP GET, JSON decoding and template rendering. The
model covers the deterministic pieces around that I/O:

- **Event normalization** (`Events`). This is the loop in `DecodeJSON`.
  - The start instant is the raw epoch milliseconds cut to whole seconds toward zero.
  - The duration is the raw milliseconds, or three hours when the API sends 0.
  - The end is the start plus the duration.
  - The duration is computed with Go's int64 multiplication, whose wrap-around is modelled.
- **Venue emptiness** (`Events.Venue.IsEmpty`).
- **Ordinal day suffix** (`DateFormat.Ordinal`). This is `ordinal`: the day's digits, then "st", "nd", "rd" or "th" from a fixed table.
- **Paragraph splitting** (`Paragraphs.Split`). This is `strings.Split(t, "\n\n")`, proved to be the inverse of joining.
- **The `--start` / `--end` flag** (`Datestamp`).
  - A `YYYY-MM-DD` reader that follows `time.ParseInLocation("2006-01-02", …, time.UTC)`.
  - The set-once `datestampFlagValue.Set`, modelled as a pure state transition.
- **The date range and the `time` query parameter** (`DateRange`, `Calendar`).
  - By default the range is the whole month after the current one.
  - It is computed as the program does: with `time.Date` month and day normalization and a "minus 24 hours" step.
  - Those steps are modelled on civil (year, month, day) triples.
  - The triples are tied to Go's linear day count by `Calendar.DaysFromCivil`.

Instants of events are integers: nanoseconds since 1970-01-01T00:00:00Z. The
instants of the date range are civil dates at midnight UTC. The current year
and month are parameters instead of a clock reading. The API key is a
parameter instead of an environment variable.

Two observations about the code:

- The default upper bound sent to the API is 00:00 UTC at the start of the
  month's last day. It is not the end of that day.
- A raw duration above 9 223 372 036 854 ms overflows `time.Duration`: the
  product wraps modulo 2^64, so the event can end before it starts. One
  millisecond past the bound it does (`Events.DurationWrapEndsBeforeStart`);
  at 18 446 744 073 710 ms it wraps round to a positive 448 384 ns
  (`Events.DurationWrapsPositive`). Real API durations are far below this
  bound.

## Model

| member | source | states |
|---|---|---|
| `Events.Venue.IsEmpty` | events_aggregator.go:84-86 | A venue is empty exactly when its name, address and city are all the empty string. |
| `Events.Normalize` | events_aggregator.go:97-110 | Normalizing an event writes only the start, duration and end. The start is a whole second, the raw milliseconds truncated toward zero. A raw duration of 0 gives three hours. A non-zero raw duration gives raw × 10^6 ns modulo 2^64, which equals raw ms exactly when it fits in int64. The end is the start plus the duration, and is not before the start for non-negative raw durations that fit. |
| `Events.StartTimeDetermined` | events_aggregator.go:100 | Any instant that is a whole second and truncates the raw milliseconds toward zero is the start instant the program computes. |
| `Events.NormalizeIdempotent` | events_aggregator.go:97-110 | Running normalization twice gives the same event as running it once. |
| `Events.DurationExamples` | events_aggregator.go:102-107 | A raw duration of 0 gives 3 hours. A raw duration of 1 800 000 ms gives 30 minutes. |
| `Events.DurationWrapEndsBeforeStart` | events_aggregator.go:106-109 | One millisecond past the int64-representable bound, the int64 product wraps negative, so the event's end precedes its start. |
| `Events.DurationWrapsPositive` | events_aggregator.go:106-109 | At 18 446 744 073 710 ms the int64 product exceeds 2^64 by 448 384, so the duration wraps to +448 384 ns and the event ends after it starts. |
| `Events.NormalizeAll` | events_aggregator.go:97-112 | The loop keeps the number and order of events. Each result is its input normalized. Every read-only field is unchanged, and every end is its start plus its duration. |
| `GoInt.Wrap64` | events_aggregator.go:106 | The int64 result of an int64 multiplication is congruent to the exact product modulo 2^64. It equals the product whenever the product is in range. |
| `GoInt.TruncDiv` | events_aggregator.go:100 | Go's integer division leaves a remainder with the dividend's sign, smaller in magnitude than the divisor. |
| `GoInt.TruncDivIsNotFloor` | events_aggregator.go:100 | For -1500 ms the start second is -1, not the floored -2. |
| `DateFormat.Ordinal` | events_aggregator.go:115-128 | The ordinal is the day's decimal text followed by a two-letter suffix. The suffix is "st" exactly for 1, 21 and 31, "nd" exactly for 2 and 22, "rd" exactly for 3 and 23, and "th" for every other integer. |
| `DateFormat.OrdinalIsEnglishForDays` | events_aggregator.go:115-128 | For every day 1..31 the table agrees with the English ordinal rule, including "th" for 11, 12 and 13. |
| `DateFormat.OrdinalIsNotEnglishPast31` | events_aggregator.go:118-125 | The table is not the general English rule: 41 gets "th". |
| `DateFormat.OrdinalInjective` | events_aggregator.go:127 | Different days never produce the same ordinal text. |
| `DateFormat.SingleDigitOrdinals` | events_aggregator.go:116-127 | 1, 2, 3 and 4 give "1st", "2nd", "3rd" and "4th". |
| `DateFormat.TeenOrdinals` | events_aggregator.go:116-125 | 11, 12 and 13 fall through the switch to "th". |
| `DateFormat.TwentiesOrdinals` | events_aggregator.go:119-124 | 21, 22 and 23 take "st", "nd" and "rd". |
| `DateFormat.ThirtiesOrdinals` | events_aggregator.go:116-127 | 30 gives "30th" and 31 gives "31st". |
| `Decimal.Itoa` | events_aggregator.go:127 | strconv.Itoa writes a minus sign exactly for negative numbers, followed by decimal digits only. The digits are the shortest form: no leading zero except for 0 itself, so 7 is "7", never "07". |
| `Decimal.ItoaRoundTrip` | events_aggregator.go:204 | The text FormatInt writes reads back as the same integer. |
| `Paragraphs.Split` | events_aggregator.go:134-136 | Splitting always gives at least one piece. No piece contains "\n\n", and no piece but the last ends in a newline. Joining the pieces with "\n\n" gives back the original text. |
| `Paragraphs.FindSeparator` | events_aggregator.go:135 | The search strings.Split repeats finds the leftmost "\n\n" at or after the start position. No separator starts before it, and when it finds none there is none anywhere after the start. |
| `Paragraphs.SplitJoin` | events_aggregator.go:134-136 | Splitting the join of any such pieces returns those pieces, so Split is the only decomposition of that shape. |
| `Paragraphs.SplitExamples` | events_aggregator.go:134-136 | "" splits into [""]. "Para1\n\nPara2" splits into two paragraphs. "a\n\n\nb" splits into "a" and "\nb", because the leftmost separator wins. |
| `Datestamp.Parse` | events_aggregator.go:37 | An accepted string names a valid calendar date with a four-digit year. Month 1..12 and the day within the month, leap years included, are enforced. |
| `Datestamp.ParseFormat` | events_aggregator.go:37 | Every valid date with year 0..9999, written as YYYY-MM-DD, parses back to itself. |
| `Datestamp.FormatParse` | events_aggregator.go:37 | Any string the reader accepts is exactly the YYYY-MM-DD text of the date it yields. No other spelling, padding or trailing text is accepted. |
| `Datestamp.ParseExamples` | events_aggregator.go:37-41 | 2024-02-29 is accepted. 2023-02-29, month 13, an unpadded month and trailing text are rejected. |
| `Datestamp.Set` | events_aggregator.go:31-46 | A flag that is already set rejects the value with "already set" and keeps its value. An unparsable value is rejected and the value is kept. Otherwise the error is nil, and the flag holds the date whose YYYY-MM-DD text is the given value. |
| `Datestamp.SecondSetRejected` | events_aggregator.go:32-35 | After a successful first Set with a date other than 0001-01-01, any second Set is rejected and the first date is kept. |
| `Datestamp.ZeroDateStaysUnset` | events_aggregator.go:33 | "0001-01-01" parses to the zero time, so the flag stays unset and a later value is still accepted. |
| `Calendar.NormalizeMonth` | events_aggregator.go:185 | time.Date's month normalization gives a month in 1..12 with the same total month count, year × 12 + month. |
| `Calendar.NormalizeDay` | events_aggregator.go:191 | time.Date's day carry always ends on a valid date: month 1..12 and day within that month. Which date it is, is stated by `Calendar.NormalizeDayIsLinear`. |
| `Calendar.TimeDate` | events_aggregator.go:185 | time.Date(y, m, d) at midnight UTC always yields a valid date. Which date it is, is stated by `Calendar.TimeDateIsLinear`. |
| `Calendar.AddDays` | events_aggregator.go:191 | Adding whole days to a midnight-UTC date yields a valid date. How far it moves is stated by `Calendar.AddDaysIsLinear`. |
| `Calendar.DaysFromCivil` | events_aggregator.go:204 | 1970-01-01 is day 0. A valid date's day number lies inside its own year's run of day numbers: 366 of them in leap years and 365 otherwise. `Calendar.Epoch` pins a second anchor, 2000-03-01 as day 11017. |
| `Calendar.Epoch` | events_aggregator.go:204 | The Unix epoch 1970-01-01 is day 0, and 2000-03-01 is day 11017, the real Unix day number of that date. |
| `Calendar.NormalizeDayIsLinear` | events_aggregator.go:191 | The date the day carry reaches lies d - 1 day numbers after the first of month m, as Go's linear computation has it. |
| `Calendar.TimeDateIsLinear` | events_aggregator.go:185 | The civil date time.Date yields lies d - 1 days after the first of the normalized month, which is how Go computes it. |
| `Calendar.AddDaysIsLinear` | events_aggregator.go:191 | Adding n × 24 h to a midnight-UTC date moves its day number by exactly n. |
| `Calendar.DayBeforeFirst` | events_aggregator.go:191 | 24 h before the first of a month is the last day of the previous month. |
| `Calendar.LastDayPrecedesNextMonth` | events_aggregator.go:191 | The day after the last day of a month is the first of the next month, one day number later. |
| `Calendar.YearLength` | events_aggregator.go:204 | Consecutive years' day numbers differ by 366 exactly for leap years and by 365 otherwise. |
| `Calendar.TimeDateOfValid` | events_aggregator.go:192 | time.Date leaves a date that is already valid unchanged, as when it is given the last day of the month. |
| `Calendar.DaysFromCivilInjective` | events_aggregator.go:204 | Two valid dates with the same Unix day number are the same date. So reading Day() off the civil triple is faithful to Go's instant-based Day(). |
| `DateRange.DefaultRange` | events_aggregator.go:178-192 | With no flags, the start is day 1 of the month after the current one, December rolling into January of the next year. The end has the same year and month, and its day is that month's length. |
| `DateRange.DefaultRangeCoversMonth` | events_aggregator.go:178-192 | The default start is no later than the end. The day after the end is the first day of the following month. |
| `DateRange.AprilGivesMay` | events_aggregator.go:179-192 | Current month April 2024 gives 2024-05-01 to 2024-05-31. |
| `DateRange.DecemberRollsOver` | events_aggregator.go:179-192 | December 2023 gives 2024-01-01 to 2024-01-31. |
| `DateRange.LeapFebruary` | events_aggregator.go:191 | January 2024 gives an end of 2024-02-29. |
| `DateRange.CommonFebruary` | events_aggregator.go:191 | January 2023 gives an end of 2023-02-28. |
| `DateRange.CenturyFebruary` | events_aggregator.go:191 | January 1900 gives an end of 1900-02-28. |
| `DateRange.FourCenturyFebruary` | events_aggregator.go:191 | January 2000 gives an end of 2000-02-29. |
| `DateRange.Resolve` | events_aggregator.go:184-195 | A flag that is not the zero time is used verbatim. A zero flag is replaced by the default: the first, or the last day, of the month after the current one. |
| `DateRange.UnixMillis` | events_aggregator.go:204 | `Unix() * 1000` is the milliseconds elapsed since 1970-01-01T00:00:00Z. The epoch gives 0, and 2000-03-01 gives 951 868 800 000, its real Unix time in ms. A midnight-UTC date is always a whole number of days in milliseconds. |
| `DateRange.UnixMillisAddDays` | events_aggregator.go:191-204 | Moving a midnight-UTC date by n × 24 h moves its millisecond bound by exactly n × 86 400 000. |
| `DateRange.TimeParam` | events_aggregator.go:204 | The `time` parameter splits at its comma into the start's and the end's Unix milliseconds: the bounds sent are exactly the ones computed. |
| `DateRange.IntPairRoundTrip` | events_aggregator.go:204 | Any two integers written by FormatInt with a comma between them read back as that pair. |
| `DateRange.QueryParams` | events_aggregator.go:197-205 | The query has exactly the keys key, category, city, country, text_format, page and time. The key is the given API key. The time value decodes to the range's two millisecond bounds. |

## Left out

- `GetMeetupEvents` (events_aggregator.go:138-173) is not modelled. It is network I/O through `net/http` plus query encoding by `net/url`.
- The "status above 399 becomes an error carrying the body" rule is part of that HTTP call, so it is left out with it.
- JSON decoding (`json.NewDecoder(...).Decode`) is a library call. The decoded events are the input of `Events.NormalizeAll`. An absent `duration` decodes to 0, which the model covers.
- `formatDate` is left out except for its use of `ordinal`. Weekday and month names and 12-hour time come from `time.Format`.
- Template parsing and rendering are output plumbing and are left out. This includes `strings.TrimSpace` on the city, the venue line and the paragraph blocks.
- Printing, `os.Exit` and `panic` are output plumbing and are left out.
- `flag` registration and `flag.Parse` are library code. The model starts from the values `Set` receives.
- `datestampFlagValue.String` is `fmt.Sprint` of a time, a library call.
- `os.Getenv` is replaced by a parameter, the API key.
- `time.Now` is replaced by parameters, the current year and month.
- Local-time-zone display is left out. All instants are UTC integers.
- Datestamp.Set: every parse error is one `ParseFailed` value. Go's error texts, such as "month out of range", are not modelled.
- DateRange.UnixMillis: the int64 product `Unix() * 1000` is unbounded in the model. It could only wrap for years beyond roughly ±292 million, which neither a four-digit flag nor the clock produces.
- Events.Normalize: "end is not before start" is stated only for raw durations up to 9 223 372 036 854 ms. Beyond that, Go's int64 multiplication wraps modulo 2^64 and the property can fail, as `Events.DurationWrapEndsBeforeStart` shows; for other values, such as the one in `Events.DurationWrapsPositive`, it still holds.
- Nothing checks that an explicit `--start` is not after `--end`. The model adds no such check either.
