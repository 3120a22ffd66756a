/** Events as the JSON decoder delivers them, and the normalization pass
    that derives each event's start, duration and end from the raw epoch
    milliseconds and duration the API sends. */
module Events {
  import opened GoInt

  const NanosPerMilli: int := 1_000_000
  const NanosPerSecond: int := 1_000_000_000

  /** Duration assumed when the API sends none: three hours, the vendor's
      documented default. */
  const DefaultDuration: Int64 := 3 * 60 * 60 * NanosPerSecond

  /** The largest raw duration, in milliseconds, whose nanosecond count
      still fits in an int64. */
  const MaxExactMillis: int := MaxInt64 / NanosPerMilli

  datatype Venue = Venue(name: string, address: string, city: string) {
    /** Venue.IsEmpty: the venue equals the zero Venue. */
    function IsEmpty(): (b: bool)
      ensures b <==> name == "" && address == "" && city == ""
    {
      this == Venue("", "", "")
    }
  }

  /** One event. Instants (startTime, endTime) are nanoseconds since
      1970-01-01T00:00:00Z; `duration` is a time.Duration, an int64 count of
      nanoseconds. `timeRaw` and `durationRaw` are the API's milliseconds. */
  datatype Event = Event(
    name: string,
    description: string,
    directions: string,
    timeRaw: Int64,
    durationRaw: Int64,
    url: string,
    startTime: int,
    endTime: int,
    duration: Int64,
    venue: Venue,
    groupName: string)

  /** The fields the normalization pass reads but never writes. */
  predicate SameDecodedFields(a: Event, b: Event) {
    && a.name == b.name
    && a.description == b.description
    && a.directions == b.directions
    && a.timeRaw == b.timeRaw
    && a.durationRaw == b.durationRaw
    && a.url == b.url
    && a.venue == b.venue
    && a.groupName == b.groupName
  }

  /** `start` is a whole second, reached from `timeRaw` milliseconds by
      dropping the sub-second part toward zero. */
  predicate TruncatedToSeconds(timeRaw: int, start: int) {
    && start % NanosPerSecond == 0
    && var ms := start / NanosPerSecond * 1000;
       if timeRaw >= 0 then ms <= timeRaw < ms + 1000 else ms - 1000 < timeRaw <= ms
  }

  /** The body of the loop in DecodeJSON, for one event. */
  function Normalize(e: Event): (r: Event)
    ensures SameDecodedFields(e, r)
    ensures TruncatedToSeconds(e.timeRaw, r.startTime)
    ensures e.durationRaw == 0 ==> r.duration == DefaultDuration
    ensures e.durationRaw != 0 ==> (r.duration - e.durationRaw * NanosPerMilli) % Modulus64 == 0
    ensures e.durationRaw != 0 && -MaxExactMillis <= e.durationRaw <= MaxExactMillis ==>
              r.duration == e.durationRaw * NanosPerMilli
    ensures r.endTime == r.startTime + r.duration
    ensures 0 <= e.durationRaw <= MaxExactMillis ==> r.startTime <= r.endTime
  {
    var start := TruncDiv(e.timeRaw, 1000) * NanosPerSecond;
    var duration := if e.durationRaw == 0 then DefaultDuration else Wrap64(e.durationRaw * NanosPerMilli);
    e.(startTime := start, duration := duration, endTime := start + duration)
  }

  /** The start instant is the only whole second that truncation allows. */
  lemma StartTimeDetermined(e: Event, start: int)
    requires TruncatedToSeconds(e.timeRaw, start)
    ensures start == Normalize(e).startTime
  {
  }

  /** Normalizing an event twice changes nothing: it reads only raw fields. */
  lemma NormalizeIdempotent(e: Event)
    ensures Normalize(Normalize(e)) == Normalize(e)
  {
  }

  lemma DurationExamples(e: Event)
    ensures e.durationRaw == 0 ==> Normalize(e).duration == 3 * 60 * 60 * NanosPerSecond
    ensures e.durationRaw == 1_800_000 ==> Normalize(e).duration == 30 * 60 * NanosPerSecond
  {
  }

  /** A raw duration just past MaxExactMillis overflows Go's int64
      multiplication: the duration comes out negative and the event ends
      before it starts. */
  lemma DurationWrapEndsBeforeStart(e: Event)
    requires e.durationRaw == MaxExactMillis + 1
    ensures Normalize(e).duration < 0
    ensures Normalize(e).endTime < Normalize(e).startTime
  {
  }

  /** Further past the bound the product wraps all the way round: 2^64 ns
      plus 448 384 ns wraps to a short positive duration, so an overflowing
      event does not always end before it starts. */
  lemma DurationWrapsPositive(e: Event)
    requires e.durationRaw == 18_446_744_073_710
    ensures Normalize(e).duration == 448_384
    ensures Normalize(e).endTime > Normalize(e).startTime
  {
  }

  /** DecodeJSON's loop over the decoded events, updating each in place. */
  method NormalizeAll(events: seq<Event>) returns (r: seq<Event>)
    ensures |r| == |events|
    ensures forall i :: 0 <= i < |r| ==> r[i] == Normalize(events[i])
    ensures forall i :: 0 <= i < |r| ==>
              SameDecodedFields(events[i], r[i]) && r[i].endTime == r[i].startTime + r[i].duration
  {
    r := events;
    var i := 0;
    while i < |r|
      invariant 0 <= i <= |r| == |events|
      invariant forall j :: 0 <= j < i ==> r[j] == Normalize(events[j])
      invariant forall j :: i <= j < |r| ==> r[j] == events[j]
    {
      r := r[i := Normalize(r[i])];
      i := i + 1;
    }
  }
}
