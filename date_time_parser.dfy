/**
 * Meeting-window extraction: the first candidate the date/time grammar finds
 * in an email, a one-hour default duration, and the shift of a start that lies
 * in the past to the same wall-clock hour and minute on the day after `now`.
 *
 * Instants are integer milliseconds since the Unix epoch. Local time is that
 * instant plus one fixed offset (no daylight saving), so every local day is
 * exactly `DayMs` long.
 */
module DateTimeParser {
  import opened Wrappers

  const SecondMs: int := 1000
  const MinuteMs: int := 60 * SecondMs
  const HourMs: int := 60 * MinuteMs
  const DayMs: int := 24 * HourMs

  /** The duration assumed when the grammar finds no end: 60 * 60 * 1000 ms. */
  const DefaultDurationMs: int := 60 * 60 * 1000

  /** The fixed local offset, UTC+05:30 (India Standard Time). */
  const LocalOffsetMs: int := 5 * HourMs + 30 * MinuteMs

  /** One match of the date/time grammar: a start and possibly an end. */
  datatype Candidate = Candidate(start: int, end: Option<int>)

  /** What `parseDateTime` returns when it finds a candidate. */
  datatype Window = Window(startDateTime: int, endDateTime: int)

  // ------------------------------------------------------ local calendar

  /** The number of the local calendar day that holds `t`. */
  function LocalDay(t: int): int { (t + LocalOffsetMs) / DayMs }

  /** Milliseconds since local midnight. */
  function MsOfDay(t: int): int { (t + LocalOffsetMs) % DayMs }

  /** `getHours`, `getMinutes`, `getSeconds`, `getMilliseconds`. */
  function Hours(t: int): int { MsOfDay(t) / HourMs }
  function Minutes(t: int): int { MsOfDay(t) % HourMs / MinuteMs }
  function Seconds(t: int): int { MsOfDay(t) % MinuteMs / SecondMs }
  function Milliseconds(t: int): int { MsOfDay(t) % SecondMs }

  /**
   * `d.setHours(h, m, s, ms)`: the same local day, at the given time of day.
   * Out-of-range arguments carry into neighbouring days exactly as the
   * linear formula says, as in JavaScript.
   */
  function SetHours(t: int, h: int, m: int, s: int, ms: int): int {
    LocalDay(t) * DayMs + h * HourMs + m * MinuteMs + s * SecondMs + ms - LocalOffsetMs
  }

  /** `d.setDate(d.getDate() + 1)`: with a fixed offset, exactly one day later. */
  function SetNextDate(t: int): int { t + DayMs }

  /** The instant with the given local day and time-of-day fields. */
  function InstantOf(day: int, h: int, m: int, s: int, ms: int): int {
    day * DayMs + h * HourMs + m * MinuteMs + s * SecondMs + ms - LocalOffsetMs
  }

  /** Euclidean division is determined by a quotient and an in-range remainder. */
  lemma DivModUnique(y: int, d: int, q: int, r: int)
    requires d > 0 && 0 <= r < d && y == q * d + r
    ensures y / d == q && y % d == r
  {
    var q', r' := y / d, y % d;
    assert (q - q') * d == r' - r;
    MultipleBound(q - q', d);
  }

  /** A non-zero multiple of a positive `d` is at least `d` away from zero. */
  lemma MultipleBound(k: int, d: int)
    requires d > 0
    ensures k >= 1 ==> k * d >= d
    ensures k <= -1 ==> k * d <= -d
  {
    assert k * d - d == (k - 1) * d;
    assert k * d + d == (k + 1) * d;
  }

  /** The fields of an instant built from in-range fields are those fields. */
  lemma FieldsOfInstant(day: int, h: int, m: int, s: int, ms: int)
    requires 0 <= h < 24 && 0 <= m < 60 && 0 <= s < 60 && 0 <= ms < 1000
    ensures var t := InstantOf(day, h, m, s, ms);
      LocalDay(t) == day && Hours(t) == h && Minutes(t) == m
      && Seconds(t) == s && Milliseconds(t) == ms
  {
    var t := InstantOf(day, h, m, s, ms);
    var tod := h * HourMs + m * MinuteMs + s * SecondMs + ms;
    DivModUnique(t + LocalOffsetMs, DayMs, day, tod);
    DivModUnique(tod, HourMs, h, m * MinuteMs + s * SecondMs + ms);
    DivModUnique(tod, MinuteMs, h * 60 + m, s * SecondMs + ms);
    DivModUnique(tod, SecondMs, (h * 60 + m) * 60 + s, ms);
    DivModUnique(m * MinuteMs + s * SecondMs + ms, MinuteMs, m, s * SecondMs + ms);
    DivModUnique(s * SecondMs + ms, SecondMs, s, ms);
  }

  /** Every instant is rebuilt from its own fields, and those fields are in range. */
  lemma InstantOfFields(t: int)
    ensures 0 <= Hours(t) < 24 && 0 <= Minutes(t) < 60
    ensures 0 <= Seconds(t) < 60 && 0 <= Milliseconds(t) < 1000
    ensures t == InstantOf(LocalDay(t), Hours(t), Minutes(t), Seconds(t), Milliseconds(t))
  {
    var tod := MsOfDay(t);
    var h, rh := tod / HourMs, tod % HourMs;
    var m, rm := rh / MinuteMs, rh % MinuteMs;
    var s, ms := rm / SecondMs, rm % SecondMs;
    assert tod == h * HourMs + rh;
    assert rh == m * MinuteMs + rm;
    assert rm == s * SecondMs + ms;
    DivModUnique(tod, MinuteMs, h * 60 + m, rm);
    DivModUnique(tod, SecondMs, (h * 60 + m) * 60 + s, ms);
    assert h * HourMs <= tod < 24 * HourMs;
  }

  /** Two instants that agree on the local day and every time-of-day field are equal. */
  lemma FieldsDetermineInstant(a: int, b: int)
    requires LocalDay(a) == LocalDay(b) && Hours(a) == Hours(b) && Minutes(a) == Minutes(b)
    requires Seconds(a) == Seconds(b) && Milliseconds(a) == Milliseconds(b)
    ensures a == b
  {
    InstantOfFields(a);
    InstantOfFields(b);
  }

  // ------------------------------------------------------- specification

  /** The end the grammar gave, or the start plus the default duration. */
  function ParsedEnd(c: Candidate): (e: int)
    ensures c.end.None? ==> e - c.start == 60 * 60 * 1000
    ensures c.end.Some? ==> e == c.end.value
  {
    match c.end
    case Some(e) => e
    case None => c.start + DefaultDurationMs
  }

  /** The same local hour and minute as `parsed`, zero seconds, on the day after `now`. */
  function NextDayAt(now: int, parsed: int): int {
    InstantOf(LocalDay(now) + 1, Hours(parsed), Minutes(parsed), 0, 0)
  }

  /** `NextDayAt` lies after `now`, on the next local day, at the parsed hour and minute. */
  lemma NextDayAtFields(now: int, parsed: int)
    ensures var t := NextDayAt(now, parsed);
      t > now && LocalDay(t) == LocalDay(now) + 1
      && Hours(t) == Hours(parsed) && Minutes(t) == Minutes(parsed)
      && Seconds(t) == 0 && Milliseconds(t) == 0
  {
    InstantOfFields(parsed);
    InstantOfFields(now);
    FieldsOfInstant(LocalDay(now) + 1, Hours(parsed), Minutes(parsed), 0, 0);
    assert MsOfDay(now) < DayMs;
  }

  /**
   * The meeting window the extractor returns for the grammar's candidates,
   * stated in calendar terms.
   */
  function Extract(results: seq<Candidate>, now: int): (r: Option<Window>)
    ensures r.None? <==> |results| == 0
    ensures r.Some? ==> r.value.endDateTime - r.value.startDateTime
                        == ParsedEnd(results[0]) - results[0].start
    ensures r.Some? && results[0].start >= now ==>
              r.value == Window(results[0].start, ParsedEnd(results[0]))
    ensures r.Some? && results[0].start < now ==>
              var t := r.value.startDateTime;
              t > now && LocalDay(t) == LocalDay(now) + 1
              && Hours(t) == Hours(results[0].start) && Minutes(t) == Minutes(results[0].start)
              && Seconds(t) == 0 && Milliseconds(t) == 0
  {
    if |results| == 0 then None
    else
      var c := results[0];
      var end := ParsedEnd(c);
      if c.start < now then
        var t := NextDayAt(now, c.start);
        NextDayAtFields(now, c.start);
        Some(Window(t, t + (end - c.start)))
      else
        Some(Window(c.start, end))
  }

  /**
   * The postconditions of `Extract` determine its result: a window that meets
   * them for the same candidates and `now` is the one `Extract` returns.
   */
  lemma ExtractUnique(results: seq<Candidate>, now: int, w: Window)
    requires |results| > 0
    requires w.endDateTime - w.startDateTime == ParsedEnd(results[0]) - results[0].start
    requires results[0].start >= now ==> w == Window(results[0].start, ParsedEnd(results[0]))
    requires results[0].start < now ==>
      LocalDay(w.startDateTime) == LocalDay(now) + 1
      && Hours(w.startDateTime) == Hours(results[0].start)
      && Minutes(w.startDateTime) == Minutes(results[0].start)
      && Seconds(w.startDateTime) == 0 && Milliseconds(w.startDateTime) == 0
    ensures Extract(results, now) == Some(w)
  {
    var r := Extract(results, now).value;
    if results[0].start < now {
      FieldsDetermineInstant(r.startDateTime, w.startDateTime);
    }
  }

  // -------------------------------------------------------------- method

  /** The JavaScript steps by which `setDate` then `setHours` land on `NextDayAt`. */
  lemma SetHoursOfNextDate(now: int, parsed: int)
    ensures SetHours(SetNextDate(now), Hours(parsed), Minutes(parsed), 0, 0) == NextDayAt(now, parsed)
  {
    DivModUnique(now + DayMs + LocalOffsetMs, DayMs, LocalDay(now) + 1, MsOfDay(now));
  }

  /**
   * `parseDateTime`: the grammar's output and the clock are parameters. The
   * local variables stand for the Date objects the source mutates in place.
   */
  method ParseDateTime(results: seq<Candidate>, now: int) returns (r: Option<Window>)
    ensures r == Extract(results, now)
  {
    if |results| > 0 {
      var startDate := results[0].start;
      var endDate: int;
      if results[0].end.Some? {
        endDate := results[0].end.value;
      } else {
        endDate := startDate + 60 * 60 * 1000;
      }
      if startDate < now {
        var tomorrow := now;
        tomorrow := SetNextDate(tomorrow);
        tomorrow := SetHours(tomorrow, Hours(startDate), Minutes(startDate), 0, 0);
        endDate := tomorrow + (endDate - startDate);
        SetHoursOfNextDate(now, startDate);
        startDate := tomorrow;
      }
      return Some(Window(startDate, endDate));
    }
    return None;
  }

  // ---------------------------------------------------------- scenarios

  /**
   * A range on 2024-01-01 from 14:00 to 15:00 local, seen at 2025-01-01 10:00
   * local, moves to 2025-01-02 14:00-15:00 local.
   */
  lemma PastRangeMovesToTomorrow()
    ensures Extract([Candidate(1704097800000, Some(1704101400000))], 1735705800000)
            == Some(Window(1735806600000, 1735810200000))
  {
    var c := Candidate(1704097800000, Some(1704101400000));
    FieldsOfInstant(19723, 14, 0, 0, 0);
    assert c.start == InstantOf(19723, 14, 0, 0, 0);
    FieldsOfInstant(20089, 10, 0, 0, 0);
    assert 1735705800000 == InstantOf(20089, 10, 0, 0, 0);
  }

  /** "tomorrow at 3pm" read at 2025-01-01 10:00 local is already in the future and is kept. */
  lemma FutureStartIsKept()
    ensures Extract([Candidate(1735810200000, None)], 1735705800000)
            == Some(Window(1735810200000, 1735813800000))
  {
  }
}
