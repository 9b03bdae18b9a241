/** Calendar arithmetic on millisecond timestamps.

    The application compares "today" through the UTC date prefix of ISO strings,
    finds the start of the week from the local clock, and moves "N days back"
    with `setDate` on the local clock. Local time is modelled as UTC plus a fixed
    `offset` in milliseconds. */
module Time {

  const SECOND_MS: int := 1000
  const MINUTE_MS: int := 60 * SECOND_MS
  const HOUR_MS: int := 60 * MINUTE_MS
  const DAY_MS: int := 24 * HOUR_MS

  /** The UTC calendar day of `t`, counted from 1970-01-01; two timestamps have the
      same `toISOString().split('T')[0]` exactly when their `UtcDay`s are equal. */
  function UtcDay(t: int): int {
    t / DAY_MS
  }

  lemma UtcDayBounds(t: int)
    ensures UtcDay(t) * DAY_MS <= t < UtcDay(t) * DAY_MS + DAY_MS
  {
  }

  /** Exact hours between two instants: `(end - start) / (1000 * 60 * 60)`. */
  function HoursBetween(start: int, end: int): (h: real)
    ensures h * (HOUR_MS as real) == (end - start) as real
    ensures start <= end <==> 0.0 <= h
  {
    (end - start) as real / (HOUR_MS as real)
  }

  /** `d.setDate(d.getDate() - days)` under a fixed offset: exactly `days` whole days earlier. */
  function DaysBefore(now: int, days: int): (cutoff: int)
    ensures days >= 0 ==> cutoff <= now
    ensures now - cutoff == days * DAY_MS
  {
    now - days * DAY_MS
  }

  /** `getDay()` of a local calendar day number: 0 is Sunday; 1970-01-01 was a Thursday. */
  function Weekday(localDay: int): (w: int)
    ensures 0 <= w < 7
  {
    (localDay + 4) % 7
  }

  /** How many days back Monday is: Sunday steps back six days, other days `getDay() - 1`. */
  function DaysSinceMonday(weekday: int): int {
    if weekday == 0 then 6 else weekday - 1
  }

  /** Local midnight of the Monday that starts the week containing `now`. */
  function MondayMidnight(now: int, offset: int): (monday: int)
    ensures monday <= now < monday + 7 * DAY_MS
    ensures (monday + offset) % DAY_MS == 0
    ensures Weekday((monday + offset) / DAY_MS) == 1
  {
    var localDay := (now + offset) / DAY_MS;
    var back := DaysSinceMonday(Weekday(localDay));
    var mondayDay := localDay - back;
    assert (mondayDay * DAY_MS) / DAY_MS == mondayDay;
    assert (mondayDay + 4) % 7 == 1;
    mondayDay * DAY_MS - offset
  }

  /** There is exactly one local Monday midnight in the seven days ending at `now`. */
  lemma MondayMidnightUnique(now: int, offset: int, m: int)
    requires m <= now < m + 7 * DAY_MS
    requires (m + offset) % DAY_MS == 0
    requires Weekday((m + offset) / DAY_MS) == 1
    ensures m == MondayMidnight(now, offset)
  {
    var mm := MondayMidnight(now, offset);
    var d1 := (m + offset) / DAY_MS;
    var d2 := (mm + offset) / DAY_MS;
    assert m + offset == d1 * DAY_MS;
    assert mm + offset == d2 * DAY_MS;
    assert -7 < d1 - d2 < 7;
    assert (d1 - d2) % 7 == 0;
  }
}
