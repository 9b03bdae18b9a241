/** The check-in/check-out card: the elapsed-time clock it shows while a shift is open and
    the state its check-in and check-out buttons leave behind. */
module CheckInOutCard {
  import opened Types
  import opened Text
  import opened Time
  import opened TimeRecords
  import Service = TimeRegistrationService

  const WORK_LOCATIONS: seq<string> := ["Main Office", "Branch Office", "Home Office", "Client Site", "Remote"]
  const IDLE_CLOCK: string := "00:00:00"
  const CHECK_IN_FALLBACK: string := "Failed to check in"
  const CHECK_OUT_FALLBACK: string := "Failed to check out"

  /* ---------------------------------------------------------------- clock */

  /** JavaScript `a % b` for a positive `b`: the remainder takes the sign of `a`. */
  function JsRem(a: int, b: int): (r: int)
    requires b > 0
    ensures a >= 0 ==> r == a % b
    ensures a < 0 ==> -b < r <= 0 && r == -((-a) % b)
  {
    if a >= 0 then a % b else -((-a) % b)
  }

  datatype ClockFields = ClockFields(hours: int, minutes: int, seconds: int) {
    /** The number of seconds the three fields denote together. */
    function TotalSeconds(): int {
      hours * 3600 + minutes * 60 + seconds
    }
  }

  /** `updateElapsed`: `Math.floor(diff / 3600000)`, `Math.floor((diff % 3600000) / 60000)`
      and `Math.floor((diff % 60000) / 1000)`, with JavaScript's `%`. */
  function ElapsedFields(diff: int): (f: ClockFields)
    ensures diff >= 0 ==> f.hours == diff / HOUR_MS
    ensures diff >= 0 ==> 0 <= f.minutes < 60 && 0 <= f.seconds < 60
    ensures diff >= 0 ==> f.TotalSeconds() == diff / SECOND_MS
    ensures diff < 0 ==> f.hours < 0 && -60 <= f.minutes <= 0 && -60 <= f.seconds <= 0
  {
    var f := ClockFields(diff / HOUR_MS, JsRem(diff, HOUR_MS) / MINUTE_MS, JsRem(diff, MINUTE_MS) / SECOND_MS);
    RecomposeElapsed(diff);
    f
  }

  lemma RecomposeElapsed(diff: int)
    ensures diff >= 0 ==>
      (diff / 3600000) * 3600 + (diff % 3600000) / 60000 * 60 + (diff % 60000) / 1000 == diff / 1000
  {
    var h := diff / 3600000;
    var r := diff % 3600000;
    var m := r / 60000;
    var q := r % 60000;
    assert diff == h * 3600000 + m * 60000 + q;
    assert diff % 60000 == q by {
      assert diff == (h * 60 + m) * 60000 + q;
    }
    assert diff / 1000 == h * 3600 + m * 60 + q / 1000 by {
      assert diff == (h * 3600 + m * 60) * 1000 + q;
      assert q == (q / 1000) * 1000 + q % 1000;
      assert diff == (h * 3600 + m * 60 + q / 1000) * 1000 + q % 1000;
    }
  }

  /** `n.toString().padStart(2, '0')` */
  function Field(n: int): string {
    PadStart(IntToString(n), 2, '0')
  }

  function ClockText(f: ClockFields): string {
    Field(f.hours) + ":" + Field(f.minutes) + ":" + Field(f.seconds)
  }

  /** The clock for a shift checked in at `checkIn`, read at `now`. */
  function ClockSince(checkIn: int, now: int): string {
    ClockText(ElapsedFields(now - checkIn))
  }

  /** The clock text for the loaded status at `now`: the time since the open record's
      check-in, and `00:00:00` unless the status says checked in and carries a record. */
  function ElapsedClock(status: Option<CheckInStatus>, now: int): (text: string)
    ensures status.None? || !status.value.isCheckedIn || status.value.currentRecord.None? ==> text == IDLE_CLOCK
    ensures status.Some? && status.value.isCheckedIn && status.value.currentRecord.Some? ==>
      text == ClockSince(status.value.currentRecord.value.checkInTime, now)
  {
    if status.None? || !status.value.isCheckedIn || status.value.currentRecord.None? then IDLE_CLOCK
    else ClockSince(status.value.currentRecord.value.checkInTime, now)
  }

  /** Reads `H..H:MM:SS` back as a number of seconds; the hours take any number of digits. */
  function ParseClock(c: string): (r: Option<int>) {
    if |c| >= 8 && c[|c| - 6] == ':' && c[|c| - 3] == ':'
       && AllDigits(c[..|c| - 6]) && AllDigits(c[|c| - 5..|c| - 3]) && AllDigits(c[|c| - 2..])
    then Some(ParseDecimal(c[..|c| - 6]) * 3600 + ParseDecimal(c[|c| - 5..|c| - 3]) * 60 + ParseDecimal(c[|c| - 2..]))
    else None
  }

  lemma ShortDecimal(n: nat)
    requires n < 100
    ensures |NatToString(n)| <= 2
  {
    if n >= 10 {
      assert |NatToString(n / 10)| == 1;
    }
  }

  lemma FieldDigits(n: nat)
    ensures |Field(n)| >= 2
    ensures AllDigits(Field(n)) && ParseDecimal(Field(n)) == n
    ensures n < 100 ==> |Field(n)| == 2
  {
    PaddedDecimalRoundTrip(n, 2);
    if n < 100 {
      ShortDecimal(n);
    }
  }

  lemma {:induction false} ParseJoined(hs: string, ms: string, ss: string)
    requires |hs| >= 2 && |ms| == 2 && |ss| == 2
    requires AllDigits(hs) && AllDigits(ms) && AllDigits(ss)
    ensures ParseClock(hs + ":" + ms + ":" + ss) == Some(ClockFields(ParseDecimal(hs), ParseDecimal(ms), ParseDecimal(ss)).TotalSeconds())
  {
    var c := hs + ":" + ms + ":" + ss;
    var n := |c|;
    assert n == |hs| + 6;
    assert c[..n - 6] == hs;
    assert c[n - 5..n - 3] == ms;
    assert c[n - 2..] == ss;
    assert c[n - 6] == ':' && c[n - 3] == ':';
    var a, b, d := ParseDecimal(hs), ParseDecimal(ms), ParseDecimal(ss);
    assert ParseClock(c) == Some(a * 3600 + b * 60 + d);
    assert ClockFields(a, b, d).TotalSeconds() == a * 3600 + b * 60 + d;
  }

  lemma {:induction false} ClockFieldsRoundTrip(f: ClockFields)
    requires f.hours >= 0 && 0 <= f.minutes < 60 && 0 <= f.seconds < 60
    ensures ParseClock(ClockText(f)) == Some(f.TotalSeconds())
  {
    var (h, m, sec) := (f.hours, f.minutes, f.seconds);
    var hs, ms, ss := Field(h), Field(m), Field(sec);
    FieldDigits(h);
    FieldDigits(m);
    FieldDigits(sec);
    ParseJoined(hs, ms, ss);
    assert ClockFields(ParseDecimal(hs), ParseDecimal(ms), ParseDecimal(ss)) == f;
    assert ClockText(f) == hs + ":" + ms + ":" + ss;
  }

  /** For a non-negative elapsed time the clock reads back as the whole seconds elapsed,
      however many hours have passed. */
  lemma {:induction false} ClockRoundTrip(diff: int)
    requires diff >= 0
    ensures ParseClock(ClockText(ElapsedFields(diff))) == Some(diff / SECOND_MS)
  {
    ClockFieldsRoundTrip(ElapsedFields(diff));
  }

  /* ---------------------------------------------------------------- handlers */

  /** The error shown after a call: none on success, else `errorMessage || fallback`. */
  function ErrorText<T>(resp: ServiceResponse<T>, fallback: string): (e: Option<string>)
    ensures resp.Ok? ==> e.None?
    ensures resp.Err? && resp.errorMessage != "" ==> e == Some(resp.errorMessage)
    ensures resp.Err? && resp.errorMessage == "" ==> e == Some(fallback)
  {
    if resp.Ok? then None
    else if resp.errorMessage != "" then Some(resp.errorMessage)
    else Some(fallback)
  }

  /** What the card holds between renders; the loading and processing flags are transient. */
  datatype Card = Card(status: Option<CheckInStatus>, error: Option<string>, selectedLocation: string)

  const INITIAL_CARD: Card := Card(None, None, WORK_LOCATIONS[0])

  /** `loadStatus()`: `getStatus` always succeeds, so the status is replaced. */
  function LoadStatus(c: Card, s: Store, now: int, offset: int): (c': Card)
    ensures c'.status == Some(Service.GetStatus(s, now, offset).data)
    ensures c'.error == c.error && c'.selectedLocation == c.selectedLocation
  {
    var r := Service.GetStatus(s, now, offset);
    if r.Ok? then c.(status := Some(r.data)) else c
  }

  /** Picking a location in the dropdown; an empty option value is ignored. */
  function SelectLocation(c: Card, location: string): (c': Card)
    ensures location != "" ==> c' == c.(selectedLocation := location)
    ensures location == "" ==> c' == c
  {
    if location != "" then c.(selectedLocation := location) else c
  }

  /** `handleCheckIn`: checks in at the selected location without notes; on success the
      status is reloaded, otherwise the service message is shown. */
  function HandleCheckIn(c: Card, s: Store, now: int, offset: int): (res: (Card, Store))
    ensures res.1 == Service.CheckIn(s, now, Some(c.selectedLocation), None).0
    ensures HasOpen(s) ==> res == (c.(error := Some(Service.ALREADY_CHECKED_IN)), s)
    ensures !HasOpen(s) ==> res.0.error.None? && res.0.selectedLocation == c.selectedLocation
    ensures !HasOpen(s) ==> res.0.status.Some? && res.0.status.value.isCheckedIn
    ensures !HasOpen(s) ==>
      res.0.status.value.currentRecord == Some(Service.CheckIn(s, now, Some(c.selectedLocation), None).1.data)
  {
    var (s', resp) := Service.CheckIn(s, now, Some(c.selectedLocation), None);
    var cleared := c.(error := None);
    if resp.Ok? then
      Service.StatusAfterCheckIn(s, now, Some(c.selectedLocation), None, now, offset);
      (LoadStatus(cleared, s', now, offset), s')
    else
      (cleared.(error := ErrorText(resp, CHECK_IN_FALLBACK)), s')
  }

  /** `handleCheckOut`: checks out without notes; on success the status is reloaded,
      otherwise the service message is shown. */
  function HandleCheckOut(c: Card, s: Store, now: int, offset: int): (res: (Card, Store))
    ensures res.1 == Service.CheckOut(s, now, None).0
    ensures !HasOpen(s) ==> res == (c.(error := Some(Service.NOT_CHECKED_IN)), s)
    ensures HasOpen(s) ==> res.0.error.None? && res.0.status.Some?
    ensures Service.Invariant(s) && HasOpen(s) ==> !res.0.status.value.isCheckedIn
    ensures Service.Invariant(s) && HasOpen(s) ==> ElapsedClock(res.0.status, now) == IDLE_CLOCK
  {
    var (s', resp) := Service.CheckOut(s, now, None);
    var cleared := c.(error := None);
    if resp.Ok? then (LoadStatus(cleared, s', now, offset), s')
    else (cleared.(error := ErrorText(resp, CHECK_OUT_FALLBACK)), s')
  }

  /** Right after a check-in from the checked-out state the card shows the new shift: the
      clock runs from `t0` and the location is the selected one. */
  lemma {:induction false} ClockAfterCheckIn(c: Card, s: Store, t0: int, offset: int, now: int)
    requires !HasOpen(s)
    ensures ElapsedClock(HandleCheckIn(c, s, t0, offset).0.status, now) == ClockSince(t0, now)
    ensures c.selectedLocation != "" ==>
      HandleCheckIn(c, s, t0, offset).0.status.value.currentRecord.value.location == Some(c.selectedLocation)
  {
    var rec := TimeRecords.CheckIn(s, t0, Some(c.selectedLocation), None).1;
    var status := HandleCheckIn(c, s, t0, offset).0.status;
    assert Service.CheckIn(s, t0, Some(c.selectedLocation), None).1.data == rec;
    assert status.value.isCheckedIn && status.value.currentRecord == Some(rec);
    assert rec.checkInTime == t0;
  }
}
