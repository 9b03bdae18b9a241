/** The personal record store of `mockData/timeRecords.ts` and its accounting
    functions. The module-level `records` array and `nextId` counter are one
    `Store` value threaded through the operations; the clock is the `now` argument. */
module TimeRecords {
  import opened Types
  import opened Text
  import opened Time
  import opened Seqs

  const CURRENT_USER: User :=
    User("user-001", "John Doe", "john.doe@contoso.com", Some("Engineering"), Employee)

  const DEFAULT_LOCATION: string := "Main Office"

  /** The id counter right after the four seed records. */
  const FIRST_FREE_ID: nat := 5

  datatype Store = Store(records: seq<TimeRecord>, nextId: nat)

  /* ---------------------------------------------------------------- ids */

  /** `rec-${String(n).padStart(3, '0')}` */
  function RecordId(n: nat): (id: string)
    ensures ParseRecordId(id) == Some(n)
  {
    var digits := PadStart(NatToString(n), 3, '0');
    PaddedDecimalRoundTrip(n, 3);
    var id := "rec-" + digits;
    assert id[..4] == "rec-" && id[4..] == digits;
    id
  }

  /** The counter value an id was generated from, if it has the `rec-NNN` shape. */
  function ParseRecordId(id: string): Option<nat> {
    if |id| > 4 && id[..4] == "rec-" && AllDigits(id[4..]) then Some(ParseDecimal(id[4..]))
    else None
  }

  /** Distinct counter values give distinct ids. */
  lemma RecordIdInjective(m: nat, n: nat)
    ensures RecordId(m) == RecordId(n) <==> m == n
  {
    if RecordId(m) == RecordId(n) {
      assert ParseRecordId(RecordId(m)) == ParseRecordId(RecordId(n));
    }
  }

  predicate IdBelow(id: string, bound: nat) {
    ParseRecordId(id).Some? && ParseRecordId(id).value < bound
  }

  /** Every id came from a counter value already handed out, and no id repeats. */
  predicate WellFormed(s: Store) {
    && (forall i :: 0 <= i < |s.records| ==> IdBelow(s.records[i].id, s.nextId))
    && (forall i, j :: 0 <= i < j < |s.records| ==> s.records[i].id != s.records[j].id)
  }

  predicate HasId(rs: seq<TimeRecord>, id: string) {
    exists i :: 0 <= i < |rs| && rs[i].id == id
  }

  /* ---------------------------------------------------------------- seed */

  function At(day: int, hour: int, minute: int): int {
    day * DAY_MS + hour * HOUR_MS + minute * MINUTE_MS
  }

  /** One seed shift: days before the load day, check-in and check-out time of day, notes. */
  datatype SeedShift = SeedShift(daysAgo: int, inH: int, inM: int, outH: int, outM: int, notes: Option<string>)

  const SEED_SHIFTS: seq<SeedShift> := [
    SeedShift(1, 8, 30, 17, 15, None),
    SeedShift(2, 9, 0, 18, 0, None),
    SeedShift(3, 8, 45, 16, 30, Some("Left early for appointment")),
    SeedShift(4, 8, 30, 17, 30, None)
  ]

  function SeedRecord(n: nat, today: int, sh: SeedShift): TimeRecord {
    var day := today - sh.daysAgo;
    TimeRecord(RecordId(n), CURRENT_USER.id, CURRENT_USER.displayName,
               At(day, sh.inH, sh.inM), Some(At(day, sh.outH, sh.outM)), Some(DEFAULT_LOCATION), sh.notes, None,
               At(day, sh.inH, sh.inM), At(day, sh.outH, sh.outM))
  }

  /** `mockTimeRecords`: four closed shifts, `rec-001` to `rec-004`, on the four UTC days before `loadTime`. */
  function SeedRecords(loadTime: int): (rs: seq<TimeRecord>)
    ensures |rs| == |SEED_SHIFTS|
    ensures forall i :: 0 <= i < |rs| ==> rs[i].id == RecordId(i + 1) && !rs[i].IsOpen()
  {
    seq(|SEED_SHIFTS|, i requires 0 <= i < |SEED_SHIFTS| => SeedRecord(i + 1, UtcDay(loadTime), SEED_SHIFTS[i]))
  }

  lemma SeedIds()
    ensures RecordId(1) == "rec-001" && RecordId(2) == "rec-002"
    ensures RecordId(3) == "rec-003" && RecordId(4) == "rec-004"
  {
  }

  /** `resetMockData()` (and the initial module state): the seed records with the counter at 5. */
  function ResetMockData(loadTime: int): (s: Store)
    ensures WellFormed(s)
    ensures |s.records| == 4 && s.nextId == FIRST_FREE_ID
    ensures forall i :: 0 <= i < |s.records| ==> !s.records[i].IsOpen()
  {
    var s := Store(SeedRecords(loadTime), FIRST_FREE_ID);
    SequentialIdsWellFormed(s);
    s
  }

  /** A store whose i-th record carries the i+1-th id, with the counter past them all. */
  lemma SequentialIdsWellFormed(s: Store)
    requires forall i :: 0 <= i < |s.records| ==> s.records[i].id == RecordId(i + 1)
    requires |s.records| < s.nextId
    ensures WellFormed(s)
  {
    forall i, j | 0 <= i < j < |s.records| ensures s.records[i].id != s.records[j].id {
      RecordIdInjective(i + 1, j + 1);
    }
  }

  /* ---------------------------------------------------------------- ordering */

  predicate NewestFirst(rs: seq<TimeRecord>) {
    forall i, j :: 0 <= i < j < |rs| ==> rs[i].checkInTime >= rs[j].checkInTime
  }

  /** Prepending a record at least as new as every other keeps the order. */
  lemma ConsNewestFirst(x: TimeRecord, s: seq<TimeRecord>)
    requires NewestFirst(s)
    requires forall y :: y in s ==> y.checkInTime <= x.checkInTime
    ensures NewestFirst([x] + s)
  {
    var r := [x] + s;
    forall i, j | 0 <= i < j < |r| ensures r[i].checkInTime >= r[j].checkInTime {
      assert r[j] == s[j - 1];
      if i > 0 { assert r[i] == s[i - 1]; }
    }
  }

  /** The head of a newest-first list is the newest, and the rest is still newest first. */
  lemma UnconsNewestFirst(s: seq<TimeRecord>)
    requires NewestFirst(s) && |s| > 0
    ensures NewestFirst(s[1..])
    ensures forall y :: y in s[1..] ==> y.checkInTime <= s[0].checkInTime
  {
    var tail := s[1..];
    forall i, j | 0 <= i < j < |tail| ensures tail[i].checkInTime >= tail[j].checkInTime {
      assert tail[i] == s[i + 1] && tail[j] == s[j + 1];
    }
    forall y | y in tail ensures y.checkInTime <= s[0].checkInTime {
      var k :| 0 <= k < |tail| && tail[k] == y;
      assert s[k + 1] == y;
    }
  }

  /** Places `x` after every record at least as new, so equal check-in times keep their order. */
  function InsertNewestFirst(x: TimeRecord, s: seq<TimeRecord>): (r: seq<TimeRecord>)
    requires NewestFirst(s)
    ensures NewestFirst(r)
    ensures multiset(r) == multiset(s) + multiset{x}
  {
    if |s| == 0 then [x]
    else if s[0].checkInTime >= x.checkInTime then
      var tail := s[1..];
      assert s == [s[0]] + tail;
      UnconsNewestFirst(s);
      var rest := InsertNewestFirst(x, tail);
      forall y | y in rest ensures y.checkInTime <= s[0].checkInTime {
        assert y in multiset(rest);
        assert y == x || y in multiset(tail);
      }
      ConsNewestFirst(s[0], rest);
      [s[0]] + rest
    else
      ConsNewestFirst(x, s);
      [x] + s
  }

  /** `[...rs].sort((a, b) => b.checkInTime - a.checkInTime)`: a stable, newest-first
      reordering of the same records. */
  function SortNewestFirst(rs: seq<TimeRecord>): (r: seq<TimeRecord>)
    ensures NewestFirst(r)
    ensures multiset(r) == multiset(rs)
    ensures |r| == |rs|
  {
    if |rs| == 0 then []
    else
      var init := rs[..|rs| - 1];
      var last := rs[|rs| - 1];
      assert rs == init + [last];
      assert multiset(rs) == multiset(init) + multiset{last};
      InsertNewestFirst(last, SortNewestFirst(init))
  }

  /** A newest-first list stays newest first under any filter. */
  lemma {:induction false} FilterKeepsNewestFirst(rs: seq<TimeRecord>, p: TimeRecord -> bool)
    requires NewestFirst(rs)
    ensures NewestFirst(Filter(rs, p))
    decreases |rs|
  {
    if |rs| > 0 {
      var init := rs[..|rs| - 1];
      var last := rs[|rs| - 1];
      assert NewestFirst(init);
      FilterKeepsNewestFirst(init, p);
      if p(last) {
        var f := Filter(init, p);
        var r := f + [last];
        forall i, j | 0 <= i < j < |r| ensures r[i].checkInTime >= r[j].checkInTime {
          if j == |f| {
            assert r[i] == f[i] && f[i] in init;
          } else {
            assert r[i] == f[i] && r[j] == f[j];
          }
        }
      }
    }
  }

  /** `getAllRecords()`: every stored record, newest first; the store is left as it is. */
  function GetAllRecords(s: Store): (r: seq<TimeRecord>)
    ensures NewestFirst(r)
    ensures multiset(r) == multiset(s.records)
  {
    SortNewestFirst(s.records)
  }

  /* ---------------------------------------------------------------- queries */

  function IsTodayPred(now: int): TimeRecord -> bool {
    (r: TimeRecord) => UtcDay(r.checkInTime) == UtcDay(now)
  }

  function IsOpenPred(): TimeRecord -> bool {
    (r: TimeRecord) => r.IsOpen()
  }

  /** `r => r.checkOutTime`: a truthy check-out time means the shift is complete. */
  function IsClosedPred(): TimeRecord -> bool {
    (r: TimeRecord) => !r.IsOpen()
  }

  function CheckedInSincePred(cutoff: int): TimeRecord -> bool {
    (r: TimeRecord) => r.checkInTime >= cutoff
  }

  /** `getTodayRecords()`: the records whose check-in date prefix is today's, in store order. */
  function GetTodayRecords(s: Store, now: int): (r: seq<TimeRecord>)
    ensures forall x :: x in r <==> x in s.records && UtcDay(x.checkInTime) == UtcDay(now)
    ensures forall x :: multiset(r)[x] == if UtcDay(x.checkInTime) == UtcDay(now) then multiset(s.records)[x] else 0
    ensures IsSubsequence(r, s.records)
  {
    Filter(s.records, IsTodayPred(now))
  }

  /** Today's records were all checked in within the 24 hours of the UTC day holding `now`. */
  lemma TodayRecordsLieInToday(s: Store, now: int)
    ensures forall x :: x in GetTodayRecords(s, now) ==>
      UtcDay(now) * DAY_MS <= x.checkInTime < UtcDay(now) * DAY_MS + DAY_MS
  {
    forall x | x in GetTodayRecords(s, now)
      ensures UtcDay(now) * DAY_MS <= x.checkInTime < UtcDay(now) * DAY_MS + DAY_MS
    {
      UtcDayBounds(x.checkInTime);
    }
  }

  /** Index of the first open record, as `Array.prototype.find(r => !r.checkOutTime)` visits them. */
  function FirstOpenIndex(rs: seq<TimeRecord>): (k: Option<nat>)
    ensures k.Some? ==> k.value < |rs| && rs[k.value].IsOpen()
    ensures k.Some? ==> forall j :: 0 <= j < k.value ==> !rs[j].IsOpen()
    ensures k.None? ==> forall j :: 0 <= j < |rs| ==> !rs[j].IsOpen()
  {
    if |rs| == 0 then None
    else if rs[0].IsOpen() then Some(0)
    else
      match FirstOpenIndex(rs[1..])
      case None => None
      case Some(k) => Some(k + 1)
  }

  /** Appending an open record to a list with none makes it the first open one. */
  lemma {:induction false} FirstOpenAfterClosed(rs: seq<TimeRecord>, r: TimeRecord)
    requires forall j :: 0 <= j < |rs| ==> !rs[j].IsOpen()
    requires r.IsOpen()
    ensures FirstOpenIndex(rs + [r]) == Some(|rs|)
    decreases |rs|
  {
    if |rs| > 0 {
      assert (rs + [r])[1..] == rs[1..] + [r];
      FirstOpenAfterClosed(rs[1..], r);
    }
  }

  predicate HasOpen(s: Store) {
    exists i :: 0 <= i < |s.records| && s.records[i].IsOpen()
  }

  /** `getCurrentOpenRecord()`: the first record without a check-out time. */
  function GetCurrentOpenRecord(s: Store): (r: Option<TimeRecord>)
    ensures r.Some? <==> HasOpen(s)
    ensures r.Some? ==> r.value in s.records && r.value.IsOpen()
    ensures r.Some? ==> r.value == s.records[FirstOpenIndex(s.records).value]
  {
    match FirstOpenIndex(s.records)
    case None => None
    case Some(k) => Some(s.records[k])
  }

  /** Index of the first record with the given id, as `findIndex` returns it. */
  function FindIndexById(rs: seq<TimeRecord>, id: string): (k: Option<nat>)
    ensures k.Some? ==> k.value < |rs| && rs[k.value].id == id
    ensures k.Some? ==> forall j :: 0 <= j < k.value ==> rs[j].id != id
    ensures k.None? <==> !HasId(rs, id)
  {
    if |rs| == 0 then None
    else if rs[0].id == id then Some(0)
    else
      match FindIndexById(rs[1..], id)
      case None =>
        assert !HasId(rs, id) by {
          forall i | 0 <= i < |rs| ensures rs[i].id != id {
            if i > 0 { assert rs[1..][i - 1] == rs[i]; }
          }
        }
        None
      case Some(k) => Some(k + 1)
  }

  /* ---------------------------------------------------------------- updates */

  /** JavaScript `a || b` on optional strings: an absent or empty `a` yields `b`. */
  function OrElse(a: Option<string>, b: Option<string>): (r: Option<string>)
    ensures a.Some? && a.value != "" ==> r == a
    ensures a.None? || a.value == "" ==> r == b
  {
    if a.Some? && a.value != "" then a else b
  }

  /** An id generated below the counter differs from the counter's own id. */
  lemma IdBelowIsNotNext(id: string, n: nat)
    requires IdBelow(id, n)
    ensures id != RecordId(n)
  {
  }

  /** A record carrying the next counter value has an id no stored record has, and
      appending it keeps the store well formed. */
  lemma AppendFreshId(s: Store, rec: TimeRecord)
    requires rec.id == RecordId(s.nextId)
    ensures WellFormed(s) ==> !HasId(s.records, rec.id)
    ensures WellFormed(s) ==> WellFormed(Store(s.records + [rec], s.nextId + 1))
  {
    if WellFormed(s) {
      forall i | 0 <= i < |s.records| ensures s.records[i].id != rec.id {
        IdBelowIsNotNext(s.records[i].id, s.nextId);
      }
      AppendKeepsIdsBelow(s, rec);
      AppendKeepsIdsDistinct(s, rec);
    }
  }

  lemma AppendKeepsIdsBelow(s: Store, rec: TimeRecord)
    requires WellFormed(s) && rec.id == RecordId(s.nextId)
    ensures forall i :: 0 <= i < |s.records + [rec]| ==> IdBelow((s.records + [rec])[i].id, s.nextId + 1)
  {
    var rs := s.records + [rec];
    forall i | 0 <= i < |rs| ensures IdBelow(rs[i].id, s.nextId + 1) {
      if i < |s.records| {
        assert rs[i] == s.records[i];
      }
    }
  }

  lemma AppendKeepsIdsDistinct(s: Store, rec: TimeRecord)
    requires WellFormed(s) && rec.id == RecordId(s.nextId)
    ensures forall i, j :: 0 <= i < j < |s.records + [rec]| ==> (s.records + [rec])[i].id != (s.records + [rec])[j].id
  {
    var rs := s.records + [rec];
    forall i, j | 0 <= i < j < |rs| ensures rs[i].id != rs[j].id {
      assert rs[i] == s.records[i];
      if j < |s.records| {
        assert rs[j] == s.records[j];
      } else {
        IdBelowIsNotNext(s.records[i].id, s.nextId);
      }
    }
  }

  /** `checkIn(location, notes)`: appends a new open record stamped `now` under the next id. */
  function CheckIn(s: Store, now: int, location: Option<string>, notes: Option<string>): (res: (Store, TimeRecord))
    ensures res.0.records == s.records + [res.1]
    ensures res.0.nextId == s.nextId + 1
    ensures res.1.id == RecordId(s.nextId)
    ensures res.1.IsOpen()
    ensures res.1.checkInTime == now && res.1.createdAt == now && res.1.updatedAt == now
    ensures res.1.userId == CURRENT_USER.id && res.1.userName == CURRENT_USER.displayName
    ensures location.Some? && location.value != "" ==> res.1.location == location
    ensures location.None? || location.value == "" ==> res.1.location == Some(DEFAULT_LOCATION)
    ensures res.1.notes == notes && res.1.approvalStatus.None?
    ensures WellFormed(s) ==> WellFormed(res.0) && !HasId(s.records, res.1.id)
  {
    var rec := TimeRecord(RecordId(s.nextId), CURRENT_USER.id, CURRENT_USER.displayName,
                          now, None, OrElse(location, Some(DEFAULT_LOCATION)), notes, None, now, now);
    var s' := Store(s.records + [rec], s.nextId + 1);
    AppendFreshId(s, rec);
    (s', rec)
  }

  /** The record as `checkOut` rewrites it. */
  function Closed(r: TimeRecord, now: int, notes: Option<string>): TimeRecord {
    r.(checkOutTime := Some(now), notes := OrElse(notes, r.notes), updatedAt := now)
  }

  /** `checkOut(recordId, notes)`: closes the first record with that id at `now`;
      an unknown id yields `null` and leaves the store alone. */
  function CheckOut(s: Store, recordId: string, now: int, notes: Option<string>): (res: (Store, Option<TimeRecord>))
    ensures !HasId(s.records, recordId) ==> res == (s, None)
    ensures HasId(s.records, recordId) ==> res.1.Some?
    ensures res.1.Some? ==>
      var k := FindIndexById(s.records, recordId).value;
      && res.0 == s.(records := s.records[k := res.1.value])
      && res.1.value.id == recordId
      && res.1.value.userId == s.records[k].userId
      && res.1.value.checkInTime == s.records[k].checkInTime
      && res.1.value.checkOutTime == Some(now) && res.1.value.updatedAt == now
      && (notes.Some? && notes.value != "" ==> res.1.value.notes == notes)
      && (notes.None? || notes.value == "" ==> res.1.value.notes == s.records[k].notes)
      && res.1.value == s.records[k].(checkOutTime := Some(now), updatedAt := now, notes := res.1.value.notes)
    ensures WellFormed(s) ==> WellFormed(res.0)
    ensures WellFormed(s) && res.1.Some? ==>
      forall j :: 0 <= j < |s.records| && s.records[j].id != recordId ==> res.0.records[j] == s.records[j]
  {
    match FindIndexById(s.records, recordId)
    case None => (s, None)
    case Some(k) =>
      var rec := Closed(s.records[k], now, notes);
      (s.(records := s.records[k := rec]), Some(rec))
  }

  /* ---------------------------------------------------------------- accounting */

  /** `calculateHours(checkIn, checkOut)`: hours from check-in to check-out, or to `now`
      while the record is open. */
  function CalculateHours(checkIn: int, checkOut: Option<int>, now: int): (h: real)
    ensures checkOut.Some? ==> h * (HOUR_MS as real) == (checkOut.value - checkIn) as real
    ensures checkOut.None? ==> h * (HOUR_MS as real) == (now - checkIn) as real
  {
    HoursBetween(checkIn, if checkOut.Some? then checkOut.value else now)
  }

  function RecordHours(r: TimeRecord, now: int): real {
    CalculateHours(r.checkInTime, r.checkOutTime, now)
  }

  /** The hours of an open shift never go down as the clock advances. */
  lemma OpenHoursMonotone(checkIn: int, now1: int, now2: int)
    requires now1 <= now2
    ensures CalculateHours(checkIn, None, now1) <= CalculateHours(checkIn, None, now2)
  {
  }

  /** `recs.reduce((sum, r) => sum + calculateHours(...), 0)`, accumulated left to right. */
  function SumHours(rs: seq<TimeRecord>, now: int): real {
    if |rs| == 0 then 0.0 else SumHours(rs[..|rs| - 1], now) + RecordHours(rs[|rs| - 1], now)
  }

  /** Reference definition: every record contributes its hours when it satisfies `p`, else 0. */
  function SumHoursWhere(rs: seq<TimeRecord>, p: TimeRecord -> bool, now: int): real {
    if |rs| == 0 then 0.0
    else SumHoursWhere(rs[..|rs| - 1], p, now) + (if p(rs[|rs| - 1]) then RecordHours(rs[|rs| - 1], now) else 0.0)
  }

  lemma {:induction false} SumHoursAppend(a: seq<TimeRecord>, b: seq<TimeRecord>, now: int)
    ensures SumHours(a + b, now) == SumHours(a, now) + SumHours(b, now)
    decreases |b|
  {
    if |b| == 0 {
      assert a + b == a;
    } else {
      assert (a + b)[..|a + b| - 1] == a + b[..|b| - 1];
      SumHoursAppend(a, b[..|b| - 1], now);
    }
  }

  /** Summing a filtered list is summing exactly the matching records of the original. */
  lemma {:induction false} SumFilterIsSumWhere(rs: seq<TimeRecord>, p: TimeRecord -> bool, now: int)
    ensures SumHours(Filter(rs, p), now) == SumHoursWhere(rs, p, now)
    decreases |rs|
  {
    if |rs| > 0 {
      var init := rs[..|rs| - 1];
      var last := rs[|rs| - 1];
      SumFilterIsSumWhere(init, p, now);
      if p(last) {
        var f := Filter(init, p);
        assert (f + [last])[..|f|] == f;
      }
    }
  }

  /** Appending one record adds its hours exactly when it passes the filter. */
  lemma SumFilterAppendOne(rs: seq<TimeRecord>, x: TimeRecord, p: TimeRecord -> bool, now: int)
    ensures SumHours(Filter(rs + [x], p), now)
         == SumHours(Filter(rs, p), now) + (if p(x) then RecordHours(x, now) else 0.0)
  {
    SumFilterIsSumWhere(rs + [x], p, now);
    SumFilterIsSumWhere(rs, p, now);
    assert (rs + [x])[..|rs|] == rs;
  }

  /** `getTodayTotalHours()`: each record of today counts once, and no other record counts. */
  function GetTodayTotalHours(s: Store, now: int): (h: real)
    ensures h == SumHoursWhere(s.records, IsTodayPred(now), now)
  {
    SumFilterIsSumWhere(s.records, IsTodayPred(now), now);
    SumHours(GetTodayRecords(s, now), now)
  }

  /** Adding a closed record dated today raises today's total by that record's duration;
      a record dated another day leaves it unchanged. */
  lemma TodayTotalAddRecord(s: Store, x: TimeRecord, now: int)
    requires x.checkOutTime.Some?
    ensures UtcDay(x.checkInTime) == UtcDay(now) ==>
      GetTodayTotalHours(s.(records := s.records + [x]), now)
        == GetTodayTotalHours(s, now) + HoursBetween(x.checkInTime, x.checkOutTime.value)
    ensures UtcDay(x.checkInTime) != UtcDay(now) ==>
      GetTodayTotalHours(s.(records := s.records + [x]), now) == GetTodayTotalHours(s, now)
  {
    SumFilterAppendOne(s.records, x, IsTodayPred(now), now);
  }

  /** `getWeekTotalHours()`: hours of the records checked in since local Monday 00:00, each
      counted once. */
  function GetWeekTotalHours(s: Store, now: int, offset: int): (h: real)
    ensures h == SumHoursWhere(s.records, CheckedInSincePred(MondayMidnight(now, offset)), now)
  {
    SumFilterIsSumWhere(s.records, CheckedInSincePred(MondayMidnight(now, offset)), now);
    SumHours(Filter(s.records, CheckedInSincePred(MondayMidnight(now, offset))), now)
  }

  /** A record counts towards the week exactly when it was checked in at or after Monday 00:00. */
  lemma WeekTotalAddRecord(s: Store, x: TimeRecord, now: int, offset: int)
    ensures x.checkInTime >= MondayMidnight(now, offset) ==>
      GetWeekTotalHours(s.(records := s.records + [x]), now, offset)
        == GetWeekTotalHours(s, now, offset) + RecordHours(x, now)
    ensures x.checkInTime < MondayMidnight(now, offset) ==>
      GetWeekTotalHours(s.(records := s.records + [x]), now, offset) == GetWeekTotalHours(s, now, offset)
  {
    SumFilterAppendOne(s.records, x, CheckedInSincePred(MondayMidnight(now, offset)), now);
  }

  /** `n > 0 ? total / n : 0`: the mean of `n` amounts summing to `total`, or 0 for none. */
  function AverageOrZero(total: real, n: nat): (avg: real)
    ensures n > 0 ==> avg * (n as real) == total
    ensures n == 0 ==> avg == 0.0
  {
    if n > 0 then total / (n as real) else 0.0
  }
}
