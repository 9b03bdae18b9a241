/** `MockTimeRegistrationService`: the store wrapped in the CheckedOut/CheckedIn state
    machine. Every operation returns a tagged `ServiceResponse`; the simulated
    network delay and the logging are not modelled. */
module TimeRegistrationService {
  import opened Types
  import opened Time
  import opened Seqs
  import opened TimeRecords

  const ALREADY_CHECKED_IN: string := "Already checked in. Please check out first."
  const NOT_CHECKED_IN: string := "Not checked in. Please check in first."
  const CHECK_OUT_FAILED: string := "Failed to check out"
  const DEFAULT_RECENT_DAYS: int := 7

  /** The single-open-shift rule. */
  predicate AtMostOneOpen(s: Store) {
    forall i, j :: 0 <= i < |s.records| && 0 <= j < |s.records| && s.records[i].IsOpen() && s.records[j].IsOpen() ==> i == j
  }

  predicate OwnedByCurrentUser(s: Store) {
    forall i :: 0 <= i < |s.records| ==> s.records[i].userId == CURRENT_USER.id
  }

  /** What every state reachable from the seed satisfies. */
  predicate Invariant(s: Store) {
    AtMostOneOpen(s) && WellFormed(s) && OwnedByCurrentUser(s)
  }

  /** `getStatus()`: checked in exactly when an open record exists, with that record attached. */
  function GetStatus(s: Store, now: int, offset: int): (r: ServiceResponse<CheckInStatus>)
    ensures r.Ok?
    ensures r.data.isCheckedIn <==> HasOpen(s)
    ensures r.data.isCheckedIn <==> r.data.currentRecord.Some?
    ensures r.data.currentRecord.Some? ==> r.data.currentRecord.value in s.records && r.data.currentRecord.value.IsOpen()
    ensures r.data.todayTotalHours == GetTodayTotalHours(s, now)
    ensures r.data.weekTotalHours == GetWeekTotalHours(s, now, offset)
  {
    var current := GetCurrentOpenRecord(s);
    Ok(CheckInStatus(current.Some?, current, GetTodayTotalHours(s, now), GetWeekTotalHours(s, now, offset)))
  }

  /** `checkIn(location, notes)`: refused while a record is open; otherwise the store appends
      one new open record and returns it. */
  function CheckIn(s: Store, now: int, location: Option<string>, notes: Option<string>): (res: (Store, ServiceResponse<TimeRecord>))
    ensures HasOpen(s) ==> res == (s, Err(ALREADY_CHECKED_IN))
    ensures !HasOpen(s) ==> res.1.Ok?
    ensures !HasOpen(s) ==> res.0.records == s.records + [res.1.data]
    ensures !HasOpen(s) ==> res.1.data.IsOpen() && res.1.data.checkInTime == now
    ensures !HasOpen(s) ==> res.1.data.id == RecordId(s.nextId)
    ensures Invariant(s) ==> Invariant(res.0)
  {
    if GetCurrentOpenRecord(s).Some? then (s, Err(ALREADY_CHECKED_IN))
    else
      var (s', rec) := TimeRecords.CheckIn(s, now, location, notes);
      (s', Ok(rec))
  }

  /** `checkOut(notes)`: refused when nothing is open; otherwise the open record is closed at
      `now` and returned. */
  function CheckOut(s: Store, now: int, notes: Option<string>): (res: (Store, ServiceResponse<TimeRecord>))
    ensures !HasOpen(s) ==> res == (s, Err(NOT_CHECKED_IN))
    ensures HasOpen(s) ==> res.1.Ok?
    ensures HasOpen(s) && WellFormed(s) ==>
      var k := FirstOpenIndex(s.records).value;
      && res.0.records == s.records[k := res.1.data]
      && res.1.data.id == s.records[k].id
      && res.1.data.userId == s.records[k].userId
      && res.1.data.checkInTime == s.records[k].checkInTime
      && res.1.data.checkOutTime == Some(now)
    ensures Invariant(s) ==> Invariant(res.0) && !HasOpen(res.0)
  {
    match GetCurrentOpenRecord(s)
    case None => (s, Err(NOT_CHECKED_IN))
    case Some(current) =>
      var k := FirstOpenIndex(s.records).value;
      assert HasId(s.records, current.id) by { assert s.records[k].id == current.id; }
      var (s', closed) := TimeRecords.CheckOut(s, current.id, now, notes);
      match closed
      case None => (s', Err(CHECK_OUT_FAILED))
      case Some(rec) =>
        var k' := FindIndexById(s.records, current.id).value;
        assert WellFormed(s) ==> k' == k;
        assert AtMostOneOpen(s) ==> AtMostOneOpen(s') by {
          if AtMostOneOpen(s) {
            forall i, j | 0 <= i < |s'.records| && 0 <= j < |s'.records| && s'.records[i].IsOpen() && s'.records[j].IsOpen()
              ensures i == j
            {
              assert i != k' && j != k';
              assert s'.records[i] == s.records[i] && s'.records[j] == s.records[j];
            }
          }
        }
        assert Invariant(s) ==> !HasOpen(s') by {
          if Invariant(s) {
            forall i | 0 <= i < |s'.records| ensures !s'.records[i].IsOpen() {
              if i != k { assert s'.records[i] == s.records[i]; }
            }
          }
        }
        (s', Ok(rec))
  }

  /** The start of the `getRecentRecords` window: `days` (by default 7) days before `now`. */
  function RecentCutoff(now: int, days: Option<int>): int {
    DaysBefore(now, days.GetOr(DEFAULT_RECENT_DAYS))
  }

  /** `getRecentRecords(days = 7)`: the records checked in at or after `days` days before
      `now`, newest first. */
  function GetRecentRecords(s: Store, now: int, days: Option<int>): (r: ServiceResponse<seq<TimeRecord>>)
    ensures r.Ok?
    ensures NewestFirst(r.data)
    ensures forall x :: x in r.data <==> x in s.records && x.checkInTime >= RecentCutoff(now, days)
    ensures forall x :: multiset(r.data)[x] == (if x.checkInTime >= RecentCutoff(now, days) then multiset(s.records)[x] else 0)
  {
    var cutoff := RecentCutoff(now, days);
    var all := GetAllRecords(s);
    FilterKeepsNewestFirst(all, CheckedInSincePred(cutoff));
    assert forall x :: x in all <==> x in s.records by {
      forall x ensures x in all <==> x in s.records {
        assert x in all <==> x in multiset(all);
      }
    }
    Ok(Filter(all, CheckedInSincePred(cutoff)))
  }

  /** A wider window returns every record a narrower one does. */
  lemma RecentRecordsWindowGrows(s: Store, now: int, d1: int, d2: int)
    requires d1 <= d2
    ensures forall x :: x in GetRecentRecords(s, now, Some(d1)).data ==> x in GetRecentRecords(s, now, Some(d2)).data
  {
    assert DaysBefore(now, d2) <= DaysBefore(now, d1);
  }

  /** With the default window a record from six days ago is listed and one from eight days ago is not. */
  lemma RecentRecordsDefaultWindow(s: Store, now: int, x: TimeRecord, y: TimeRecord)
    requires x in s.records && x.checkInTime == now - 6 * DAY_MS
    requires y.checkInTime == now - 8 * DAY_MS
    ensures x in GetRecentRecords(s, now, None).data
    ensures y !in GetRecentRecords(s, now, None).data
  {
  }

  /** `getCurrentUser()`: always succeeds with the fixed employee John Doe. */
  function GetCurrentUser(): (r: ServiceResponse<User>)
    ensures r.Ok? && r.data.id == "user-001" && r.data.role == Employee
  {
    Ok(CURRENT_USER)
  }

  /* ---------------------------------------------------------------- runs */

  datatype Command =
    | CheckInCommand(now: int, location: Option<string>, notes: Option<string>)
    | CheckOutCommand(now: int, notes: Option<string>)

  function Step(s: Store, c: Command): Store {
    match c
    case CheckInCommand(now, location, notes) => CheckIn(s, now, location, notes).0
    case CheckOutCommand(now, notes) => CheckOut(s, now, notes).0
  }

  function Run(s: Store, cs: seq<Command>): Store
    decreases |cs|
  {
    if |cs| == 0 then s else Run(Step(s, cs[0]), cs[1..])
  }

  lemma {:induction false} RunPreservesInvariant(s: Store, cs: seq<Command>)
    requires Invariant(s)
    ensures Invariant(Run(s, cs))
    decreases |cs|
  {
    if |cs| > 0 {
      RunPreservesInvariant(Step(s, cs[0]), cs[1..]);
    }
  }

  /** Any sequence of service check-ins and check-outs from the seed keeps at most one open
      record, all of them the current user's, under distinct ids. */
  lemma SingleOpenFromSeed(loadTime: int, cs: seq<Command>)
    ensures AtMostOneOpen(Run(ResetMockData(loadTime), cs))
    ensures WellFormed(Run(ResetMockData(loadTime), cs))
    ensures OwnedByCurrentUser(Run(ResetMockData(loadTime), cs))
  {
    SeedInvariant(loadTime);
    RunPreservesInvariant(ResetMockData(loadTime), cs);
  }

  lemma SeedInvariant(loadTime: int)
    ensures Invariant(ResetMockData(loadTime))
  {
    assert !HasOpen(ResetMockData(loadTime));
  }

  /** Checking in twice without checking out refuses the second call and changes nothing. */
  lemma CheckInTwiceFails(s: Store, t1: int, t2: int, l1: Option<string>, n1: Option<string>, l2: Option<string>, n2: Option<string>)
    ensures var s1 := CheckIn(s, t1, l1, n1).0; CheckIn(s1, t2, l2, n2) == (s1, Err(ALREADY_CHECKED_IN))
  {
    var s1 := CheckIn(s, t1, l1, n1).0;
    if !HasOpen(s) {
      assert s1.records[|s.records|].IsOpen();
    }
  }

  /** Checking out twice in a reachable state refuses the second call. */
  lemma CheckOutTwiceFails(s: Store, t1: int, t2: int, n1: Option<string>, n2: Option<string>)
    requires Invariant(s)
    ensures var s1 := CheckOut(s, t1, n1).0; CheckOut(s1, t2, n2) == (s1, Err(NOT_CHECKED_IN))
  {
  }

  /** After a successful check-in the status reports checked in, with the new record. */
  lemma StatusAfterCheckIn(s: Store, now: int, location: Option<string>, notes: Option<string>, later: int, offset: int)
    requires !HasOpen(s)
    ensures var (s1, r1) := CheckIn(s, now, location, notes);
            && GetStatus(s1, later, offset).data.isCheckedIn
            && GetStatus(s1, later, offset).data.currentRecord == Some(r1.data)
  {
    var (s1, r1) := CheckIn(s, now, location, notes);
    assert forall j :: 0 <= j < |s.records| ==> !s.records[j].IsOpen();
    FirstOpenAfterClosed(s.records, r1.data);
    assert s1.records[|s.records|] == r1.data;
  }

  /** Checking in at `t0` and out at `t1` yields one closed record spanning exactly `t0` to `t1`. */
  lemma CheckInCheckOutRoundTrip(s: Store, t0: int, t1: int, location: Option<string>, n0: Option<string>, n1: Option<string>, now: int)
    requires Invariant(s) && !HasOpen(s)
    ensures var (s1, r1) := CheckIn(s, t0, location, n0);
            var (s2, r2) := CheckOut(s1, t1, n1);
            && r1.Ok? && r2.Ok?
            && r2.data.id == r1.data.id
            && r2.data.checkInTime == t0 && r2.data.checkOutTime == Some(t1)
            && RecordHours(r2.data, now) == HoursBetween(t0, t1)
            && s2.records == s.records + [r2.data]
  {
    var (s1, r1) := CheckIn(s, t0, location, n0);
    var k := |s.records|;
    assert s1.records[k] == r1.data;
    assert FirstOpenIndex(s1.records) == Some(k);
    var (s2, r2) := CheckOut(s1, t1, n1);
    assert s2.records == s1.records[k := r2.data];
    assert s2.records == s.records + [r2.data];
  }
}
