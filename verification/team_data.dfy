/** Team aggregation of `mockData/teamData.ts`: queries over the team record list and
    per-member and team-wide figures for the manager views. The record list and the
    roster are arguments; `now` is the clock. */
module TeamData {
  import opened Types
  import opened Time
  import opened Seqs
  import opened TimeRecords

  const DEFAULT_MEMBER_DAYS: int := 30
  const DEFAULT_TEAM_DAYS: int := 7
  /** The statistics and summaries use a rolling seven-day window, not the calendar week. */
  const ROLLING_WEEK_DAYS: int := 7

  /** `mockTeamMembers` */
  const TEAM_MEMBERS: seq<User> := [
    User("user-001", "John Doe", "john.doe@contoso.com", Some("Engineering"), Employee),
    User("user-002", "Jane Smith", "jane.smith@contoso.com", Some("Engineering"), Employee),
    User("user-003", "Mike Johnson", "mike.johnson@contoso.com", Some("Engineering"), Employee),
    User("user-004", "Emily Brown", "emily.brown@contoso.com", Some("Engineering"), Employee),
    User("user-005", "David Wilson", "david.wilson@contoso.com", Some("Engineering"), Employee)
  ]

  function MemberSincePred(userId: string, cutoff: int): TimeRecord -> bool {
    (r: TimeRecord) => r.userId == userId && r.checkInTime >= cutoff
  }

  function MemberTodayPred(userId: string, now: int): TimeRecord -> bool {
    (r: TimeRecord) => r.userId == userId && UtcDay(r.checkInTime) == UtcDay(now)
  }

  /** Checked in today and not yet checked out. */
  function TodayOpenPred(now: int): TimeRecord -> bool {
    (r: TimeRecord) => UtcDay(r.checkInTime) == UtcDay(now) && r.IsOpen()
  }

  /** `getAllTeamRecords()`: every team record, newest first. */
  function GetAllTeamRecords(recs: seq<TimeRecord>): (r: seq<TimeRecord>)
    ensures NewestFirst(r)
    ensures multiset(r) == multiset(recs)
  {
    SortNewestFirst(recs)
  }

  /** Sorting a filtered list: the matching records, each as often as in `recs`, newest first. */
  function SortedFilter(recs: seq<TimeRecord>, p: TimeRecord -> bool): (r: seq<TimeRecord>)
    ensures NewestFirst(r)
    ensures forall x :: multiset(r)[x] == (if p(x) then multiset(recs)[x] else 0)
    ensures forall x :: x in r <==> x in recs && p(x)
  {
    var f := Filter(recs, p);
    var r := SortNewestFirst(f);
    assert forall x :: x in r <==> x in f by {
      forall x ensures x in r <==> x in f {
        assert x in r <==> x in multiset(r);
      }
    }
    r
  }

  /** `getTeamMemberRecords(userId, days = 30)`: that member's records of the window, newest first. */
  function GetTeamMemberRecords(recs: seq<TimeRecord>, userId: string, days: Option<int>, now: int): (r: seq<TimeRecord>)
    ensures NewestFirst(r)
    ensures forall x :: x in r <==> x in recs && x.userId == userId && x.checkInTime >= DaysBefore(now, days.GetOr(DEFAULT_MEMBER_DAYS))
    ensures forall x :: x in r ==> multiset(r)[x] == multiset(recs)[x]
  {
    SortedFilter(recs, MemberSincePred(userId, DaysBefore(now, days.GetOr(DEFAULT_MEMBER_DAYS))))
  }

  /** `getTeamRecordsByDate(days = 7)`: everyone's records of the window, newest first. */
  function GetTeamRecordsByDate(recs: seq<TimeRecord>, days: Option<int>, now: int): (r: seq<TimeRecord>)
    ensures NewestFirst(r)
    ensures forall x :: x in r <==> x in recs && x.checkInTime >= DaysBefore(now, days.GetOr(DEFAULT_TEAM_DAYS))
    ensures forall x :: x in r ==> multiset(r)[x] == multiset(recs)[x]
  {
    SortedFilter(recs, CheckedInSincePred(DaysBefore(now, days.GetOr(DEFAULT_TEAM_DAYS))))
  }

  /** `calculateTeamStatistics()`, over the team records `recs` and the roster. */
  function CalculateTeamStatistics(recs: seq<TimeRecord>, roster: seq<User>, now: int): (st: TeamStatistics)
    ensures st.totalEmployees == |roster|
    ensures st.currentlyCheckedIn == |Filter(recs, TodayOpenPred(now))|
    ensures st.currentlyCheckedIn <= |Filter(recs, IsTodayPred(now))|
    ensures st.currentlyCheckedIn > 0 <==> exists x :: x in recs && UtcDay(x.checkInTime) == UtcDay(now) && x.IsOpen()
    ensures st.todayTotalHours == SumHoursWhere(recs, IsTodayPred(now), now)
    ensures st.weekTotalHours == SumHoursWhere(recs, CheckedInSincePred(DaysBefore(now, ROLLING_WEEK_DAYS)), now)
    ensures |roster| > 0 ==> st.averageHoursPerEmployee == st.weekTotalHours / (|roster| as real)
    ensures |roster| == 0 ==> st.averageHoursPerEmployee == 0.0
  {
    var weekHours := TeamWeekHours(recs, now);
    TeamStatistics(|roster|, CheckedInToday(recs, now), TeamTodayHours(recs, now), weekHours, AverageOrZero(weekHours, |roster|))
  }

  /** The number of today's records still open. */
  function CheckedInToday(recs: seq<TimeRecord>, now: int): (n: nat)
    ensures n == |Filter(recs, TodayOpenPred(now))|
    ensures n <= |Filter(recs, IsTodayPred(now))|
    ensures n > 0 <==> exists x :: x in recs && UtcDay(x.checkInTime) == UtcDay(now) && x.IsOpen()
  {
    var open := Filter(Filter(recs, IsTodayPred(now)), IsOpenPred());
    FilterCompose(recs, IsTodayPred(now), IsOpenPred(), TodayOpenPred(now));
    assert |open| > 0 ==> open[0] in open;
    |open|
  }

  /** One more team record raises the checked-in count by one exactly when it is an open
      record of today. */
  lemma CheckedInTodayAppend(recs: seq<TimeRecord>, x: TimeRecord, now: int)
    ensures CheckedInToday(recs + [x], now)
         == CheckedInToday(recs, now) + (if UtcDay(x.checkInTime) == UtcDay(now) && x.IsOpen() then 1 else 0)
  {
    FilterAppend(recs, [x], TodayOpenPred(now));
    assert [x][..0] == [];
  }

  /** The hours of every record checked in today. */
  function TeamTodayHours(recs: seq<TimeRecord>, now: int): (h: real)
    ensures h == SumHoursWhere(recs, IsTodayPred(now), now)
  {
    SumFilterIsSumWhere(recs, IsTodayPred(now), now);
    SumHours(Filter(recs, IsTodayPred(now)), now)
  }

  /** The hours of every record checked in during the last seven days. */
  function TeamWeekHours(recs: seq<TimeRecord>, now: int): (h: real)
    ensures h == SumHoursWhere(recs, CheckedInSincePred(DaysBefore(now, ROLLING_WEEK_DAYS)), now)
  {
    SumFilterIsSumWhere(recs, CheckedInSincePred(DaysBefore(now, ROLLING_WEEK_DAYS)), now);
    SumHours(Filter(recs, CheckedInSincePred(DaysBefore(now, ROLLING_WEEK_DAYS))), now)
  }

  predicate HasTodayRecord(recs: seq<TimeRecord>, userId: string, now: int) {
    exists x :: x in recs && x.userId == userId && UtcDay(x.checkInTime) == UtcDay(now)
  }

  predicate HasOpenTodayRecord(recs: seq<TimeRecord>, userId: string, now: int) {
    exists x :: x in recs && x.userId == userId && UtcDay(x.checkInTime) == UtcDay(now) && x.IsOpen()
  }

  /** The member's records of today's UTC day, in store order; the first of them is the
      member's first record of today in the store. */
  function MemberToday(recs: seq<TimeRecord>, userId: string, now: int): (r: seq<TimeRecord>)
    ensures forall x :: x in r <==> x in recs && x.userId == userId && UtcDay(x.checkInTime) == UtcDay(now)
    ensures forall x :: multiset(r)[x] == (if x.userId == userId && UtcDay(x.checkInTime) == UtcDay(now) then multiset(recs)[x] else 0)
    ensures IsSubsequence(r, recs)
    ensures r != [] <==> HasTodayRecord(recs, userId, now)
    ensures r != [] ==> exists j :: IsFirstMatch(recs, MemberTodayPred(userId, now), j) && recs[j] == r[0]
  {
    var r := Filter(recs, MemberTodayPred(userId, now));
    assert r != [] ==> r[0] in r;
    if r != [] then
      FilterHeadIsFirstMatch(recs, MemberTodayPred(userId, now));
      r
    else
      r
  }

  /** The first open record among the member's records of today, if any. */
  function MemberCurrent(recs: seq<TimeRecord>, userId: string, now: int): (c: Option<TimeRecord>)
    ensures c.Some? <==> HasOpenTodayRecord(recs, userId, now)
    ensures c.Some? ==> c.value in MemberToday(recs, userId, now) && c.value.IsOpen()
    ensures c.Some? ==>
      exists k :: IsFirstMatch(MemberToday(recs, userId, now), IsOpenPred(), k) && MemberToday(recs, userId, now)[k] == c.value
  {
    var today := MemberToday(recs, userId, now);
    match FirstOpenIndex(today)
    case None => None
    case Some(k) =>
      assert today[k] in today;
      assert IsFirstMatch(today, IsOpenPred(), k);
      Some(today[k])
  }

  /** One element of `getTeamMemberSummaries()`. */
  function MemberSummary(recs: seq<TimeRecord>, member: User, now: int): (m: TeamMemberSummary)
    ensures m.user == member
    ensures m.todayStatus == NotStarted <==> !HasTodayRecord(recs, member.id, now)
    ensures m.todayStatus == CheckedIn <==> HasOpenTodayRecord(recs, member.id, now)
    ensures m.todayStatus == CheckedOut <==> HasTodayRecord(recs, member.id, now) && !HasOpenTodayRecord(recs, member.id, now)
    ensures !HasOpenTodayRecord(recs, member.id, now) ==> m.currentLocation.None?
    ensures m.currentLocation.Some? ==>
      exists x :: x in recs && x.userId == member.id && UtcDay(x.checkInTime) == UtcDay(now) && x.IsOpen() && x.location == m.currentLocation
    ensures m.lastCheckIn.Some? <==> HasTodayRecord(recs, member.id, now)
    ensures m.lastCheckIn.Some? ==>
      exists x :: x in recs && x.userId == member.id && UtcDay(x.checkInTime) == UtcDay(now) && m.lastCheckIn == Some(x.checkInTime)
    ensures MemberCurrent(recs, member.id, now).Some? ==>
      && m.currentLocation == MemberCurrent(recs, member.id, now).value.location
      && m.lastCheckIn == Some(MemberCurrent(recs, member.id, now).value.checkInTime)
    ensures MemberCurrent(recs, member.id, now).None? && MemberToday(recs, member.id, now) != [] ==>
      m.lastCheckIn == Some(MemberToday(recs, member.id, now)[0].checkInTime)
    ensures m.todayHours == SumHoursWhere(recs, MemberTodayPred(member.id, now), now)
    ensures m.weekHours == SumHoursWhere(recs, MemberSincePred(member.id, DaysBefore(now, ROLLING_WEEK_DAYS)), now)
  {
    var today := MemberToday(recs, member.id, now);
    var current := MemberCurrent(recs, member.id, now);
    assert today != [] ==> today[0] in today;
    var status :=
      if |today| > 0 then (if current.Some? then CheckedIn else CheckedOut) else NotStarted;
    TeamMemberSummary(
      member,
      status,
      MemberHoursWhere(recs, MemberTodayPred(member.id, now), now),
      MemberHoursWhere(recs, MemberSincePred(member.id, DaysBefore(now, ROLLING_WEEK_DAYS)), now),
      if current.Some? then current.value.location else None,
      if current.Some? then Some(current.value.checkInTime)
      else if |today| > 0 then Some(today[0].checkInTime)
      else None)
  }

  /** Summing the hours of the filtered list, as the summaries do. */
  function MemberHoursWhere(recs: seq<TimeRecord>, p: TimeRecord -> bool, now: int): (h: real)
    ensures h == SumHoursWhere(recs, p, now)
  {
    SumFilterIsSumWhere(recs, p, now);
    SumHours(Filter(recs, p), now)
  }

  /** `getTeamMemberSummaries()`: one summary per roster member, in roster order. */
  function GetTeamMemberSummaries(recs: seq<TimeRecord>, roster: seq<User>, now: int): (r: seq<TeamMemberSummary>)
    ensures |r| == |roster|
    ensures forall i :: 0 <= i < |r| ==> r[i].user == roster[i]
    ensures forall i :: 0 <= i < |r| ==> r[i] == MemberSummary(recs, roster[i], now)
  {
    seq(|roster|, i requires 0 <= i < |roster| => MemberSummary(recs, roster[i], now))
  }

  /** The statistics and the summaries agree: nobody shows as checked in while the team
      count of open records today is zero, and a checked-in member makes it positive. */
  lemma CheckedInSummaryMeansOpenToday(recs: seq<TimeRecord>, roster: seq<User>, now: int, i: int)
    requires 0 <= i < |roster|
    ensures GetTeamMemberSummaries(recs, roster, now)[i].todayStatus == CheckedIn ==>
      CalculateTeamStatistics(recs, roster, now).currentlyCheckedIn > 0
  {
    var m := GetTeamMemberSummaries(recs, roster, now)[i];
    if m.todayStatus == CheckedIn {
      assert HasOpenTodayRecord(recs, roster[i].id, now);
    }
  }
}
