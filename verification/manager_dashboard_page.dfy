/** The manager dashboard: team statistics cards and a searchable list of the team
    members' summaries for today. */
module ManagerDashboardPage {
  import opened Types
  import opened Text
  import opened Seqs
  import opened TimeRecords
  import opened TeamData
  import opened HoursDisplay
  import opened Badges

  /** What the dashboard holds once loaded; `statistics` is absent until the load finishes. */
  datatype Dashboard = Dashboard(teamMembers: seq<TeamMemberSummary>, statistics: Option<TeamStatistics>, searchTerm: string)

  const INITIAL_DASHBOARD: Dashboard := Dashboard([], None, "")

  /** `loadData()`: the summaries and the statistics, both read at `now`. */
  function LoadData(d: Dashboard, recs: seq<TimeRecord>, roster: seq<User>, now: int): (d': Dashboard)
    ensures d'.teamMembers == GetTeamMemberSummaries(recs, roster, now)
    ensures d'.statistics == Some(CalculateTeamStatistics(recs, roster, now))
    ensures d'.searchTerm == d.searchTerm
  {
    d.(teamMembers := GetTeamMemberSummaries(recs, roster, now), statistics := Some(CalculateTeamStatistics(recs, roster, now)))
  }

  /** A member matches a non-empty term when the lower-cased term occurs in the lower-cased
      display name, e-mail address or non-empty current location. */
  predicate MemberMatches(m: TeamMemberSummary, term: string) {
    var search := ToLower(term);
    || Includes(ToLower(m.user.displayName), search)
    || Includes(ToLower(m.user.email), search)
    || (m.currentLocation.Some? && m.currentLocation.value != "" && Includes(ToLower(m.currentLocation.value), search))
  }

  function MemberSearchPred(term: string): TeamMemberSummary -> bool {
    (m: TeamMemberSummary) => term == "" || MemberMatches(m, term)
  }

  /** `filteredMembers`: an empty term keeps every member; the rest keep roster order. */
  function FilterMembers(members: seq<TeamMemberSummary>, term: string): (r: seq<TeamMemberSummary>)
    ensures term == "" ==> r == members
    ensures term != "" ==> forall m :: m in r <==> m in members && MemberMatches(m, term)
    ensures term != "" ==> forall m :: multiset(r)[m] == (if MemberMatches(m, term) then multiset(members)[m] else 0)
    ensures IsSubsequence(r, members)
  {
    if term == "" then
      FilterAll(members, MemberSearchPred(term));
      Filter(members, MemberSearchPred(term))
    else
      Filter(members, MemberSearchPred(term))
  }

  function SetSearchTerm(d: Dashboard, term: string): (d': Dashboard)
    ensures d' == d.(searchTerm := term)
  {
    d.(searchTerm := term)
  }

  /** The list shown under "Team Status"; an empty list shows the "No employees found" line. */
  function ShownMembers(d: Dashboard): seq<TeamMemberSummary> {
    FilterMembers(d.teamMembers, d.searchTerm)
  }

  /** Searching for any part of a member's name, in any letter case, keeps that member listed. */
  lemma SearchByNameFindsMember(d: Dashboard, m: TeamMemberSummary, part: string)
    requires m in d.teamMembers
    requires Includes(m.user.displayName, part)
    ensures m in ShownMembers(SetSearchTerm(d, part))
  {
    IncludesToLower(m.user.displayName, part);
  }

  /** The same for the e-mail address. */
  lemma SearchByEmailFindsMember(d: Dashboard, m: TeamMemberSummary, part: string)
    requires m in d.teamMembers
    requires Includes(m.user.email, part)
    ensures m in ShownMembers(SetSearchTerm(d, part))
  {
    IncludesToLower(m.user.email, part);
  }

  /** Right after loading with an empty search, every roster member is listed, in roster order. */
  lemma LoadedDashboardListsRoster(recs: seq<TimeRecord>, roster: seq<User>, now: int)
    ensures var shown := ShownMembers(LoadData(INITIAL_DASHBOARD, recs, roster, now));
      |shown| == |roster| && forall i :: 0 <= i < |shown| ==> shown[i].user == roster[i]
  {
  }

  /** A member row: status badge, today's and the week's hours, and the location or a dash.
      The hours use the page's own `formatHours`, whose minutes can reach 60. */
  datatype MemberRow = MemberRow(name: string, email: string, status: Badge, today: string, week: string, location: string)

  function RowOf(m: TeamMemberSummary): (row: MemberRow)
    ensures row.status == StatusBadge(m.todayStatus)
    ensures m.currentLocation.Some? && m.currentLocation.value != "" ==> row.location == m.currentLocation.value
    ensures m.currentLocation.None? || m.currentLocation.value == "" ==> row.location == "\U{2014}"
    ensures row.name == m.user.displayName && row.email == m.user.email
    ensures row.today == FormatHoursAsWritten(m.todayHours) && row.week == FormatHoursAsWritten(m.weekHours)
  {
    MemberRow(m.user.displayName, m.user.email, StatusBadge(m.todayStatus),
      FormatHoursAsWritten(m.todayHours), FormatHoursAsWritten(m.weekHours),
      if m.currentLocation.Some? && m.currentLocation.value != "" then m.currentLocation.value else "\U{2014}")
  }

  /** Every row the dashboard shows with a "Checked In" badge belongs to a member who has an
      open record today, so the "Currently Checked In" card is not zero. */
  lemma CheckedInRowMeansCount(recs: seq<TimeRecord>, roster: seq<User>, now: int, term: string, m: TeamMemberSummary)
    requires m in FilterMembers(GetTeamMemberSummaries(recs, roster, now), term)
    requires RowOf(m).status == StatusBadge(CheckedIn)
    ensures CalculateTeamStatistics(recs, roster, now).currentlyCheckedIn > 0
  {
    var all := GetTeamMemberSummaries(recs, roster, now);
    assert m in all;
    var i :| 0 <= i < |all| && all[i] == m;
    StatusBadgeInjective(m.todayStatus, CheckedIn);
    CheckedInSummaryMeansOpenToday(recs, roster, now, i);
  }

  /** The row's hours cells read back as whole hours and rounded minutes, and they agree with
      the corrected rendering whenever the minutes come out below 60. */
  lemma RowHoursCells(m: TeamMemberSummary)
    ensures ParseHoursText(RowOf(m).today).Some?
    ensures var hm := ParseHoursText(RowOf(m).today).value;
      hm.0 * 60 + hm.1 == Round(60.0 * m.todayHours) && 0 <= hm.1 <= 60
    ensures HoursMinutesAsWritten(m.todayHours).1 < 60 ==> RowOf(m).today == FormatHours(m.todayHours)
    ensures HoursMinutesAsWritten(m.weekHours).1 < 60 ==> RowOf(m).week == FormatHours(m.weekHours)
  {
    HoursMinutesAgree(m.todayHours);
    HoursMinutesAgree(m.weekHours);
  }

  /** A member with 0.9999 hours today shows "0h 60m" in the today column. */
  lemma RowShowsSixtyMinutes(m: TeamMemberSummary)
    requires m.todayHours == 0.9999
    ensures RowOf(m).today == "0h 60m"
  {
    FormatHoursMinuteSixty();
  }
}
