/** The manager's team-reports page: the team records of a period, narrowed by a search
    term, summarised, paged fifteen at a time, and approved or rejected row by row. */
module ManagerReportsPage {
  import opened Types
  import opened Text
  import opened Seqs
  import opened TimeRecords
  import opened TeamData
  import opened Pagination
  import opened ShiftSummaries

  const RECORDS_PER_PAGE: nat := 15
  const DEFAULT_PERIOD: int := 7

  datatype Reports = Reports(selectedPeriod: int, records: seq<TimeRecord>, currentPage: int, searchTerm: string)

  const INITIAL_REPORTS: Reports := Reports(DEFAULT_PERIOD, [], 1, "")

  /* ---------------------------------------------------------------- search */

  /** A record matches a non-empty term when the lower-cased term occurs in its lower-cased
      user name or in its non-empty lower-cased location. */
  predicate MatchesSearch(r: TimeRecord, term: string) {
    var search := ToLower(term);
    || Includes(ToLower(r.userName), search)
    || (r.location.Some? && r.location.value != "" && Includes(ToLower(r.location.value), search))
  }

  function SearchPred(term: string): TimeRecord -> bool {
    (r: TimeRecord) => term == "" || MatchesSearch(r, term)
  }

  /** `filteredRecords`: an empty term keeps every record; the rest keep their order. */
  function SearchFilter(recs: seq<TimeRecord>, term: string): (r: seq<TimeRecord>)
    ensures term == "" ==> r == recs
    ensures term != "" ==> forall x :: x in r <==> x in recs && MatchesSearch(x, term)
    ensures term != "" ==> forall x :: multiset(r)[x] == (if MatchesSearch(x, term) then multiset(recs)[x] else 0)
    ensures IsSubsequence(r, recs)
  {
    if term == "" then
      FilterAll(recs, SearchPred(term));
      Filter(recs, SearchPred(term))
    else
      Filter(recs, SearchPred(term))
  }

  function FilteredRecords(rp: Reports): seq<TimeRecord> {
    SearchFilter(rp.records, rp.searchTerm)
  }

  /** Searching for any part of an employee's name, in any letter case, keeps that record. */
  lemma SearchByNameFindsRecord(recs: seq<TimeRecord>, r: TimeRecord, part: string)
    requires r in recs && Includes(r.userName, part)
    ensures r in SearchFilter(recs, part)
  {
    IncludesToLower(r.userName, part);
  }

  /* ---------------------------------------------------------------- summary */

  /** `new Set(recs.map(r => r.userId))` */
  function UserIds(recs: seq<TimeRecord>): (ids: set<string>)
    ensures forall u :: u in ids <==> exists i :: 0 <= i < |recs| && recs[i].userId == u
  {
    set i | 0 <= i < |recs| :: recs[i].userId
  }

  lemma {:induction false} UserIdsAtMostCount(recs: seq<TimeRecord>)
    ensures |UserIds(recs)| <= |recs|
    decreases |recs|
  {
    if |recs| > 0 {
      var init := recs[..|recs| - 1];
      UserIdsAtMostCount(init);
      assert UserIds(recs) == UserIds(init) + {recs[|recs| - 1].userId} by {
        forall u ensures u in UserIds(recs) <==> u in UserIds(init) + {recs[|recs| - 1].userId} {
          if u in UserIds(recs) {
            var i :| 0 <= i < |recs| && recs[i].userId == u;
            if i < |recs| - 1 { assert init[i] == recs[i]; }
          }
          if u in UserIds(init) {
            var i :| 0 <= i < |init| && init[i].userId == u;
            assert recs[i] == init[i];
          }
        }
      }
    }
  }

  datatype ReportSummary = ReportSummary(shifts: ShiftSummary, uniqueEmployees: nat)

  /** The four summary cards, over the filtered records. */
  function Summary(rp: Reports, now: int): (sm: ReportSummary)
    ensures sm.shifts == Summarize(FilteredRecords(rp), now)
    ensures sm.uniqueEmployees <= |FilteredRecords(rp)|
    ensures sm.uniqueEmployees == 0 <==> FilteredRecords(rp) == []
  {
    var f := FilteredRecords(rp);
    UserIdsAtMostCount(f);
    assert f != [] ==> f[0].userId in UserIds(f);
    ReportSummary(Summarize(f, now), |UserIds(f)|)
  }

  /* ---------------------------------------------------------------- pages */

  /** `Math.max(1, Math.ceil(filteredRecords.length / 15))` */
  function ReportsTotalPages(rp: Reports): (t: nat)
    ensures t >= 1 && |FilteredRecords(rp)| <= t * RECORDS_PER_PAGE
  {
    TotalPages(|FilteredRecords(rp)|, RECORDS_PER_PAGE)
  }

  /** The rows of the current page, a slice of the filtered records. */
  function PageRows(rp: Reports): (r: seq<TimeRecord>)
    ensures rp.currentPage >= 1 ==> |r| <= RECORDS_PER_PAGE
    ensures rp.currentPage >= 1 ==>
      var f := FilteredRecords(rp);
      r == f[Min((rp.currentPage - 1) * RECORDS_PER_PAGE, |f|)..Min(rp.currentPage * RECORDS_PER_PAGE, |f|)]
  {
    var f := FilteredRecords(rp);
    if rp.currentPage >= 1 then
      PageIsSlice(f, RECORDS_PER_PAGE, rp.currentPage);
      PageItems(f, rp.currentPage, RECORDS_PER_PAGE)
    else
      PageItems(f, rp.currentPage, RECORDS_PER_PAGE)
  }

  /** Read in order, the pages show every filtered record exactly once. */
  lemma ReportPagesTile(rp: Reports)
    ensures FirstPages(FilteredRecords(rp), RECORDS_PER_PAGE, ReportsTotalPages(rp)) == FilteredRecords(rp)
  {
    PagesTile(FilteredRecords(rp), RECORDS_PER_PAGE);
  }

  predicate Valid(rp: Reports) {
    PageInRange(rp.currentPage, ReportsTotalPages(rp))
  }

  function PreviousPageOf(rp: Reports): (rp': Reports)
    ensures rp' == rp.(currentPage := PreviousPage(rp.currentPage))
    ensures Valid(rp) ==> Valid(rp')
  {
    rp.(currentPage := PreviousPage(rp.currentPage))
  }

  function NextPageOf(rp: Reports): (rp': Reports)
    ensures rp' == rp.(currentPage := NextPage(rp.currentPage, ReportsTotalPages(rp)))
    ensures Valid(rp) ==> Valid(rp')
  {
    rp.(currentPage := NextPage(rp.currentPage, ReportsTotalPages(rp)))
  }

  /** Typing in the search box: the new term, back on page 1. */
  function SetSearchTerm(rp: Reports, term: string): (rp': Reports)
    ensures rp' == rp.(searchTerm := term, currentPage := 1)
    ensures Valid(rp')
  {
    rp.(searchTerm := term, currentPage := 1)
  }

  /** Choosing a period reloads `getTeamRecordsByDate(days)` and returns to page 1; any
      approvals made on the page are replaced by the reloaded records. */
  function SelectPeriod(rp: Reports, days: int, teamRecords: seq<TimeRecord>, now: int): (rp': Reports)
    ensures rp'.selectedPeriod == days && rp'.searchTerm == rp.searchTerm && rp'.currentPage == 1
    ensures rp'.records == GetTeamRecordsByDate(teamRecords, Some(days), now)
    ensures Valid(rp')
  {
    rp.(selectedPeriod := days, records := GetTeamRecordsByDate(teamRecords, Some(days), now), currentPage := 1)
  }

  /* ---------------------------------------------------------------- approval */

  /** `records.map(r => r.id === recordId ? { ...r, approvalStatus: status } : r)` */
  function SetApproval(recs: seq<TimeRecord>, recordId: string, status: ApprovalStatus): (r: seq<TimeRecord>)
    ensures |r| == |recs|
    ensures forall i :: 0 <= i < |recs| && recs[i].id == recordId ==> r[i] == recs[i].(approvalStatus := Some(status))
    ensures forall i :: 0 <= i < |recs| && recs[i].id != recordId ==> r[i] == recs[i]
  {
    seq(|recs|, i requires 0 <= i < |recs| =>
      if recs[i].id == recordId then recs[i].(approvalStatus := Some(status)) else recs[i])
  }

  /** `handleApprove(recordId)` */
  function HandleApprove(rp: Reports, recordId: string): (rp': Reports)
    ensures rp' == rp.(records := SetApproval(rp.records, recordId, Approved))
    ensures Valid(rp) ==> Valid(rp')
  {
    ApprovalKeepsFilteredCount(rp.records, recordId, Approved, rp.searchTerm);
    rp.(records := SetApproval(rp.records, recordId, Approved))
  }

  /** `handleReject(recordId)` */
  function HandleReject(rp: Reports, recordId: string): (rp': Reports)
    ensures rp' == rp.(records := SetApproval(rp.records, recordId, Rejected))
    ensures Valid(rp) ==> Valid(rp')
  {
    ApprovalKeepsFilteredCount(rp.records, recordId, Rejected, rp.searchTerm);
    rp.(records := SetApproval(rp.records, recordId, Rejected))
  }

  /** The search ignores approval, so approving or rejecting keeps the number of pages. */
  lemma ApprovalKeepsFilteredCount(recs: seq<TimeRecord>, recordId: string, status: ApprovalStatus, term: string)
    ensures |SearchFilter(SetApproval(recs, recordId, status), term)| == |SearchFilter(recs, term)|
  {
    var r := SetApproval(recs, recordId, status);
    var p := SearchPred(term);
    assert forall i :: 0 <= i < |recs| ==> p(recs[i]) == p(r[i]) by {
      forall i | 0 <= i < |recs| ensures p(recs[i]) == p(r[i]) {
        assert r[i].userName == recs[i].userName && r[i].location == recs[i].location;
      }
    }
    FilterLengthPointwise(recs, r, p);
  }

  /** Deciding twice the same way is deciding once. */
  lemma SetApprovalIdempotent(recs: seq<TimeRecord>, recordId: string, status: ApprovalStatus)
    ensures SetApproval(SetApproval(recs, recordId, status), recordId, status) == SetApproval(recs, recordId, status)
  {
  }

  /** A later decision on the same record replaces the earlier one. */
  lemma LastDecisionWins(recs: seq<TimeRecord>, recordId: string, first: ApprovalStatus, second: ApprovalStatus)
    ensures SetApproval(SetApproval(recs, recordId, first), recordId, second) == SetApproval(recs, recordId, second)
  {
  }

  /** Decisions on different records do not interfere. */
  lemma DecisionsCommute(recs: seq<TimeRecord>, id1: string, s1: ApprovalStatus, id2: string, s2: ApprovalStatus)
    requires id1 != id2
    ensures SetApproval(SetApproval(recs, id1, s1), id2, s2) == SetApproval(SetApproval(recs, id2, s2), id1, s1)
  {
  }

  /* ---------------------------------------------------------------- row actions */

  datatype ApproveButton = ApproveHidden | ApproveDisabled | ApproveEnabled

  /** The approve button: hidden once approved, and only clickable on a closed record. */
  function ApproveButtonOf(r: TimeRecord): (b: ApproveButton)
    ensures b == ApproveHidden <==> r.approvalStatus == Some(Approved)
    ensures b == ApproveEnabled <==> r.approvalStatus != Some(Approved) && !r.IsOpen()
    ensures b == ApproveDisabled <==> r.approvalStatus != Some(Approved) && r.IsOpen()
  {
    if r.approvalStatus == Some(Approved) then ApproveHidden
    else if r.checkOutTime.None? then ApproveDisabled
    else ApproveEnabled
  }

  /** The reject button is shown unless the record is already rejected; it is never disabled. */
  predicate RejectShown(r: TimeRecord) {
    r.approvalStatus != Some(Rejected)
  }

  /** After approving, the approved rows offer only rejection; after rejecting, they offer
      only approval (clickable when the shift is complete). */
  lemma ButtonsAfterDecision(recs: seq<TimeRecord>, recordId: string, i: int)
    requires 0 <= i < |recs| && recs[i].id == recordId
    ensures ApproveButtonOf(SetApproval(recs, recordId, Approved)[i]) == ApproveHidden
    ensures RejectShown(SetApproval(recs, recordId, Approved)[i])
    ensures ApproveButtonOf(SetApproval(recs, recordId, Rejected)[i]) != ApproveHidden
    ensures !RejectShown(SetApproval(recs, recordId, Rejected)[i])
  {
  }
}
