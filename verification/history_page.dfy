/** The employee's work-history page: a period selector, the summary of the period's
    records and a table of all loaded records, ten per page. */
module HistoryPage {
  import opened Types
  import opened Time
  import opened Seqs
  import opened TimeRecords
  import opened Pagination
  import opened ShiftSummaries
  import Service = TimeRegistrationService

  const RECORDS_PER_PAGE: nat := 10
  /** The values of the period dropdown, in days; the page opens on the first. */
  const PERIOD_OPTIONS: seq<int> := [7, 14, 30, 60, 90]

  datatype History = History(selectedPeriod: int, records: seq<TimeRecord>, currentPage: int)

  const INITIAL_HISTORY: History := History(PERIOD_OPTIONS[0], [], 1)

  /** `getFilteredRecords()`: the loaded records checked in within the selected period of `now`. */
  function FilteredRecords(h: History, now: int): (r: seq<TimeRecord>)
    ensures forall x :: x in r <==> x in h.records && x.checkInTime >= DaysBefore(now, h.selectedPeriod)
    ensures forall x :: multiset(r)[x] == (if x.checkInTime >= DaysBefore(now, h.selectedPeriod) then multiset(h.records)[x] else 0)
    ensures IsSubsequence(r, h.records)
  {
    Filter(h.records, CheckedInSincePred(DaysBefore(now, h.selectedPeriod)))
  }

  /** The summary cards: computed over the filtered records. */
  function HistorySummary(h: History, now: int): (sm: ShiftSummary)
    ensures sm == Summarize(FilteredRecords(h, now), now)
    ensures sm.totalHours == SumHoursWhere(h.records, CheckedInSincePred(DaysBefore(now, h.selectedPeriod)), now)
  {
    var cutoff := DaysBefore(now, h.selectedPeriod);
    SumFilterIsSumWhere(h.records, CheckedInSincePred(cutoff), now);
    Summarize(FilteredRecords(h, now), now)
  }

  /** `Math.max(1, Math.ceil(records.length / 10))`: counted over all loaded records. */
  function HistoryTotalPages(h: History): (t: nat)
    ensures t >= 1 && |h.records| <= t * RECORDS_PER_PAGE
  {
    TotalPages(|h.records|, RECORDS_PER_PAGE)
  }

  /** The rows of the current page: a slice of all loaded records, not of the filtered ones. */
  function PageRows(h: History): (r: seq<TimeRecord>)
    ensures h.currentPage >= 1 ==> |r| <= RECORDS_PER_PAGE
    ensures h.currentPage >= 1 ==>
      r == h.records[Min((h.currentPage - 1) * RECORDS_PER_PAGE, |h.records|)..Min(h.currentPage * RECORDS_PER_PAGE, |h.records|)]
  {
    if h.currentPage >= 1 then
      PageIsSlice(h.records, RECORDS_PER_PAGE, h.currentPage);
      PageItems(h.records, h.currentPage, RECORDS_PER_PAGE)
    else
      PageItems(h.records, h.currentPage, RECORDS_PER_PAGE)
  }

  /** The page shown is one of the pages there are. */
  predicate Valid(h: History) {
    PageInRange(h.currentPage, HistoryTotalPages(h))
  }

  function PreviousPageOf(h: History): (h': History)
    ensures h' == h.(currentPage := PreviousPage(h.currentPage))
    ensures Valid(h) ==> Valid(h')
  {
    h.(currentPage := PreviousPage(h.currentPage))
  }

  function NextPageOf(h: History): (h': History)
    ensures h' == h.(currentPage := NextPage(h.currentPage, HistoryTotalPages(h)))
    ensures Valid(h) ==> Valid(h')
  {
    h.(currentPage := NextPage(h.currentPage, HistoryTotalPages(h)))
  }

  /** The load effect: a successful result replaces the records and returns to page 1; a
      failed one changes nothing. */
  function OnRecordsLoaded(h: History, result: ServiceResponse<seq<TimeRecord>>): (h': History)
    ensures result.Ok? ==> h' == h.(records := result.data, currentPage := 1)
    ensures result.Err? ==> h' == h
    ensures result.Ok? ==> Valid(h')
  {
    if result.Ok? then h.(records := result.data, currentPage := 1) else h
  }

  /** Choosing a period, which reloads `getRecentRecords(days)` from the store at `now`. */
  function SelectPeriod(h: History, days: int, s: Store, now: int): (h': History)
    ensures h'.selectedPeriod == days && h'.currentPage == 1 && Valid(h')
    ensures h'.records == Service.GetRecentRecords(s, now, Some(days)).data
  {
    OnRecordsLoaded(h.(selectedPeriod := days), Service.GetRecentRecords(s, now, Some(days)))
  }

  /** Rendered at the time they were loaded, the loaded records all pass the period filter,
      so the summary covers the same records as the table. */
  lemma LoadedRecordsAllShown(h: History, days: int, s: Store, now: int)
    ensures var h' := SelectPeriod(h, days, s, now); FilteredRecords(h', now) == h'.records
  {
    var h' := SelectPeriod(h, days, s, now);
    var p := CheckedInSincePred(DaysBefore(now, days));
    assert forall i :: 0 <= i < |h'.records| ==> p(h'.records[i]) by {
      forall i | 0 <= i < |h'.records| ensures p(h'.records[i]) {
        assert h'.records[i] in h'.records;
      }
    }
    FilterAll(h'.records, p);
  }

  lemma InitialValid()
    ensures Valid(INITIAL_HISTORY)
    ensures HistorySummary(INITIAL_HISTORY, 0) == ShiftSummary(0.0, 0, 0.0)
  {
  }
}
