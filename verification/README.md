# Time registration — a Dafny model

The application is a check-in/check-out time registration front end. An employee checks in at a
work location, which opens a time record. Checking out closes it. The employee can then browse
their recent records. A manager sees team statistics, per-member summaries for today, and a
searchable, paged table of the team's records, which they approve or reject row by row.

The model covers:

- The record store of `mockData/timeRecords.ts`: ids `rec-NNN`, check-in, check-out, queries and
  hour totals.
- The service of `services/TimeRegistrationService.ts`. It wraps the store in the one-open-shift
  rule and tags every answer as success or error.
- The team aggregation of `mockData/teamData.ts`.
- The state each page keeps and how its handlers change it:
  - the check-in card's elapsed clock and buttons;
  - the history page;
  - the manager dashboard;
  - the manager reports page;
  - the login form;
  - the application shell with its role-dependent tabs.

Design decisions:

- Timestamps are integers in milliseconds since the epoch. The clock `now` is a parameter of
  every operation that reads it.
- "Today" is the UTC calendar day. The source compares the date prefix of ISO strings, which are
  UTC, so this is exact.
- Local time is UTC plus a fixed `offset`. Local time is used for the start of the week and for
  "N days back".
- Hours are exact reals.
- The approval labels of the reports page are modelled both as the page stores them, with
  mis-encoded symbols, and with the symbols they evidently mean (see "## Findings").
- JavaScript's truncating `%`, `Math.round` and `slice` index rules are written out.
- Every module-level mutable variable becomes an explicit value:
  - the store (`records`, `nextId`);
  - the team record list;
  - each component's `useState` fields.

  Each operation returns the new value.

## Model

| member | source | states |
|---|---|---|
| Text.NatToString | timeregistration/src/components/CheckInOutCard.tsx:155-159 | `toString()` of a non-negative integer is a non-empty digit string that reads back as the same number, starting with '0' only for 0 and otherwise without a leading zero |
| Text.CanonicalDecimalUnique | timeregistration/src/components/CheckInOutCard.tsx:155-159 | a digit string without a leading zero is the `toString()` of the number it denotes, so that rendering is the only one |
| Text.PadStart | timeregistration/src/components/CheckInOutCard.tsx:155-159 | `padStart(w, fill)` keeps the string as its suffix, fills only on the left, and gives length `max(len, w)` |
| Text.PaddedDecimalRoundTrip | timeregistration/src/mockData/timeRecords.ts:92 | a zero-padded decimal still reads back as the number it was made from |
| Text.TrimEmptyIffBlank | timeregistration/src/components/LoginScreen.tsx:106-114 | `!s.trim()` holds exactly when every character of `s` is ECMAScript whitespace |
| Text.ToLower | timeregistration/src/pages/ManagerReportsPage.tsx:170-175 | lower-casing keeps the length and maps each character on its own |
| Text.IncludesAt | timeregistration/src/pages/ManagerReportsPage.tsx:171-175 | `s.includes(t)` holds exactly when `t` is the slice of `s` at some position |
| Text.IncludesToLower | timeregistration/src/pages/ManagerReportsPage.tsx:170-175 | lower-casing both sides keeps every occurrence, so the case-insensitive search finds every case-sensitive match |
| Types.ParseApprovalStatus | timeregistration/src/types/index.ts:11 | the four approval strings and the statuses are in one-to-one correspondence |
| Types.ParseRole | timeregistration/src/types/index.ts:21 | `'employee'` and `'manager'` parse to the two roles and back |
| Types.ParseTodayStatus | timeregistration/src/types/index.ts:26 | the three status strings parse to the three statuses and back |
| Seqs.Filter | timeregistration/src/mockData/timeRecords.ts:80-83 | `filter` keeps exactly the elements satisfying the predicate, each as often as before, in their original order |
| Seqs.FilterAll | timeregistration/src/pages/ManagerReportsPage.tsx:169-170 | a filter whose predicate accepts every element of the list (as the empty search does) returns the list unchanged |
| Seqs.FilterComplementCount | timeregistration/src/pages/HistoryPage.tsx:151 | the records a predicate keeps and the ones its negation keeps add up to the whole list |
| Seqs.FilterLengthPointwise | timeregistration/src/pages/ManagerReportsPage.tsx:201-210 | two lists that agree position by position on the predicate keep equally many elements |
| Seqs.FilterHeadIsFirstMatch | timeregistration/src/mockData/teamData.ts:278 | the first element of a filtered list is the first matching element of the original, so `todayRecords[0]` is the earliest-stored record of today |
| Seqs.FilterCompose | timeregistration/src/mockData/teamData.ts:216-217 | filtering by one predicate and then another is filtering by both, so the open records among today's are today's open records |
| Time.UtcDayBounds | timeregistration/src/mockData/timeRecords.ts:12 | a timestamp lies inside the 24-hour UTC day its date prefix names |
| Time.HoursBetween | timeregistration/src/mockData/timeRecords.ts:119-123 | the hours times 3 600 000 are the elapsed milliseconds; they are non-negative exactly when the end is not before the start |
| Time.DaysBefore | timeregistration/src/services/TimeRegistrationService.ts:88-89 | `setDate(getDate() - days)` under a fixed offset moves back exactly `days` whole days |
| Time.MondayMidnight | timeregistration/src/mockData/timeRecords.ts:133-137 | the week starts at a local midnight that is a Monday, less than seven days before `now` and not after it |
| Time.MondayMidnightUnique | timeregistration/src/mockData/timeRecords.ts:133-137 | that Monday midnight is the only local Monday midnight in the seven days ending at `now` |
| TimeRecords.RecordId | timeregistration/src/mockData/timeRecords.ts:92 | `rec-` plus the zero-padded counter parses back to the counter |
| TimeRecords.RecordIdInjective | timeregistration/src/mockData/timeRecords.ts:92 | different counter values give different ids |
| TimeRecords.SeedRecords | timeregistration/src/mockData/timeRecords.ts:22-68 | the seed holds four closed shifts carrying ids 1 to 4 |
| TimeRecords.SeedIds | timeregistration/src/mockData/timeRecords.ts:25-59 | the seed ids are `rec-001` to `rec-004`, the same strings the generator produces |
| TimeRecords.ResetMockData | timeregistration/src/mockData/timeRecords.ts:144-147 | the reset store holds the four closed seed records with distinct ids, and the counter at 5 is above every id |
| TimeRecords.InsertNewestFirst | timeregistration/src/mockData/timeRecords.ts:75-77 | inserting into a newest-first list keeps it newest first and adds exactly that record |
| TimeRecords.SortNewestFirst | timeregistration/src/mockData/timeRecords.ts:75-77 | the sort is a permutation of its input ordered by descending check-in time |
| TimeRecords.FilterKeepsNewestFirst | timeregistration/src/services/TimeRegistrationService.ts:91-93 | filtering a newest-first list leaves it newest first |
| TimeRecords.GetAllRecords | timeregistration/src/mockData/timeRecords.ts:74-78 | every stored record, each as often as stored, newest first |
| TimeRecords.GetTodayRecords | timeregistration/src/mockData/timeRecords.ts:80-83 | exactly the records checked in on today's UTC day, each as often as stored, in store order |
| TimeRecords.TodayRecordsLieInToday | timeregistration/src/mockData/timeRecords.ts:12-83 | every record `getTodayRecords` returns was checked in within the 24 hours of the UTC day holding `now` |
| TimeRecords.FirstOpenIndex | timeregistration/src/mockData/timeRecords.ts:85-87 | `find` returns the first position without a check-out time, and none when every record is closed |
| TimeRecords.FirstOpenAfterClosed | timeregistration/src/mockData/timeRecords.ts:85-87 | once an open record is pushed onto a store with none open, `find` returns that new record |
| TimeRecords.GetCurrentOpenRecord | timeregistration/src/mockData/timeRecords.ts:85-87 | a record is returned exactly when one is open, and it is the first open one |
| TimeRecords.FindIndexById | timeregistration/src/mockData/timeRecords.ts:106-107 | `findIndex` gives the first position with the id, or -1 (here `None`) exactly when no record has it |
| TimeRecords.OrElse | timeregistration/src/mockData/timeRecords.ts:96 | `a \|\| b` on optional strings picks `b` exactly when `a` is absent or empty |
| TimeRecords.AppendFreshId | timeregistration/src/mockData/timeRecords.ts:92 | the id made from the counter is not in the store, and appending it keeps ids distinct and below the counter |
| TimeRecords.CheckIn | timeregistration/src/mockData/timeRecords.ts:89-103 | one open record is appended, stamped `now`, under the next id, for the fixed user; the location defaults to "Main Office" when absent or empty |
| TimeRecords.CheckOut | timeregistration/src/mockData/timeRecords.ts:105-117 | an unknown id returns null and leaves the store alone; otherwise the first record with the id is closed at `now` and written back in place, with its notes replaced only by non-empty notes and every other field of it, and every other record, unchanged |
| TimeRecords.CalculateHours | timeregistration/src/mockData/timeRecords.ts:119-123 | hours from check-in to check-out, or to `now` while open |
| TimeRecords.OpenHoursMonotone | timeregistration/src/mockData/timeRecords.ts:121 | an open shift's hours never decrease as the clock advances |
| TimeRecords.SumFilterIsSumWhere | timeregistration/src/mockData/timeRecords.ts:125-130 | summing a filtered list adds exactly the hours of the original's matching records |
| TimeRecords.SumFilterAppendOne | timeregistration/src/mockData/timeRecords.ts:139-141 | one more record adds its hours to a filtered total exactly when it passes the filter |
| TimeRecords.GetTodayTotalHours | timeregistration/src/mockData/timeRecords.ts:125-130 | today's total counts the hours of each record of today once and of no other record |
| TimeRecords.GetWeekTotalHours | timeregistration/src/mockData/timeRecords.ts:132-142 | the week total counts the hours of each record checked in at or after local Monday 00:00 once, and of no other record |
| TimeRecords.TodayTotalAddRecord | timeregistration/src/mockData/timeRecords.ts:125-130 | a closed record dated today raises today's total by its duration; one dated another day leaves it unchanged |
| TimeRecords.WeekTotalAddRecord | timeregistration/src/mockData/timeRecords.ts:132-142 | a record counts towards the week total exactly when it was checked in at or after Monday 00:00 |
| TimeRecords.AverageOrZero | timeregistration/src/mockData/teamData.ts:241 | `n > 0 ? total / n : 0`: the mean times `n` is the total, and it is 0 when there are no items |
| TimeRegistrationService.GetStatus | timeregistration/src/services/TimeRegistrationService.ts:24-41 | succeeds; reports checked in exactly when an open record exists, attaches that open stored record, and passes today's and the week's totals through |
| TimeRegistrationService.CheckIn | timeregistration/src/services/TimeRegistrationService.ts:43-60 | refused with "Already checked in…" and no change while a record is open; otherwise one new open record stamped `now`; keeps the service invariant |
| TimeRegistrationService.CheckOut | timeregistration/src/services/TimeRegistrationService.ts:62-81 | refused with "Not checked in…" when nothing is open; otherwise closes the open record at `now` in place; afterwards nothing is open |
| TimeRegistrationService.GetRecentRecords | timeregistration/src/services/TimeRegistrationService.ts:83-99 | succeeds with exactly the records checked in since `days` (default 7) days before `now`, each as often as stored, newest first |
| TimeRegistrationService.RecentRecordsWindowGrows | timeregistration/src/services/TimeRegistrationService.ts:88-93 | a wider window returns every record a narrower one does |
| TimeRegistrationService.RecentRecordsDefaultWindow | timeregistration/src/services/TimeRegistrationService.ts:83 | with no argument the window is seven days: a record from six days ago is listed and one from eight days ago is not |
| TimeRegistrationService.GetCurrentUser | timeregistration/src/services/TimeRegistrationService.ts:101-105 | always succeeds with the fixed employee `user-001` |
| TimeRegistrationService.RunPreservesInvariant | timeregistration/src/services/TimeRegistrationService.ts:43-81 | any sequence of service check-ins and check-outs keeps at most one open record, distinct ids, and all records the current user's |
| TimeRegistrationService.SingleOpenFromSeed | timeregistration/src/services/TimeRegistrationService.ts:48-52 | from the seed store, every reachable store has at most one open record |
| TimeRegistrationService.CheckInTwiceFails | timeregistration/src/services/TimeRegistrationService.ts:48-52 | a second check-in without a check-out is refused and changes nothing |
| TimeRegistrationService.CheckOutTwiceFails | timeregistration/src/services/TimeRegistrationService.ts:67-70 | a second check-out in a reachable state is refused and changes nothing |
| TimeRegistrationService.StatusAfterCheckIn | timeregistration/src/services/TimeRegistrationService.ts:29-35 | after a successful check-in the status says checked in and carries the new record |
| TimeRegistrationService.CheckInCheckOutRoundTrip | timeregistration/src/services/TimeRegistrationService.ts:43-81 | checking in at `t0` and out at `t1` leaves one closed record spanning exactly `t0` to `t1`, the earlier records untouched |
| TeamData.GetAllTeamRecords | timeregistration/src/mockData/teamData.ts:190-194 | every team record, each as often as stored, newest first |
| TeamData.SortedFilter | timeregistration/src/mockData/teamData.ts:200-202 | filter then sort: the matching records with their multiplicities, newest first |
| TeamData.GetTeamMemberRecords | timeregistration/src/mockData/teamData.ts:196-203 | exactly that member's records of the last `days` (default 30) days, newest first |
| TeamData.GetTeamRecordsByDate | timeregistration/src/mockData/teamData.ts:205-212 | exactly everyone's records of the last `days` (default 7) days, newest first |
| TeamData.CalculateTeamStatistics | timeregistration/src/mockData/teamData.ts:214-243 | roster size; the checked-in count is the number of today's open records; today's and the rolling week's hours are the sums over exactly those records; the average is week hours over roster size, or 0 for an empty roster |
| TeamData.CheckedInToday | timeregistration/src/mockData/teamData.ts:216-217 | exactly the number of records checked in today and still open; positive exactly when one exists |
| TeamData.CheckedInTodayAppend | timeregistration/src/mockData/teamData.ts:216-217 | one more team record raises the checked-in count by one exactly when it is an open record of today, and otherwise leaves it |
| TeamData.TeamTodayHours | timeregistration/src/mockData/teamData.ts:219-223 | the hours of exactly today's records |
| TeamData.TeamWeekHours | timeregistration/src/mockData/teamData.ts:225-234 | the hours of exactly the records of the last seven days |
| TeamData.MemberToday | timeregistration/src/mockData/teamData.ts:251 | exactly the member's records of today, each as often as stored, in store order; its first element is the member's first record of today in the store |
| TeamData.MemberCurrent | timeregistration/src/mockData/teamData.ts:252 | a record is found exactly when the member has an open record today, and it is the first open one among today's records, as `find` returns |
| TeamData.MemberSummary | timeregistration/src/mockData/teamData.ts:250-279 | not started iff no record today; checked in iff one of today's records is open; checked out otherwise; the location and last check-in are those of the first open record of today, else there is no location and the last check-in is the first of today's records; hours over the member's day and rolling week |
| TeamData.MemberHoursWhere | timeregistration/src/mockData/teamData.ts:260-270 | the hours of exactly the member's matching records |
| TeamData.GetTeamMemberSummaries | timeregistration/src/mockData/teamData.ts:245-281 | one summary per roster member, in roster order |
| TeamData.CheckedInSummaryMeansOpenToday | timeregistration/src/mockData/teamData.ts:245-258 | a member shown checked in makes the team's open count positive |
| HoursDisplay.Round | timeregistration/src/components/CheckInOutCard.tsx:199 | `Math.round` gives the integer within one half of `x`, halves rounded up |
| HoursDisplay.HoursMinutesAsWritten | timeregistration/src/components/CheckInOutCard.tsx:197-201 | as written, the hours are `floor(x)` and the minutes lie in 0..60, where 60 is reachable; hours·60 + minutes is the rounded number of minutes |
| HoursDisplay.HoursMinutes | timeregistration/src/components/CheckInOutCard.tsx:197-201 | corrected: the same rounded number of minutes, with the minutes in 0..59 |
| HoursDisplay.HoursTextRoundTrip | timeregistration/src/components/CheckInOutCard.tsx:200 | an "Xh Ym" text reads back as the hours and minutes it was made from, negative hours included |
| HoursDisplay.ParseIntCanonical | timeregistration/src/components/CheckInOutCard.tsx:200 | the integer reader accepts only `toString()`'s own text: no leading zeros and no "-0" |
| HoursDisplay.ParseHoursTextCanonical | timeregistration/src/components/CheckInOutCard.tsx:200 | any text that reads back as hours and minutes is exactly the "Xh Ym" rendering of that pair |
| HoursDisplay.FormatHoursAsWritten | timeregistration/src/components/CheckInOutCard.tsx:197-201 | the text reads back as the whole hours and minutes 0..60 that total the rounded minutes, and it is the only text that reads back as that pair |
| HoursDisplay.FormatHours | timeregistration/src/components/CheckInOutCard.tsx:197-201 | corrected: the text reads back as minutes 0..59 plus hours that total the rounded minutes, and it is the only text that reads back as that pair |
| HoursDisplay.FormatHoursMinuteSixty | timeregistration/src/components/CheckInOutCard.tsx:197-201 | 0.9999 hours is rendered "0h 60m" as written and "1h 0m" when corrected |
| HoursDisplay.HoursMinutesAgree | timeregistration/src/components/CheckInOutCard.tsx:197-201 | the two renderings agree whenever the written minutes are below 60; at 60 the corrected one carries the hour |
| HoursDisplay.JsFraction | timeregistration/src/pages/ManagerReportsPage.tsx:365 | `x % 1` differs from `x` by an integer, lies in [0, 1) for non-negative `x` and in (-1, 0] for negative `x`, which fixes its value |
| HoursDisplay.ReportHoursCell | timeregistration/src/pages/ManagerReportsPage.tsx:365 | the reports table's hours cell equals the check-in card's as-written split for every non-negative duration |
| Badges.ShiftBadge | timeregistration/src/pages/ManagerReportsPage.tsx:369-374 | "In Progress" exactly for an open record, "Completed" exactly for a closed one |
| Badges.StatusBadge | timeregistration/src/pages/ManagerDashboardPage.tsx:197-206 | the badge reads "Checked In", "Checked Out" or "Not Started" exactly for that status, and is green (success) exactly when checked in |
| Badges.ApprovalBadgeAsWritten | timeregistration/src/pages/ManagerReportsPage.tsx:377-391 | as the page stores the labels: the intended appearance and colour, and the label "\u201A\u00C4\u00EE Not Set" exactly when there is no status |
| Badges.ApprovalBadge | timeregistration/src/pages/ManagerReportsPage.tsx:377-391 | corrected labels: green exactly for approved, red (danger) exactly for rejected or sync-failed, filled exactly for a decided record, and "\u2014 Not Set" exactly when there is no status |
| Badges.ApprovalLabelsMisDecoded | timeregistration/src/pages/ManagerReportsPage.tsx:378-390 | every stored label is the corrected one with its leading symbol's UTF-8 bytes shown as Mac OS Roman characters, and the rest unchanged |
| Badges.ApprovalBadgeAsWrittenInjective | timeregistration/src/pages/ManagerReportsPage.tsx:377-391 | the stored labels still tell the five cases apart |
| Badges.StatusBadgeInjective | timeregistration/src/pages/ManagerDashboardPage.tsx:197-206 | each of today's statuses has its own badge |
| Badges.ApprovalBadgeInjective | timeregistration/src/pages/ManagerReportsPage.tsx:377-391 | each approval status, and its absence, has its own corrected badge text |
| Encoding.Utf8ThreeBytes | timeregistration/src/pages/ManagerReportsPage.tsx:378-390 | a character of U+0800..U+FFFF becomes a lead byte E0..EF and two continuation bytes 80..BF that decode back to it |
| Encoding.MisDecode | timeregistration/src/pages/ManagerReportsPage.tsx:378-390 | a symbol shows as three characters exactly when each of its UTF-8 bytes has a tabulated Mac OS Roman character, and then as those characters in order |
| CheckInOutCard.JsRem | timeregistration/src/components/CheckInOutCard.tsx:151-153 | JavaScript `%` with a positive divisor: the Euclidean remainder for non-negative operands, and a non-positive remainder of the same magnitude otherwise |
| CheckInOutCard.ElapsedFields | timeregistration/src/components/CheckInOutCard.tsx:146-153 | for a non-negative elapsed time: whole hours, minutes and seconds in 0..59, together the elapsed whole seconds; for a negative one, negative hours and fields in -60..0 |
| CheckInOutCard.ElapsedClock | timeregistration/src/components/CheckInOutCard.tsx:141-160 | "00:00:00" unless the status says checked in and carries a record; then the time since that record's check-in |
| CheckInOutCard.ClockFieldsRoundTrip | timeregistration/src/components/CheckInOutCard.tsx:155-159 | the `HH:MM:SS` text of in-range fields reads back as their total seconds |
| CheckInOutCard.ClockRoundTrip | timeregistration/src/components/CheckInOutCard.tsx:146-159 | for a non-negative elapsed time the clock text reads back as the whole seconds elapsed, for any number of hours |
| CheckInOutCard.ErrorText | timeregistration/src/components/CheckInOutCard.tsx:175-177 | no error on success; otherwise the service message, or the fallback when it is empty |
| CheckInOutCard.LoadStatus | timeregistration/src/components/CheckInOutCard.tsx:127-133 | the card's status becomes the service status; error and location are kept |
| CheckInOutCard.SelectLocation | timeregistration/src/components/CheckInOutCard.tsx:258 | a non-empty option becomes the selected location; an empty one is ignored |
| CheckInOutCard.HandleCheckIn | timeregistration/src/components/CheckInOutCard.tsx:167-180 | checks in at the selected location. While checked in, the refusal message is shown and the store is unchanged. Otherwise the error is cleared and the reloaded status shows the new record |
| CheckInOutCard.HandleCheckOut | timeregistration/src/components/CheckInOutCard.tsx:182-195 | when nothing is open the refusal message is shown; in a reachable state with an open record the reloaded status says checked out and the clock reads "00:00:00" |
| CheckInOutCard.ClockAfterCheckIn | timeregistration/src/components/CheckInOutCard.tsx:141-180 | right after a check-in at `t0` the clock runs from `t0`, and the new record is at the selected location |
| Pagination.TotalPages | timeregistration/src/pages/HistoryPage.tsx:190 | the fewest pages of `per` rows that hold all rows, and at least one |
| Pagination.SliceIndex | timeregistration/src/pages/HistoryPage.tsx:193 | `slice` clamps its index into the list; an in-range index is kept |
| Pagination.JsSlice | timeregistration/src/pages/HistoryPage.tsx:193 | an in-range `slice` is the subsequence between the indices, and a start past the end gives an empty list |
| Pagination.PageItems | timeregistration/src/pages/HistoryPage.tsx:190-193 | page `k` holds at most `per` rows, exactly the rows from index `(k-1)·per` on |
| Pagination.PreviousPage | timeregistration/src/pages/HistoryPage.tsx:195-197 | one page back, never below 1 |
| Pagination.NextPage | timeregistration/src/pages/HistoryPage.tsx:199-201 | one page on, never past the last |
| Pagination.StepsStayInRange | timeregistration/src/pages/HistoryPage.tsx:195-201 | the buttons keep an in-range page in range |
| Pagination.PageIsSlice | timeregistration/src/pages/HistoryPage.tsx:191-193 | page `k` is the slice between the ends of pages `k-1` and `k`, cut at the list's end |
| Pagination.FirstPagesArePrefix | timeregistration/src/pages/HistoryPage.tsx:190-193 | pages 1 to `k` read in order are the list's first `k·per` rows |
| Pagination.PagesTile | timeregistration/src/pages/HistoryPage.tsx:190-193 | pages 1 to `totalPages` read in order give back every row exactly once |
| Pagination.PagesBeyondAreEmpty | timeregistration/src/pages/HistoryPage.tsx:190-193 | a page past the last shows nothing |
| ShiftSummaries.CompletedShifts | timeregistration/src/pages/HistoryPage.tsx:151 | the closed records: together with the open ones they make up the list, and there are none exactly when every record is open |
| ShiftSummaries.Summarize | timeregistration/src/pages/HistoryPage.tsx:141-152 | total hours are the closed records' hours plus the open records' hours up to `now`; the average is the total over the completed shifts, or 0 when none is complete |
| ShiftSummaries.SumSplitsByStatus | timeregistration/src/pages/HistoryPage.tsx:141-151 | the total hours split into the closed and the open records' hours |
| HistoryPage.FilteredRecords | timeregistration/src/pages/HistoryPage.tsx:130-136 | exactly the loaded records checked in within the selected number of days before `now`, each as often as loaded, in order |
| HistoryPage.HistorySummary | timeregistration/src/pages/HistoryPage.tsx:138-152 | the summary is over the filtered records; its total is the hours of exactly the loaded records in the period |
| HistoryPage.HistoryTotalPages | timeregistration/src/pages/HistoryPage.tsx:190 | enough pages of ten for all loaded records, at least one |
| HistoryPage.PageRows | timeregistration/src/pages/HistoryPage.tsx:190-193 | at most ten rows: the slice of all loaded records for the current page |
| HistoryPage.PreviousPageOf | timeregistration/src/pages/HistoryPage.tsx:195-197 | only the page changes, and a valid page stays valid |
| HistoryPage.NextPageOf | timeregistration/src/pages/HistoryPage.tsx:199-201 | only the page changes, and a valid page stays valid |
| HistoryPage.OnRecordsLoaded | timeregistration/src/pages/HistoryPage.tsx:118-122 | a successful load replaces the records and returns to page 1; a failed one changes nothing |
| HistoryPage.SelectPeriod | timeregistration/src/pages/HistoryPage.tsx:110-127 | choosing a period reloads that many days of records from the service, on page 1 |
| HistoryPage.LoadedRecordsAllShown | timeregistration/src/pages/HistoryPage.tsx:110-136 | rendered at load time, every loaded record passes the period filter, so the summary and the table cover the same records |
| HistoryPage.InitialValid | timeregistration/src/pages/HistoryPage.tsx:103-107 | the page opens on a valid page 1 with an all-zero summary |
| ManagerReportsPage.SearchFilter | timeregistration/src/pages/ManagerReportsPage.tsx:168-176 | an empty term keeps every record; otherwise exactly the records whose lower-cased name or non-empty location contains the lower-cased term, each as often as before, in order |
| ManagerReportsPage.SearchByNameFindsRecord | timeregistration/src/pages/ManagerReportsPage.tsx:170-175 | searching any part of an employee's name, in any letter case, keeps that record |
| ManagerReportsPage.UserIds | timeregistration/src/pages/ManagerReportsPage.tsx:180 | the set of user ids occurring in the records |
| ManagerReportsPage.UserIdsAtMostCount | timeregistration/src/pages/ManagerReportsPage.tsx:180 | there are never more distinct employees than records |
| ManagerReportsPage.Summary | timeregistration/src/pages/ManagerReportsPage.tsx:178-181 | the shift summary over the filtered records; the employee count is at most the record count, and zero exactly when nothing matches |
| ManagerReportsPage.ReportsTotalPages | timeregistration/src/pages/ManagerReportsPage.tsx:188 | enough pages of fifteen for all filtered records, at least one |
| ManagerReportsPage.PageRows | timeregistration/src/pages/ManagerReportsPage.tsx:188-191 | at most fifteen rows: the slice of the filtered records for the current page |
| ManagerReportsPage.ReportPagesTile | timeregistration/src/pages/ManagerReportsPage.tsx:188-191 | the pages together show every filtered record exactly once |
| ManagerReportsPage.PreviousPageOf | timeregistration/src/pages/ManagerReportsPage.tsx:193-195 | only the page changes, and a valid page stays valid |
| ManagerReportsPage.NextPageOf | timeregistration/src/pages/ManagerReportsPage.tsx:197-199 | only the page changes, and a valid page stays valid |
| ManagerReportsPage.SetSearchTerm | timeregistration/src/pages/ManagerReportsPage.tsx:237-240 | typing replaces the term and returns to page 1, which is always valid |
| ManagerReportsPage.SelectPeriod | timeregistration/src/pages/ManagerReportsPage.tsx:114-131 | choosing a period reloads the team records of that many days, newest first, on page 1; the search term is kept |
| ManagerReportsPage.SetApproval | timeregistration/src/pages/ManagerReportsPage.tsx:201-210 | every record with the id gets the status and every other record is unchanged, in place |
| ManagerReportsPage.HandleApprove | timeregistration/src/pages/ManagerReportsPage.tsx:201-210 | approving marks the record approved and keeps the current page valid |
| ManagerReportsPage.HandleReject | timeregistration/src/pages/ManagerReportsPage.tsx:212-221 | rejecting marks the record rejected and keeps the current page valid |
| ManagerReportsPage.ApprovalKeepsFilteredCount | timeregistration/src/pages/ManagerReportsPage.tsx:168-221 | a decision never changes how many records match the search |
| ManagerReportsPage.SetApprovalIdempotent | timeregistration/src/pages/ManagerReportsPage.tsx:201-210 | approving (or rejecting) twice is the same as once |
| ManagerReportsPage.LastDecisionWins | timeregistration/src/pages/ManagerReportsPage.tsx:201-221 | a later decision on the same record replaces the earlier one |
| ManagerReportsPage.DecisionsCommute | timeregistration/src/pages/ManagerReportsPage.tsx:201-221 | decisions on different records can be made in either order |
| ManagerReportsPage.ApproveButtonOf | timeregistration/src/pages/ManagerReportsPage.tsx:395-404 | the approve button is hidden exactly for approved records, and clickable exactly for records that are not approved and are closed |
| ManagerReportsPage.ButtonsAfterDecision | timeregistration/src/pages/ManagerReportsPage.tsx:395-415 | after approving, only reject is offered; after rejecting, only approve |
| ManagerDashboardPage.LoadData | timeregistration/src/pages/ManagerDashboardPage.tsx:170-189 | loading sets the member summaries and the statistics, both read at `now`; the search term is kept |
| ManagerDashboardPage.FilterMembers | timeregistration/src/pages/ManagerDashboardPage.tsx:207-216 | an empty term keeps every member; otherwise exactly the members whose name, e-mail or non-empty location contains the term, ignoring case, each as often as before, in roster order |
| ManagerDashboardPage.SetSearchTerm | timeregistration/src/pages/ManagerDashboardPage.tsx:241 | typing replaces only the term |
| ManagerDashboardPage.SearchByNameFindsMember | timeregistration/src/pages/ManagerDashboardPage.tsx:208-216 | searching any part of a member's name, in any letter case, keeps them listed |
| ManagerDashboardPage.SearchByEmailFindsMember | timeregistration/src/pages/ManagerDashboardPage.tsx:208-216 | the same for any part of the e-mail address |
| ManagerDashboardPage.LoadedDashboardListsRoster | timeregistration/src/pages/ManagerDashboardPage.tsx:176-186 | after loading with no search, every roster member is listed, in roster order |
| ManagerDashboardPage.RowOf | timeregistration/src/pages/ManagerDashboardPage.tsx:313-340 | a row shows the member's name and e-mail, the badge of the member's status, today's and the week's hours through the page's `formatHours`, and the current location, or a dash when it is absent or empty |
| ManagerDashboardPage.RowHoursCells | timeregistration/src/pages/ManagerDashboardPage.tsx:191-195 | the hours cells read back as hours and minutes 0..60 totalling the rounded minutes, and equal the corrected rendering whenever the minutes stay below 60 |
| ManagerDashboardPage.RowShowsSixtyMinutes | timeregistration/src/pages/ManagerDashboardPage.tsx:191-195 | a member with 0.9999 hours today is shown "0h 60m" |
| ManagerDashboardPage.CheckedInRowMeansCount | timeregistration/src/pages/ManagerDashboardPage.tsx:197-216 | a listed row with the "Checked In" badge means the "Currently Checked In" card is not zero |
| LoginScreen.HandleSubmit | timeregistration/src/components/LoginScreen.tsx:102-126 | clears the error; a blank e-mail and then a blank password are refused with their messages; anything else logs in with the e-mail as typed and the chosen role |
| LoginScreen.HandleDemoLogin | timeregistration/src/components/LoginScreen.tsx:128-137 | fills in the demo account of the role with password "demo123" |
| LoginScreen.DemoLoginSucceeds | timeregistration/src/components/LoginScreen.tsx:102-137 | a demo button followed by "Sign In" always logs in as that demo account |
| LoginScreen.SubmitIgnoresPreviousError | timeregistration/src/components/LoginScreen.tsx:104 | the outcome of a submit does not depend on the previous message |
| App.ParseTab | timeregistration/src/components/Navigation.tsx:25-27 | the five tab strings and the tabs are in one-to-one correspondence |
| App.TabsFor | timeregistration/src/components/Navigation.tsx:38-73 | three tabs ending with the profile tab: the dashboard first and then the history for an employee, the manager dashboard first and then the reports for a manager; neither role gets the other's tabs |
| App.MockUser | timeregistration/src/App.tsx:57-65 | the logged-in user is the fixed identity of the role, with the e-mail as entered and department Engineering |
| App.HomeTab | timeregistration/src/App.tsx:68-74 | a fresh login starts on the role's first tab |
| App.HandleLogin | timeregistration/src/App.tsx:57-75 | logs in as the role's user, on the role's home tab |
| App.HandleLogout | timeregistration/src/App.tsx:77-81 | returns to the initial logged-out state on the dashboard tab |
| App.SelectTab | timeregistration/src/App.tsx:142 | the navigation changes only the tab |
| App.RenderPage | timeregistration/src/App.tsx:88-123 | the login screen exactly while logged out; the empty shell exactly when logged in without a user; an employee never sees a manager page and a manager never sees an employee page |
| App.OfferedTabsRenderTheirPage | timeregistration/src/App.tsx:96-123 | every tab offered to the logged-in user renders its own page; any other tab renders the role's home page |
| App.RunEventsConsistent | timeregistration/src/App.tsx:53-81 | over any logins, logouts and tab changes, the shell is logged in exactly when it holds a user, so the empty shell is never shown |
| App.LoginFormLogsIn | timeregistration/src/App.tsx:57-75 | a successful submit logs the shell in with that e-mail and role, on the role's home page |

## Left out

- Rendering, styling, tooltips, spinners and icons. Only the state each component keeps, and
  the values it shows, are modelled.
- The simulated network delays, `console` logging and `setInterval`. The clock is a parameter,
  so the ticking is "read the clock at `now`".
- The `try`/`catch` branches of the service. Their error paths ("Failed to get status", "Failed
  to check in", "Failed to get records") cannot be reached in the model.
- `isLoading` and `isProcessing`, the transient flags. `onStatusChange` and
  `handleStatusChange` only log.
- Floating point. Hours are exact reals. `toFixed(1)`, `toLocaleTimeString` and
  `toLocaleDateString` are not modelled.
- Daylight-saving time. Local time is UTC plus a fixed offset.
- The ISO string form of timestamps. Timestamps are millisecond integers.
- `toLowerCase` beyond ASCII letters. Non-ASCII characters are left as they are.
- `parseInt` of the period strings. Periods are integers.
- The team seed records of `mockData/teamData.ts`. The team record list is a parameter.
- The singleton factory `getTimeRegistrationService` and the `ITimeRegistrationService`
  interface. The model calls the mock directly.
- The pages `DashboardPage.tsx`, `ProfilePage.tsx` and `TimeHistory.tsx`, and the `DailySummary`
  type. These only render data already modelled.
- The dashboard's "Approve Time" and "Reject Time" menu items. They call `handleApprove` and
  `handleReject`, which `ManagerDashboardPage.tsx` never defines.
- The login form's field setters. They are plain field updates.
- TimeRecords.GetCurrentOpenRecord: like the source, it does not look at the user id. The
  service keeps every record the current user's (`TimeRegistrationService.RunPreservesInvariant`).
- CheckInOutCard.ClockRoundTrip: stated only for a non-negative elapsed time. A check-in time in
  the future gives negative fields, and those do not pad to `HH:MM:SS`.
- TeamData.CalculateTeamStatistics: the average is stated through division, as the source
  computes it.
- TimeRecords.SortNewestFirst: stability is implemented (ties keep their order) but not stated.

## Findings

| source | as written | input that shows it | evidently intended | confidence | as-written member | corrected member |
|---|---|---|---|---|---|---|
| timeregistration/src/components/CheckInOutCard.tsx:197-201 | `formatHours` takes `m = Math.round((hours - floor(hours)) * 60)` and never carries into the hours, so the minutes can be 60. `ManagerDashboardPage.tsx:191-195` has the same code, and so does the hours cell at `ManagerReportsPage.tsx:365`; the dashboard rows show the 60 minutes too (`ManagerDashboardPage.RowShowsSixtyMinutes`) | 0.9999 hours renders "0h 60m" | "1h 0m": round the whole minutes first, then split into hours and minutes 0..59 | not executed | HoursDisplay.FormatHoursMinuteSixty | HoursDisplay.HoursMinutesAgree |
| timeregistration/src/pages/ManagerReportsPage.tsx:378-390 | the five approval labels are stored with each leading symbol as the UTF-8 bytes read as Mac OS Roman: "\u201A\u00FA\u00EC Approved", "\u201A\u00FA\u00F3 Rejected", "\u201A\u00E8\u2265 Pending", "\u201A\u00F6\u2020 Sync Failed", "\u201A\u00C4\u00EE Not Set". The other pages hold the symbols intact (`CheckInOutCard.tsx:219` writes "\u2713 Checked In", `ManagerDashboardPage.tsx:338` writes "\u2014") | any record in the reports table; one without a status shows "\u201A\u00C4\u00EE Not Set" | "\u2713 Approved", "\u2717 Rejected", "\u23F3 Pending", "\u26A0 Sync Failed", "\u2014 Not Set" | not executed | Badges.ApprovalLabelsMisDecoded | Badges.ApprovalBadge |
