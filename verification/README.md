# Construction ledger: attendance, payroll and expenses

A model of the bookkeeping core of a construction-site ledger. The site owner
keeps four lists per signed-in user:

- **workers**, each with a daily wage;
- **attendance** marks: one Present or Absent per worker and day;
- **advances** paid to workers;
- **bills** from shops, plus wage / expenditure records paid to workers.

The model covers:

- **The session caches of the three data hooks** (`useAttendance`, `useBills`,
  `useWorkers`). Each is a class whose sequence fields the operations
  reassign. An operation takes the backend's reply as a parameter
  (`Remote<T>`: the stored row, or an error) and states the new cache and
  what it hands back (`Outcome<T>`: nothing, the row, or a rethrown error).
- **Marking attendance.** It upserts the single mark of a (worker, day) pair
  and keeps the cache sorted newest first with a stable sort. Marking
  replaces the previous mark, so marking twice is the same as marking once
  with the second status.
- **The page and panel computations:**
  - the salary sheet (present days × daily wage − advances, which may be
    negative);
  - today's attendance counts;
  - the name search;
  - the monthly attendance grid;
  - the today, month and overall expense totals;
  - each worker's spending;
  - the monthly report cards;
  - the worker detail panel;
  - the monthly HTML report.
- **JavaScript semantics the pages depend on:**
  - `parseInt` is modelled as `ParseInt`, with `None` for NaN;
  - `month && year` is string truthiness;
  - `date || selectedDate`;
  - `monthNames[NaN]` is `"undefined"`;
  - `x || '-'`;
  - `Array.prototype.sort` is stable.

Dates are `YYYY-MM-DD` strings. A month filter reads the month and year from
the string (`Dates.Parse`). Money is an unbounded integer. The modules follow
the program:

- `Common`
- `Dates`
- `Records`
- `AttendanceHook`, `BillsHook`, `WorkersHook`
- `Ledger` (the filters several pages share)
- `Salary`
- `AttendancePage`, `WageUpdate`, `RecordingPage`, `WorkerAttendancePage`
- `TotalExpenditure`, `TodayTotal`
- `WorkerDetail`, `MonthlyReports`, `MonthlyPdf`

On these points the model follows the code:

- `notMarked` is `total - present - absent` and is not clamped at zero
  (src/pages/AttendancePage.tsx:77). `AttendancePage.NotMarkedCanBeNegative`
  shows it going below zero.
- The recording grid lists days 1..n of the current month
  (src/pages/AttendanceRecordingPage.tsx:34-45).
- The salary sheet multiplies by the stored `daily_wage`
  (src/components/WorkerSalaryModal.tsx:50). The `workers` table declares that
  column non-null (src/integrations/supabase/types.ts:357).
- `updateBill` and `deleteBill` have no signed-in-user guard
  (src/hooks/useBills.tsx:88-145).
- With no user signed in, marking attendance and the add operations return
  nothing (src/hooks/useAttendance.tsx:76 and 121, src/hooks/useBills.tsx:57,
  src/hooks/useWorkers.tsx:92 and 130).

## Model

| member | source | states |
|---|---|---|
| `AttendanceHook.AttendanceCache.constructor` | src/hooks/useAttendance.tsx:26-28 | the caches start empty, which satisfies the cache invariant (newest first, at most one mark per worker and day) |
| `AttendanceHook.AttendanceCache.MarkAttendance` | src/hooks/useAttendance.tsx:75-113 | no user gives nothing and no change; a backend error is rethrown and nothing changes; success returns the stored row and the cache becomes `Upsert(old, row)`; advances never change; the cache invariant is kept |
| `AttendanceHook.AttendanceCache.AddAdvance` | src/hooks/useAttendance.tsx:115-150 | no user gives nothing; an error is rethrown with no change; success prepends the stored advance and returns it; attendance is untouched |
| `AttendanceHook.UpsertContents` | src/hooks/useAttendance.tsx:94-97 | after a mark the cache is newest first and holds exactly the old rows of other (worker, day) pairs plus the new row |
| `AttendanceHook.UpsertMarksOne` | src/hooks/useAttendance.tsx:94-97 | after a mark, the (worker, day) pair has exactly one mark: the new row |
| `AttendanceHook.UpsertKeepsOtherMarks` | src/hooks/useAttendance.tsx:95 | the marks of every other (worker, day) pair are unchanged, in the same order |
| `AttendanceHook.UpsertLength` | src/hooks/useAttendance.tsx:95-96 | the cache length drops by the replaced marks and grows by one |
| `AttendanceHook.UpsertKeepsUnique` | src/hooks/useAttendance.tsx:86-97 | at most one mark per (worker, day), as the upsert's conflict key promises, is preserved by marking |
| `AttendanceHook.MarkTwice` | src/hooks/useAttendance.tsx:94-97 | marking the same worker and day twice leaves the same cache as marking once with the second row |
| `AttendanceHook.PresentThenAbsent` | src/hooks/useAttendance.tsx:94-97 | marking present then absent leaves one mark for that day, and it is absent |
| `AttendanceHook.InsertByDateSpec` | src/hooks/useAttendance.tsx:96 | inserting into a newest-first list keeps it newest first and adds exactly the row |
| `AttendanceHook.SortNewestFirstSpec` | src/hooks/useAttendance.tsx:96 | the sort returns a permutation of its input ordered newest first |
| `AttendanceHook.NewestFirstPairs` | src/hooks/useAttendance.tsx:96 | adjacent newest-first order implies every earlier row is at least as new as every later one |
| `AttendanceHook.SortOfSorted` | src/hooks/useAttendance.tsx:96 | sorting an already newest-first list changes nothing |
| `AttendanceHook.SortNewestFirstStable` | src/hooks/useAttendance.tsx:96 | rows with the same date keep their relative order (the sort is stable) |
| `AttendanceHook.WorkerAttendanceInMonth` | src/hooks/useAttendance.tsx:152-165 | with a month and a year given and both parsing, the result is the ordered sublist of that worker's marks dated in that month and year |
| `AttendanceHook.WorkerAttendanceAll` | src/hooks/useAttendance.tsx:152-165 | when month or year is missing or empty, the result is all of that worker's marks, in order |
| `AttendanceHook.WorkerAttendanceUnparsedMonth` | src/hooks/useAttendance.tsx:157-160 | a non-empty month that `parseInt` reads as NaN selects nothing |
| `AttendanceHook.WorkerAdvancesInMonth` | src/hooks/useAttendance.tsx:167-180 | the advances lookup with a parsed month and year keeps exactly that worker's advances in that month |
| `AttendanceHook.WorkerAdvancesAll` | src/hooks/useAttendance.tsx:167-180 | without a month and year, the advances lookup keeps all of that worker's advances |
| `BillsHook.BillsCache.constructor` | src/hooks/useBills.tsx:20-21 | the bill cache starts empty |
| `BillsHook.BillsCache.AddBill` | src/hooks/useBills.tsx:48-86 | no user gives nothing; an error is rethrown with no change; success prepends the stored bill |
| `BillsHook.BillsCache.UpdateBill` | src/hooks/useBills.tsx:88-122 | an error is rethrown with no change; success replaces every bill with that id by the stored row; the length and all other positions are unchanged |
| `BillsHook.BillsCache.DeleteBill` | src/hooks/useBills.tsx:124-145 | success removes the bills with that id; an error is swallowed and nothing changes |
| `BillsHook.DeleteBillSpec` | src/hooks/useBills.tsx:133 | deletion keeps the other bills in order, each as often as before, removes every bill with the id, and an unknown id changes nothing |
| `BillsHook.AddThenDeleteBill` | src/hooks/useBills.tsx:133 | deleting a just-added bill whose id was new restores the previous list |
| `BillsHook.UpdateThenDeleteBill` | src/hooks/useBills.tsx:107 | updating then deleting a bill equals deleting it directly |
| `Common.ReplaceKey` | src/hooks/useBills.tsx:107 | the mapped list has the same length, with the new row at every position whose id matches and the old row elsewhere |
| `Common.RemoveKeySpec` | src/hooks/useWorkers.tsx:177 | removal by id keeps the other rows in order with their multiplicities and leaves no row with the id |
| `WorkersHook.WorkersCache.constructor` | src/hooks/useWorkers.tsx:29-31 | the worker and wage-record caches start empty |
| `WorkersHook.WorkersCache.AddWorker` | src/hooks/useWorkers.tsx:85-121 | no user gives nothing; an error is rethrown with no change; success prepends the stored worker; wage records are untouched |
| `WorkersHook.WorkersCache.AddWageRecord` | src/hooks/useWorkers.tsx:123-166 | no user gives nothing; an error is rethrown with no change; success prepends the stored record; workers are untouched |
| `WorkersHook.WorkersCache.DeleteWorker` | src/hooks/useWorkers.tsx:168-189 | success removes the workers with that id; an error is swallowed; wage records are untouched |
| `WorkersHook.DeleteWorkerSpec` | src/hooks/useWorkers.tsx:177 | deletion keeps the other workers in order, removes every worker with the id, and an unknown id changes nothing |
| `WorkersHook.AddThenDeleteWorker` | src/hooks/useWorkers.tsx:177 | deleting a just-added worker whose id was new restores the previous list |
| `Dates.DaysInMonth` | src/pages/AttendanceRecordingPage.tsx:38 | every month has 28 to 31 days |
| `Dates.YearLength` | src/pages/AttendanceRecordingPage.tsx:38 | the month lengths add up to 366 in a leap year and 365 otherwise |
| `Dates.PrevDay` | src/pages/AttendanceRecordingPage.tsx:50 | the day before a date is a valid date, earlier than it, with no valid date between them |
| `Dates.Format` | src/pages/AttendanceRecordingPage.tsx:50 | the `YYYY-MM-DD` text of a valid date has ten characters and parses back to that date |
| `Dates.FormatParse` | src/pages/AttendanceRecordingPage.tsx:50 | parsing then formatting a date string gives back the same string, so the two are inverse on well-formed dates |
| `Dates.DateOrderIsLexOrder` | src/hooks/useAttendance.tsx:96 | for well-formed `YYYY-MM-DD` strings, string order coincides with calendar order, which is the order of the sort's `getTime()` comparator |
| `Dates.DigitsInjective` | src/hooks/useAttendance.tsx:96 | two digit strings of the same length with the same value are equal |
| `Dates.ParseIntNatToString` | src/components/MonthlyReports.tsx:18 | `parseInt` of a number's decimal text gives the number back |
| `Dates.ParseIntIntToString` | src/components/MonthlyReports.tsx:18 | `parseInt(n.toString())` is `n`, negatives included |
| `Dates.InParsedMonthOfToString` | src/utils/pdfGenerator.ts:13 | a month filter on `parseInt` of a number's text selects exactly that number's month |
| `Ledger.BillsOnSpec` | src/pages/TodayTotalPage.tsx:20 | the bills of a day are the ordered sublist of bills with exactly that date |
| `Ledger.RecordsOnSpec` | src/pages/TodayTotalPage.tsx:21 | the records of a day are the ordered sublist of records with that date |
| `Ledger.BillsInMonthSpec` | src/pages/TotalExpenditurePage.tsx:22-25 | the bills of a month are exactly the bills dated in that month and year, in order |
| `Ledger.RecordsInMonthSpec` | src/pages/TotalExpenditurePage.tsx:27-30 | the records of a month are exactly the records dated in that month and year, in order |
| `Ledger.RecordsOfSpec` | src/components/WorkerDetailModal.tsx:25 | a worker's records are exactly the records with that worker id, in order |
| `Ledger.WorkerThenMonth` | src/components/WorkerDetailModal.tsx:27-30 | filtering by worker then by month, or by month then by worker, gives the same list as the combined filter |
| `Ledger.MonthAtMostAll` | src/components/WorkerDetailModal.tsx:32-33 | with non-negative amounts, a worker's monthly total never exceeds their total paid |
| `Salary.SelectedAttendanceSpec` | src/components/WorkerSalaryModal.tsx:24-33 | the salary sheet's attendance is exactly the worker's marks dated in the chosen month, in order |
| `Salary.SelectedAdvancesSpec` | src/components/WorkerSalaryModal.tsx:35-44 | the salary sheet's advances are exactly the worker's advances in the chosen month, in order |
| `Salary.PresentDays` | src/components/WorkerSalaryModal.tsx:49 | present days never exceed the selected marks |
| `Salary.TotalSalary` | src/components/WorkerSalaryModal.tsx:50 | no present days means no pay; with a non-negative wage, pay is between 0 and (selected marks × wage) |
| `Salary.TotalAdvances` | src/components/WorkerSalaryModal.tsx:51 | the advances figure is the sum of the amounts of the worker's advances in the month, and zero when there are none |
| `Salary.AdvanceAddsAmount` | src/components/WorkerSalaryModal.tsx:51-52 | one more advance of the worker in the month, anywhere in the list, is selected in place, adds exactly its amount to the advances and takes it off the net salary |
| `Salary.NetSalary` | src/components/WorkerSalaryModal.tsx:52 | net pay is negative exactly when the month's advances exceed the month's salary |
| `Salary.AbsentMarkAddsNothing` | src/components/WorkerSalaryModal.tsx:49-50 | an absent mark of the worker in the month changes neither the present days nor the salary |
| `Salary.NetSalaryCanBeNegative` | src/components/WorkerSalaryModal.tsx:52 | one positive advance and no attendance gives a negative net of minus that advance |
| `Salary.OtherAttendanceIgnored` | src/components/WorkerSalaryModal.tsx:29-31 | a mark of another worker or another month changes neither the present days nor the salary |
| `Salary.OtherAdvanceIgnored` | src/components/WorkerSalaryModal.tsx:40-42 | an advance of another worker or another month changes neither the selection nor its total |
| `Salary.PresentMarkAddsWage` | src/components/WorkerSalaryModal.tsx:49-50 | one more present mark in the month adds one day and exactly one daily wage |
| `AttendancePage.Lower` | src/pages/AttendancePage.tsx:37 | lower-casing keeps the length and maps each character by ASCII lower-casing |
| `AttendancePage.IncludesSpec` | src/pages/AttendancePage.tsx:37 | `includes` holds exactly when the term occurs at some position of the name |
| `AttendancePage.FilteredWorkersSpec` | src/pages/AttendancePage.tsx:36-38 | the search keeps, in order, exactly the workers whose lower-cased name contains the lower-cased term |
| `AttendancePage.EmptyTermKeepsAll` | src/pages/AttendancePage.tsx:36-38 | an empty search lists every worker |
| `AttendancePage.SearchIgnoresCase` | src/pages/AttendancePage.tsx:37 | lower-casing the search term does not change the result |
| `AttendancePage.LowerIdempotent` | src/pages/AttendancePage.tsx:37 | lower-casing twice is lower-casing once |
| `AttendancePage.StatusOf` | src/pages/AttendancePage.tsx:40-44 | no status exactly when the worker has no mark that day; otherwise the status of one of their marks that day |
| `AttendancePage.StatusOfIsFirstMark` | src/pages/AttendancePage.tsx:40-44 | the status shown is that of the first mark of that worker and day |
| `AttendancePage.StatusAfterMark` | src/pages/AttendancePage.tsx:40-44 | after a mark, the page shows the new status for that worker and day |
| `AttendancePage.GetTodayStats` | src/pages/AttendancePage.tsx:71-80 | total is the number of workers; present, absent and not-marked add up to the total |
| `AttendancePage.TodayStatsAddMark` | src/pages/AttendancePage.tsx:72-76 | one more mark, anywhere in the list, raises `present` by one exactly when it is a present mark dated today and `absent` by one exactly when it is an absent mark dated today; the worker count does not change |
| `AttendancePage.TodayStatsCountDay` | src/pages/AttendancePage.tsx:73-77 | present plus absent is the number of marks dated today; not-marked is the worker count minus that |
| `AttendancePage.NotMarkedCanBeNegative` | src/pages/AttendancePage.tsx:77 | a mark today with no workers listed gives a not-marked count of −1 |
| `AttendancePage.MarkDate` | src/pages/AttendancePage.tsx:48 | a non-empty explicit date wins; otherwise the selected date is used |
| `AttendancePage.HandleMarkAttendance` | src/pages/AttendancePage.tsx:46-52 | marks the chosen day through the hook; on an error or without a user the cache is unchanged |
| `AttendancePage.StatusText` | src/components/BackdateAttendanceModal.tsx:13 | the stored status word is `"present"` exactly for Present, and is shorter than a date |
| `AttendancePage.BackdateSwapsArguments` | src/pages/AttendancePage.tsx:283 | the backdate call as wired sends the status word as the date, which names no day, and the chosen day as the status, which is no status word |
| `AttendancePage.BackdateCall` | src/components/BackdateAttendanceModal.tsx:26-31 | the intended backdate call sends the chosen day as the date (the selected date when it is empty) and the chosen status |
| `AttendancePage.HandleBackdateMark` | src/components/BackdateAttendanceModal.tsx:26-31 | with the arguments in the handler's order, a backdated mark upserts the chosen day with the chosen status; on an error or without a user the cache is unchanged |
| `WageUpdate.FindWorker` | src/pages/AttendancePage.tsx:56 | nothing is found exactly when no worker has the id; a found worker has the id and is listed |
| `WageUpdate.FindWorkerFirst` | src/pages/AttendancePage.tsx:56 | the lookup returns the first listed worker with the id |
| `WageUpdate.ApplyUpdate` | src/pages/AttendancePage.tsx:58-64 | the stored worker keeps their id, takes the sent name and the sent wage, and keeps the old wage when none is sent |
| `WageUpdate.WagePayloadChangesOnlyWage` | src/pages/AttendancePage.tsx:58-64 | the wage payload, applied, changes the daily wage and nothing else |
| `WageUpdate.UpdateDailyWage` | src/pages/AttendancePage.tsx:54-69 | nothing is sent exactly when no listed worker has the id; otherwise it goes to that id |
| `WageUpdate.UpdateDailyWageSpec` | src/pages/AttendanceRecordingPage.tsx:65-80 | the edit writes the first worker with the id back with only the wage changed |
| `RecordingPage.LastDayOfMonth` | src/pages/AttendanceRecordingPage.tsx:38 | the month's length is its last valid day: 29 exactly for a leap February, 28 for another February, 30 for April, June, September and November |
| `RecordingPage.GenerateCalendarDates` | src/pages/AttendanceRecordingPage.tsx:34-45 | one date per day of today's month, day i+1 at position i, strictly increasing, all valid, and today among them |
| `RecordingPage.CellKey` | src/pages/AttendanceRecordingPage.tsx:50 | the lookup key of a cell parses back to the cell's own day and lies in the cell's month |
| `RecordingPage.CellKeyEastOfUtc` | src/pages/AttendanceRecordingPage.tsx:50 | when local time is ahead of UTC, the key as computed names the previous day (the previous month for day 1); otherwise it is the cell's own key |
| `RecordingPage.CellFor` | src/pages/AttendanceRecordingPage.tsx:253-293 | a mark is always shown when there is one, and a cell without a mark never shows one |
| `RecordingPage.UnmarkedCells` | src/pages/AttendanceRecordingPage.tsx:255-292 | an unmarked cell shows the mark buttons exactly on today, the past placeholder exactly before it, and the future placeholder exactly after it |
| `RecordingPage.MarkedCellShowsMark` | src/pages/AttendanceRecordingPage.tsx:49-54 | after a worker is marked for a day, that day's cell shows the mark |
| `RecordingPage.HandleMarkAttendance` | src/pages/AttendanceRecordingPage.tsx:56-63 | marks the cell's day through the hook; on an error or without a user the cache is unchanged |
| `WorkerAttendancePage.SummaryAddsUp` | src/pages/WorkerAttendancePage.tsx:214-228 | the present and absent counts of a worker add up to their total marks |
| `WorkerAttendancePage.MarkNewDayCounts` | src/pages/WorkerAttendancePage.tsx:214-228 | marking an unmarked day adds one to the total and one to the count of that status |
| `WorkerAttendancePage.TodayAttendance` | src/pages/WorkerAttendancePage.tsx:75-80 | without a worker, there is no status; otherwise it is the worker's status for today |
| `WorkerAttendancePage.HandleMarkAttendance` | src/pages/WorkerAttendancePage.tsx:50-58 | without a worker, a user or a successful reply nothing changes; otherwise the mark is upserted |
| `WorkerAttendancePage.UpdateDailyWageFor` | src/pages/WorkerAttendancePage.tsx:60-73 | a payload is sent exactly when the page has a worker, to the given id |
| `TotalExpenditure.Totals` | src/pages/TotalExpenditurePage.tsx:17-19 | `totalBills` is the sum of all bill amounts, `totalExpenditures` the sum of all record amounts, the grand total their sum, and zero when both lists are empty |
| `TotalExpenditure.TotalsAddBill` | src/pages/TotalExpenditurePage.tsx:17-19 | one more bill, anywhere in the list, adds its amount to the bill total and the grand total and leaves the expenditure total unchanged |
| `TotalExpenditure.TotalsAddRecord` | src/pages/TotalExpenditurePage.tsx:17-19 | one more expenditure record adds its amount to the expenditure total and the grand total and leaves the bill total unchanged |
| `TotalExpenditure.CurrentMonth` | src/pages/TotalExpenditurePage.tsx:22-34 | the month's lists are the month filters of the bills and the records for the 0-based month (an ordered sublist with multiplicities, by `Ledger.BillsInMonthSpec` and `Ledger.RecordsInMonthSpec`); membership is being dated in that month and year; each total is the sum of its list, and the month total is the sum of the two |
| `TotalExpenditure.MonthWithinOverall` | src/pages/TotalExpenditurePage.tsx:17-34 | the overall total is the month's total plus the rows outside the month; with non-negative amounts the month's total never exceeds the overall total |
| `TotalExpenditure.SpendingOf` | src/pages/TotalExpenditurePage.tsx:38-51 | a worker's entry carries the worker, their record count, `totalSpent` as the sum of all their records and `monthlySpent` as the sum of their records in the selected month; with non-negative amounts, 0 ≤ monthly ≤ total |
| `TotalExpenditure.RecordAddsSpending` | src/pages/TotalExpenditurePage.tsx:38-51 | one more record of the worker adds its amount to `totalSpent` and one to the count, and adds its amount to `monthlySpent` exactly when it is dated in the selected month |
| `TotalExpenditure.OtherRecordIgnoredInSpending` | src/pages/TotalExpenditurePage.tsx:38 | a record of another worker leaves the worker's entry unchanged |
| `TotalExpenditure.SpendingRowsSpec` | src/pages/TotalExpenditurePage.tsx:37-52 | one entry per worker, in worker order |
| `TotalExpenditure.WorkerSpendingSpec` | src/pages/TotalExpenditurePage.tsx:37-53 | the list keeps, in order, exactly the entries with a positive total |
| `TotalExpenditure.NoRecordsNoEntry` | src/pages/TotalExpenditurePage.tsx:53 | a worker without records gets no entry |
| `TodayTotal.Today` | src/pages/TodayTotalPage.tsx:17-25 | today's lists are the day filters of bills and records (an ordered sublist with multiplicities); membership is being dated today; each total is the sum of its list, zero when it is empty; the grand total is the sum of the two |
| `TodayTotal.TodayListsSpec` | src/pages/TodayTotalPage.tsx:20-21 | today's lists are the ordered sublists of rows dated today, with multiplicities |
| `TodayTotal.TodayWithinOverall` | src/pages/TodayTotalPage.tsx:23-25 | with non-negative amounts, today's total lies between zero and the overall total |
| `WorkerDetail.DetailOf` | src/components/WorkerDetailModal.tsx:25-33 | the panel's records are the worker filter of all records; the month's records are the worker's records in that month, a sublist of them; the totals are the sums of the two lists, and the monthly total never exceeds the total paid when amounts are non-negative |
| `WorkerDetail.TotalPaidSplits` | src/components/WorkerDetailModal.tsx:32-33 | the total paid is the monthly total plus the rest of the worker's records |
| `WorkerDetail.PhoneDigits` | src/components/WorkerDetailModal.tsx:37 | the WhatsApp number is the phone's digits, in order, every digit kept, nothing else |
| `WorkerDetail.PhoneDigitsIdempotent` | src/components/WorkerDetailModal.tsx:37 | stripping non-digits twice is stripping once, and an all-digit phone is kept as is |
| `MonthlyReports.WorkerMonthlyTotal` | src/components/MonthlyReports.tsx:21-30 | no records in the month total zero; with non-negative amounts, the total is between zero and the worker's total paid |
| `MonthlyReports.WorkerCard` | src/components/MonthlyReports.tsx:86-135 | the card counts the month's records, shows the first three (or fewer), and shows "N more" exactly when there are more than three, with N the rest |
| `MonthlyReports.CardTotalCoversRecords` | src/components/MonthlyReports.tsx:86-93 | the card's monthly total is the sum of the payments it shows plus the sum of the ones it folds into "N more" |
| `MonthlyReports.MonthlyTotalsAgree` | src/components/MonthlyReports.tsx:21-30 | the report card, the detail panel and the expenditure page's 0-based month agree on a worker's monthly total |
| `MonthlyReports.DownloadReport` | src/components/MonthlyReports.tsx:17-19 | for a readable year, the report's rows are those of exactly that month's bills and records, in order, and its totals are that month's sums; for a cleared year field (NaN) the report is empty and totals zero; the file is named after the month name and the year text |
| `MonthlyReports.YearText` | src/components/MonthlyReports.tsx:59-63 | the year text `parseInt` reads back to the year; a cleared year field becomes `"NaN"`, which `parseInt` cannot read |
| `MonthlyPdf.MonthName` | src/utils/pdfGenerator.ts:25-33 | a month text reading 1..12 names that month; any other text gives `"undefined"` |
| `MonthlyPdf.BillRows` | src/utils/pdfGenerator.ts:65-73 | one row per bill, carrying its date, shop, material, amount, and location or `-` |
| `MonthlyPdf.ExpenditureRows` | src/utils/pdfGenerator.ts:93-100 | one row per record, carrying its date, amount, and notes or `-` |
| `MonthlyPdf.GenerateMonthlyReport` | src/utils/pdfGenerator.ts:11-23 | the rows are those of the selected bills and records, in order; each total is the sum of its selection, and the grand total is their sum; the title and file are named after the month name and the year |
| `MonthlyPdf.ReportSelectsMonth` | src/utils/pdfGenerator.ts:11-19 | given a month and year as number text, the report selects exactly that month's bills and records |
| `MonthlyPdf.UnreadableMonth` | src/utils/pdfGenerator.ts:11-19 | a month text `parseInt` cannot read gives an empty report totalling zero, in a file named with `undefined` |
| `MonthlyPdf.UnreadableYear` | src/utils/pdfGenerator.ts:11-19 | a year text `parseInt` cannot read gives an empty report totalling zero, with the year text kept in the file name |
| `MonthlyPdf.MarchFileName` | src/utils/pdfGenerator.ts:121 | month `"3"` of 2024 downloads as `monthly-report-March-2024.html` |

## Findings

| source | as written | input that shows it | evidently intended | confidence | as-written member | corrected member |
|---|---|---|---|---|---|---|
| src/pages/AttendanceRecordingPage.tsx:50 | the cell key is `date.toISOString().split('T')[0]` of the local midnight of the cell's day. That is the UTC day, so the same key is used to look up (line 50) and to store (line 58) | a browser at UTC+05:30 and the cell of 2025-01-01: the key is `2024-12-31`, so the mark counts toward December's salary | the key is the cell's own local day | medium, not executed | `RecordingPage.CellKeyEastOfUtc` | `RecordingPage.CellKey` |
| src/pages/AttendancePage.tsx:283 | the backdate modal calls `onMarkAttendance(worker.id, dateStr, status)` (src/components/BackdateAttendanceModal.tsx:13, 29). The page passes `handleMarkAttendance(workerId, status, date?)` as that callback | a backdated Present mark for 2025-01-05 calls `markAttendance(id, "present", "2025-01-05")`: the date is `"present"` and the status is the day | the modal's day is sent as the date and its status as the status | high, not executed | `AttendancePage.BackdateSwapsArguments` | `AttendancePage.BackdateCall` |

`RecordingPage.CellKeyAsWritten` models the key as written, with the browser's UTC offset as a parameter. `RecordingPage.GridCell` and `RecordingPage.HandleMarkAttendance` use the corrected `RecordingPage.CellKey`, and `RecordingPage.MarkedCellShowsMark` proves that a mark made from a cell shows in that same cell.

`AttendancePage.BackdateCallAsWritten` models the backdate call as wired, with the arguments in the modal's order. `AttendancePage.BackdateCall` and `AttendancePage.HandleBackdateMark` put them in the handler's order. The same `toISOString` keying occurs on the worker page (src/pages/WorkerAttendancePage.tsx:53). That page is modelled with the date string as a parameter.

## Left out

- Network I/O, loading flags, refetching, toasts and rendering are left out. Every backend call is replaced by its reply, passed as a parameter.
- `updateWorker` is not part of this model: it is not defined in the worker hook's file. `WageUpdate.ApplyUpdate` models the backend's effect of the payload on the stored row.
- The wall clock is left out. `today`, the current month and the selected dates are parameters.
- Time zones are left out. Month filters read the month and year from the `YYYY-MM-DD` text. The source builds a `Date` from it and reads local fields, which can shift a first-of-month row into the previous month west of UTC.
- The other pages that key "today" with `toISOString` are not modelled for time zones either: the attendance page, the worker page and the today-total page take `today` as a parameter.
- Sorting rows whose dates are not `YYYY-MM-DD`: the sort's order is proved only for well-formed dates, and malformed ones have no reference order here.
- `parseInt` is modelled only for decimal digits after an optional `-` or `+`. Leading whitespace and hexadecimal prefixes are left out.
- Name search folds ASCII letters only. Unicode case folding is left out.
- Number and date formatting (`toLocaleString`, `toLocaleDateString('en-IN')`) and the HTML layout of the report are left out.
- `MonthlyPdf.ExpenditureRows` omits the phone column. The wage rows join `workers` without a phone and have no `worker` field, so the column always reads `-` in the source.
- `MonthlyReports.WorkerMonthlyTotal`, `MonthlyReports.WorkerCard`: the year is an integer. The year field is read with `parseInt` (src/components/MonthlyReports.tsx:59-63), so clearing it gives NaN. With a NaN year every monthly total is 0 and every card is empty. `MonthlyReports.DownloadReport` does model that case.
- `WorkerDetail.DetailOf`: the year is an integer. The panel's year field is also read with `parseInt` (src/components/WorkerDetailModal.tsx:122-128). With a cleared field (NaN) the month's records are empty and the monthly total is 0.
- `Dates.Format` requires a year in 0..9999. The calendar grid is modelled only for those years.
- `RecordingPage.GenerateCalendarDates` requires a year in 0..9999.
- The pages read `expenditureRecords` from the worker hook. The hook's file returns its wage records only as `wageRecords`. The model takes the expenditure records to be those wage rows (`Records.WageRecord`); whatever supplies `expenditureRecords` under that name is not part of this model.
- The fetch functions of the hooks are left out. Their effect is to overwrite the cache with the backend's list.
- Money is unbounded: JavaScript's double precision for very large sums is not modelled.
