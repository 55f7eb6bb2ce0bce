/** The monthly reports panel: for each worker, the expenditure records of the
    selected month (1-based) and year, their total, the first three of them,
    and the "...and N more" note; and the report download. */
module MonthlyReports {
  import opened Common
  import opened Dates
  import opened Records
  import opened Ledger
  import opened TotalExpenditure
  import opened WorkerDetail
  import opened MonthlyPdf

  /** `getWorkerMonthlyTotal(workerId)`. */
  function WorkerMonthlyTotal(records: seq<WageRecord>, w: WorkerId, month: int, year: int): (total: int)
    ensures WorkerRecordsInMonth(records, w, month, year) == [] ==> total == 0
    ensures AllNonNegative(records, WageAmount) ==> 0 <= total <= Sum(RecordsOf(records, w), WageAmount)
  {
    if AllNonNegative(records, WageAmount) then
      MonthAtMostAll(records, w, month, year);
      NonNegativeFiltered(records, (r: WageRecord) => r.workerId == w && InMonth(r.date, month, year), WageAmount);
      Sum(WorkerRecordsInMonth(records, w, month, year), WageAmount)
    else
      Sum(WorkerRecordsInMonth(records, w, month, year), WageAmount)
  }

  /** What a worker's card shows. */
  datatype Card = Card(monthlyTotal: int, payments: nat, recent: seq<WageRecord>, more: Option<nat>)

  /** The card of one worker: `workerRecords`, `slice(0, 3)` of it, and the
      note shown only when more than three records exist. */
  function WorkerCard(records: seq<WageRecord>, w: WorkerId, month: int, year: int): (c: Card)
    ensures c.payments == |WorkerRecordsInMonth(records, w, month, year)|
    ensures |c.recent| == if c.payments < 3 then c.payments else 3
    ensures c.recent == WorkerRecordsInMonth(records, w, month, year)[..|c.recent|]
    ensures c.more.Some? <==> c.payments > 3
    ensures c.more.Some? ==> |c.recent| + c.more.value == c.payments
  {
    var workerRecords := WorkerRecordsInMonth(records, w, month, year);
    var shown := if |workerRecords| < 3 then |workerRecords| else 3;
    Card(WorkerMonthlyTotal(records, w, month, year), |workerRecords|, workerRecords[..shown],
         if |workerRecords| > 3 then Some(|workerRecords| - 3) else None)
  }

  /** The card's total is the sum of the records it counts: the three shown
      plus the ones the note stands for. */
  lemma CardTotalCoversRecords(records: seq<WageRecord>, w: WorkerId, month: int, year: int)
    ensures var c := WorkerCard(records, w, month, year);
            var all := WorkerRecordsInMonth(records, w, month, year);
            c.monthlyTotal == Sum(c.recent, WageAmount) + Sum(all[|c.recent|..], WageAmount)
  {
    var c := WorkerCard(records, w, month, year);
    var all := WorkerRecordsInMonth(records, w, month, year);
    assert all == all[..|c.recent|] + all[|c.recent|..];
    SumConcat(all[..|c.recent|], all[|c.recent|..], WageAmount);
  }

  /** The panel, the worker detail modal and the expenditure page's breakdown
      give a worker the same total for the same month. */
  lemma MonthlyTotalsAgree(records: seq<WageRecord>, worker: Worker, month: int, year: int)
    ensures WorkerMonthlyTotal(records, worker.id, month, year) == DetailOf(records, worker, month, year).monthlyTotal
    ensures WorkerMonthlyTotal(records, worker.id, month, year) == SpendingOf(worker, records, month - 1, year).monthlySpent
  {
    WorkerThenMonth(records, worker.id, month, year);
  }

  /** `selectedYear.toString()`: the year field is read with `parseInt`, so
      a cleared field holds `NaN` (here `None`), written as "NaN". */
  function YearText(year: Option<int>): (s: string)
    ensures year.Some? ==> ParseInt(s) == Some(year.value)
    ensures year.None? ==> s == "NaN" && ParseInt(s).None?
  {
    if year.Some? then
      ParseIntIntToString(year.value);
      IntToString(year.value)
    else
      assert LeadingDigits("NaN") == [];
      "NaN"
  }

  /** `handleDownloadPDF`: the report is generated from the selected month
      and year written as strings, so it covers exactly that month; with a
      cleared year field it is empty and its file is named after "NaN". */
  function DownloadReport(bills: seq<Bill>, records: seq<WageRecord>, month: int, year: Option<int>): (r: Report)
    ensures year.Some? ==> r.billRows == BillRows(BillsInMonth(bills, month, year.value))
    ensures year.Some? ==> r.expenditureRows == ExpenditureRows(RecordsInMonth(records, month, year.value))
    ensures year.Some? ==> r.totalBills == Sum(BillsInMonth(bills, month, year.value), BillAmount)
    ensures year.Some? ==> r.totalExpenditures == Sum(RecordsInMonth(records, month, year.value), WageAmount)
    ensures year.None? ==> r.billRows == [] && r.expenditureRows == [] && r.grandTotal == 0
    ensures r.fileName == "monthly-report-" + MonthName(IntToString(month)) + "-" + YearText(year) + ".html"
  {
    if year.Some? then
      ReportSelectsMonth(bills, records, month, year.value);
      GenerateMonthlyReport(bills, records, IntToString(month), YearText(year))
    else
      UnreadableYear(bills, records, IntToString(month), YearText(year));
      GenerateMonthlyReport(bills, records, IntToString(month), YearText(year))
  }
}
