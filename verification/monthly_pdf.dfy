/** The monthly report file: the bills and expenditure records of the month
    named by the `month` and `year` strings, their totals, one table row per
    selected row, the month name of the title and the download file name. */
module MonthlyPdf {
  import opened Common
  import opened Dates
  import opened Records
  import opened Ledger

  const MonthNames: seq<string> := [
    "January", "February", "March", "April", "May", "June",
    "July", "August", "September", "October", "November", "December"]

  /** `monthNames[parseInt(month) - 1]`, which renders as "undefined" when
      the index is `NaN` or outside the table. */
  function MonthName(month: string): (name: string)
    ensures ParseInt(month).Some? && 1 <= ParseInt(month).value <= 12 ==> name == MonthNames[ParseInt(month).value - 1]
    ensures !(ParseInt(month).Some? && 1 <= ParseInt(month).value <= 12) ==> name == "undefined"
  {
    match ParseInt(month)
    case Some(m) => if 1 <= m <= 12 then MonthNames[m - 1] else "undefined"
    case None => "undefined"
  }

  function MonthlyBills(bills: seq<Bill>, month: string, year: string): seq<Bill>
  {
    Filter(bills, (b: Bill) => InParsedMonth(b.date, month, year))
  }

  function MonthlyExpenditures(records: seq<WageRecord>, month: string, year: string): seq<WageRecord>
  {
    Filter(records, (r: WageRecord) => InParsedMonth(r.date, month, year))
  }

  /** A row of the bills table; an absent location shows as "-". */
  datatype BillRow = BillRow(date: string, shopName: string, material: string, amount: int, location: string)

  /** A row of the expenditures table; absent notes show as "-". */
  datatype ExpenditureRow = ExpenditureRow(date: string, amount: int, notes: string)

  function OrDash(o: Option<string>): string
  {
    if o.Some? && o.value != "" then o.value else "-"
  }

  function BillRows(bills: seq<Bill>): (rows: seq<BillRow>)
    ensures |rows| == |bills|
    ensures forall i :: 0 <= i < |bills| ==>
      rows[i] == BillRow(bills[i].date, bills[i].shopName, bills[i].material, bills[i].amount, OrDash(bills[i].location))
  {
    if bills == [] then []
    else [BillRow(bills[0].date, bills[0].shopName, bills[0].material, bills[0].amount, OrDash(bills[0].location))]
         + BillRows(bills[1..])
  }

  function ExpenditureRows(records: seq<WageRecord>): (rows: seq<ExpenditureRow>)
    ensures |rows| == |records|
    ensures forall i :: 0 <= i < |records| ==> rows[i] == ExpenditureRow(records[i].date, records[i].amount, OrDash(records[i].notes))
  {
    if records == [] then []
    else [ExpenditureRow(records[0].date, records[0].amount, OrDash(records[0].notes))] + ExpenditureRows(records[1..])
  }

  datatype Report = Report(
    title: string, billRows: seq<BillRow>, expenditureRows: seq<ExpenditureRow>,
    totalBills: int, totalExpenditures: int, grandTotal: int, fileName: string)

  /** `generateMonthlyPDF(bills, expenditures, month, year)` without the
      markup and the download. */
  function GenerateMonthlyReport(bills: seq<Bill>, records: seq<WageRecord>, month: string, year: string): (r: Report)
    ensures r.billRows == BillRows(MonthlyBills(bills, month, year))
    ensures r.expenditureRows == ExpenditureRows(MonthlyExpenditures(records, month, year))
    ensures |r.billRows| == |MonthlyBills(bills, month, year)|
    ensures |r.expenditureRows| == |MonthlyExpenditures(records, month, year)|
    ensures r.totalBills == Sum(MonthlyBills(bills, month, year), BillAmount)
    ensures r.totalExpenditures == Sum(MonthlyExpenditures(records, month, year), WageAmount)
    ensures r.grandTotal == r.totalBills + r.totalExpenditures
    ensures r.title == "Monthly Report - " + MonthName(month) + " " + year
    ensures r.fileName == "monthly-report-" + MonthName(month) + "-" + year + ".html"
  {
    var mb := MonthlyBills(bills, month, year);
    var me := MonthlyExpenditures(records, month, year);
    var tb := Sum(mb, BillAmount);
    var te := Sum(me, WageAmount);
    Report("Monthly Report - " + MonthName(month) + " " + year, BillRows(mb), ExpenditureRows(me),
           tb, te, tb + te, "monthly-report-" + MonthName(month) + "-" + year + ".html")
  }

  /** With month and year strings written by `toString`, the report selects
      exactly the rows of that month, as the month pages do. */
  lemma ReportSelectsMonth(bills: seq<Bill>, records: seq<WageRecord>, month: int, year: int)
    ensures MonthlyBills(bills, IntToString(month), IntToString(year)) == BillsInMonth(bills, month, year)
    ensures MonthlyExpenditures(records, IntToString(month), IntToString(year)) == RecordsInMonth(records, month, year)
  {
    forall d ensures InParsedMonth(d, IntToString(month), IntToString(year)) <==> InMonth(d, month, year) {
      InParsedMonthOfToString(d, month, year);
    }
    FilterCongruent(bills, (b: Bill) => InParsedMonth(b.date, IntToString(month), IntToString(year)),
                           (b: Bill) => InMonth(b.date, month, year));
    FilterCongruent(records, (r: WageRecord) => InParsedMonth(r.date, IntToString(month), IntToString(year)),
                             (r: WageRecord) => InMonth(r.date, month, year));
  }

  /** A month string `parseInt` cannot read selects nothing: the report is
      empty, totals zero, and the name says "undefined". */
  lemma UnreadableMonth(bills: seq<Bill>, records: seq<WageRecord>, month: string, year: string)
    requires ParseInt(month).None?
    ensures GenerateMonthlyReport(bills, records, month, year).billRows == []
    ensures GenerateMonthlyReport(bills, records, month, year).expenditureRows == []
    ensures GenerateMonthlyReport(bills, records, month, year).grandTotal == 0
    ensures GenerateMonthlyReport(bills, records, month, year).fileName == "monthly-report-undefined-" + year + ".html"
  {
    FilterNone(bills, (b: Bill) => InParsedMonth(b.date, month, year));
    FilterNone(records, (r: WageRecord) => InParsedMonth(r.date, month, year));
  }

  /** A year string `parseInt` cannot read (the `"NaN"` of a cleared year
      field) selects nothing either, whatever the month. */
  lemma UnreadableYear(bills: seq<Bill>, records: seq<WageRecord>, month: string, year: string)
    requires ParseInt(year).None?
    ensures GenerateMonthlyReport(bills, records, month, year).billRows == []
    ensures GenerateMonthlyReport(bills, records, month, year).expenditureRows == []
    ensures GenerateMonthlyReport(bills, records, month, year).grandTotal == 0
    ensures GenerateMonthlyReport(bills, records, month, year).fileName == "monthly-report-" + MonthName(month) + "-" + year + ".html"
  {
    FilterNone(bills, (b: Bill) => InParsedMonth(b.date, month, year));
    FilterNone(records, (r: WageRecord) => InParsedMonth(r.date, month, year));
  }

  /** The file name of the report for March 2024. */
  lemma MarchFileName()
    ensures GenerateMonthlyReport([], [], "3", "2024").fileName == "monthly-report-March-2024.html"
  {
    assert ParseInt("3") == Some(3) by {
      ParseIntNatToString(3);
      assert NatToString(3) == "3";
    }
  }
}
