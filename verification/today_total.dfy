/** The page of today's spending: today's bills and expenditure records and
    their totals; `today` is the current day's `YYYY-MM-DD` string. */
module TodayTotal {
  import opened Common
  import opened Records
  import opened Ledger
  import opened TotalExpenditure

  datatype TodayTotals = TodayTotals(
    bills: seq<Bill>, expenditures: seq<WageRecord>,
    billsTotal: int, expendituresTotal: int, grandTotal: int)

  function Today(bills: seq<Bill>, records: seq<WageRecord>, today: string): (t: TodayTotals)
    ensures forall b :: b in t.bills <==> b in bills && b.date == today
    ensures forall r :: r in t.expenditures <==> r in records && r.date == today
    ensures t.bills == BillsOn(bills, today) && t.expenditures == RecordsOn(records, today)
    ensures t.billsTotal == Sum(t.bills, BillAmount) && t.expendituresTotal == Sum(t.expenditures, WageAmount)
    ensures t.bills == [] ==> t.billsTotal == 0
    ensures t.expenditures == [] ==> t.expendituresTotal == 0
    ensures t.grandTotal == t.billsTotal + t.expendituresTotal
  {
    var tb := BillsOn(bills, today);
    var te := RecordsOn(records, today);
    TodayTotals(tb, te, Sum(tb, BillAmount), Sum(te, WageAmount), Sum(tb, BillAmount) + Sum(te, WageAmount))
  }

  /** Today's lists keep, in order, exactly the rows dated today. */
  lemma TodayListsSpec(bills: seq<Bill>, records: seq<WageRecord>, today: string)
    ensures IsSubseq(Today(bills, records, today).bills, bills)
    ensures IsSubseq(Today(bills, records, today).expenditures, records)
    ensures forall b :: multiset(Today(bills, records, today).bills)[b] == if b.date == today then multiset(bills)[b] else 0
    ensures forall r :: multiset(Today(bills, records, today).expenditures)[r] == if r.date == today then multiset(records)[r] else 0
  {
    BillsOnSpec(bills, today);
    RecordsOnSpec(records, today);
  }

  /** With non-negative amounts, today's grand total never exceeds the
      all-time grand total of the expenditure page. */
  lemma TodayWithinOverall(bills: seq<Bill>, records: seq<WageRecord>, today: string)
    requires AllNonNegative(bills, BillAmount) && AllNonNegative(records, WageAmount)
    ensures 0 <= Today(bills, records, today).grandTotal <= Totals(bills, records).grandTotal
  {
    SumFilterAtMost(bills, (b: Bill) => b.date == today, BillAmount);
    SumFilterAtMost(records, (r: WageRecord) => r.date == today, WageAmount);
    NonNegativeFiltered(bills, (b: Bill) => b.date == today, BillAmount);
    NonNegativeFiltered(records, (r: WageRecord) => r.date == today, WageAmount);
  }
}
