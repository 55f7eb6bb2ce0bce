/** The total expenditure page: the all-time totals, the totals of the
    selected month (`selectedMonth` is 0-based here, as `getMonth()` is) and
    the per-worker spending breakdown. */
module TotalExpenditure {
  import opened Common
  import opened Dates
  import opened Records
  import opened Ledger

  datatype Overall = Overall(totalBills: int, totalExpenditures: int, grandTotal: int)

  /** `totalBills`, `totalExpenditures`, `grandTotal`. */
  function Totals(bills: seq<Bill>, records: seq<WageRecord>): (o: Overall)
    ensures o.totalBills == Sum(bills, BillAmount) && o.totalExpenditures == Sum(records, WageAmount)
    ensures o.grandTotal == o.totalBills + o.totalExpenditures
    ensures bills == [] && records == [] ==> o.grandTotal == 0
  {
    var tb := Sum(bills, BillAmount);
    var te := Sum(records, WageAmount);
    Overall(tb, te, tb + te)
  }

  /** One more bill, wherever it is listed, adds its amount to the bill total
      and the grand total and leaves the expenditure total alone. */
  lemma TotalsAddBill(a: seq<Bill>, c: seq<Bill>, b: Bill, records: seq<WageRecord>)
    ensures Totals(a + [b] + c, records).totalBills == Totals(a + c, records).totalBills + b.amount
    ensures Totals(a + [b] + c, records).totalExpenditures == Totals(a + c, records).totalExpenditures
    ensures Totals(a + [b] + c, records).grandTotal == Totals(a + c, records).grandTotal + b.amount
  {
    SumInsert(a, c, b, BillAmount);
  }

  /** One more expenditure record, wherever it is listed, adds its amount to
      the expenditure total and the grand total and leaves the bill total
      alone. */
  lemma TotalsAddRecord(bills: seq<Bill>, a: seq<WageRecord>, c: seq<WageRecord>, r: WageRecord)
    ensures Totals(bills, a + [r] + c).totalExpenditures == Totals(bills, a + c).totalExpenditures + r.amount
    ensures Totals(bills, a + [r] + c).totalBills == Totals(bills, a + c).totalBills
    ensures Totals(bills, a + [r] + c).grandTotal == Totals(bills, a + c).grandTotal + r.amount
  {
    SumInsert(a, c, r, WageAmount);
  }

  datatype MonthTotals = MonthTotals(
    bills: seq<Bill>, expenditures: seq<WageRecord>,
    billsTotal: int, expendituresTotal: int, total: int)

  /** The rows of the selected month and their totals; `month0` counts
      January as 0. */
  function CurrentMonth(bills: seq<Bill>, records: seq<WageRecord>, month0: int, year: int): (m: MonthTotals)
    ensures forall b :: b in m.bills <==> (b in bills && Parse(b.date).Some?
                                           && Parse(b.date).value.month - 1 == month0 && Parse(b.date).value.year == year)
    ensures forall r :: r in m.expenditures <==> (r in records && Parse(r.date).Some?
                                                  && Parse(r.date).value.month - 1 == month0 && Parse(r.date).value.year == year)
    ensures m.bills == BillsInMonth(bills, month0 + 1, year)
    ensures m.expenditures == RecordsInMonth(records, month0 + 1, year)
    ensures m.billsTotal == Sum(m.bills, BillAmount) && m.expendituresTotal == Sum(m.expenditures, WageAmount)
    ensures m.total == m.billsTotal + m.expendituresTotal
  {
    var mb := BillsInMonth(bills, month0 + 1, year);
    var me := RecordsInMonth(records, month0 + 1, year);
    var tb := Sum(mb, BillAmount);
    var te := Sum(me, WageAmount);
    MonthTotals(mb, me, tb, te, tb + te)
  }

  /** The all-time total is the month's total plus the total of the rows of
      every other month; with non-negative amounts the month's total never
      exceeds it. */
  lemma MonthWithinOverall(bills: seq<Bill>, records: seq<WageRecord>, month0: int, year: int)
    ensures Totals(bills, records).grandTotal
            == CurrentMonth(bills, records, month0, year).total
               + Sum(Filter(bills, (b: Bill) => !InMonth(b.date, month0 + 1, year)), BillAmount)
               + Sum(Filter(records, (r: WageRecord) => !InMonth(r.date, month0 + 1, year)), WageAmount)
    ensures AllNonNegative(bills, BillAmount) && AllNonNegative(records, WageAmount)
            ==> CurrentMonth(bills, records, month0, year).total <= Totals(bills, records).grandTotal
  {
    BillsSplit(bills, month0 + 1, year);
    RecordsSplit(records, month0 + 1, year);
    if AllNonNegative(bills, BillAmount) && AllNonNegative(records, WageAmount) {
      NonNegativeFiltered(bills, (b: Bill) => !InMonth(b.date, month0 + 1, year), BillAmount);
      NonNegativeFiltered(records, (r: WageRecord) => !InMonth(r.date, month0 + 1, year), WageAmount);
    }
  }

  lemma BillsSplit(bills: seq<Bill>, month: int, year: int)
    ensures Sum(bills, BillAmount) == Sum(BillsInMonth(bills, month, year), BillAmount)
                                      + Sum(Filter(bills, (b: Bill) => !InMonth(b.date, month, year)), BillAmount)
  {
    SumSplit(bills, (b: Bill) => InMonth(b.date, month, year), (b: Bill) => !InMonth(b.date, month, year), BillAmount);
  }

  lemma RecordsSplit(records: seq<WageRecord>, month: int, year: int)
    ensures Sum(records, WageAmount) == Sum(RecordsInMonth(records, month, year), WageAmount)
                                        + Sum(Filter(records, (r: WageRecord) => !InMonth(r.date, month, year)), WageAmount)
  {
    SumSplit(records, (r: WageRecord) => InMonth(r.date, month, year), (r: WageRecord) => !InMonth(r.date, month, year), WageAmount);
  }

  lemma NonNegativeFiltered<T(!new)>(s: seq<T>, p: T -> bool, f: T -> int)
    requires AllNonNegative(s, f)
    ensures Sum(Filter(s, p), f) >= 0
  {
    var r := Filter(s, p);
    forall i | 0 <= i < |r| ensures f(r[i]) >= 0 {
      assert r[i] in s;
    }
    SumNonNegative(r, f);
  }

  // ------------------------------------------------------------ breakdown

  datatype Spending = Spending(worker: Worker, totalSpent: int, monthlySpent: int, recordCount: nat)

  /** One worker's entry: all of the worker's records, their total, and the
      total of those in the selected month. */
  function SpendingOf(w: Worker, records: seq<WageRecord>, month0: int, year: int): (s: Spending)
    ensures s.worker == w
    ensures s.recordCount == |RecordsOf(records, w.id)|
    ensures s.totalSpent == Sum(RecordsOf(records, w.id), WageAmount)
    ensures s.monthlySpent == Sum(WorkerRecordsInMonth(records, w.id, month0 + 1, year), WageAmount)
    ensures AllNonNegative(records, WageAmount) ==> 0 <= s.monthlySpent <= s.totalSpent
  {
    var mine := RecordsOf(records, w.id);
    var monthly := RecordsInMonth(mine, month0 + 1, year);
    WorkerThenMonth(records, w.id, month0 + 1, year);
    if AllNonNegative(records, WageAmount) then
      MonthAtMostAll(records, w.id, month0 + 1, year);
      NonNegativeFiltered(records, (r: WageRecord) => r.workerId == w.id && InMonth(r.date, month0 + 1, year), WageAmount);
      Spending(w, Sum(mine, WageAmount), Sum(monthly, WageAmount), |mine|)
    else
      Spending(w, Sum(mine, WageAmount), Sum(monthly, WageAmount), |mine|)
  }

  /** One more record of the worker, wherever it is listed, adds its amount to
      the worker's total, and to the monthly total exactly when it is dated in
      the selected month. */
  lemma RecordAddsSpending(w: Worker, a: seq<WageRecord>, c: seq<WageRecord>, r: WageRecord, month0: int, year: int)
    requires r.workerId == w.id
    ensures SpendingOf(w, a + [r] + c, month0, year).totalSpent == SpendingOf(w, a + c, month0, year).totalSpent + r.amount
    ensures SpendingOf(w, a + [r] + c, month0, year).recordCount == SpendingOf(w, a + c, month0, year).recordCount + 1
    ensures SpendingOf(w, a + [r] + c, month0, year).monthlySpent
            == SpendingOf(w, a + c, month0, year).monthlySpent + (if InMonth(r.date, month0 + 1, year) then r.amount else 0)
  {
    WorkerRecordsInsert(a, c, r, w.id, month0 + 1, year);
    SumInsert(RecordsOf(a, w.id), RecordsOf(c, w.id), r, WageAmount);
    if InMonth(r.date, month0 + 1, year) {
      SumInsert(WorkerRecordsInMonth(a, w.id, month0 + 1, year), WorkerRecordsInMonth(c, w.id, month0 + 1, year), r, WageAmount);
    } else {
      assert WorkerRecordsInMonth(a, w.id, month0 + 1, year) + [] + WorkerRecordsInMonth(c, w.id, month0 + 1, year)
             == WorkerRecordsInMonth(a, w.id, month0 + 1, year) + WorkerRecordsInMonth(c, w.id, month0 + 1, year);
    }
  }

  /** A record of another worker changes nothing in the worker's entry. */
  lemma OtherRecordIgnoredInSpending(w: Worker, a: seq<WageRecord>, c: seq<WageRecord>, r: WageRecord, month0: int, year: int)
    requires r.workerId != w.id
    ensures SpendingOf(w, a + [r] + c, month0, year) == SpendingOf(w, a + c, month0, year)
  {
    WorkerRecordsInsert(a, c, r, w.id, month0 + 1, year);
    assert RecordsOf(a, w.id) + [] + RecordsOf(c, w.id) == RecordsOf(a, w.id) + RecordsOf(c, w.id);
    assert WorkerRecordsInMonth(a, w.id, month0 + 1, year) + [] + WorkerRecordsInMonth(c, w.id, month0 + 1, year)
           == WorkerRecordsInMonth(a, w.id, month0 + 1, year) + WorkerRecordsInMonth(c, w.id, month0 + 1, year);
  }

  /** Where one inserted record lands in the worker's records and in the
      worker's records of a month. */
  lemma WorkerRecordsInsert(a: seq<WageRecord>, c: seq<WageRecord>, r: WageRecord, w: WorkerId, month: int, year: int)
    ensures RecordsOf(a + [r] + c, w) == RecordsOf(a, w) + (if r.workerId == w then [r] else []) + RecordsOf(c, w)
    ensures RecordsOf(a + c, w) == RecordsOf(a, w) + RecordsOf(c, w)
    ensures WorkerRecordsInMonth(a + [r] + c, w, month, year)
            == WorkerRecordsInMonth(a, w, month, year)
               + (if r.workerId == w && InMonth(r.date, month, year) then [r] else [])
               + WorkerRecordsInMonth(c, w, month, year)
    ensures WorkerRecordsInMonth(a + c, w, month, year) == WorkerRecordsInMonth(a, w, month, year) + WorkerRecordsInMonth(c, w, month, year)
  {
    var p := (x: WageRecord) => x.workerId == w;
    var q := (x: WageRecord) => x.workerId == w && InMonth(x.date, month, year);
    FilterInsert(a, c, r, p);
    FilterConcat(a, c, p);
    FilterInsert(a, c, r, q);
    FilterConcat(a, c, q);
  }

  /** `workers.map(...)`: one entry per worker, in order. */
  function SpendingRows(workers: seq<Worker>, records: seq<WageRecord>, month0: int, year: int): seq<Spending>
  {
    if workers == [] then []
    else [SpendingOf(workers[0], records, month0, year)] + SpendingRows(workers[1..], records, month0, year)
  }

  /** Entry `i` of the mapped list belongs to worker `i`. */
  lemma {:induction false} SpendingRowsSpec(workers: seq<Worker>, records: seq<WageRecord>, month0: int, year: int)
    ensures |SpendingRows(workers, records, month0, year)| == |workers|
    ensures forall i :: 0 <= i < |workers| ==> SpendingRows(workers, records, month0, year)[i] == SpendingOf(workers[i], records, month0, year)
  {
    if workers != [] {
      SpendingRowsSpec(workers[1..], records, month0, year);
      var rows := SpendingRows(workers, records, month0, year);
      forall i | 0 < i < |workers| ensures rows[i] == SpendingOf(workers[i], records, month0, year) {
        assert rows[i] == SpendingRows(workers[1..], records, month0, year)[i - 1];
        assert workers[i] == workers[1..][i - 1];
      }
    }
  }

  /** `workerSpending`: the entries with a positive total, in worker order. */
  function WorkerSpending(workers: seq<Worker>, records: seq<WageRecord>, month0: int, year: int): seq<Spending>
  {
    Filter(SpendingRows(workers, records, month0, year), (s: Spending) => s.totalSpent > 0)
  }

  /** The breakdown lists, in the workers' order, exactly the listed workers
      whose records total more than zero. */
  lemma WorkerSpendingSpec(workers: seq<Worker>, records: seq<WageRecord>, month0: int, year: int)
    ensures IsSubseq(WorkerSpending(workers, records, month0, year), SpendingRows(workers, records, month0, year))
    ensures forall s :: s in WorkerSpending(workers, records, month0, year) ==> s.totalSpent > 0
    ensures forall w :: SpendingOf(w, records, month0, year) in WorkerSpending(workers, records, month0, year)
                        <==> w in workers && Sum(RecordsOf(records, w.id), WageAmount) > 0
  {
    var rows := SpendingRows(workers, records, month0, year);
    SpendingRowsSpec(workers, records, month0, year);
    FilterIsSubseq(rows, (s: Spending) => s.totalSpent > 0);
    forall w ensures SpendingOf(w, records, month0, year) in rows <==> w in workers {
      if w in workers {
        var i :| 0 <= i < |workers| && workers[i] == w;
        assert rows[i] == SpendingOf(w, records, month0, year);
      }
      if SpendingOf(w, records, month0, year) in rows {
        var i :| 0 <= i < |rows| && rows[i] == SpendingOf(w, records, month0, year);
        assert workers[i] == w;
      }
    }
  }

  /** A worker without records is left out. */
  lemma NoRecordsNoEntry(workers: seq<Worker>, records: seq<WageRecord>, month0: int, year: int, w: Worker)
    requires RecordsOf(records, w.id) == []
    ensures SpendingOf(w, records, month0, year) !in WorkerSpending(workers, records, month0, year)
  {
    WorkerSpendingSpec(workers, records, month0, year);
  }
}
