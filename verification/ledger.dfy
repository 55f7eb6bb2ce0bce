/** The selections the report pages make over bills and expenditure records
    (the `wage_records` rows): by day, by calendar month, by worker. */
module Ledger {
  import opened Common
  import opened Dates
  import opened Records

  /** The bills dated `day`, in list order. */
  function BillsOn(bills: seq<Bill>, day: string): seq<Bill>
  {
    Filter(bills, (b: Bill) => b.date == day)
  }

  /** The expenditure records dated `day`, in list order. */
  function RecordsOn(records: seq<WageRecord>, day: string): seq<WageRecord>
  {
    Filter(records, (r: WageRecord) => r.date == day)
  }

  /** The bills dated in month `month` (1-based) of `year`, in list order. */
  function BillsInMonth(bills: seq<Bill>, month: int, year: int): seq<Bill>
  {
    Filter(bills, (b: Bill) => InMonth(b.date, month, year))
  }

  /** The expenditure records dated in month `month` (1-based) of `year`. */
  function RecordsInMonth(records: seq<WageRecord>, month: int, year: int): seq<WageRecord>
  {
    Filter(records, (r: WageRecord) => InMonth(r.date, month, year))
  }

  /** The expenditure records of worker `w`, in list order. */
  function RecordsOf(records: seq<WageRecord>, w: WorkerId): seq<WageRecord>
  {
    Filter(records, (r: WageRecord) => r.workerId == w)
  }

  /** The expenditure records of worker `w` in one month, selected by one
      combined test. */
  function WorkerRecordsInMonth(records: seq<WageRecord>, w: WorkerId, month: int, year: int): seq<WageRecord>
  {
    Filter(records, (r: WageRecord) => r.workerId == w && InMonth(r.date, month, year))
  }

  /** The day selection keeps, in order, exactly the bills of that day. */
  lemma BillsOnSpec(bills: seq<Bill>, day: string)
    ensures IsSubseq(BillsOn(bills, day), bills)
    ensures forall b :: multiset(BillsOn(bills, day))[b] == if b.date == day then multiset(bills)[b] else 0
  {
    var p := (b: Bill) => b.date == day;
    FilterIsSubseq(bills, p);
    forall b ensures multiset(Filter(bills, p))[b] == if b.date == day then multiset(bills)[b] else 0 {
      FilterCount(bills, p, b);
    }
  }

  /** The day selection keeps, in order, exactly the records of that day. */
  lemma RecordsOnSpec(records: seq<WageRecord>, day: string)
    ensures IsSubseq(RecordsOn(records, day), records)
    ensures forall r :: multiset(RecordsOn(records, day))[r] == if r.date == day then multiset(records)[r] else 0
  {
    var p := (r: WageRecord) => r.date == day;
    FilterIsSubseq(records, p);
    forall r ensures multiset(Filter(records, p))[r] == if r.date == day then multiset(records)[r] else 0 {
      FilterCount(records, p, r);
    }
  }

  /** The month selection keeps, in order, exactly the bills of that month. */
  lemma BillsInMonthSpec(bills: seq<Bill>, month: int, year: int)
    ensures IsSubseq(BillsInMonth(bills, month, year), bills)
    ensures forall b :: multiset(BillsInMonth(bills, month, year))[b]
                        == if InMonth(b.date, month, year) then multiset(bills)[b] else 0
  {
    var p := (b: Bill) => InMonth(b.date, month, year);
    FilterIsSubseq(bills, p);
    forall b ensures multiset(Filter(bills, p))[b] == if InMonth(b.date, month, year) then multiset(bills)[b] else 0 {
      FilterCount(bills, p, b);
    }
  }

  /** The month selection keeps, in order, exactly the records of that month. */
  lemma RecordsInMonthSpec(records: seq<WageRecord>, month: int, year: int)
    ensures IsSubseq(RecordsInMonth(records, month, year), records)
    ensures forall r :: multiset(RecordsInMonth(records, month, year))[r]
                        == if InMonth(r.date, month, year) then multiset(records)[r] else 0
  {
    var p := (r: WageRecord) => InMonth(r.date, month, year);
    FilterIsSubseq(records, p);
    forall r ensures multiset(Filter(records, p))[r] == if InMonth(r.date, month, year) then multiset(records)[r] else 0 {
      FilterCount(records, p, r);
    }
  }

  /** The worker selection keeps, in order, exactly that worker's records. */
  lemma RecordsOfSpec(records: seq<WageRecord>, w: WorkerId)
    ensures IsSubseq(RecordsOf(records, w), records)
    ensures forall r :: multiset(RecordsOf(records, w))[r] == if r.workerId == w then multiset(records)[r] else 0
  {
    var p := (r: WageRecord) => r.workerId == w;
    FilterIsSubseq(records, p);
    forall r ensures multiset(Filter(records, p))[r] == if r.workerId == w then multiset(records)[r] else 0 {
      FilterCount(records, p, r);
    }
  }

  /** Selecting a worker and then a month, selecting a month and then a
      worker, and selecting by the combined test give the same list. */
  lemma WorkerThenMonth(records: seq<WageRecord>, w: WorkerId, month: int, year: int)
    ensures RecordsInMonth(RecordsOf(records, w), month, year) == WorkerRecordsInMonth(records, w, month, year)
    ensures RecordsOf(RecordsInMonth(records, month, year), w) == WorkerRecordsInMonth(records, w, month, year)
  {
    var ofW := (r: WageRecord) => r.workerId == w;
    var inM := (r: WageRecord) => InMonth(r.date, month, year);
    var both := (r: WageRecord) => r.workerId == w && InMonth(r.date, month, year);
    FilterFilter(records, ofW, inM, both);
    FilterFilter(records, inM, ofW, both);
  }

  /** With non-negative amounts, the records of one month of one worker never
      total more than all of that worker's records. */
  lemma MonthAtMostAll(records: seq<WageRecord>, w: WorkerId, month: int, year: int)
    requires AllNonNegative(records, WageAmount)
    ensures Sum(WorkerRecordsInMonth(records, w, month, year), WageAmount) <= Sum(RecordsOf(records, w), WageAmount)
  {
    WorkerThenMonth(records, w, month, year);
    var mine := RecordsOf(records, w);
    forall i | 0 <= i < |mine| ensures WageAmount(mine[i]) >= 0 {
      assert mine[i] in records;
    }
    SumFilterAtMost(mine, (r: WageRecord) => InMonth(r.date, month, year), WageAmount);
  }
}
