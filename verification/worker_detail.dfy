/** The worker detail modal: the worker's expenditure records, those of the
    selected month (1-based), their totals, and the number in the WhatsApp
    link. */
module WorkerDetail {
  import opened Common
  import opened Dates
  import opened Records
  import opened Ledger

  datatype Detail = Detail(workerRecords: seq<WageRecord>, monthlyRecords: seq<WageRecord>, monthlyTotal: int, totalPaid: int)

  /** `workerRecords`, `monthlyRecords` (filtered from `workerRecords`),
      `monthlyTotal` and `totalPaid`. */
  function DetailOf(records: seq<WageRecord>, worker: Worker, month: int, year: int): (d: Detail)
    ensures d.workerRecords == RecordsOf(records, worker.id)
    ensures forall r :: r in d.workerRecords <==> r in records && r.workerId == worker.id
    ensures d.monthlyRecords == WorkerRecordsInMonth(records, worker.id, month, year)
    ensures IsSubseq(d.monthlyRecords, d.workerRecords)
    ensures d.monthlyTotal == Sum(d.monthlyRecords, WageAmount) && d.totalPaid == Sum(d.workerRecords, WageAmount)
    ensures AllNonNegative(records, WageAmount) ==> d.monthlyTotal <= d.totalPaid
  {
    var mine := RecordsOf(records, worker.id);
    var monthly := RecordsInMonth(mine, month, year);
    WorkerThenMonth(records, worker.id, month, year);
    FilterIsSubseq(mine, (r: WageRecord) => InMonth(r.date, month, year));
    if AllNonNegative(records, WageAmount) then
      MonthAtMostAll(records, worker.id, month, year);
      Detail(mine, monthly, Sum(monthly, WageAmount), Sum(mine, WageAmount))
    else
      Detail(mine, monthly, Sum(monthly, WageAmount), Sum(mine, WageAmount))
  }

  /** The worker's records split into those of the month and the rest. */
  lemma TotalPaidSplits(records: seq<WageRecord>, worker: Worker, month: int, year: int)
    ensures var d := DetailOf(records, worker, month, year);
            d.totalPaid == d.monthlyTotal + Sum(Filter(d.workerRecords, (r: WageRecord) => !InMonth(r.date, month, year)), WageAmount)
  {
    var mine := RecordsOf(records, worker.id);
    SumSplit(mine, (r: WageRecord) => InMonth(r.date, month, year), (r: WageRecord) => !InMonth(r.date, month, year), WageAmount);
  }

  /** `phone.replace(/\D/g, '')`. */
  function PhoneDigits(phone: string): (r: string)
    ensures AllDigits(r)
    ensures IsSubseq(r, phone)
    ensures forall c :: multiset(r)[c] == if IsDigit(c) then multiset(phone)[c] else 0
  {
    var r := Filter(phone, IsDigit);
    FilterIsSubseq(phone, IsDigit);
    forall c ensures multiset(r)[c] == if IsDigit(c) then multiset(phone)[c] else 0 {
      FilterCount(phone, IsDigit, c);
    }
    assert forall i :: 0 <= i < |r| ==> r[i] in r;
    r
  }

  /** A number that is all digits already is sent as it is; stripping twice
      is stripping once. */
  lemma PhoneDigitsIdempotent(phone: string)
    ensures AllDigits(phone) ==> PhoneDigits(phone) == phone
    ensures PhoneDigits(PhoneDigits(phone)) == PhoneDigits(phone)
  {
    if AllDigits(phone) {
      FilterAll(phone, IsDigit);
    }
    FilterAll(PhoneDigits(phone), IsDigit);
  }
}
