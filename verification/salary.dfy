/** The salary figures of the worker salary modal: the worker's attendance
    and advances in the selected month (1-based) and year, the present days,
    the gross salary, the advances taken and the net salary. */
module Salary {
  import opened Common
  import opened Dates
  import opened Records

  /** The worker's attendance records in the selected month. */
  function SelectedAttendance(attendance: seq<AttendanceRecord>, w: WorkerId, month: int, year: int): seq<AttendanceRecord>
  {
    Filter(attendance, (r: AttendanceRecord) => r.workerId == w && InMonth(r.date, month, year))
  }

  /** The worker's advances in the selected month. */
  function SelectedAdvances(advances: seq<AdvanceRecord>, w: WorkerId, month: int, year: int): seq<AdvanceRecord>
  {
    Filter(advances, (a: AdvanceRecord) => a.workerId == w && InMonth(a.date, month, year))
  }

  /** `presentDays`: the selected records that say present. */
  function PresentDays(attendance: seq<AttendanceRecord>, w: WorkerId, month: int, year: int): (n: nat)
    ensures n <= |SelectedAttendance(attendance, w, month, year)|
  {
    |Filter(SelectedAttendance(attendance, w, month, year), (r: AttendanceRecord) => r.status == Present)|
  }

  /** `totalSalary = presentDays * daily_wage`. */
  function TotalSalary(attendance: seq<AttendanceRecord>, worker: Worker, month: int, year: int): (pay: int)
    ensures PresentDays(attendance, worker.id, month, year) == 0 ==> pay == 0
    ensures worker.dailyWage >= 0 ==> 0 <= pay <= |SelectedAttendance(attendance, worker.id, month, year)| * worker.dailyWage
  {
    var n := PresentDays(attendance, worker.id, month, year);
    var total := |SelectedAttendance(attendance, worker.id, month, year)|;
    assert worker.dailyWage >= 0 ==> n * worker.dailyWage <= total * worker.dailyWage by {
      if worker.dailyWage >= 0 {
        MulMonotone(n, total, worker.dailyWage);
      }
    }
    n * worker.dailyWage
  }

  lemma MulMonotone(a: nat, b: nat, c: nat)
    requires a <= b
    ensures a * c <= b * c
  {
  }

  /** `totalAdvances`: the sum of the selected advances. */
  function TotalAdvances(advances: seq<AdvanceRecord>, w: WorkerId, month: int, year: int): (total: int)
    ensures total == Sum(SelectedAdvances(advances, w, month, year), AdvanceAmount)
    ensures SelectedAdvances(advances, w, month, year) == [] ==> total == 0
  {
    Sum(SelectedAdvances(advances, w, month, year), AdvanceAmount)
  }

  /** `netSalary = totalSalary - totalAdvances`, not clamped at zero. */
  function NetSalary(attendance: seq<AttendanceRecord>, advances: seq<AdvanceRecord>, worker: Worker, month: int, year: int): (net: int)
    ensures net < 0 <==> TotalAdvances(advances, worker.id, month, year) > TotalSalary(attendance, worker, month, year)
  {
    TotalSalary(attendance, worker, month, year) - TotalAdvances(advances, worker.id, month, year)
  }

  /** The selected attendance is, in order, exactly the worker's records in
      the selected month. */
  lemma SelectedAttendanceSpec(attendance: seq<AttendanceRecord>, w: WorkerId, month: int, year: int)
    ensures IsSubseq(SelectedAttendance(attendance, w, month, year), attendance)
    ensures forall r :: multiset(SelectedAttendance(attendance, w, month, year))[r]
                        == if r.workerId == w && InMonth(r.date, month, year) then multiset(attendance)[r] else 0
  {
    var p := (r: AttendanceRecord) => r.workerId == w && InMonth(r.date, month, year);
    FilterIsSubseq(attendance, p);
    forall r ensures multiset(Filter(attendance, p))[r] == if r.workerId == w && InMonth(r.date, month, year) then multiset(attendance)[r] else 0 {
      FilterCount(attendance, p, r);
    }
  }

  /** The selected advances follow the same rule. */
  lemma SelectedAdvancesSpec(advances: seq<AdvanceRecord>, w: WorkerId, month: int, year: int)
    ensures IsSubseq(SelectedAdvances(advances, w, month, year), advances)
    ensures forall a :: multiset(SelectedAdvances(advances, w, month, year))[a]
                        == if a.workerId == w && InMonth(a.date, month, year) then multiset(advances)[a] else 0
  {
    var p := (a: AdvanceRecord) => a.workerId == w && InMonth(a.date, month, year);
    FilterIsSubseq(advances, p);
    forall a ensures multiset(Filter(advances, p))[a] == if a.workerId == w && InMonth(a.date, month, year) then multiset(advances)[a] else 0 {
      FilterCount(advances, p, a);
    }
  }

  /** A record of another worker or of another month changes no figure,
      wherever it sits in the list. */
  lemma OtherAttendanceIgnored(a: seq<AttendanceRecord>, b: seq<AttendanceRecord>, r: AttendanceRecord, worker: Worker, month: int, year: int)
    requires !(r.workerId == worker.id && InMonth(r.date, month, year))
    ensures SelectedAttendance(a + [r] + b, worker.id, month, year) == SelectedAttendance(a + b, worker.id, month, year)
    ensures PresentDays(a + [r] + b, worker.id, month, year) == PresentDays(a + b, worker.id, month, year)
    ensures TotalSalary(a + [r] + b, worker, month, year) == TotalSalary(a + b, worker, month, year)
  {
    SkipUnselected(a, b, r, worker.id, month, year);
  }

  lemma SkipUnselected(a: seq<AttendanceRecord>, b: seq<AttendanceRecord>, r: AttendanceRecord, w: WorkerId, month: int, year: int)
    requires !(r.workerId == w && InMonth(r.date, month, year))
    ensures SelectedAttendance(a + [r] + b, w, month, year) == SelectedAttendance(a + b, w, month, year)
  {
    var p := (x: AttendanceRecord) => x.workerId == w && InMonth(x.date, month, year);
    FilterConcat(a + [r], b, p);
    FilterConcat(a, [r], p);
    FilterConcat(a, b, p);
    FilterCons(r, [], p);
    assert [r] + [] == [r];
  }

  /** An advance of another worker or of another month changes no figure. */
  lemma OtherAdvanceIgnored(a: seq<AdvanceRecord>, b: seq<AdvanceRecord>, x: AdvanceRecord, w: WorkerId, month: int, year: int)
    requires !(x.workerId == w && InMonth(x.date, month, year))
    ensures SelectedAdvances(a + [x] + b, w, month, year) == SelectedAdvances(a + b, w, month, year)
    ensures TotalAdvances(a + [x] + b, w, month, year) == TotalAdvances(a + b, w, month, year)
  {
    SkipUnselectedAdvance(a, b, x, w, month, year);
  }

  lemma SkipUnselectedAdvance(a: seq<AdvanceRecord>, b: seq<AdvanceRecord>, x: AdvanceRecord, w: WorkerId, month: int, year: int)
    requires !(x.workerId == w && InMonth(x.date, month, year))
    ensures SelectedAdvances(a + [x] + b, w, month, year) == SelectedAdvances(a + b, w, month, year)
  {
    var p := (y: AdvanceRecord) => y.workerId == w && InMonth(y.date, month, year);
    FilterConcat(a + [x], b, p);
    FilterConcat(a, [x], p);
    FilterConcat(a, b, p);
    FilterCons(x, [], p);
    assert [x] + [] == [x];
  }

  /** One more advance of the worker in the month, wherever it is listed, is
      selected, adds exactly its amount to the advances and takes it off the
      net salary. */
  lemma AdvanceAddsAmount(attendance: seq<AttendanceRecord>, a: seq<AdvanceRecord>, b: seq<AdvanceRecord>, x: AdvanceRecord,
                          worker: Worker, month: int, year: int)
    requires x.workerId == worker.id && InMonth(x.date, month, year)
    ensures SelectedAdvances(a + [x] + b, worker.id, month, year)
            == SelectedAdvances(a, worker.id, month, year) + [x] + SelectedAdvances(b, worker.id, month, year)
    ensures TotalAdvances(a + [x] + b, worker.id, month, year) == TotalAdvances(a + b, worker.id, month, year) + x.amount
    ensures NetSalary(attendance, a + [x] + b, worker, month, year) == NetSalary(attendance, a + b, worker, month, year) - x.amount
  {
    var p := (y: AdvanceRecord) => y.workerId == worker.id && InMonth(y.date, month, year);
    FilterInsert(a, b, x, p);
    FilterConcat(a, b, p);
    SumInsert(Filter(a, p), Filter(b, p), x, AdvanceAmount);
  }

  /** One more present mark of the worker in the month adds one present day
      and one day's wage. */
  lemma PresentMarkAddsWage(a: seq<AttendanceRecord>, b: seq<AttendanceRecord>, r: AttendanceRecord, worker: Worker, month: int, year: int)
    requires r.workerId == worker.id && InMonth(r.date, month, year) && r.status == Present
    ensures PresentDays(a + [r] + b, worker.id, month, year) == PresentDays(a + b, worker.id, month, year) + 1
    ensures TotalSalary(a + [r] + b, worker, month, year) == TotalSalary(a + b, worker, month, year) + worker.dailyWage
  {
    PresentMarkAddsDay(a, b, r, worker.id, month, year);
    MulSucc(PresentDays(a + b, worker.id, month, year), worker.dailyWage);
  }

  lemma PresentMarkAddsDay(a: seq<AttendanceRecord>, b: seq<AttendanceRecord>, r: AttendanceRecord, w: WorkerId, month: int, year: int)
    requires r.workerId == w && InMonth(r.date, month, year) && r.status == Present
    ensures PresentDays(a + [r] + b, w, month, year) == PresentDays(a + b, w, month, year) + 1
  {
    var p := (x: AttendanceRecord) => x.workerId == w && InMonth(x.date, month, year);
    var q := (x: AttendanceRecord) => x.status == Present;
    FilterConcat(a + [r], b, p);
    FilterConcat(a, [r], p);
    FilterConcat(a, b, p);
    var sa, sb := Filter(a, p), Filter(b, p);
    FilterCons(r, [], p);
    assert [r] + [] == [r];
    FilterConcat(sa + [r], sb, q);
    FilterConcat(sa, [r], q);
    FilterConcat(sa, sb, q);
    FilterCons(r, [], q);
  }

  /** An absent mark of the worker in the month is selected but earns
      nothing: neither the present days nor the salary change. */
  lemma AbsentMarkAddsNothing(a: seq<AttendanceRecord>, b: seq<AttendanceRecord>, r: AttendanceRecord, worker: Worker, month: int, year: int)
    requires r.workerId == worker.id && InMonth(r.date, month, year) && r.status == Absent
    ensures PresentDays(a + [r] + b, worker.id, month, year) == PresentDays(a + b, worker.id, month, year)
    ensures TotalSalary(a + [r] + b, worker, month, year) == TotalSalary(a + b, worker, month, year)
  {
    var w := worker.id;
    var p := (x: AttendanceRecord) => x.workerId == w && InMonth(x.date, month, year);
    var q := (x: AttendanceRecord) => x.status == Present;
    FilterConcat(a + [r], b, p);
    FilterConcat(a, [r], p);
    FilterConcat(a, b, p);
    var sa, sb := Filter(a, p), Filter(b, p);
    FilterCons(r, [], p);
    assert [r] + [] == [r];
    FilterConcat(sa + [r], sb, q);
    FilterConcat(sa, [r], q);
    FilterConcat(sa, sb, q);
    FilterCons(r, [], q);
  }

  lemma MulSucc(n: int, w: int)
    ensures (n + 1) * w == n * w + w
  {
  }

  /** The net salary goes negative: with no attendance, one advance in the
      month leaves its amount owed. */
  lemma NetSalaryCanBeNegative(worker: Worker, x: AdvanceRecord, month: int, year: int)
    requires x.workerId == worker.id && InMonth(x.date, month, year) && x.amount > 0
    ensures NetSalary([], [x], worker, month, year) == -x.amount < 0
  {
    var p := (y: AdvanceRecord) => y.workerId == worker.id && InMonth(y.date, month, year);
    FilterCons(x, [], p);
    assert [x] + [] == [x];
    assert SelectedAdvances([x], worker.id, month, year) == [x];
    assert Sum([x], AdvanceAmount) == x.amount + Sum([x][1..], AdvanceAmount);
    assert SelectedAttendance([], worker.id, month, year) == [];
  }
}
