/** The page of one worker's attendance: the worker named by the page's id,
    the summary counts over all of the worker's records, today's status, and
    the guards of its mark and wage actions. */
module WorkerAttendancePage {
  import opened Common
  import opened Records
  import opened AttendanceHook
  import opened AttendancePage
  import opened WageUpdate

  /** The worker's records with status `st` ("Days Present", "Days Absent"). */
  function DaysWith(records: seq<AttendanceRecord>, w: WorkerId, st: Status): nat
  {
    |Filter(records, (r: AttendanceRecord) => r.workerId == w && r.status == st)|
  }

  /** "Total Records": all of the worker's records. */
  function TotalRecords(records: seq<AttendanceRecord>, w: WorkerId): nat
  {
    |Filter(records, (r: AttendanceRecord) => r.workerId == w)|
  }

  /** A record is present or absent, so the two counts make up the total. */
  lemma {:induction false} SummaryAddsUp(records: seq<AttendanceRecord>, w: WorkerId)
    ensures DaysWith(records, w, Present) + DaysWith(records, w, Absent) == TotalRecords(records, w)
  {
    if records != [] {
      SummaryAddsUp(records[1..], w);
      var p := (r: AttendanceRecord) => r.workerId == w && r.status == Present;
      var a := (r: AttendanceRecord) => r.workerId == w && r.status == Absent;
      var t := (r: AttendanceRecord) => r.workerId == w;
      FilterCons(records[0], records[1..], p);
      FilterCons(records[0], records[1..], a);
      FilterCons(records[0], records[1..], t);
      assert records == [records[0]] + records[1..];
    }
  }

  /** With one mark per worker and day, a mark for a new day adds one record
      to the total and one to the count of its status. */
  lemma MarkNewDayCounts(records: seq<AttendanceRecord>, r: AttendanceRecord)
    requires MarksOf(records, r.workerId, r.date) == []
    ensures TotalRecords(Upsert(records, r), r.workerId) == TotalRecords(records, r.workerId) + 1
    ensures DaysWith(Upsert(records, r), r.workerId, r.status) == DaysWith(records, r.workerId, r.status) + 1
  {
    var key := (x: AttendanceRecord) => HasKey(x, r.workerId, r.date);
    var other := (x: AttendanceRecord) => !HasKey(x, r.workerId, r.date);
    forall i | 0 <= i < |records| ensures other(records[i]) {
      assert records[i] in records;
    }
    FilterAll(records, other);
    UpsertContents(records, r);
    var u := Upsert(records, r);
    assert multiset(u) == multiset(records) + multiset{r};
    var t := (x: AttendanceRecord) => x.workerId == r.workerId;
    var s := (x: AttendanceRecord) => x.workerId == r.workerId && x.status == r.status;
    CountAddOne(records, u, r, t);
    CountAddOne(records, u, r, s);
  }

  lemma CountAddOne(a: seq<AttendanceRecord>, b: seq<AttendanceRecord>, r: AttendanceRecord, p: AttendanceRecord -> bool)
    requires multiset(b) == multiset(a) + multiset{r} && p(r)
    ensures |Filter(b, p)| == |Filter(a, p)| + 1
  {
    var c := [r] + a;
    assert multiset(c) == multiset(b);
    FilterLengthByMultiset(b, c, p);
    FilterCons(r, a, p);
  }

  /** `worker`: the listed worker whose id is the page's id. */
  function PageWorker(workers: seq<Worker>, pageId: RowId): Option<Worker>
  {
    FindWorker(workers, pageId)
  }

  /** `getTodayAttendance()`: the page worker's status for today, and nothing
      when the page's worker is not listed. */
  function TodayAttendance(records: seq<AttendanceRecord>, worker: Option<Worker>, today: string): (st: Option<Status>)
    ensures worker.None? ==> st.None?
    ensures worker.Some? ==> st == StatusOf(records, worker.value.id, today)
  {
    if worker.None? then None else StatusOf(records, worker.value.id, today)
  }

  /** `handleMarkAttendance(date, status)`: nothing when the page's worker is
      not listed; otherwise the mark goes to the worker's own id, and an error
      from the hook is caught and only logged. */
  method HandleMarkAttendance(cache: AttendanceCache, user: Option<UserId>, worker: Option<Worker>,
                              date: string, status: Status, reply: Remote<RowId>)
    requires cache.Valid()
    modifies cache
    ensures cache.Valid()
    ensures cache.advances == old(cache.advances)
    ensures worker.Some? && user.Some? && reply.Ok?
            ==> cache.attendance == Upsert(old(cache.attendance), AttendanceRecord(reply.value, worker.value.id, date, status))
    ensures worker.None? || user.None? || reply.Err? ==> cache.attendance == old(cache.attendance)
  {
    if worker.None? {
      return;
    }
    var _ := cache.MarkAttendance(user, worker.value.id, date, status, reply);
  }

  /** `handleUpdateDailyWage(workerId, newWage)`: nothing when the page's
      worker is not listed; otherwise the payload copies the page worker's
      fields and is sent for the id it was given. */
  function UpdateDailyWageFor(worker: Option<Worker>, workerId: RowId, newWage: int): (sent: Option<(RowId, WorkerData)>)
    ensures worker.None? <==> sent.None?
    ensures worker.Some? ==> sent.value.0 == workerId
                             && ApplyUpdate(worker.value, sent.value.1) == worker.value.(dailyWage := newWage)
  {
    if worker.None? then None else Some((workerId, WagePayload(worker.value, newWage)))
  }
}
