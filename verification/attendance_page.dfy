/** The daily attendance page: the worker name search, the status lookup by
    worker and day, today's counts, and the date `handleMarkAttendance`
    marks. The status lookup is shared by the other attendance pages. */
module AttendancePage {
  import opened Common
  import opened Dates
  import opened Records
  import opened AttendanceHook

  // ------------------------------------------------------------ name search

  /** `toLowerCase` on the ASCII letters (other characters are unchanged). */
  function LowerChar(c: char): (l: char)
    ensures !('A' <= l <= 'Z')
    ensures !('A' <= c <= 'Z') ==> l == c
  {
    if 'A' <= c <= 'Z' then (c as int - 'A' as int + 'a' as int) as char else c
  }

  function Lower(s: string): (r: string)
    ensures |r| == |s|
    ensures forall i :: 0 <= i < |s| ==> r[i] == LowerChar(s[i])
  {
    if s == [] then [] else [LowerChar(s[0])] + Lower(s[1..])
  }

  /** `s.includes(t)`: `t` occurs in `s` as a contiguous block. */
  predicate Includes(s: string, t: string)
  {
    (|t| <= |s| && s[..|t|] == t) || (s != [] && Includes(s[1..], t))
  }

  /** `t` occurs in `s` starting at position `i`. */
  ghost predicate OccursAt(s: string, t: string, i: int)
  {
    0 <= i <= |s| - |t| && s[i..i + |t|] == t
  }

  /** `Includes` finds an occurrence exactly when there is one. */
  lemma {:induction false} IncludesSpec(s: string, t: string)
    ensures Includes(s, t) <==> exists i :: OccursAt(s, t, i)
  {
    if |t| <= |s| && s[..|t|] == t {
      assert OccursAt(s, t, 0);
    } else if s != [] {
      IncludesSpec(s[1..], t);
      if Includes(s[1..], t) {
        var i :| OccursAt(s[1..], t, i);
        assert s[i + 1..i + 1 + |t|] == s[1..][i..i + |t|];
        assert OccursAt(s, t, i + 1);
      }
      if exists i :: OccursAt(s, t, i) {
        var i :| OccursAt(s, t, i);
        assert i != 0;
        assert s[1..][i - 1..i - 1 + |t|] == s[i..i + |t|];
        assert OccursAt(s[1..], t, i - 1);
      }
    } else {
      assert forall i :: !OccursAt(s, t, i);
    }
  }

  predicate NameMatches(w: Worker, term: string)
  {
    Includes(Lower(w.name), Lower(term))
  }

  /** `filteredWorkers`. */
  function FilteredWorkers(workers: seq<Worker>, term: string): seq<Worker>
  {
    Filter(workers, (w: Worker) => NameMatches(w, term))
  }

  /** Lower-casing twice is lower-casing once. */
  lemma LowerIdempotent(s: string)
    ensures Lower(Lower(s)) == Lower(s)
  {
  }

  /** The search keeps, in order, exactly the workers whose lower-cased name
      contains the lower-cased term. */
  lemma FilteredWorkersSpec(workers: seq<Worker>, term: string)
    ensures IsSubseq(FilteredWorkers(workers, term), workers)
    ensures forall w :: multiset(FilteredWorkers(workers, term))[w] == if NameMatches(w, term) then multiset(workers)[w] else 0
  {
    var p := (w: Worker) => NameMatches(w, term);
    FilterIsSubseq(workers, p);
    forall w ensures multiset(Filter(workers, p))[w] == if NameMatches(w, term) then multiset(workers)[w] else 0 {
      FilterCount(workers, p, w);
    }
  }

  /** An empty search term keeps every worker. */
  lemma EmptyTermKeepsAll(workers: seq<Worker>)
    ensures FilteredWorkers(workers, "") == workers
  {
    forall i | 0 <= i < |workers| ensures NameMatches(workers[i], "") {
      assert Lower(workers[i].name)[..0] == Lower("");
    }
    FilterAll(workers, (w: Worker) => NameMatches(w, ""));
  }

  /** The search ignores the case of the term. */
  lemma SearchIgnoresCase(workers: seq<Worker>, term: string)
    ensures FilteredWorkers(workers, Lower(term)) == FilteredWorkers(workers, term)
  {
    LowerIdempotent(term);
    FilterCongruent(workers, (w: Worker) => NameMatches(w, Lower(term)), (w: Worker) => NameMatches(w, term));
  }

  // ------------------------------------------------------------ status lookup

  /** `records.find(r => r.worker_id === w && r.date === d)?.status`. */
  function StatusOf(records: seq<AttendanceRecord>, w: WorkerId, d: string): (st: Option<Status>)
    ensures st.None? <==> forall i :: 0 <= i < |records| ==> !HasKey(records[i], w, d)
    ensures st.Some? ==> exists i :: 0 <= i < |records| && HasKey(records[i], w, d) && records[i].status == st.value
                                     && forall j :: 0 <= j < i ==> !HasKey(records[j], w, d)
  {
    if records == [] then None
    else if HasKey(records[0], w, d) then Some(records[0].status)
    else
      var st := StatusOf(records[1..], w, d);
      assert st.Some? ==> exists i :: 0 <= i < |records[1..]| && HasKey(records[1..][i], w, d) && records[1..][i].status == st.value
                                      && forall j :: 0 <= j < i ==> !HasKey(records[1..][j], w, d);
      if st.Some? then
        var i :| 0 <= i < |records[1..]| && HasKey(records[1..][i], w, d) && records[1..][i].status == st.value
                 && forall j :: 0 <= j < i ==> !HasKey(records[1..][j], w, d);
        assert records[i + 1] == records[1..][i];
        assert forall j :: 0 <= j < i + 1 ==> !HasKey(records[j], w, d) by {
          forall j | 0 <= j < i + 1 ensures !HasKey(records[j], w, d) {
            if j > 0 { assert records[j] == records[1..][j - 1]; }
          }
        }
        st
      else st
  }

  /** The lookup reads the first of the worker's marks for that day. */
  lemma StatusOfIsFirstMark(records: seq<AttendanceRecord>, w: WorkerId, d: string)
    ensures StatusOf(records, w, d) == if MarksOf(records, w, d) == [] then None else Some(MarksOf(records, w, d)[0].status)
  {
    if records != [] {
      StatusOfIsFirstMark(records[1..], w, d);
    }
  }

  /** After `markAttendance` stored a mark, the lookup reports its status. */
  lemma StatusAfterMark(records: seq<AttendanceRecord>, r: AttendanceRecord)
    ensures StatusOf(Upsert(records, r), r.workerId, r.date) == Some(r.status)
  {
    UpsertMarksOne(records, r);
    StatusOfIsFirstMark(Upsert(records, r), r.workerId, r.date);
  }

  // ------------------------------------------------------------ today's stats

  datatype TodayStats = TodayStats(present: int, absent: int, notMarked: int, total: int)

  /** The records dated `today`. */
  function OnDay(records: seq<AttendanceRecord>, today: string): seq<AttendanceRecord>
  {
    Filter(records, (r: AttendanceRecord) => r.date == today)
  }

  function CountStatus(records: seq<AttendanceRecord>, st: Status): nat
  {
    |Filter(records, (r: AttendanceRecord) => r.status == st)|
  }

  /** `getTodayStats()` for the day `today`. */
  function GetTodayStats(records: seq<AttendanceRecord>, workers: seq<Worker>, today: string): (stats: TodayStats)
    ensures stats.total == |workers|
    ensures stats.present >= 0 && stats.absent >= 0
    ensures stats.present + stats.absent + stats.notMarked == stats.total
  {
    var todays := OnDay(records, today);
    var present := CountStatus(todays, Present);
    var absent := CountStatus(todays, Absent);
    TodayStats(present, absent, |workers| - present - absent, |workers|)
  }

  /** Every record splits into present or absent. */
  lemma {:induction false} StatusSplit(records: seq<AttendanceRecord>)
    ensures CountStatus(records, Present) + CountStatus(records, Absent) == |records|
  {
    if records != [] {
      StatusSplit(records[1..]);
    }
  }

  /** Present and absent together count every record of the day. */
  lemma TodayStatsCountDay(records: seq<AttendanceRecord>, workers: seq<Worker>, today: string)
    ensures GetTodayStats(records, workers, today).present + GetTodayStats(records, workers, today).absent
            == |OnDay(records, today)|
    ensures GetTodayStats(records, workers, today).notMarked == |workers| - |OnDay(records, today)|
  {
    StatusSplit(OnDay(records, today));
  }

  /** One more mark, wherever it is listed, adds one to `present` exactly when
      it is a present mark dated `today`, and one to `absent` exactly when it
      is an absent mark dated `today`; the worker count is unchanged. */
  lemma TodayStatsAddMark(a: seq<AttendanceRecord>, b: seq<AttendanceRecord>, r: AttendanceRecord,
                          workers: seq<Worker>, today: string)
    ensures GetTodayStats(a + [r] + b, workers, today).present
            == GetTodayStats(a + b, workers, today).present + (if r.date == today && r.status == Present then 1 else 0)
    ensures GetTodayStats(a + [r] + b, workers, today).absent
            == GetTodayStats(a + b, workers, today).absent + (if r.date == today && r.status == Absent then 1 else 0)
    ensures GetTodayStats(a + [r] + b, workers, today).total == GetTodayStats(a + b, workers, today).total
  {
    CountOnDayInsert(a, b, r, today, Present);
    CountOnDayInsert(a, b, r, today, Absent);
  }

  lemma CountOnDayInsert(a: seq<AttendanceRecord>, b: seq<AttendanceRecord>, r: AttendanceRecord, today: string, st: Status)
    ensures CountStatus(OnDay(a + [r] + b, today), st)
            == CountStatus(OnDay(a + b, today), st) + (if r.date == today && r.status == st then 1 else 0)
  {
    var p := (x: AttendanceRecord) => x.date == today;
    var q := (x: AttendanceRecord) => x.status == st;
    FilterInsert(a, b, r, p);
    FilterConcat(a, b, p);
    var sa, sb := Filter(a, p), Filter(b, p);
    if p(r) {
      FilterInsert(sa, sb, r, q);
    } else {
      assert sa + [] + sb == sa + sb;
    }
    FilterConcat(sa, sb, q);
  }

  /** `notMarked` is not clamped: a mark of a worker who is no longer listed
      drives it below zero. */
  lemma NotMarkedCanBeNegative(r: AttendanceRecord)
    ensures GetTodayStats([r], [], r.date).notMarked == -1
  {
    var p := (x: AttendanceRecord) => x.date == r.date;
    FilterCons(r, [], p);
    assert [r] + [] == [r];
    StatusSplit([r]);
  }

  // ------------------------------------------------------------ marking

  /** `date || selectedDate`: an explicit, non-empty date wins. */
  function MarkDate(date: Option<string>, selectedDate: string): (d: string)
    ensures d == selectedDate || (date.Some? && d == date.value)
    ensures date.Some? && date.value != "" ==> d == date.value
    ensures d == "" ==> selectedDate == ""
  {
    if date.Some? && date.value != "" then date.value else selectedDate
  }

  /** `handleMarkAttendance(workerId, status, date?)`: marks on the chosen day;
      an error from the hook is caught and only logged. */
  method HandleMarkAttendance(cache: AttendanceCache, user: Option<UserId>, workerId: WorkerId, status: Status,
                              date: Option<string>, selectedDate: string, reply: Remote<RowId>)
    requires cache.Valid()
    modifies cache
    ensures cache.Valid()
    ensures cache.advances == old(cache.advances)
    ensures user.Some? && reply.Ok?
            ==> cache.attendance == Upsert(old(cache.attendance), AttendanceRecord(reply.value, workerId, MarkDate(date, selectedDate), status))
    ensures user.None? || reply.Err? ==> cache.attendance == old(cache.attendance)
  {
    var _ := cache.MarkAttendance(user, workerId, MarkDate(date, selectedDate), status, reply);
  }

  // ---------------------------------------------------- backdated marking

  /** A status as the backend stores it. */
  function StatusText(st: Status): (t: string)
    ensures |t| < 10
    ensures t == "present" <==> st == Present
  {
    if st == Present then "present" else "absent"
  }

  /** The `markAttendance(workerId, date, status)` arguments that
      `handleMarkAttendance(workerId, status, date?)` passes, as untyped
      text: its first argument, `date || selectedDate`, and its second. */
  function MarkCall(workerId: string, statusArg: string, dateArg: Option<string>, selectedDate: string): (string, string, string)
  {
    (workerId, MarkDate(dateArg, selectedDate), statusArg)
  }

  /** The backdate modal calls `onMarkAttendance(worker.id, dateStr, status)`
      and the page hands it `handleMarkAttendance`, whose second and third
      parameters are the status and the date. */
  function BackdateCallAsWritten(workerId: string, dateStr: string, status: Status, selectedDate: string): (string, string, string)
  {
    MarkCall(workerId, dateStr, Some(StatusText(status)), selectedDate)
  }

  /** A backdated mark sends the status word as the date, which names no day,
      and the chosen day as the status, which is no status. */
  lemma BackdateSwapsArguments(workerId: string, dateStr: string, status: Status, selectedDate: string)
    requires Parse(dateStr).Some?
    ensures BackdateCallAsWritten(workerId, dateStr, status, selectedDate).1 == StatusText(status)
    ensures Parse(BackdateCallAsWritten(workerId, dateStr, status, selectedDate).1).None?
    ensures BackdateCallAsWritten(workerId, dateStr, status, selectedDate).2 == dateStr
    ensures BackdateCallAsWritten(workerId, dateStr, status, selectedDate).2 != StatusText(Present)
    ensures BackdateCallAsWritten(workerId, dateStr, status, selectedDate).2 != StatusText(Absent)
  {
    var t := StatusText(status);
    assert MarkDate(Some(t), selectedDate) == t;
    assert |dateStr| == 10;
  }

  /** The call the backdate modal evidently intends: the chosen day as the
      date and the chosen status as the status. */
  function BackdateCall(workerId: string, dateStr: string, status: Status, selectedDate: string): (call: (string, string, string))
    ensures dateStr != "" ==> call == (workerId, dateStr, StatusText(status))
    ensures dateStr == "" ==> call == (workerId, selectedDate, StatusText(status))
  {
    MarkCall(workerId, StatusText(status), Some(dateStr), selectedDate)
  }

  /** A backdated mark, with the arguments in the handler's order: the chosen
      day is marked with the chosen status. */
  method HandleBackdateMark(cache: AttendanceCache, user: Option<UserId>, workerId: WorkerId, dateStr: string,
                            status: Status, selectedDate: string, reply: Remote<RowId>)
    requires cache.Valid()
    modifies cache
    ensures cache.Valid()
    ensures cache.advances == old(cache.advances)
    ensures user.Some? && reply.Ok? && dateStr != ""
            ==> cache.attendance == Upsert(old(cache.attendance), AttendanceRecord(reply.value, workerId, dateStr, status))
    ensures user.None? || reply.Err? ==> cache.attendance == old(cache.attendance)
  {
    HandleMarkAttendance(cache, user, workerId, status, Some(dateStr), selectedDate, reply);
  }
}
