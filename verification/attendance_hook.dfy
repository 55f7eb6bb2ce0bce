/** The attendance hook: the session's cached `attendance` and `advances`
    rows, the upsert that `markAttendance` applies to the cache, the prepend of
    `addAdvance`, and the per-worker queries `getWorkerAttendance` and
    `getWorkerAdvances`. */
module AttendanceHook {
  import opened Common
  import opened Dates
  import opened Records

  // ------------------------------------------------------------ the upsert

  predicate HasKey(r: AttendanceRecord, w: WorkerId, d: string)
  {
    r.workerId == w && r.date == d
  }

  /** The marks of worker `w` on day `d`, in list order. */
  function MarksOf(s: seq<AttendanceRecord>, w: WorkerId, d: string): seq<AttendanceRecord>
  {
    Filter(s, (r: AttendanceRecord) => HasKey(r, w, d))
  }

  /** `prev.filter(record => !(record.worker_id === w && record.date === d))`. */
  function WithoutKey(s: seq<AttendanceRecord>, w: WorkerId, d: string): seq<AttendanceRecord>
  {
    Filter(s, (r: AttendanceRecord) => !HasKey(r, w, d))
  }

  /** The records dated `d`, in list order. */
  function DatedOn(s: seq<AttendanceRecord>, d: string): seq<AttendanceRecord>
  {
    Filter(s, (r: AttendanceRecord) => r.date == d)
  }

  /** Newest first: no record is dated later than the one before it. */
  predicate NewestFirst(s: seq<AttendanceRecord>)
  {
    forall i :: 0 < i < |s| ==> LexLe(s[i].date, s[i - 1].date)
  }

  /** In a list kept newest first, no record is dated later than any record
      before it. */
  lemma {:induction false} NewestFirstPairs(s: seq<AttendanceRecord>)
    requires NewestFirst(s)
    ensures forall i, j :: 0 <= i < j < |s| ==> LexLe(s[j].date, s[i].date)
  {
    if s != [] {
      NewestFirstPairs(s[1..]);
      forall j | 0 < j < |s| ensures LexLe(s[j].date, s[0].date) {
        if j == 1 {
        } else {
          assert LexLe(s[1..][j - 1].date, s[1..][0].date);
          LexLeTransitive(s[j].date, s[1].date, s[0].date);
        }
      }
      forall i, j | 0 < i < j < |s| ensures LexLe(s[j].date, s[i].date) {
        assert LexLe(s[1..][j - 1].date, s[1..][i - 1].date);
      }
    }
  }

  /** At most one mark per worker and day. */
  ghost predicate UniqueMarks(s: seq<AttendanceRecord>)
  {
    forall w, d :: |MarksOf(s, w, d)| <= 1
  }

  /** Places `r` in front of the first record dated no later than `r`. */
  function InsertByDate(r: AttendanceRecord, s: seq<AttendanceRecord>): seq<AttendanceRecord>
  {
    if s == [] || LexLe(s[0].date, r.date) then [r] + s
    else [s[0]] + InsertByDate(r, s[1..])
  }

  /** The stable `sort((a, b) => date(b) - date(a))` of the hook, with dates
      compared as strings (which is their chronological order, see
      `Dates.DateOrderIsLexOrder`). */
  function SortNewestFirst(s: seq<AttendanceRecord>): seq<AttendanceRecord>
  {
    if s == [] then [] else InsertByDate(s[0], SortNewestFirst(s[1..]))
  }

  /** The cached list after `markAttendance` stored `r`:
      `[r, ...prev.filter(not r's key)].sort(newest first)`. */
  function Upsert(s: seq<AttendanceRecord>, r: AttendanceRecord): seq<AttendanceRecord>
  {
    SortNewestFirst([r] + WithoutKey(s, r.workerId, r.date))
  }

  lemma {:induction false} InsertByDateCount(r: AttendanceRecord, s: seq<AttendanceRecord>)
    ensures multiset(InsertByDate(r, s)) == multiset(s) + multiset{r}
  {
    if !(s == [] || LexLe(s[0].date, r.date)) {
      InsertByDateCount(r, s[1..]);
      assert s == [s[0]] + s[1..];
    }
  }

  lemma {:induction false} InsertByDateSorted(r: AttendanceRecord, s: seq<AttendanceRecord>)
    requires NewestFirst(s)
    ensures NewestFirst(InsertByDate(r, s))
    ensures InsertByDate(r, s)[0] == r || InsertByDate(r, s)[0] == s[0]
  {
    if !(s == [] || LexLe(s[0].date, r.date)) {
      InsertByDateSorted(r, s[1..]);
      LexLeTotal(s[0].date, r.date);
      var u := InsertByDate(r, s[1..]);
      assert u[0] == r || u[0] == s[1];
      var t := [s[0]] + u;
      forall i | 0 < i < |t| ensures LexLe(t[i].date, t[i - 1].date) {
        if i > 1 {
          assert t[i] == u[i - 1] && t[i - 1] == u[i - 2];
        }
      }
    }
  }

  lemma InsertByDateSpec(r: AttendanceRecord, s: seq<AttendanceRecord>)
    ensures multiset(InsertByDate(r, s)) == multiset(s) + multiset{r}
    ensures NewestFirst(s) ==> NewestFirst(InsertByDate(r, s))
  {
    InsertByDateCount(r, s);
    if NewestFirst(s) {
      InsertByDateSorted(r, s);
    }
  }

  /** The sort orders the list newest first and loses or adds no record. */
  lemma {:induction false} SortNewestFirstSpec(s: seq<AttendanceRecord>)
    ensures NewestFirst(SortNewestFirst(s))
    ensures multiset(SortNewestFirst(s)) == multiset(s)
  {
    if s != [] {
      SortNewestFirstSpec(s[1..]);
      InsertByDateSpec(s[0], SortNewestFirst(s[1..]));
      assert s == [s[0]] + s[1..];
    }
  }

  /** Sorting a list that is already newest first leaves it as it is. */
  lemma {:induction false} SortOfSorted(s: seq<AttendanceRecord>)
    requires NewestFirst(s)
    ensures SortNewestFirst(s) == s
  {
    if s != [] {
      SortOfSorted(s[1..]);
      assert s == [s[0]] + s[1..];
    }
  }

  /** Inserting `r` keeps the records of any one date in their order, with `r`
      in front of the records of its own date. */
  lemma {:induction false} InsertByDateStable(r: AttendanceRecord, s: seq<AttendanceRecord>, d: string)
    ensures DatedOn(InsertByDate(r, s), d) == if r.date == d then [r] + DatedOn(s, d) else DatedOn(s, d)
  {
    if s == [] || LexLe(s[0].date, r.date) {
      FilterCons(r, s, (x: AttendanceRecord) => x.date == d);
    } else {
      InsertByDateStable(r, s[1..], d);
      LexLeReflexive(r.date);
      assert s[0].date != r.date;
      FilterCons(s[0], InsertByDate(r, s[1..]), (x: AttendanceRecord) => x.date == d);
      FilterCons(s[0], s[1..], (x: AttendanceRecord) => x.date == d);
      assert s == [s[0]] + s[1..];
    }
  }

  /** The sort is stable: the records of one date keep their relative order. */
  lemma {:induction false} SortNewestFirstStable(s: seq<AttendanceRecord>, d: string)
    ensures DatedOn(SortNewestFirst(s), d) == DatedOn(s, d)
  {
    if s != [] {
      SortNewestFirstStable(s[1..], d);
      InsertByDateStable(s[0], SortNewestFirst(s[1..]), d);
      FilterCons(s[0], s[1..], (x: AttendanceRecord) => x.date == d);
      assert s == [s[0]] + s[1..];
    }
  }

  /** After an upsert the list is newest first and holds `r` together with
      every old record that does not share `r`'s worker and day. */
  lemma UpsertContents(s: seq<AttendanceRecord>, r: AttendanceRecord)
    ensures NewestFirst(Upsert(s, r))
    ensures multiset(Upsert(s, r)) == multiset(WithoutKey(s, r.workerId, r.date)) + multiset{r}
  {
    var x := [r] + WithoutKey(s, r.workerId, r.date);
    SortNewestFirstSpec(x);
    assert multiset(x) == multiset{r} + multiset(WithoutKey(s, r.workerId, r.date));
  }

  /** After an upsert, worker `w` has exactly one mark on day `d`: `r`. */
  lemma UpsertMarksOne(s: seq<AttendanceRecord>, r: AttendanceRecord)
    ensures MarksOf(Upsert(s, r), r.workerId, r.date) == [r]
  {
    var (w, d) := (r.workerId, r.date);
    var u := Upsert(s, r);
    var m := MarksOf(u, w, d);
    UpsertContents(s, r);
    forall x
      ensures multiset(m)[x] == multiset{r}[x]
    {
      FilterCount(u, (y: AttendanceRecord) => HasKey(y, w, d), x);
      FilterCount(s, (y: AttendanceRecord) => !HasKey(y, w, d), x);
    }
    assert multiset(m) == multiset{r};
    assert |m| == 1;
    assert m[0] in multiset(m);
    assert m == [m[0]];
  }

  /** The marks of every other worker and day are those of the old list, in
      their old order. */
  lemma UpsertKeepsOtherMarks(s: seq<AttendanceRecord>, r: AttendanceRecord, w: WorkerId, d: string)
    requires !(w == r.workerId && d == r.date)
    ensures MarksOf(Upsert(s, r), w, d) == MarksOf(s, w, d)
  {
    var x := [r] + WithoutKey(s, r.workerId, r.date);
    var key := (y: AttendanceRecord) => HasKey(y, w, d);
    var onD := (y: AttendanceRecord) => y.date == d;
    var other := (y: AttendanceRecord) => !HasKey(y, r.workerId, r.date);
    FilterFilter(Upsert(s, r), onD, key, key);
    SortNewestFirstStable(x, d);
    FilterFilter(x, onD, key, key);
    FilterCons(r, WithoutKey(s, r.workerId, r.date), key);
    FilterFilter(s, other, key, key);
  }

  /** Length accounting: the old marks for `r`'s worker and day are replaced
      by the one record `r`. */
  lemma UpsertLength(s: seq<AttendanceRecord>, r: AttendanceRecord)
    ensures |Upsert(s, r)| == |s| - |MarksOf(s, r.workerId, r.date)| + 1
  {
    var (w, d) := (r.workerId, r.date);
    var x := [r] + WithoutKey(s, w, d);
    SortNewestFirstSpec(x);
    assert |Upsert(s, r)| == |multiset(x)| == |x|;
    SplitLength(s, w, d);
  }

  lemma {:induction false} SplitLength(s: seq<AttendanceRecord>, w: WorkerId, d: string)
    ensures |WithoutKey(s, w, d)| + |MarksOf(s, w, d)| == |s|
  {
    if s != [] {
      SplitLength(s[1..], w, d);
    }
  }

  /** An upsert keeps the list free of duplicate marks. */
  lemma UpsertKeepsUnique(s: seq<AttendanceRecord>, r: AttendanceRecord)
    requires UniqueMarks(s)
    ensures UniqueMarks(Upsert(s, r))
  {
    forall w, d
      ensures |MarksOf(Upsert(s, r), w, d)| <= 1
    {
      if w == r.workerId && d == r.date {
        UpsertMarksOne(s, r);
      } else {
        UpsertKeepsOtherMarks(s, r, w, d);
      }
    }
  }

  /** Removing `r`'s key from a list into which `r` was inserted removes `r`. */
  lemma {:induction false} WithoutKeyInsert(r: AttendanceRecord, s: seq<AttendanceRecord>)
    ensures WithoutKey(InsertByDate(r, s), r.workerId, r.date) == WithoutKey(s, r.workerId, r.date)
  {
    var p := (y: AttendanceRecord) => !HasKey(y, r.workerId, r.date);
    if s == [] || LexLe(s[0].date, r.date) {
      FilterCons(r, s, p);
    } else {
      WithoutKeyInsert(r, s[1..]);
      FilterCons(s[0], InsertByDate(r, s[1..]), p);
      FilterCons(s[0], s[1..], p);
      assert s == [s[0]] + s[1..];
    }
  }

  /** An upsert inserts `r` into the sorted list of the records it keeps. */
  lemma UpsertIsInsert(s: seq<AttendanceRecord>, r: AttendanceRecord)
    ensures Upsert(s, r) == InsertByDate(r, SortNewestFirst(WithoutKey(s, r.workerId, r.date)))
  {
    var x := [r] + WithoutKey(s, r.workerId, r.date);
    assert x[0] == r && x[1..] == WithoutKey(s, r.workerId, r.date);
  }

  /** The sorted records that lack a key still lack it. */
  lemma SortedWithoutKey(s: seq<AttendanceRecord>, w: WorkerId, d: string)
    ensures WithoutKey(SortNewestFirst(WithoutKey(s, w, d)), w, d) == SortNewestFirst(WithoutKey(s, w, d))
  {
    var x := WithoutKey(s, w, d);
    var sorted := SortNewestFirst(x);
    SortNewestFirstSpec(x);
    forall i | 0 <= i < |sorted|
      ensures !HasKey(sorted[i], w, d)
    {
      assert sorted[i] in multiset(x);
      assert sorted[i] in x;
    }
    FilterAll(sorted, (y: AttendanceRecord) => !HasKey(y, w, d));
  }

  /** Marking the same worker and day twice leaves what the second mark alone
      would have left: the upsert is idempotent on its key. */
  lemma MarkTwice(s: seq<AttendanceRecord>, r1: AttendanceRecord, r2: AttendanceRecord)
    requires r1.workerId == r2.workerId && r1.date == r2.date
    ensures Upsert(Upsert(s, r1), r2) == Upsert(s, r2)
  {
    var (w, d) := (r1.workerId, r1.date);
    var sorted := SortNewestFirst(WithoutKey(s, w, d));
    UpsertIsInsert(s, r1);
    UpsertIsInsert(Upsert(s, r1), r2);
    WithoutKeyInsert(r1, sorted);
    SortedWithoutKey(s, w, d);
    SortNewestFirstSpec(WithoutKey(s, w, d));
    SortOfSorted(sorted);
    UpsertIsInsert(s, r2);
  }

  /** Marking a worker present and then absent on one day leaves a single
      mark for that day, and it says absent. */
  lemma PresentThenAbsent(s: seq<AttendanceRecord>, w: WorkerId, d: string, id1: RowId, id2: RowId)
    ensures var after := Upsert(Upsert(s, AttendanceRecord(id1, w, d, Present)), AttendanceRecord(id2, w, d, Absent));
            |MarksOf(after, w, d)| == 1 && MarksOf(after, w, d)[0].status == Absent
  {
    MarkTwice(s, AttendanceRecord(id1, w, d, Present), AttendanceRecord(id2, w, d, Absent));
    UpsertMarksOne(s, AttendanceRecord(id2, w, d, Absent));
  }

  // ------------------------------------------------------------ the cache

  /** The two state lists of the hook. */
  class AttendanceCache {
    var attendance: seq<AttendanceRecord>
    var advances: seq<AdvanceRecord>

    /** The attendance list is newest first with one mark per worker and day,
        as the backend's ordered fetch and its (worker_id, date) uniqueness
        provide. */
    ghost predicate Valid()
      reads this
    {
      NewestFirst(attendance) && UniqueMarks(attendance)
    }

    constructor ()
      ensures Valid() && attendance == [] && advances == []
    {
      attendance, advances := [], [];
    }

    /** `markAttendance(workerId, date, status)`; `reply` is the backend's
        answer to the upsert: the id of the stored row, or an error. */
    method MarkAttendance(user: Option<UserId>, workerId: WorkerId, date: string, status: Status, reply: Remote<RowId>)
      returns (result: Outcome<AttendanceRecord>)
      requires Valid()
      modifies this
      ensures Valid()
      ensures advances == old(advances)
      ensures user.None? ==> result == Nothing && attendance == old(attendance)
      ensures user.Some? && reply.Err? ==> result == Thrown(reply.message) && attendance == old(attendance)
      ensures user.Some? && reply.Ok? ==>
        result == Returned(AttendanceRecord(reply.value, workerId, date, status))
        && attendance == Upsert(old(attendance), result.row)
    {
      if user.None? {
        return Nothing;
      }
      match reply
      case Err(message) =>
        result := Thrown(message);
      case Ok(id) =>
        var row := AttendanceRecord(id, workerId, date, status);
        UpsertContents(attendance, row);
        UpsertKeepsUnique(attendance, row);
        attendance := Upsert(attendance, row);
        result := Returned(row);
    }

    /** `addAdvance(data)`; `reply` is the stored row the backend returns, or
        an error. */
    method AddAdvance(user: Option<UserId>, reply: Remote<AdvanceRecord>) returns (result: Outcome<AdvanceRecord>)
      requires Valid()
      modifies this
      ensures Valid()
      ensures attendance == old(attendance)
      ensures user.None? ==> result == Nothing && advances == old(advances)
      ensures user.Some? && reply.Err? ==> result == Thrown(reply.message) && advances == old(advances)
      ensures user.Some? && reply.Ok? ==> result == Returned(reply.value) && advances == [reply.value] + old(advances)
    {
      if user.None? {
        return Nothing;
      }
      match reply
      case Err(message) =>
        result := Thrown(message);
      case Ok(row) =>
        advances := [row] + advances;
        result := Returned(row);
    }
  }

  // ------------------------------------------------------------ the queries

  /** A selector the way `month && year` reads it: given and not empty. */
  predicate Truthy(o: Option<string>)
  {
    o.Some? && o.value != ""
  }

  /** The period test of the two queries: with both selectors given, the
      date's month and year equal `parseInt` of them; otherwise every date
      passes. */
  predicate InPeriod(date: string, month: Option<string>, year: Option<string>)
  {
    if Truthy(month) && Truthy(year) then InParsedMonth(date, month.value, year.value)
    else true
  }

  /** `getWorkerAttendance(workerId, month?, year?)`. */
  function WorkerAttendance(s: seq<AttendanceRecord>, w: WorkerId, month: Option<string>, year: Option<string>): seq<AttendanceRecord>
  {
    Filter(s, (r: AttendanceRecord) => r.workerId == w && InPeriod(r.date, month, year))
  }

  /** `getWorkerAdvances(workerId, month?, year?)`. */
  function WorkerAdvances(s: seq<AdvanceRecord>, w: WorkerId, month: Option<string>, year: Option<string>): seq<AdvanceRecord>
  {
    Filter(s, (r: AdvanceRecord) => r.workerId == w && InPeriod(r.date, month, year))
  }

  /** With month `m` and year `y` selected, the query returns, in cache
      order, exactly the worker's records dated in that month. */
  lemma WorkerAttendanceInMonth(s: seq<AttendanceRecord>, w: WorkerId, month: string, year: string, m: int, y: int)
    requires month != "" && year != "" && ParseInt(month) == Some(m) && ParseInt(year) == Some(y)
    ensures IsSubseq(WorkerAttendance(s, w, Some(month), Some(year)), s)
    ensures forall x :: multiset(WorkerAttendance(s, w, Some(month), Some(year)))[x]
                        == if x.workerId == w && InMonth(x.date, m, y) then multiset(s)[x] else 0
  {
    var p := (r: AttendanceRecord) => r.workerId == w && InPeriod(r.date, Some(month), Some(year));
    FilterIsSubseq(s, p);
    forall x ensures multiset(Filter(s, p))[x] == if x.workerId == w && InMonth(x.date, m, y) then multiset(s)[x] else 0 {
      FilterCount(s, p, x);
    }
  }

  /** Without both selectors, the query returns all of the worker's records. */
  lemma WorkerAttendanceAll(s: seq<AttendanceRecord>, w: WorkerId, month: Option<string>, year: Option<string>)
    requires !(Truthy(month) && Truthy(year))
    ensures IsSubseq(WorkerAttendance(s, w, month, year), s)
    ensures forall x :: multiset(WorkerAttendance(s, w, month, year))[x]
                        == if x.workerId == w then multiset(s)[x] else 0
  {
    var p := (r: AttendanceRecord) => r.workerId == w && InPeriod(r.date, month, year);
    FilterIsSubseq(s, p);
    forall x ensures multiset(Filter(s, p))[x] == if x.workerId == w then multiset(s)[x] else 0 {
      FilterCount(s, p, x);
    }
  }

  /** A selector that `parseInt` reads as `NaN` matches no record. */
  lemma WorkerAttendanceUnparsedMonth(s: seq<AttendanceRecord>, w: WorkerId, month: string, year: string)
    requires month != "" && year != "" && ParseInt(month).None?
    ensures WorkerAttendance(s, w, Some(month), Some(year)) == []
  {
    FilterNone(s, (r: AttendanceRecord) => r.workerId == w && InPeriod(r.date, Some(month), Some(year)));
  }

  /** The advances query selects by the same rule as the attendance query. */
  lemma WorkerAdvancesInMonth(s: seq<AdvanceRecord>, w: WorkerId, month: string, year: string, m: int, y: int)
    requires month != "" && year != "" && ParseInt(month) == Some(m) && ParseInt(year) == Some(y)
    ensures IsSubseq(WorkerAdvances(s, w, Some(month), Some(year)), s)
    ensures forall x :: multiset(WorkerAdvances(s, w, Some(month), Some(year)))[x]
                        == if x.workerId == w && InMonth(x.date, m, y) then multiset(s)[x] else 0
  {
    var p := (r: AdvanceRecord) => r.workerId == w && InPeriod(r.date, Some(month), Some(year));
    FilterIsSubseq(s, p);
    forall x ensures multiset(Filter(s, p))[x] == if x.workerId == w && InMonth(x.date, m, y) then multiset(s)[x] else 0 {
      FilterCount(s, p, x);
    }
  }

  /** Without both selectors, the advances query returns all of the worker's
      advances. */
  lemma WorkerAdvancesAll(s: seq<AdvanceRecord>, w: WorkerId, month: Option<string>, year: Option<string>)
    requires !(Truthy(month) && Truthy(year))
    ensures IsSubseq(WorkerAdvances(s, w, month, year), s)
    ensures forall x :: multiset(WorkerAdvances(s, w, month, year))[x]
                        == if x.workerId == w then multiset(s)[x] else 0
  {
    var p := (r: AdvanceRecord) => r.workerId == w && InPeriod(r.date, month, year);
    FilterIsSubseq(s, p);
    forall x ensures multiset(Filter(s, p))[x] == if x.workerId == w then multiset(s)[x] else 0 {
      FilterCount(s, p, x);
    }
  }
}
