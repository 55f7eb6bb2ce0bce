/** The monthly attendance grid: the days of the current month, the status
    lookup per cell and what each cell shows. */
module RecordingPage {
  import opened Common
  import opened Dates
  import opened Records
  import opened AttendanceHook
  import opened AttendancePage

  /** `new Date(year, month + 1, 0).getDate()` is the last day of the month:
      the month's length is the largest day number that is a date. */
  lemma LastDayOfMonth(y: int, m: int)
    requires 0 <= y <= 9999 && 1 <= m <= 12
    ensures ValidYmd(Ymd(y, m, DaysInMonth(y, m)))
    ensures !ValidYmd(Ymd(y, m, DaysInMonth(y, m) + 1))
    ensures DaysInMonth(y, m) == 29 <==> m == 2 && IsLeapYear(y)
    ensures DaysInMonth(y, m) == 28 <==> m == 2 && !IsLeapYear(y)
    ensures DaysInMonth(y, m) == 30 <==> m == 4 || m == 6 || m == 9 || m == 11
  {
  }

  /** `generateCalendarDates()` for the current day `today`: one entry per day
      of today's month, from the first to the last. */
  method GenerateCalendarDates(today: Ymd) returns (dates: seq<Ymd>)
    requires ValidYmd(today)
    ensures |dates| == DaysInMonth(today.year, today.month)
    ensures forall i :: 0 <= i < |dates| ==> dates[i] == Ymd(today.year, today.month, i + 1) && ValidYmd(dates[i])
    ensures forall i, j :: 0 <= i < j < |dates| ==> YmdLe(dates[i], dates[j]) && dates[i] != dates[j]
    ensures today in dates
  {
    var year, month := today.year, today.month;
    var daysInMonth := DaysInMonth(year, month);
    dates := [];
    var day := 1;
    while day <= daysInMonth
      invariant 1 <= day <= daysInMonth + 1
      invariant |dates| == day - 1
      invariant forall i :: 0 <= i < |dates| ==> dates[i] == Ymd(year, month, i + 1)
    {
      dates := dates + [Ymd(year, month, day)];
      day := day + 1;
    }
    assert dates[today.day - 1] == today;
  }

  /** What a grid cell shows. */
  datatype Cell = Marked(status: Status) | MarkButtons | PastPlaceholder | FuturePlaceholder

  /** The cell decision: a mark wins; otherwise today offers the mark
      buttons, and other days show the past or the future placeholder. */
  function CellFor(status: Option<Status>, date: Ymd, today: Ymd): (c: Cell)
    ensures status.Some? ==> c == Marked(status.value)
    ensures status.None? ==> !c.Marked?
  {
    if status.Some? then Marked(status.value)
    else if date == today then MarkButtons
    else if YmdLe(date, today) then PastPlaceholder
    else FuturePlaceholder
  }

  /** The `YYYY-MM-DD` key under which a grid cell looks up and stores the
      mark of its day, as the page evidently intends it: the cell's own
      calendar day. */
  function CellKey(date: Ymd): (key: string)
    requires ValidYmd(date)
    ensures Parse(key) == Some(date)
    ensures InMonth(key, date.month, date.year)
  {
    Format(date)
  }

  /** The key as the page computes it: `date.toISOString().split('T')[0]` of
      the local midnight that starts the cell's day. `toISOString` names the
      UTC day, and local midnight falls on the previous UTC day wherever the
      local clock is ahead of UTC (`utcOffsetMinutes` > 0, e.g. +330 for
      India); behind or at UTC it falls on the same day. */
  function CellKeyAsWritten(date: Ymd, utcOffsetMinutes: int): string
    requires ValidYmd(date) && date.year >= 1
    requires -1440 < utcOffsetMinutes < 1440
  {
    if utcOffsetMinutes > 0 then Format(PrevDay(date)) else Format(date)
  }

  /** East of UTC, every cell of the grid reads and writes the mark of the
      day before its own, so a mark made from the first day of a month is
      stored in the previous month; at or west of UTC the key is the cell's. */
  lemma CellKeyEastOfUtc(date: Ymd, utcOffsetMinutes: int)
    requires ValidYmd(date) && date.year >= 1
    requires -1440 < utcOffsetMinutes < 1440
    ensures utcOffsetMinutes > 0 ==>
      Parse(CellKeyAsWritten(date, utcOffsetMinutes)) == Some(PrevDay(date))
      && CellKeyAsWritten(date, utcOffsetMinutes) != CellKey(date)
    ensures utcOffsetMinutes > 0 && date.day == 1 ==>
      !InMonth(CellKeyAsWritten(date, utcOffsetMinutes), date.month, date.year)
    ensures utcOffsetMinutes <= 0 ==> CellKeyAsWritten(date, utcOffsetMinutes) == CellKey(date)
  {
    if utcOffsetMinutes > 0 {
      var p := PrevDay(date);
      assert Parse(Format(p)) == Some(p);
      assert Parse(CellKey(date)) == Some(date);
    }
  }

  /** The cell of worker `w` on day `date`. */
  function GridCell(records: seq<AttendanceRecord>, w: WorkerId, date: Ymd, today: Ymd): Cell
    requires ValidYmd(date)
  {
    CellFor(StatusOf(records, w, CellKey(date)), date, today)
  }

  /** Unmarked cells of the current month: the mark buttons appear on today
      only, days before it are past and days after it are future. */
  lemma UnmarkedCells(today: Ymd, d: int)
    requires ValidYmd(today) && 1 <= d <= DaysInMonth(today.year, today.month)
    ensures CellFor(None, Ymd(today.year, today.month, d), today) == MarkButtons <==> d == today.day
    ensures CellFor(None, Ymd(today.year, today.month, d), today) == PastPlaceholder <==> d < today.day
    ensures CellFor(None, Ymd(today.year, today.month, d), today) == FuturePlaceholder <==> d > today.day
  {
  }

  /** Once a worker is marked for a day, that day's cell shows the mark,
      whatever day it is. */
  lemma MarkedCellShowsMark(records: seq<AttendanceRecord>, r: AttendanceRecord, date: Ymd, today: Ymd)
    requires ValidYmd(date) && r.date == CellKey(date)
    ensures GridCell(Upsert(records, r), r.workerId, date, today) == Marked(r.status)
  {
    StatusAfterMark(records, r);
  }

  /** `handleMarkAttendance(workerId, date, status)` of a grid cell: marks the
      cell's day; an error from the hook is caught and only logged. */
  method HandleMarkAttendance(cache: AttendanceCache, user: Option<UserId>, workerId: WorkerId, date: Ymd,
                              status: Status, reply: Remote<RowId>)
    requires cache.Valid() && ValidYmd(date)
    modifies cache
    ensures cache.Valid()
    ensures cache.advances == old(cache.advances)
    ensures user.Some? && reply.Ok?
            ==> cache.attendance == Upsert(old(cache.attendance), AttendanceRecord(reply.value, workerId, CellKey(date), status))
    ensures user.None? || reply.Err? ==> cache.attendance == old(cache.attendance)
  {
    var _ := cache.MarkAttendance(user, workerId, CellKey(date), status, reply);
  }
}
