/** The rows of the backend tables as the session caches hold them. Money is
    an integer count of minor currency units; dates are `YYYY-MM-DD` strings.
    The backend's `created_at` / `updated_at` timestamps and the owning user
    id are not part of the model. */
module Records {
  import opened Common

  type RowId = string
  type WorkerId = string
  type UserId = string

  datatype Status = Present | Absent

  /** A row of `attendance`: one mark for one worker on one day. */
  datatype AttendanceRecord = AttendanceRecord(id: RowId, workerId: WorkerId, date: string, status: Status)

  /** A row of `advances`. */
  datatype AdvanceRecord = AdvanceRecord(id: RowId, workerId: WorkerId, amount: int, date: string, description: Option<string>)

  /** A row of `bills`. */
  datatype Bill = Bill(
    id: RowId, shopName: string, material: string, amount: int, date: string,
    location: Option<string>, photoUrl: Option<string>, imagePath: Option<string>)

  /** A row of `workers`; the table's `daily_wage` column is never null. */
  datatype Worker = Worker(
    id: RowId, name: string, photoUrl: Option<string>, dailyWage: int,
    phone: Option<string>, address: Option<string>)

  /** The fields the pages send to `updateWorker`; a field left `None` is
      not sent. */
  datatype WorkerData = WorkerData(
    name: string, photoUrl: Option<string>, dailyWage: Option<int>,
    phone: Option<string>, address: Option<string>)

  /** A row of `wage_records`; the pages read these rows as the expenditure
      records paid out to workers. */
  datatype WageRecord = WageRecord(
    id: RowId, workerId: WorkerId, date: string, amount: int,
    hoursWorked: Option<int>, notes: Option<string>)

  function AdvanceAmount(a: AdvanceRecord): int
  {
    a.amount
  }

  function BillAmount(b: Bill): int
  {
    b.amount
  }

  function WageAmount(r: WageRecord): int
  {
    r.amount
  }
}
