/** The persisted records: the two identity tables and the three ledger
    tables, with the column defaults new rows receive. */
module Models {
  import opened Wrappers
  import opened Clock
  import opened Queries

  /** An integer primary or foreign key. */
  type Id = nat

  /** The role tag stored in the session next to the identity. */
  datatype Role = EmployeeRole | AdminRole

  /** A row of the `employee` or `admin` table. */
  datatype Account = Account(id: Id, username: string, passwordHash: string)

  /** The two identity tables; their username namespaces are separate. */
  datatype Directory = Directory(employees: seq<Account>, admins: seq<Account>)

  /** A row of the `attendance` table. `date` is mandatory; the two times
      are nullable columns. */
  datatype Attendance = Attendance(
    id: Id,
    employee: Id,
    date: Date,
    checkIn: Option<DateTime>,
    checkOut: Option<DateTime>,
    lateRequested: bool,
    lateApproved: bool)

  /** The three values the routes ever store in `leave_request.status`. */
  datatype LeaveStatus = Pending | Approved | Rejected

  /** A row of the `leave_request` table. */
  datatype LeaveRequest = LeaveRequest(
    id: Id,
    employee: Id,
    startDate: Date,
    endDate: Date,
    reason: string,
    status: LeaveStatus)

  /** A row of the `notification` table (its own key plays no part). */
  datatype Notification = Notification(employee: Id, message: string, date: DateTime)

  /** Everything the workflow reads and writes. Each table is kept in
      insertion order, which is the order `.first()` sees. */
  datatype Ledger = Ledger(
    attendance: seq<Attendance>,
    leaves: seq<LeaveRequest>,
    notifications: seq<Notification>)

  const LateApprovedMessage: string := "Your late check-in request has been approved."
  const LateRejectedMessage: string := "Your late check-in request has been rejected."
  const LeaveApprovedMessage: string := "Your leave request has been approved."
  const LeaveRejectedMessage: string := "Your leave request has been rejected."

  /** A new attendance row: both late flags default to false and no
      check-out is given, so only `checkIn` and `lateRequested` vary. */
  function NewAttendance(id: Id, employee: Id, date: Date, checkIn: Option<DateTime>, lateRequested: bool): Attendance {
    Attendance(id, employee, date, checkIn, None, lateRequested, false)
  }

  /** A new leave request: no status is given, so the column default
      `Pending` applies. */
  function NewLeaveRequest(id: Id, employee: Id, startDate: Date, endDate: Date, reason: string): LeaveRequest {
    LeaveRequest(id, employee, startDate, endDate, reason, Pending)
  }

  /** The key the storage engine assigns to the next inserted row: one more
      than the largest key in the table, 1 for an empty table (an SQLite
      integer primary key without AUTOINCREMENT). */
  function NextId(ids: seq<Id>): (r: Id)
    ensures r >= 1
    ensures forall i :: 0 <= i < |ids| ==> ids[i] < r
    ensures r == 1 || exists i :: 0 <= i < |ids| && ids[i] == r - 1
  {
    if |ids| == 0 then 1
    else
      var rest := NextId(ids[1..]);
      if ids[0] + 1 > rest then ids[0] + 1 else rest
  }

  /** The primary-key column of a table. */
  function Ids<T>(rows: seq<T>, key: T -> Id): (r: seq<Id>)
    ensures |r| == |rows| && forall i :: 0 <= i < |rows| ==> r[i] == key(rows[i])
  {
    seq(|rows|, i requires 0 <= i < |rows| => key(rows[i]))
  }

  function AttendanceKey(a: Attendance): Id { a.id }
  function LeaveKey(q: LeaveRequest): Id { q.id }
  function AccountKey(a: Account): Id { a.id }

  /** Primary keys are distinct. */
  predicate UniqueIds(ids: seq<Id>) {
    forall i, j :: 0 <= i < j < |ids| ==> ids[i] != ids[j]
  }

  /** A check-out time is never recorded without a check-in time. */
  predicate CheckOutNeedsCheckIn(a: Attendance) {
    a.checkOut.Some? ==> a.checkIn.Some?
  }

  /** The invariant every reachable ledger satisfies. */
  predicate Wf(l: Ledger) {
    && UniqueIds(Ids(l.attendance, AttendanceKey))
    && UniqueIds(Ids(l.leaves, LeaveKey))
    && forall i :: 0 <= i < |l.attendance| ==> CheckOutNeedsCheckIn(l.attendance[i])
  }

  /** Index of the attendance row with primary key `id` (`Attendance.query.get`). */
  function FindAttendance(s: seq<Attendance>, id: Id): (r: Option<nat>)
    ensures r.Some? ==> r.value < |s| && s[r.value].id == id
    ensures r.None? <==> forall j :: 0 <= j < |s| ==> s[j].id != id
  {
    FirstWhere(s, (a: Attendance) => a.id == id)
  }

  /** Index of the leave request with primary key `id` (`LeaveRequest.query.get`). */
  function FindLeave(s: seq<LeaveRequest>, id: Id): (r: Option<nat>)
    ensures r.Some? ==> r.value < |s| && s[r.value].id == id
    ensures r.None? <==> forall j :: 0 <= j < |s| ==> s[j].id != id
  {
    FirstWhere(s, (q: LeaveRequest) => q.id == id)
  }

  /** Whether a row belongs to `employee` on `day`. */
  predicate OnDay(a: Attendance, employee: Id, day: Date) {
    a.employee == employee && a.date == day
  }

  /** Index of the employee's first row for `day` in insertion order: the
      row `filter_by(employee_id, date).first()` returns. The query has no
      order_by, so the database may in principle return any match; the
      earliest inserted one is the choice made here. */
  function FirstForDay(s: seq<Attendance>, employee: Id, day: Date): (r: Option<nat>)
    ensures r.Some? ==> r.value < |s| && OnDay(s[r.value], employee, day)
    ensures r.Some? ==> forall j :: 0 <= j < r.value ==> !OnDay(s[j], employee, day)
    ensures r.None? <==> forall j :: 0 <= j < |s| ==> !OnDay(s[j], employee, day)
  {
    FirstWhere(s, (a: Attendance) => OnDay(a, employee, day))
  }

  /** Whether today's first row for the employee carries a check-in time:
      the guard both check-in and check-out consult. */
  predicate CheckedInToday(s: seq<Attendance>, employee: Id, day: Date) {
    var i := FirstForDay(s, employee, day);
    i.Some? && s[i.value].checkIn.Some?
  }
}
