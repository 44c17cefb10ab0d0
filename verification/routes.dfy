/** The state-changing routes as pure transitions over the ledger. Each
    takes the session, the request's "now" and its inputs and returns the
    new ledger together with an outcome tag naming the page or message the
    request ends on. The role gate comes first in every route: a session
    without the route's role tag is redirected and nothing changes. */
module Routes {
  import opened Wrappers
  import opened Clock
  import opened Queries
  import opened Models
  import opened Accounts

  datatype Method = Get | Post

  datatype Outcome =
    | NotPermitted        // redirected to login by the role gate
    | AlreadyCheckedIn
    | TooEarly
    | LateFormShown       // GET after the deadline: the late-request form
    | LateRequested       // POST after the deadline: request stored
    | CheckedIn
    | NeedCheckIn
    | AlreadyCheckedOut
    | CheckedOut
    | LeaveFormShown
    | LeaveSubmitted
    | BadForm             // a form date is not YYYY-MM-DD: the request fails
    | LateApproved
    | LateRejected
    | LeaveApproved
    | LeaveRejected
    | NoOp                // admin action on a key that names no row

  datatype Step = Step(ledger: Ledger, outcome: Outcome)

  /** The result of appending one attendance row. */
  function AddAttendance(l: Ledger, a: Attendance): (r: Ledger)
    ensures r.attendance == l.attendance + [a]
    ensures r.leaves == l.leaves && r.notifications == l.notifications
  {
    l.(attendance := l.attendance + [a])
  }

  /** Check-in. Refusals are checked in this order: a check-in already on
      today's first row, then a time before 07:00. After 10:15 a POST files
      a late-check-in request as a NEW row (never updating an existing one)
      and a GET only shows the request form; 07:00 through 10:15:00
      inclusive records an ordinary check-in. */
  function CheckIn(l: Ledger, s: Session, now: DateTime, m: Method): (r: Step)
    ensures !Authorized(s, EmployeeRole) ==> r == Step(l, NotPermitted)
    ensures r.outcome in {NotPermitted, AlreadyCheckedIn, TooEarly, LateFormShown, LateRequested, CheckedIn}
    ensures r.outcome in {NotPermitted, AlreadyCheckedIn, TooEarly, LateFormShown} ==> r.ledger == l
    ensures Authorized(s, EmployeeRole) ==>
      (r.outcome == AlreadyCheckedIn <==> CheckedInToday(l.attendance, s.user, now.date))
    ensures Authorized(s, EmployeeRole) ==>
      (r.outcome == TooEarly <==> !CheckedInToday(l.attendance, s.user, now.date) && now.time < EarliestCheckIn)
    ensures Authorized(s, EmployeeRole) ==>
      (r.outcome == CheckedIn <==>
         !CheckedInToday(l.attendance, s.user, now.date)
         && EarliestCheckIn <= now.time <= CheckInDeadline)
    ensures Authorized(s, EmployeeRole) ==>
      (r.outcome in {LateRequested, LateFormShown} <==>
         !CheckedInToday(l.attendance, s.user, now.date) && now.time > CheckInDeadline)
    ensures r.outcome == LateRequested ==> m == Post
    ensures r.outcome == LateFormShown ==> m == Get
    ensures r.outcome in {CheckedIn, LateRequested} ==>
      && r.ledger.leaves == l.leaves
      && r.ledger.notifications == l.notifications
      && |r.ledger.attendance| == |l.attendance| + 1
      && r.ledger.attendance[..|l.attendance|] == l.attendance
      && var a := r.ledger.attendance[|l.attendance|];
         && OnDay(a, s.user, now.date)
         && a.checkOut.None? && !a.lateApproved
         && (forall i :: 0 <= i < |l.attendance| ==> l.attendance[i].id < a.id)
         && (r.outcome == CheckedIn ==> a.checkIn == Some(now) && !a.lateRequested)
         && (r.outcome == LateRequested ==> a.checkIn.None? && a.lateRequested)
  {
    if !Authorized(s, EmployeeRole) then Step(l, NotPermitted)
    else
      var emp := s.user;
      var key := NextId(Ids(l.attendance, AttendanceKey));
      if CheckedInToday(l.attendance, emp, now.date) then Step(l, AlreadyCheckedIn)
      else if now.time < EarliestCheckIn then Step(l, TooEarly)
      else if now.time > CheckInDeadline then
        if m.Post? then
          Step(AddAttendance(l, NewAttendance(key, emp, now.date, None, true)), LateRequested)
        else Step(l, LateFormShown)
      else
        Step(AddAttendance(l, NewAttendance(key, emp, now.date, Some(now), false)), CheckedIn)
  }

  /** Check-out acts on today's first row for the employee. It is refused
      when there is no such row or the row has no check-in time, and then
      when a check-out time is already set; otherwise it sets only that
      row's check-out time. */
  function CheckOut(l: Ledger, s: Session, now: DateTime): (r: Step)
    ensures !Authorized(s, EmployeeRole) ==> r == Step(l, NotPermitted)
    ensures r.outcome in {NotPermitted, NeedCheckIn, AlreadyCheckedOut, CheckedOut}
    ensures r.outcome != CheckedOut ==> r.ledger == l
    ensures Authorized(s, EmployeeRole) ==>
      (r.outcome == NeedCheckIn <==> !CheckedInToday(l.attendance, s.user, now.date))
    ensures r.outcome == AlreadyCheckedOut ==>
      var i := FirstForDay(l.attendance, s.user, now.date);
      i.Some? && l.attendance[i.value].checkOut.Some?
    ensures r.outcome == CheckedOut <==>
      Authorized(s, EmployeeRole)
      && var i := FirstForDay(l.attendance, s.user, now.date);
         i.Some? && l.attendance[i.value].checkIn.Some? && l.attendance[i.value].checkOut.None?
    ensures r.outcome == CheckedOut ==>
      var i := FirstForDay(l.attendance, s.user, now.date).value;
      && r.ledger.leaves == l.leaves && r.ledger.notifications == l.notifications
      && |r.ledger.attendance| == |l.attendance|
      && r.ledger.attendance[i] == l.attendance[i].(checkOut := Some(now))
      && forall j :: 0 <= j < |l.attendance| && j != i ==> r.ledger.attendance[j] == l.attendance[j]
  {
    if !Authorized(s, EmployeeRole) then Step(l, NotPermitted)
    else
      match FirstForDay(l.attendance, s.user, now.date)
      case None => Step(l, NeedCheckIn)
      case Some(i) =>
        var a := l.attendance[i];
        if a.checkIn.None? then Step(l, NeedCheckIn)
        else if a.checkOut.Some? then Step(l, AlreadyCheckedOut)
        else Step(l.(attendance := l.attendance[i := a.(checkOut := Some(now))]), CheckedOut)
  }

  /** Leave submission. A GET shows the form. A POST whose two dates both
      parse (None stands for text that is not YYYY-MM-DD) appends a
      Pending request; nothing compares the start date with the end date. */
  function SubmitLeave(l: Ledger, s: Session, m: Method,
                       start: Option<Date>, end: Option<Date>, reason: string): (r: Step)
    ensures !Authorized(s, EmployeeRole) ==> r == Step(l, NotPermitted)
    ensures r.outcome in {NotPermitted, LeaveFormShown, BadForm, LeaveSubmitted}
    ensures r.outcome != LeaveSubmitted ==> r.ledger == l
    ensures r.outcome == LeaveSubmitted <==>
      Authorized(s, EmployeeRole) && m == Post && start.Some? && end.Some?
    ensures r.outcome == LeaveSubmitted ==>
      && r.ledger.attendance == l.attendance && r.ledger.notifications == l.notifications
      && |r.ledger.leaves| == |l.leaves| + 1
      && r.ledger.leaves[..|l.leaves|] == l.leaves
      && var q := r.ledger.leaves[|l.leaves|];
         && q.employee == s.user && q.startDate == start.value && q.endDate == end.value
         && q.reason == reason && q.status == Pending
         && forall i :: 0 <= i < |l.leaves| ==> l.leaves[i].id < q.id
  {
    if !Authorized(s, EmployeeRole) then Step(l, NotPermitted)
    else if m.Get? then Step(l, LeaveFormShown)
    else if start.None? || end.None? then Step(l, BadForm)
    else
      var q := NewLeaveRequest(NextId(Ids(l.leaves, LeaveKey)), s.user, start.value, end.value, reason);
      Step(l.(leaves := l.leaves + [q]), LeaveSubmitted)
  }

  /** Approving a late check-in, by attendance key. The row's flags are not
      consulted: whatever row has the key is marked approved and no longer
      requested, its check-in time is overwritten with now, and its owner
      gets one approval notification. An unknown key changes nothing. */
  function ApproveLateCheckIn(l: Ledger, s: Session, id: Id, now: DateTime): (r: Step)
    ensures !Authorized(s, AdminRole) ==> r == Step(l, NotPermitted)
    ensures r.outcome in {NotPermitted, NoOp, LateApproved}
    ensures r.outcome != LateApproved ==> r.ledger == l
    ensures r.outcome == LateApproved <==>
      Authorized(s, AdminRole) && exists j :: 0 <= j < |l.attendance| && l.attendance[j].id == id
    ensures r.outcome == LateApproved ==>
      var i := FindAttendance(l.attendance, id).value;
      var a := l.attendance[i];
      && r.ledger.leaves == l.leaves
      && |r.ledger.attendance| == |l.attendance|
      && r.ledger.attendance[i]
         == a.(lateApproved := true, checkIn := Some(now), lateRequested := false)
      && (forall j :: 0 <= j < |l.attendance| && j != i ==> r.ledger.attendance[j] == l.attendance[j])
      && r.ledger.notifications
         == l.notifications + [Notification(a.employee, LateApprovedMessage, now)]
  {
    if !Authorized(s, AdminRole) then Step(l, NotPermitted)
    else
      match FindAttendance(l.attendance, id)
      case None => Step(l, NoOp)
      case Some(i) =>
        var a := l.attendance[i];
        var approved := a.(lateApproved := true, checkIn := Some(now), lateRequested := false);
        Step(Ledger(l.attendance[i := approved], l.leaves,
                    l.notifications + [Notification(a.employee, LateApprovedMessage, now)]),
             LateApproved)
  }

  /** Rejecting a late check-in, by attendance key: the owner gets one
      rejection notification and the row is deleted. An unknown key changes
      nothing. */
  function RejectLateCheckIn(l: Ledger, s: Session, id: Id, now: DateTime): (r: Step)
    ensures !Authorized(s, AdminRole) ==> r == Step(l, NotPermitted)
    ensures r.outcome in {NotPermitted, NoOp, LateRejected}
    ensures r.outcome != LateRejected ==> r.ledger == l
    ensures r.outcome == LateRejected <==>
      Authorized(s, AdminRole) && exists j :: 0 <= j < |l.attendance| && l.attendance[j].id == id
    ensures r.outcome == LateRejected ==>
      var i := FindAttendance(l.attendance, id).value;
      && r.ledger.leaves == l.leaves
      && r.ledger.attendance == RemoveAt(l.attendance, i)
      && r.ledger.notifications
         == l.notifications + [Notification(l.attendance[i].employee, LateRejectedMessage, now)]
  {
    if !Authorized(s, AdminRole) then Step(l, NotPermitted)
    else
      match FindAttendance(l.attendance, id)
      case None => Step(l, NoOp)
      case Some(i) =>
        var note := Notification(l.attendance[i].employee, LateRejectedMessage, now);
        Step(Ledger(RemoveAt(l.attendance, i), l.leaves, l.notifications + [note]), LateRejected)
  }

  /** Deciding a leave request, by leave key: the status becomes `status`
      whatever it was before, and the owner gets one notification with
      `message`, on every call. An unknown key changes nothing. */
  function DecideLeave(l: Ledger, s: Session, id: Id, now: DateTime,
                       status: LeaveStatus, message: string, done: Outcome): (r: Step)
    requires done != NoOp && done != NotPermitted
    ensures !Authorized(s, AdminRole) ==> r == Step(l, NotPermitted)
    ensures r.outcome in {NotPermitted, NoOp, done}
    ensures r.outcome != done ==> r.ledger == l
    ensures r.outcome == done <==>
      Authorized(s, AdminRole) && exists j :: 0 <= j < |l.leaves| && l.leaves[j].id == id
    ensures r.outcome == done ==>
      var i := FindLeave(l.leaves, id).value;
      && r.ledger.attendance == l.attendance
      && |r.ledger.leaves| == |l.leaves|
      && r.ledger.leaves[i] == l.leaves[i].(status := status)
      && (forall j :: 0 <= j < |l.leaves| && j != i ==> r.ledger.leaves[j] == l.leaves[j])
      && r.ledger.notifications
         == l.notifications + [Notification(l.leaves[i].employee, message, now)]
  {
    if !Authorized(s, AdminRole) then Step(l, NotPermitted)
    else
      match FindLeave(l.leaves, id)
      case None => Step(l, NoOp)
      case Some(i) =>
        var q := l.leaves[i];
        Step(Ledger(l.attendance, l.leaves[i := q.(status := status)],
                    l.notifications + [Notification(q.employee, message, now)]),
             done)
  }

  /** Approving a leave request. */
  function ApproveLeave(l: Ledger, s: Session, id: Id, now: DateTime): (r: Step)
    ensures r.outcome in {NotPermitted, NoOp, LeaveApproved}
    ensures r.outcome == LeaveApproved ==>
      var i := FindLeave(l.leaves, id);
      && i.Some? && i.value < |r.ledger.leaves|
      && r.ledger.leaves[i.value].status == Approved
      && r.ledger.notifications
         == l.notifications + [Notification(l.leaves[i.value].employee, LeaveApprovedMessage, now)]
  {
    DecideLeave(l, s, id, now, Approved, LeaveApprovedMessage, LeaveApproved)
  }

  /** Rejecting a leave request. */
  function RejectLeave(l: Ledger, s: Session, id: Id, now: DateTime): (r: Step)
    ensures r.outcome in {NotPermitted, NoOp, LeaveRejected}
    ensures r.outcome == LeaveRejected ==>
      var i := FindLeave(l.leaves, id);
      && i.Some? && i.value < |r.ledger.leaves|
      && r.ledger.leaves[i.value].status == Rejected
      && r.ledger.notifications
         == l.notifications + [Notification(l.leaves[i.value].employee, LeaveRejectedMessage, now)]
  {
    DecideLeave(l, s, id, now, Rejected, LeaveRejectedMessage, LeaveRejected)
  }
}
