/** The routes taken together: the dispatcher from a request to its
    transition, and the properties every transition shares or that whole
    request sequences exhibit. */
module Workflow {
  import opened Wrappers
  import opened Clock
  import opened Queries
  import opened Models
  import opened Accounts
  import opened Routes

  /** The state-changing requests, one per route. */
  datatype Request =
    | CheckInRequest(verb: Method)
    | CheckOutRequest
    | LeaveRequestSubmission(verb: Method, start: Option<Date>, end: Option<Date>, reason: string)
    | ApproveLateRequest(attendanceId: Id)
    | RejectLateRequest(attendanceId: Id)
    | ApproveLeaveRequest(leaveId: Id)
    | RejectLeaveRequest(leaveId: Id)

  /** The role tag a request's route demands. */
  function RequiredRole(req: Request): Role {
    match req
    case CheckInRequest(_) | CheckOutRequest | LeaveRequestSubmission(_, _, _, _) => EmployeeRole
    case _ => AdminRole
  }

  /** Runs the request's route. */
  function Handle(l: Ledger, s: Session, now: DateTime, req: Request): Step {
    match req
    case CheckInRequest(m) => CheckIn(l, s, now, m)
    case CheckOutRequest => CheckOut(l, s, now)
    case LeaveRequestSubmission(m, start, end, reason) => SubmitLeave(l, s, m, start, end, reason)
    case ApproveLateRequest(id) => ApproveLateCheckIn(l, s, id, now)
    case RejectLateRequest(id) => RejectLateCheckIn(l, s, id, now)
    case ApproveLeaveRequest(id) => ApproveLeave(l, s, id, now)
    case RejectLeaveRequest(id) => RejectLeave(l, s, id, now)
  }

  /** The role gate: a session without the route's role tag changes nothing. */
  lemma RoleGate(l: Ledger, s: Session, now: DateTime, req: Request)
    ensures !Authorized(s, RequiredRole(req)) ==> Handle(l, s, now, req) == Step(l, NotPermitted)
  {
  }

  /** Notifications are append-only: every request keeps the existing ones
      and adds one exactly when an admin decision finds its row. */
  lemma NotificationsAppendOnly(l: Ledger, s: Session, now: DateTime, req: Request)
    ensures var r := Handle(l, s, now, req);
      && l.notifications <= r.ledger.notifications
      && |r.ledger.notifications| == |l.notifications|
         + (if r.outcome in {LateApproved, LateRejected, LeaveApproved, LeaveRejected} then 1 else 0)
  {
  }

  /** Leave requests are never deleted and keep their keys, owners and dates;
      only an admin decision changes a status. */
  lemma LeavesNeverDeleted(l: Ledger, s: Session, now: DateTime, req: Request)
    ensures var r := Handle(l, s, now, req);
      && |l.leaves| <= |r.ledger.leaves|
      && forall i :: 0 <= i < |l.leaves| ==>
           r.ledger.leaves[i] == l.leaves[i].(status := r.ledger.leaves[i].status)
  {
  }

  /** Appending a row whose key exceeds every existing key keeps keys unique. */
  lemma AppendKeepsUnique(ids: seq<Id>, x: Id)
    requires UniqueIds(ids)
    requires forall i :: 0 <= i < |ids| ==> ids[i] < x
    ensures UniqueIds(ids + [x])
  {
  }

  /** Appending an attendance row with a key above every existing key and
      no check-out keeps the invariant. */
  lemma AddAttendanceKeepsWf(l: Ledger, a: Attendance)
    requires Wf(l)
    requires forall i :: 0 <= i < |l.attendance| ==> l.attendance[i].id < a.id
    requires a.checkOut.None?
    ensures Wf(AddAttendance(l, a))
  {
    var before, after := Ids(l.attendance, AttendanceKey), Ids(AddAttendance(l, a).attendance, AttendanceKey);
    assert after == before + [a.id];
    AppendKeepsUnique(before, a.id);
  }

  lemma {:induction false} CheckInKeepsWf(l: Ledger, s: Session, now: DateTime, m: Method)
    requires Wf(l)
    ensures Wf(CheckIn(l, s, now, m).ledger)
  {
    var r := CheckIn(l, s, now, m);
    if r.outcome in {CheckedIn, LateRequested} {
      var a := r.ledger.attendance[|l.attendance|];
      assert r.ledger == AddAttendance(l, a);
      AddAttendanceKeepsWf(l, a);
    }
  }

  lemma {:induction false} SubmitLeaveKeepsWf(l: Ledger, s: Session, m: Method,
                                             start: Option<Date>, end: Option<Date>, reason: string)
    requires Wf(l)
    ensures Wf(SubmitLeave(l, s, m, start, end, reason).ledger)
  {
    var r := SubmitLeave(l, s, m, start, end, reason);
    if r.outcome == LeaveSubmitted {
      var before, after := Ids(l.leaves, LeaveKey), Ids(r.ledger.leaves, LeaveKey);
      assert after == before + [r.ledger.leaves[|l.leaves|].id];
      AppendKeepsUnique(before, r.ledger.leaves[|l.leaves|].id);
    }
  }

  lemma {:induction false} RejectLateKeepsWf(l: Ledger, s: Session, id: Id, now: DateTime)
    requires Wf(l)
    ensures Wf(RejectLateCheckIn(l, s, id, now).ledger)
  {
    var r := RejectLateCheckIn(l, s, id, now);
    if r.outcome == LateRejected {
      var i := FindAttendance(l.attendance, id).value;
      var before, after := Ids(l.attendance, AttendanceKey), Ids(r.ledger.attendance, AttendanceKey);
      forall p, q | 0 <= p < q < |after| ensures after[p] != after[q] {
        var p', q' := if p < i then p else p + 1, if q < i then q else q + 1;
        assert after[p] == before[p'] && after[q] == before[q'];
      }
    }
  }

  lemma {:induction false} CheckOutKeepsWf(l: Ledger, s: Session, now: DateTime)
    requires Wf(l)
    ensures Wf(CheckOut(l, s, now).ledger)
  {
    var r := CheckOut(l, s, now);
    assert Ids(r.ledger.attendance, AttendanceKey) == Ids(l.attendance, AttendanceKey);
  }

  lemma {:induction false} ApproveLateKeepsWf(l: Ledger, s: Session, id: Id, now: DateTime)
    requires Wf(l)
    ensures Wf(ApproveLateCheckIn(l, s, id, now).ledger)
  {
    var r := ApproveLateCheckIn(l, s, id, now);
    assert Ids(r.ledger.attendance, AttendanceKey) == Ids(l.attendance, AttendanceKey);
  }

  lemma {:induction false} DecideLeaveKeepsWf(l: Ledger, s: Session, id: Id, now: DateTime,
                                             status: LeaveStatus, message: string, done: Outcome)
    requires Wf(l)
    requires done != NoOp && done != NotPermitted
    ensures Wf(DecideLeave(l, s, id, now, status, message, done).ledger)
  {
    var r := DecideLeave(l, s, id, now, status, message, done);
    assert Ids(r.ledger.leaves, LeaveKey) == Ids(l.leaves, LeaveKey);
  }

  /** Every request keeps the ledger invariant: unique keys in the attendance
      and leave tables, and no check-out without a check-in. */
  lemma HandlePreservesWf(l: Ledger, s: Session, now: DateTime, req: Request)
    requires Wf(l)
    ensures Wf(Handle(l, s, now, req).ledger)
  {
    match req
    case CheckInRequest(m) => CheckInKeepsWf(l, s, now, m);
    case LeaveRequestSubmission(m, start, end, reason) => SubmitLeaveKeepsWf(l, s, m, start, end, reason);
    case CheckOutRequest => CheckOutKeepsWf(l, s, now);
    case ApproveLateRequest(id) => ApproveLateKeepsWf(l, s, id, now);
    case RejectLateRequest(id) => RejectLateKeepsWf(l, s, id, now);
    case ApproveLeaveRequest(id) => DecideLeaveKeepsWf(l, s, id, now, Approved, LeaveApprovedMessage, LeaveApproved);
    case RejectLeaveRequest(id) => DecideLeaveKeepsWf(l, s, id, now, Rejected, LeaveRejectedMessage, LeaveRejected);
  }
}
