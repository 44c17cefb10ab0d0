/** Request sequences over one employee-day. */
module Scenarios {
  import opened Wrappers
  import opened Clock
  import opened Queries
  import opened Models
  import opened Accounts
  import opened Routes

  /** Appending a row for another employee-day, or for the same one when it
      already has a first row, leaves the first row where it was; appending
      the day's first row makes it the first. */
  lemma {:induction false} FirstForDayAppend(s: seq<Attendance>, a: Attendance, employee: Id, day: Date)
    ensures FirstForDay(s, employee, day).Some? ==>
      FirstForDay(s + [a], employee, day) == FirstForDay(s, employee, day)
    ensures FirstForDay(s, employee, day).None? && OnDay(a, employee, day) ==>
      FirstForDay(s + [a], employee, day) == Some(|s|)
  {
    var t := s + [a];
    assert forall j :: 0 <= j < |s| ==> t[j] == s[j];
    var before, after := FirstForDay(s, employee, day), FirstForDay(t, employee, day);
    if before.Some? {
      assert OnDay(t[before.value], employee, day);
      assert after.Some?;
    } else if OnDay(a, employee, day) {
      assert OnDay(t[|s|], employee, day);
    }
  }

  /** The on-time window is closed at both ends, to the microsecond: 07:00
      and 10:15:00 are on time, one microsecond earlier than 07:00 is too
      early, one microsecond after 10:15 is late. */
  lemma CheckInWindowEdges(l: Ledger, e: Id, d: Date, m: Method)
    requires !CheckedInToday(l.attendance, e, d)
    ensures var s := SignedIn(e, Some(EmployeeRole));
      && CheckIn(l, s, DateTime(d, Hms(7, 0, 0)), m).outcome == CheckedIn
      && CheckIn(l, s, DateTime(d, Hms(10, 15, 0)), m).outcome == CheckedIn
      && CheckIn(l, s, DateTime(d, Hms(7, 0, 0) - 1), m).outcome == TooEarly
      && CheckIn(l, s, DateTime(d, Hms(10, 15, 0) + 1), m).outcome in {LateFormShown, LateRequested}
  {
  }

  /** An ordinary day: an on-time check-in, then a check-out, fill one new
      row with both times; a further check-in attempt that day is refused
      without any change. */
  lemma {:induction false} OrdinaryDay(l: Ledger, e: Id, d: Date, tin: TimeOfDay, tout: TimeOfDay, again: TimeOfDay)
    requires FirstForDay(l.attendance, e, d).None?
    requires EarliestCheckIn <= tin <= CheckInDeadline
    ensures var s := SignedIn(e, Some(EmployeeRole));
      var r1 := CheckIn(l, s, DateTime(d, tin), Post);
      var r2 := CheckOut(r1.ledger, s, DateTime(d, tout));
      var r3 := CheckIn(r2.ledger, s, DateTime(d, again), Post);
      && r1.outcome == CheckedIn && r2.outcome == CheckedOut && r3.outcome == AlreadyCheckedIn
      && |r2.ledger.attendance| == |l.attendance| + 1
      && r2.ledger.attendance[|l.attendance|].checkIn == Some(DateTime(d, tin))
      && r2.ledger.attendance[|l.attendance|].checkOut == Some(DateTime(d, tout))
      && r3.ledger == r2.ledger
  {
    var s := SignedIn(e, Some(EmployeeRole));
    var r1 := CheckIn(l, s, DateTime(d, tin), Post);
    FirstForDayAppend(l.attendance, r1.ledger.attendance[|l.attendance|], e, d);
    assert r1.ledger.attendance == l.attendance + [r1.ledger.attendance[|l.attendance|]];
    assert FirstForDay(r1.ledger.attendance, e, d) == Some(|l.attendance|);
  }

  /** A late POST on a day whose first row has no check-in appends one
      requested row without a check-in time and touches nothing else. */
  lemma LateRequestAppends(l: Ledger, e: Id, d: Date, time: TimeOfDay) returns (row: Attendance)
    requires !CheckedInToday(l.attendance, e, d)
    requires time > CheckInDeadline
    ensures var r := CheckIn(l, SignedIn(e, Some(EmployeeRole)), DateTime(d, time), Post);
      && r.outcome == LateRequested
      && r.ledger == l.(attendance := l.attendance + [row])
      && OnDay(row, e, d) && row.checkIn.None? && row.lateRequested
      && forall i :: 0 <= i < |l.attendance| ==> l.attendance[i].id < row.id
  {
    var r := CheckIn(l, SignedIn(e, Some(EmployeeRole)), DateTime(d, time), Post);
    row := r.ledger.attendance[|l.attendance|];
    assert r.ledger.attendance == l.attendance + [row];
  }

  /** A late day: a POST after the deadline files a request with no
      check-in time; the admin's approval at `t` marks it approved, sets its
      check-in time to `t` and sends the employee exactly one notification. */
  lemma {:induction false} LateDayApproved(l: Ledger, e: Id, admin: Id, d: Date, time: TimeOfDay, t: DateTime)
    requires FirstForDay(l.attendance, e, d).None?
    requires time > CheckInDeadline
    ensures var s := SignedIn(e, Some(EmployeeRole));
      var r1 := CheckIn(l, s, DateTime(d, time), Post);
      var row := r1.ledger.attendance[|l.attendance|];
      var r2 := ApproveLateCheckIn(r1.ledger, SignedIn(admin, Some(AdminRole)), row.id, t);
      && r1.outcome == LateRequested && row.lateRequested && row.checkIn.None?
      && r2.outcome == LateApproved
      && r2.ledger.attendance[|l.attendance|]
         == row.(lateApproved := true, lateRequested := false, checkIn := Some(t))
      && r2.ledger.notifications == l.notifications + [Notification(e, LateApprovedMessage, t)]
  {
    var row := LateRequestAppends(l, e, d, time);
    var r1 := CheckIn(l, SignedIn(e, Some(EmployeeRole)), DateTime(d, time), Post);
    assert r1.ledger.attendance[|l.attendance|] == row;
    assert FindAttendance(r1.ledger.attendance, row.id) == Some(|l.attendance|);
  }

  /** Two late POSTs on a day with no row yet leave two requested rows
      without check-in, the first of them being the day's first row. */
  lemma TwoLateRequests(l: Ledger, e: Id, d: Date, t1: TimeOfDay, t2: TimeOfDay)
    returns (first: Attendance, second: Attendance)
    requires FirstForDay(l.attendance, e, d).None?
    requires t1 > CheckInDeadline && t2 > CheckInDeadline
    ensures var s := SignedIn(e, Some(EmployeeRole));
      var r1 := CheckIn(l, s, DateTime(d, t1), Post);
      var r2 := CheckIn(r1.ledger, s, DateTime(d, t2), Post);
      && r1.outcome == LateRequested && r2.outcome == LateRequested
      && r2.ledger == l.(attendance := l.attendance + [first] + [second])
    ensures first.checkIn.None? && OnDay(first, e, d) && OnDay(second, e, d)
    ensures first.id < second.id
    ensures forall i :: 0 <= i < |l.attendance| + 1 ==> (l.attendance + [first])[i].id < second.id
  {
    first := LateRequestAppends(l, e, d, t1);
    var l1 := l.(attendance := l.attendance + [first]);
    FirstForDayAppend(l.attendance, first, e, d);
    assert FirstForDay(l1.attendance, e, d) == Some(|l.attendance|);
    second := LateRequestAppends(l1, e, d, t2);
  }

  /** A row whose key is above every existing key is found at the end. */
  lemma FindAppended(s: seq<Attendance>, row: Attendance)
    requires forall i :: 0 <= i < |s| ==> s[i].id < row.id
    ensures FindAttendance(s + [row], row.id) == Some(|s|)
  {
    assert (s + [row])[|s|] == row;
  }

  /** When the day has no row yet, the first of two appended rows for it
      becomes the day's first row. */
  lemma {:induction false} FirstOfTwoAppended(s: seq<Attendance>, a: Attendance, b: Attendance, e: Id, d: Date)
    requires FirstForDay(s, e, d).None? && OnDay(a, e, d)
    ensures FirstForDay(s + [a] + [b], e, d) == Some(|s|)
  {
    FirstForDayAppend(s, a, e, d);
    FirstForDayAppend(s + [a], b, e, d);
  }

  /** Approval changes no row's employee or date, so every employee-day
      keeps the same first row. */
  lemma {:induction false} ApprovalKeepsFirstForDay(l: Ledger, s: Session, id: Id, t: DateTime, e: Id, d: Date)
    ensures FirstForDay(ApproveLateCheckIn(l, s, id, t).ledger.attendance, e, d) == FirstForDay(l.attendance, e, d)
  {
    var after := ApproveLateCheckIn(l, s, id, t).ledger.attendance;
    assert |after| == |l.attendance|;
    assert forall j :: 0 <= j < |after| ==> (OnDay(after[j], e, d) <==> OnDay(l.attendance[j], e, d));
  }

  /** Approving any row other than the employee's first row of the day
      leaves that first row without a check-in, so check-out stays refused. */
  lemma {:induction false} ApprovalElsewhereKeepsCheckOutRefused(l: Ledger, e: Id, admin: Id, d: Date,
                                                                 id: Id, t: DateTime, out: TimeOfDay)
    requires var i := FirstForDay(l.attendance, e, d);
      i.Some? && l.attendance[i.value].checkIn.None? && l.attendance[i.value].id != id
    ensures var r := ApproveLateCheckIn(l, SignedIn(admin, Some(AdminRole)), id, t);
      CheckOut(r.ledger, SignedIn(e, Some(EmployeeRole)), DateTime(d, out)) == Step(r.ledger, NeedCheckIn)
  {
    var admins := SignedIn(admin, Some(AdminRole));
    var n := FirstForDay(l.attendance, e, d).value;
    var r := ApproveLateCheckIn(l, admins, id, t);
    ApprovalKeepsFirstForDay(l, admins, id, t, e, d);
    assert r.ledger.attendance[n] == l.attendance[n];
  }

  /** On a day whose first row has no check-in time, approving a later row
      of the same day sets that row's check-in time but check-out still
      consults the first row and is refused. */
  lemma {:induction false} ApproveSecondThenCheckOut(l: Ledger, first: Attendance, second: Attendance,
                                                     e: Id, admin: Id, d: Date, t: DateTime, out: TimeOfDay)
    requires FirstForDay(l.attendance, e, d).None?
    requires OnDay(first, e, d) && first.checkIn.None? && first.id != second.id
    requires FindAttendance(l.attendance + [first] + [second], second.id) == Some(|l.attendance| + 1)
    ensures var l2 := l.(attendance := l.attendance + [first] + [second]);
      var r3 := ApproveLateCheckIn(l2, SignedIn(admin, Some(AdminRole)), second.id, t);
      var r4 := CheckOut(r3.ledger, SignedIn(e, Some(EmployeeRole)), DateTime(d, out));
      && r3.outcome == LateApproved && r3.ledger.attendance[|l.attendance| + 1].checkIn == Some(t)
      && r4.outcome == NeedCheckIn && r4.ledger == r3.ledger
  {
    var l2 := l.(attendance := l.attendance + [first] + [second]);
    FirstOfTwoAppended(l.attendance, first, second, e, d);
    assert l2.attendance[|l.attendance|] == first;
    ApprovalElsewhereKeepsCheckOutRefused(l2, e, admin, d, second.id, t, out);
  }

  /** Because a late POST always adds a row, two late requests on one day
      leave two rows. Approving the second does not help the employee:
      check-out consults the first row, which still has no check-in time,
      and is refused. */
  lemma {:induction false} DuplicateLateRequestsBlockCheckOut(l: Ledger, e: Id, admin: Id, d: Date,
                                                              t1: TimeOfDay, t2: TimeOfDay, t: DateTime, out: TimeOfDay)
    requires FirstForDay(l.attendance, e, d).None?
    requires t1 > CheckInDeadline && t2 > CheckInDeadline
    ensures var s := SignedIn(e, Some(EmployeeRole));
      var r1 := CheckIn(l, s, DateTime(d, t1), Post);
      var r2 := CheckIn(r1.ledger, s, DateTime(d, t2), Post);
      var second := r2.ledger.attendance[|l.attendance| + 1];
      var r3 := ApproveLateCheckIn(r2.ledger, SignedIn(admin, Some(AdminRole)), second.id, t);
      var r4 := CheckOut(r3.ledger, s, DateTime(d, out));
      && r1.outcome == LateRequested && r2.outcome == LateRequested
      && r3.outcome == LateApproved && r3.ledger.attendance[|l.attendance| + 1].checkIn == Some(t)
      && r4.outcome == NeedCheckIn && r4.ledger == r3.ledger
  {
    var first, second := TwoLateRequests(l, e, d, t1, t2);
    FindAppended(l.attendance + [first], second);
    assert (l.attendance + [first] + [second])[|l.attendance| + 1] == second;
    ApproveSecondThenCheckOut(l, first, second, e, admin, d, t, out);
  }

  /** Leave decisions are not final and not deduplicated: approving twice
      keeps the status Approved and notifies twice, and a later rejection
      overrides an approval. */
  lemma LeaveDecisionsRepeat(l: Ledger, admin: Id, id: Id, t1: DateTime, t2: DateTime)
    requires exists j :: 0 <= j < |l.leaves| && l.leaves[j].id == id
    ensures var s := SignedIn(admin, Some(AdminRole));
      var i := FindLeave(l.leaves, id).value;
      var r1 := ApproveLeave(l, s, id, t1);
      var r2 := ApproveLeave(r1.ledger, s, id, t2);
      var r3 := RejectLeave(r1.ledger, s, id, t2);
      && r1.outcome == LeaveApproved && r2.outcome == LeaveApproved
      && r2.ledger.leaves[i].status == Approved
      && r2.ledger.notifications == l.notifications
           + [Notification(l.leaves[i].employee, LeaveApprovedMessage, t1),
              Notification(l.leaves[i].employee, LeaveApprovedMessage, t2)]
      && r3.outcome == LeaveRejected && r3.ledger.leaves[i].status == Rejected
  {
    var s := SignedIn(admin, Some(AdminRole));
    var i := FindLeave(l.leaves, id).value;
    var r1 := ApproveLeave(l, s, id, t1);
    assert r1.ledger.leaves[i].id == id;
    assert FindLeave(r1.ledger.leaves, id) == Some(i);
  }
}
