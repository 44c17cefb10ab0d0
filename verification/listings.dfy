/** The read-only routes: the employee's notification feed and the admin's
    attendance, late-request and leave listings. None of them changes the
    ledger, so each returns only the rows it shows. */
module Listings {
  import opened Wrappers
  import opened Clock
  import opened Queries
  import opened Models
  import opened Accounts

  /** What a listing route ends on: the login redirect of the role gate, a
      failed request (a query date that is not YYYY-MM-DD), or the rows. */
  datatype Listing<T> = Denied | Malformed | Rows(rows: seq<T>)

  /** A query-string argument. A missing or empty argument is `Blank`;
      otherwise `Text` carries the parse of the text (None when it is not a
      YYYY-MM-DD date). */
  datatype QueryArg = Blank | Text(parsed: Option<Date>)

  function NotificationKey(n: Notification): int { Stamp(n.date) }
  function AttendanceDateKey(a: Attendance): int { a.date }
  function LeaveStartKey(q: LeaveRequest): int { q.startDate }

  /** The notification feed: exactly the caller's notifications, each as
      often as it is stored, latest first. */
  function NotificationFeed(l: Ledger, s: Session): (r: Listing<Notification>)
    ensures r.Denied? <==> !Authorized(s, EmployeeRole)
    ensures !r.Malformed?
    ensures r.Rows? ==> SortedDesc(r.rows, NotificationKey)
    ensures r.Rows? ==>
      forall n :: multiset(r.rows)[n] == if n.employee == s.user then multiset(l.notifications)[n] else 0
  {
    if !Authorized(s, EmployeeRole) then Denied
    else Rows(OrderByDesc(Where(l.notifications, (n: Notification) => n.employee == s.user),
                          NotificationKey))
  }

  /** A feed ordered by stamp is ordered by instant: no notification is
      listed after a later one. */
  lemma {:induction false} FeedIsNewestFirst(feed: seq<Notification>)
    requires SortedDesc(feed, NotificationKey)
    ensures forall i, j :: 0 <= i < j < |feed| ==> !Before(feed[i].date, feed[j].date)
  {
    forall i, j | 0 <= i < j < |feed| ensures !Before(feed[i].date, feed[j].date) {
      StampOrder(feed[i].date, feed[j].date);
    }
  }

  /** Whether an attendance date lies in the inclusive range [lo, hi]. */
  predicate InRange(a: Attendance, lo: Date, hi: Date) {
    lo <= a.date <= hi
  }

  /** The attendance records view. The date range applies only when both
      bounds are given; a lone bound is ignored, unparsed, and every record
      is listed. Rows come latest date first. */
  function AttendanceRecords(l: Ledger, s: Session, start: QueryArg, end: QueryArg): (r: Listing<Attendance>)
    ensures r.Denied? <==> !Authorized(s, AdminRole)
    ensures r.Malformed? <==>
      Authorized(s, AdminRole) && start.Text? && end.Text? && (start.parsed.None? || end.parsed.None?)
    ensures r.Rows? ==> SortedDesc(r.rows, AttendanceDateKey)
    ensures r.Rows? && start.Text? && end.Text? ==>
      var lo, hi := start.parsed.value, end.parsed.value;
      forall a :: multiset(r.rows)[a] == if InRange(a, lo, hi) then multiset(l.attendance)[a] else 0
    ensures r.Rows? && !(start.Text? && end.Text?) ==> multiset(r.rows) == multiset(l.attendance)
  {
    if !Authorized(s, AdminRole) then Denied
    else if start.Text? && end.Text? then
      if start.parsed.None? || end.parsed.None? then Malformed
      else
        var lo, hi := start.parsed.value, end.parsed.value;
        Rows(OrderByDesc(Where(l.attendance, (a: Attendance) => InRange(a, lo, hi)), AttendanceDateKey))
    else Rows(OrderByDesc(l.attendance, AttendanceDateKey))
  }

  /** Whether a row is a late-check-in request still awaiting a decision. */
  predicate AwaitingDecision(a: Attendance) {
    a.lateRequested && !a.lateApproved
  }

  /** The late check-ins awaiting a decision, latest date first. */
  function PendingLateCheckIns(l: Ledger, s: Session): (r: Listing<Attendance>)
    ensures r.Denied? <==> !Authorized(s, AdminRole)
    ensures !r.Malformed?
    ensures r.Rows? ==> SortedDesc(r.rows, AttendanceDateKey)
    ensures r.Rows? ==>
      forall a :: multiset(r.rows)[a] == if AwaitingDecision(a) then multiset(l.attendance)[a] else 0
  {
    if !Authorized(s, AdminRole) then Denied
    else Rows(OrderByDesc(Where(l.attendance, AwaitingDecision), AttendanceDateKey))
  }

  /** Every leave request, latest start date first. */
  function LeaveRequests(l: Ledger, s: Session): (r: Listing<LeaveRequest>)
    ensures r.Denied? <==> !Authorized(s, AdminRole)
    ensures !r.Malformed?
    ensures r.Rows? ==> SortedDesc(r.rows, LeaveStartKey)
    ensures r.Rows? ==> multiset(r.rows) == multiset(l.leaves)
  {
    if !Authorized(s, AdminRole) then Denied
    else Rows(OrderByDesc(l.leaves, LeaveStartKey))
  }
}
