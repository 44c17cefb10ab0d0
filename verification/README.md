# Attendance and leave workflow — a Dafny model

This project models the attendance and leave approval workflow of a small
Flask application. Employees check in and out, file late-check-in requests
and submit leave requests. Administrators approve or reject those requests
and browse the records. Each decision sends the employee a notification.

The model is a pure state machine over a `Ledger` of three tables, each
kept in insertion order:

- attendance rows: key, employee, date, optional check-in, optional
  check-out, and the late-requested and late-approved flags;
- leave requests, each with a `Pending`/`Approved`/`Rejected` status;
- notifications, which are only ever appended.

Every route is a function. It takes the ledger, the session (identity key
plus role tag), the request's "now" and the request inputs. It returns the
new ledger and an outcome tag (`CheckedIn`, `TooEarly`, `LateRequested`,
`NoOp`, …). The read-only routes return the rows they list. The clock is a
parameter: a date is a day number, and a time of day is counted in
microseconds, the precision of the source's datetime values. So "after
10:15" means strictly after 10:15:00.000000. Both 07:00 and 10:15:00 are on
time.

Files and modules:

- `wrappers.dfy` (`Wrappers`): `Option`.
- `clock.dfy` (`Clock`): dates, instants, the 07:00 and 10:15 constants,
  and instant ordering.
- `queries.dfy` (`Queries`): the query shapes the routes use. These are
  filter, `.first()`, `order_by(… desc)` and row deletion, all over
  sequences.
- `models.dfy` (`Models`): the record shapes and their defaults, key
  assignment, lookups, and the ledger invariant `Wf`.
- `accounts.dfy` (`Accounts`): the employee and admin tables with their
  unique usernames, login, the session user loader and the role gate.
- `routes.dfy` (`Routes`): the state-changing routes.
- `listings.dfy` (`Listings`): the read-only routes.
- `workflow.dfy` (`Workflow`): dispatch of a request to its route, and the
  properties all routes share.
- `scenarios.dfy` (`Scenarios`): request sequences over one employee-day.

Modelling choices:

- `.first()` is called without `order_by` when finding today's row. The
  model takes the earliest inserted match.
- `order_by(date.desc())` leaves the order of equal dates open. The model
  uses one stable order. The contracts promise only two things: the rows are
  non-increasing in the key, and they are exactly the selected rows, each
  with its multiplicity.
- A new row gets one more than the largest existing key, or 1 for an empty
  table. This is how SQLite assigns an integer primary key without
  AUTOINCREMENT (`app/__init__.py:19` selects SQLite).
- A form or query date that is not `YYYY-MM-DD` makes `strptime` raise. The
  request then fails before anything is committed. Such dates arrive here
  already parsed, as `Option<Date>`, and `None` gives `BadForm` (or
  `Malformed` for a listing) with the ledger unchanged.

Behaviour of the code that the model reproduces as it is:

- A late POST always inserts a new row (`app/routes.py:79-87`), so one day
  can hold several rows. `Scenarios.DuplicateLateRequestsBlockCheckOut`
  shows the effect.
- The notification feed is ordered non-increasing by timestamp, and equal
  timestamps may tie (`app/routes.py:160`).
- An admin can decide a leave request again, and each call adds one
  notification (`app/routes.py:256-292`, `Scenarios.LeaveDecisionsRepeat`).
- Approving or rejecting a late check-in does not look at the row's flags
  (`app/routes.py:202-203`, `226-227`). Any attendance key is accepted, and
  approval overwrites an existing check-in time (`app/routes.py:205`).

## Model

| member | source | states |
|---|---|---|
| `Clock.StampOrder` | app/routes.py:160 | sorting by the integer stamp is the same as sorting by instant, in both directions (day first, then time of day) |
| `Queries.FirstWhere` | app/routes.py:65-68 | `.first()`: returns the index of a match with no match before it, and returns none exactly when no row matches |
| `Queries.Where` | app/routes.py:160 | a filter keeps each row that satisfies the condition exactly as many times as it occurs, and keeps nothing else |
| `Queries.Insert` | app/routes.py:181 | putting one row into a sorted list keeps it non-increasing in the key and adds exactly that row |
| `Queries.OrderByDesc` | app/routes.py:181 | `order_by(… desc())`: returns a permutation of the input that is non-increasing in the key |
| `Queries.RemoveAt` | app/routes.py:235 | a deletion drops exactly one row and keeps the others in order |
| `Models.NextId` | app/models.py:35 | an inserted row's key is at least 1, above every existing key, and one more than the largest key when the table is not empty |
| `Models.FindAttendance` | app/routes.py:202 | `query.get(id)` on attendance: a found row has key `id`, and nothing is found exactly when no row has that key |
| `Models.FindLeave` | app/routes.py:256 | `query.get(id)` on leave requests: the same guarantee for the leave table |
| `Models.FirstForDay` | app/routes.py:65-68 | today's row is the employee's earliest inserted row for that date; there is none only when the employee has no row for it |
| `Accounts.Register` | app/models.py:10 | the unique-username constraint: an insert is refused exactly when the name is taken in the same table; otherwise one row with the name and a fresh key is appended |
| `Accounts.AddEmployee` | app/models.py:7-10 | adding an employee fails exactly when another employee has the name, whatever the admin table holds, and the admin table is left alone |
| `Accounts.AddAdmin` | app/models.py:20-23 | adding an admin fails exactly when another admin has the name, whatever the employee table holds |
| `Accounts.RegisterKeepsUnique` | app/models.py:9-10 | a successful insert keeps usernames and keys unique within the table |
| `Accounts.AddKeepsDirectoryWf` | app/models.py:7-23 | adding an employee or an admin preserves uniqueness in both tables |
| `Accounts.NamespacesIndependent` | app/models.py:10-23 | one username can be held by an employee and by an admin at once |
| `Accounts.Match` | app/routes.py:25-26 | a matched account has the username and accepts the password; with unique names a match exists exactly when some account with that name accepts it |
| `Accounts.Login` | app/routes.py:19-38 | employees are tried before admins: an accepting employee always wins; an admin login names an accepting admin; when no account of either kind accepts, the session is left as it was |
| `Accounts.LoadUser` | app/routes.py:12-17 | the session key is resolved in the employee table when the tag says employee and in the admin table for any other tag, including none |
| `Routes.CheckIn` | app/routes.py:55-101 | wrong role: nothing changes. Already checked in today comes before too early (< 07:00); both change nothing. On time (07:00 ≤ t ≤ 10:15) appends one row with check-in = now, no check-out and both flags false. After 10:15 a POST appends one requested row without check-in and a GET changes nothing. No other table changes |
| `Routes.CheckOut` | app/routes.py:103-127 | refused with nothing changed when today's first row is missing or has no check-in, or already has a check-out; otherwise only that row's check-out is set to now |
| `Routes.SubmitLeave` | app/routes.py:129-152 | a POST with two parsed dates appends one `Pending` request with the caller, dates and reason, whatever the order of the dates; GET, a bad date or the wrong role change nothing |
| `Routes.ApproveLateCheckIn` | app/routes.py:196-218 | for an existing key, whatever its flags: that row becomes approved, not requested, with check-in = now; one approval notice goes to its owner; nothing else changes. An unknown key changes nothing |
| `Routes.RejectLateCheckIn` | app/routes.py:220-239 | for an existing key: exactly that row is deleted and one rejection notice goes to its owner. An unknown key changes nothing |
| `Routes.DecideLeave` | app/routes.py:256-266 | for an existing key: that request's status is set, no other row changes, and one notice goes to its owner on every call. An unknown key changes nothing |
| `Routes.ApproveLeave` | app/routes.py:250-270 | approval sets the status to `Approved` and sends the approval message |
| `Routes.RejectLeave` | app/routes.py:272-292 | rejection sets the status to `Rejected` and sends the rejection message |
| `Listings.NotificationFeed` | app/routes.py:154-161 | an employee's feed holds exactly their own notifications, with multiplicity, in non-increasing time; any other role is redirected |
| `Listings.FeedIsNewestFirst` | app/routes.py:160 | in the feed no notification comes after a later one |
| `Listings.AttendanceRecords` | app/routes.py:163-182 | with both bounds: exactly the rows dated in [start, end] inclusive, or a failed request if a bound does not parse. With one or no bound: every row. Always latest date first |
| `Listings.PendingLateCheckIns` | app/routes.py:184-194 | exactly the rows still requested and not approved, latest date first |
| `Listings.LeaveRequests` | app/routes.py:241-248 | every leave request, latest start date first |
| `Workflow.RoleGate` | app/routes.py:58-59 | for every state-changing route, a session without the route's role tag is redirected and the ledger does not change |
| `Workflow.NotificationsAppendOnly` | app/routes.py:209-214 | no request removes or edits a notification; one is added exactly when an admin decision finds its row |
| `Workflow.LeavesNeverDeleted` | app/routes.py:256-258 | no request deletes a leave request or changes anything in it except its status |
| `Workflow.HandlePreservesWf` | app/routes.py:117-125 | every request keeps attendance and leave keys unique and never leaves a check-out time without a check-in time |
| `Scenarios.FirstForDayAppend` | app/routes.py:65-68 | a new row does not change which row is today's first, unless it is the first row for that day |
| `Scenarios.CheckInWindowEdges` | app/routes.py:62-78 | 07:00:00.000000 and 10:15:00.000000 are on time; one microsecond before 07:00 is too early; one microsecond after 10:15 is late |
| `Scenarios.OrdinaryDay` | app/routes.py:55-127 | check-in at 08:00 then check-out at 17:00 fill one row with both times; a second check-in is refused and changes nothing |
| `Scenarios.LateDayApproved` | app/routes.py:78-87 | an 11:00 POST files a request without check-in; approving that row sets approved, clears requested, sets check-in = approval time and sends exactly one notice |
| `Scenarios.LateRequestAppends` | app/routes.py:78-87 | on a day not yet checked into, a POST after 10:15 appends exactly one requested row without check-in, keyed above every existing row, and changes nothing else |
| `Scenarios.TwoLateRequests` | app/routes.py:79-87 | two late POSTs on a day without a row both file requests and append two rows for that day, the first without check-in and keyed below the second |
| `Scenarios.ApprovalKeepsFirstForDay` | app/routes.py:202-206 | approval changes no row's employee or date, so every employee-day keeps the same first row |
| `Scenarios.ApprovalElsewhereKeepsCheckOutRefused` | app/routes.py:112-119 | when the day's first row has no check-in, approving any other row leaves check-out refused |
| `Scenarios.DuplicateLateRequestsBlockCheckOut` | app/routes.py:79-87 | two late POSTs leave two rows for one day; after approval of the second, check-out still reads the first row and is refused |
| `Scenarios.LeaveDecisionsRepeat` | app/routes.py:250-292 | approving twice keeps `Approved` and sends two notices; a later rejection overrides an approval |

## Left out

- The provisioning script `populate_db.py`, the application factory
  `app/__init__.py` and the unused `app/extensions.py` are not part of this
  model. Each is configuration or one-off seeding.
- Password hashing is not modelled. The hash comparison is a parameter
  `verify(hash, password)` of `Accounts.Login`.
- Template rendering, flash messages, `redirect`/`url_for`, `login_user` and
  the session store are not modelled. Pages and messages become outcome
  tags, and the session is a plain value.
- `employee_dashboard`, `admin_dashboard` and `logout` are not modelled.
  They apply the role gate and render a page, or clear the session, and
  touch no ledger table.
- The login form's GET branch is not modelled, and neither are the GET
  forms' rendering. Missing form fields, which fail the request with a 400,
  are not modelled either.
- Date parsing with `strptime` is not modelled. Dates arrive parsed, with
  `None` for text that does not parse.
- Approving a late check-in reads the clock twice (`app/routes.py:205` and
  `212`), once for the row and once for the notice. The model uses one
  instant for both.
- The check-in route reads `date.today()` and `datetime.now()` separately.
  The model takes both from one "now", so a request that straddles midnight
  is not modelled.
- The routes assume the session key names an existing account of the
  kind its tag says. `login_required` together with `load_user`
  (`app/routes.py:12-17`) would redirect a session whose key names no
  account; the role gate `Accounts.Authorized` looks only at the tag, and
  `Accounts.LoadUser` models the lookup separately.
- Concurrent requests are not modelled. Each request is one atomic
  transition, so the race between two simultaneous check-ins is not covered.
- The notification table's own key is not modelled, because no route reads
  it.
- Column lengths (`String(150)`, `String(500)`) are not modelled, because
  SQLite does not enforce them.
- `Listings.NotificationFeed`, `Listings.AttendanceRecords`,
  `Listings.PendingLateCheckIns`, `Listings.LeaveRequests`: these fix the
  order of rows with equal keys, which the database leaves open, and their
  contracts promise only what any such order satisfies.
