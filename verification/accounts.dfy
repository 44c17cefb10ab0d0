/** Identities and sessions: the unique-username constraint on each identity
    table, login, the session user loader and the role gate every route
    applies first. Password hashing is not modelled: the hash comparison is
    a parameter `verify(hash, password)`. */
module Accounts {
  import opened Wrappers
  import opened Queries
  import opened Models

  /** No two rows of one identity table share a username. */
  predicate UniqueUsernames(table: seq<Account>) {
    forall i, j :: 0 <= i < j < |table| ==> table[i].username != table[j].username
  }

  /** Each table's usernames and keys are unique; nothing relates the two. */
  predicate DirectoryWf(d: Directory) {
    && UniqueUsernames(d.employees) && UniqueIds(Ids(d.employees, AccountKey))
    && UniqueUsernames(d.admins) && UniqueIds(Ids(d.admins, AccountKey))
  }

  predicate Taken(table: seq<Account>, username: string) {
    exists i :: 0 <= i < |table| && table[i].username == username
  }

  /** Inserting an account: the unique constraint refuses a username already
      in the same table (None); otherwise the row is appended with a fresh key. */
  function Register(table: seq<Account>, username: string, passwordHash: string): (r: Option<seq<Account>>)
    ensures r.None? <==> Taken(table, username)
    ensures r.Some? ==> |r.value| == |table| + 1 && r.value[..|table|] == table
    ensures r.Some? ==> r.value[|table|].username == username && r.value[|table|].passwordHash == passwordHash
    ensures r.Some? ==> forall i :: 0 <= i < |table| ==> table[i].id < r.value[|table|].id
  {
    match FirstWhere(table, (a: Account) => a.username == username)
    case Some(_) => None
    case None => Some(table + [Account(NextId(Ids(table, AccountKey)), username, passwordHash)])
  }

  /** Adding an employee consults only the employee table. */
  function AddEmployee(d: Directory, username: string, passwordHash: string): (r: Option<Directory>)
    ensures r.None? <==> Taken(d.employees, username)
    ensures r.Some? ==> r.value.admins == d.admins && Taken(r.value.employees, username)
  {
    match Register(d.employees, username, passwordHash)
    case None => None
    case Some(t) => Some(d.(employees := t))
  }

  /** Adding an admin consults only the admin table. */
  function AddAdmin(d: Directory, username: string, passwordHash: string): (r: Option<Directory>)
    ensures r.None? <==> Taken(d.admins, username)
    ensures r.Some? ==> r.value.employees == d.employees && Taken(r.value.admins, username)
  {
    match Register(d.admins, username, passwordHash)
    case None => None
    case Some(t) => Some(d.(admins := t))
  }

  /** A successful registration keeps the table's usernames and keys unique. */
  lemma RegisterKeepsUnique(table: seq<Account>, username: string, passwordHash: string)
    requires UniqueUsernames(table) && UniqueIds(Ids(table, AccountKey))
    ensures Register(table, username, passwordHash).Some? ==>
      var t := Register(table, username, passwordHash).value;
      UniqueUsernames(t) && UniqueIds(Ids(t, AccountKey))
  {
    var r := Register(table, username, passwordHash);
    if r.Some? {
      var t := r.value;
      forall i, j | 0 <= i < j < |t| ensures t[i].username != t[j].username && t[i].id != t[j].id {
        assert t[i] == table[i];
        if j < |table| {
          assert t[j] == table[j];
          assert Ids(table, AccountKey)[i] == table[i].id && Ids(table, AccountKey)[j] == table[j].id;
        }
      }
    }
  }

  /** Adding an employee or an admin preserves the directory invariant. */
  lemma AddKeepsDirectoryWf(d: Directory, username: string, passwordHash: string)
    requires DirectoryWf(d)
    ensures AddEmployee(d, username, passwordHash).Some? ==> DirectoryWf(AddEmployee(d, username, passwordHash).value)
    ensures AddAdmin(d, username, passwordHash).Some? ==> DirectoryWf(AddAdmin(d, username, passwordHash).value)
  {
    RegisterKeepsUnique(d.employees, username, passwordHash);
    RegisterKeepsUnique(d.admins, username, passwordHash);
  }

  /** The same username may be held by an employee and by an admin. */
  lemma NamespacesIndependent(username: string, h1: string, h2: string)
    ensures var d := AddAdmin(AddEmployee(Directory([], []), username, h1).value, username, h2);
      d.Some? && DirectoryWf(d.value)
      && Taken(d.value.employees, username) && Taken(d.value.admins, username)
  {
    var e := AddEmployee(Directory([], []), username, h1).value;
    assert !Taken(e.admins, username);
  }

  /** What the session holds: nothing, or an identity key plus the role tag. */
  datatype Session = Anonymous | SignedIn(user: Id, userType: Option<Role>)

  /** The guard at the top of each protected route: signed in, and the role
      tag is the route's role. Anything else redirects to login. */
  predicate Authorized(s: Session, required: Role) {
    s.SignedIn? && s.userType == Some(required)
  }

  /** Some account of `table` has the username and `verify` accepts the
      password against its hash. */
  predicate Accepts(table: seq<Account>, username: string, password: string,
                    verify: (string, string) -> bool) {
    exists i :: 0 <= i < |table| && table[i].username == username && verify(table[i].passwordHash, password)
  }

  /** The account `username` names in `table` if `verify` accepts the
      password against its hash (`filter_by(username).first()` then
      `check_password`). */
  function Match(table: seq<Account>, username: string, password: string,
                 verify: (string, string) -> bool): (r: Option<Account>)
    ensures r.Some? ==> r.value in table && r.value.username == username
                        && verify(r.value.passwordHash, password)
    ensures UniqueUsernames(table) ==> (r.Some? <==> Accepts(table, username, password, verify))
  {
    match FirstWhere(table, (a: Account) => a.username == username)
    case None => None
    case Some(i) => if verify(table[i].passwordHash, password) then Some(table[i]) else None
  }

  /** A login attempt by a caller whose session is `prev`. The employee
      table is tried first; the admin table only when that yields no
      accepted account. A successful attempt replaces the session with the
      account's key and role tag; a failed one only shows the form again,
      so the session stays `prev`, signed in or not. */
  function Login(d: Directory, prev: Session, username: string, password: string,
                 verify: (string, string) -> bool): (s: Session)
    ensures s != prev ==> s.SignedIn? && s.userType.Some?
    ensures s != prev && s.userType == Some(EmployeeRole) ==>
      exists a :: a in d.employees && a.id == s.user && a.username == username
                  && verify(a.passwordHash, password)
    ensures s != prev && s.userType == Some(AdminRole) ==>
      exists a :: a in d.admins && a.id == s.user && a.username == username
                  && verify(a.passwordHash, password)
    ensures DirectoryWf(d) && Accepts(d.employees, username, password, verify) ==>
      && s.SignedIn? && s.userType == Some(EmployeeRole)
      && exists a :: a in d.employees && a.id == s.user && a.username == username
                     && verify(a.passwordHash, password)
    ensures (DirectoryWf(d) && !Accepts(d.employees, username, password, verify)
             && Accepts(d.admins, username, password, verify)) ==>
      && s.SignedIn? && s.userType == Some(AdminRole)
      && exists a :: a in d.admins && a.id == s.user && a.username == username
                     && verify(a.passwordHash, password)
    ensures (DirectoryWf(d) && !Accepts(d.employees, username, password, verify)
             && !Accepts(d.admins, username, password, verify)) ==> s == prev
  {
    match Match(d.employees, username, password, verify)
    case Some(e) => SignedIn(e.id, Some(EmployeeRole))
    case None =>
      match Match(d.admins, username, password, verify)
      case Some(a) => SignedIn(a.id, Some(AdminRole))
      case None => prev
  }

  /** The session user loader: the key is looked up in the employee table
      when the role tag says employee, and in the admin table otherwise,
      including when no tag is stored. */
  function LoadUser(d: Directory, userType: Option<Role>, id: Id): (r: Option<Account>)
    ensures r.Some? ==> r.value.id == id
    ensures userType == Some(EmployeeRole) ==> (r.Some? <==> exists i :: 0 <= i < |d.employees| && d.employees[i].id == id)
    ensures userType != Some(EmployeeRole) ==> (r.Some? <==> exists i :: 0 <= i < |d.admins| && d.admins[i].id == id)
    ensures r.Some? ==> r.value in (if userType == Some(EmployeeRole) then d.employees else d.admins)
  {
    var table := if userType == Some(EmployeeRole) then d.employees else d.admins;
    match FirstWhere(table, (a: Account) => a.id == id)
    case None => None
    case Some(i) => Some(table[i])
  }
}
