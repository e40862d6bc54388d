/**
 * Signing in, signing up and signing out: the routes mounted at `/`. Password
 * hashing is outside the model: registration receives the hash of the password, and
 * login receives the check `matches(password, hash)` that bcrypt performs.
 */
module Auth {
  import opened Wrappers
  import opened Text
  import opened Rows
  import opened Db
  import opened Http
  import opened Gate

  /** `GET /`, `GET /login`, `GET /register`: a signed-in user is sent to the dashboard instead. */
  function Landing(user: Option<SessionUser>, page: string): (o: Outcome)
    ensures o == ToDashboard <==> user.Some?
    ensures user.None? ==> o == Render(page)
  {
    if user.Some? then ToDashboard else Render(page)
  }

  /** `SELECT * FROM users WHERE login = ?` read with `.get()`: the first user with that login. */
  function UserByLogin(users: seq<Row<User>>, login: string): (r: Option<Row<User>>)
    ensures r.Some? ==> r.value in users && r.value.val.login == login
    ensures r.None? <==> forall i :: 0 <= i < |users| ==> users[i].val.login != login
  {
    if users == [] then None
    else if users[0].val.login == login then Some(users[0])
    else
      var r := UserByLogin(users[1..], login);
      assert forall i :: 1 <= i < |users| ==> users[i] == users[1..][i - 1];
      r
  }

  /** A user with a login no earlier user has is the one a lookup of that login finds. */
  lemma {:induction false} UserByLoginAppend(users: seq<Row<User>>, row: Row<User>)
    requires forall i :: 0 <= i < |users| ==> users[i].val.login != row.val.login
    ensures UserByLogin(users + [row], row.val.login) == Some(row)
  {
    if users != [] {
      assert (users + [row])[1..] == users[1..] + [row];
      UserByLoginAppend(users[1..], row);
    }
  }

  /** The session record login and registration store. */
  function SessionOf(row: Row<User>): (s: SessionUser)
    ensures s.id == row.id && s.role == row.val.role
    ensures RequireRole([row.val.role], Some(s)).None?
  {
    SessionUser(row.id, row.val.role, row.val.fullName, row.val.groupName, row.val.subject)
  }

  /**
   * `POST /login`: an unknown (or absent) login and a wrong password are both refused with the
   * same 400; a known login without a password makes bcrypt fail, answered with 500.
   */
  function LoginResult(t: Tables, login: Option<string>, password: Option<string>,
                       matches: (string, string) -> bool): (r: Result<SessionUser, Outcome>)
    ensures r.Success? <==>
      && login.Some? && UserByLogin(t.users, login.value).Some? && password.Some?
      && matches(password.value, UserByLogin(t.users, login.value).value.val.passwordHash)
    ensures r.Success? ==>
      var row := UserByLogin(t.users, login.value).value;
      && row in t.users && row.val.login == login.value
      && r.value == SessionOf(row) && r.value.id == row.id && r.value.role == row.val.role
    ensures r == Failure(BadRequest(InvalidCredentials)) <==>
      || login.None? || UserByLogin(t.users, login.value).None?
      || (password.Some? && !matches(password.value, UserByLogin(t.users, login.value).value.val.passwordHash))
    ensures r == Failure(ServerError) <==>
      login.Some? && UserByLogin(t.users, login.value).Some? && password.None?
  {
    var row := if login.Some? then UserByLogin(t.users, login.value) else None;
    if row.None? then Failure(BadRequest(InvalidCredentials))
    else if password.None? then Failure(ServerError)
    else if !matches(password.value, row.value.val.passwordHash) then Failure(BadRequest(InvalidCredentials))
    else Success(SessionOf(row.value))
  }

  /** `POST /login`: a successful login replaces the session user. */
  method Login(db: Store, session: Session, login: Option<string>, password: Option<string>,
               matches: (string, string) -> bool) returns (o: Outcome)
    modifies session
    ensures var r := LoginResult(db.tables, login, password, matches);
      && (r.Success? ==> o == ToDashboard && session.user == Some(r.value))
      && (r.Failure? ==> o == r.error && session.user == old(session.user))
  {
    var r := LoginResult(db.tables, login, password, matches);
    if r.Failure? {
      return r.error;
    }
    session.user := Some(r.value);
    o := ToDashboard;
  }

  /** The three sign-up forms. */
  datatype Signup = StudentSignup | TeacherSignup | AdminSignup

  function RoleOf(kind: Signup): (role: string)
    ensures ValidRole(role)
  {
    match kind
    case StudentSignup => StudentRole
    case TeacherSignup => TeacherRole
    case AdminSignup => AdminRole
  }

  /** A sign-up form; fields the form does not have are None. */
  datatype SignupForm = SignupForm(
    fullName: Option<string>, groupName: Option<string>, subject: Option<string>, email: Option<string>,
    login: Option<string>, password: Option<string>, phone: Option<string>)

  /** A required field is absent or empty: the group for students, the subject for teachers. */
  predicate SignupIncomplete(kind: Signup, f: SignupForm) {
    || !Truthy(f.fullName) || !Truthy(f.email) || !Truthy(f.login) || !Truthy(f.password)
    || (kind == StudentSignup && !Truthy(f.groupName))
    || (kind == TeacherSignup && !Truthy(f.subject))
  }

  /** The users row a complete sign-up form inserts, storing `hash` for the password. */
  function NewUser(kind: Signup, f: SignupForm, hash: string): (u: User)
    requires !SignupIncomplete(kind, f)
    ensures u.role == RoleOf(kind) && u.passwordHash == hash
    ensures u.fullName == f.fullName.value && u.email == f.email.value && u.login == f.login.value
    ensures u.groupName == (if kind == StudentSignup then f.groupName else None)
    ensures u.subject == (if kind == TeacherSignup then f.subject else None)
    ensures u.phone == (if kind == TeacherSignup then OrNull(f.phone) else None)
  {
    match kind
    case StudentSignup =>
      User(StudentRole, f.fullName.value, f.email.value, f.login.value, hash, f.groupName, None, None)
    case TeacherSignup =>
      User(TeacherRole, f.fullName.value, f.email.value, f.login.value, hash, None, f.subject, OrNull(f.phone))
    case AdminSignup =>
      User(AdminRole, f.fullName.value, f.email.value, f.login.value, hash, None, None, None)
  }

  /**
   * `POST /register/student|teacher|admin`: the new tables and the session of the new user,
   * or why the form was refused (a taken login or e-mail reads as "already exists").
   */
  function RegisterResult(t: Tables, kind: Signup, f: SignupForm, hash: string): (r: Result<(Tables, SessionUser), Refusal>)
    ensures r == Failure(MissingFields) <==> SignupIncomplete(kind, f)
    ensures r == Failure(AccountExists) <==> !SignupIncomplete(kind, f) && Conflicts(t.users, NewUser(kind, f, hash))
    ensures r != Failure(RegistrationFailed)
    ensures r.Success? <==> !SignupIncomplete(kind, f) && !Conflicts(t.users, NewUser(kind, f, hash))
    ensures r.Success? ==>
      var (t2, s) := r.value;
      && t2.users == t.users + [Row(t.next.user, NewUser(kind, f, hash))]
      && t2.next == t.next.(user := t.next.user + 1)
      && t2.schedules == t.schedules && t2.assignments == t.assignments && t2.events == t.events
      && s == SessionOf(Row(t.next.user, NewUser(kind, f, hash)))
      && s.id == t.next.user && s.role == RoleOf(kind)
    ensures r.Success? && TablesValid(t) ==> TablesValid(r.value.0)
  {
    if SignupIncomplete(kind, f) then Failure(MissingFields)
    else
      var u := NewUser(kind, f, hash);
      var ins := InsertUser(t, u);
      if ins.Failure? then
        Failure(if ins.error == UniqueViolation then AccountExists else RegistrationFailed)
      else
        UserByLoginAppend(t.users, Row(t.next.user, u));
        var row := UserByLogin(ins.value.users, f.login.value);
        Success((ins.value, SessionOf(row.value)))
  }

  /** A complete sign-up whose login and e-mail are free, then a sign-in with the same login and password, starts that user's session. */
  lemma RegisterThenLogin(t: Tables, kind: Signup, f: SignupForm, hash: string, matches: (string, string) -> bool)
    requires !SignupIncomplete(kind, f) && !Conflicts(t.users, NewUser(kind, f, hash))
    requires matches(f.password.value, hash)
    ensures var (t2, s) := RegisterResult(t, kind, f, hash).value;
      LoginResult(t2, f.login, f.password, matches) == Success(s) && s.role == RoleOf(kind)
  {
    var u := NewUser(kind, f, hash);
    var (t2, s) := RegisterResult(t, kind, f, hash).value;
    UserByLoginAppend(t.users, Row(t.next.user, u));
    assert UserByLogin(t2.users, f.login.value) == Some(Row(t.next.user, u));
  }

  /** A second sign-up with a login already taken is refused. */
  lemma RegisterTwiceRefused(t: Tables, kind: Signup, f: SignupForm, hash: string, kind2: Signup, f2: SignupForm, hash2: string)
    requires !SignupIncomplete(kind, f) && !Conflicts(t.users, NewUser(kind, f, hash))
    requires !SignupIncomplete(kind2, f2) && f2.login == f.login
    ensures RegisterResult(RegisterResult(t, kind, f, hash).value.0, kind2, f2, hash2) == Failure(AccountExists)
  {
    var t2 := RegisterResult(t, kind, f, hash).value.0;
    var last := |t2.users| - 1;
    assert t2.users[last].val.login == NewUser(kind2, f2, hash2).login;
  }

  /** `POST /register/…`: on success the new user is signed in. */
  method Register(db: Store, session: Session, kind: Signup, f: SignupForm, hash: string) returns (o: Outcome)
    requires db.Valid()
    modifies db`tables, session
    ensures db.Valid()
    ensures var r := RegisterResult(old(db.tables), kind, f, hash);
      && (r.Failure? ==> o == BadRequest(r.error) && db.tables == old(db.tables) && session.user == old(session.user))
      && (r.Success? ==> o == ToDashboard && db.tables == r.value.0 && session.user == Some(r.value.1))
  {
    var r := RegisterResult(db.tables, kind, f, hash);
    if r.Failure? {
      return BadRequest(r.error);
    }
    db.tables := r.value.0;
    session.user := Some(r.value.1);
    o := ToDashboard;
  }

  /** `GET /logout`: the session is destroyed. */
  method Logout(session: Session) returns (o: Outcome)
    modifies session
    ensures session.user.None? && o == ToLogin
  {
    session.user := None;
    o := ToLogin;
  }
}
