/**
 * The user registry: registration with its two rules (usernames are unique,
 * there is at most one administrator), login, the administrator query and
 * deletion. The password hash and its check are the `hash` and `matches`
 * parameters; each login's new token is the `token` parameter.
 */
module UserService {
  import opened Model
  import opened Tables
  import opened UserDao
  import opened TokenManager

  const USERNAME_TAKEN: string := "Username already exists"
  const ADMIN_TAKEN: string := "Administrator already exists"
  const BAD_CREDENTIALS: string := "Invalid username or password"

  predicate UniqueUsernames(rows: seq<User>)
  {
    forall i, j :: 0 <= i < j < |rows| ==> rows[i].username != rows[j].username
  }

  predicate AtMostOneAdmin(rows: seq<User>)
  {
    forall i, j :: 0 <= i < j < |rows| && rows[i].role == ADMIN ==> rows[j].role != ADMIN
  }

  /** The registry's rules. */
  predicate Registry(rows: seq<User>)
  {
    UniqueUsernames(rows) && AtMostOneAdmin(rows)
  }

  /** Why `register` refuses, if it does: the username check runs before the administrator check. */
  function Rejection(rows: seq<User>, username: string, role: Role): Option<Fault>
  {
    if First(rows, Named(username)).Some? then Some(IllegalArgument(USERNAME_TAKEN))
    else if role == ADMIN && HasAdmin(rows) then Some(IllegalState(ADMIN_TAKEN))
    else None
  }

  /**
   * A taken username is refused whatever the role; a second administrator is
   * refused only for a free username; everything else is accepted.
   */
  lemma RejectionCases(rows: seq<User>, username: string, role: Role)
    ensures (exists u :: u in rows && u.username == username) ==>
      Rejection(rows, username, role) == Some(IllegalArgument(USERNAME_TAKEN))
    ensures (forall u :: u in rows ==> u.username != username) ==>
      (Rejection(rows, username, role) == Some(IllegalState(ADMIN_TAKEN)) <==> role == ADMIN && HasAdmin(rows))
    ensures Rejection(rows, username, role).None? <==>
      (forall u :: u in rows ==> u.username != username) && !(role == ADMIN && HasAdmin(rows))
  {
  }

  /** Every registration `register` accepts keeps the registry's rules. */
  lemma {:induction false} RegisterKeepsRegistry(rows: seq<User>, user: User)
    requires Registry(rows)
    requires Rejection(rows, user.username, user.role).None?
    ensures Registry(rows + [user])
  {
    var all := rows + [user];
    forall i, j | 0 <= i < j < |all| ensures all[i].username != all[j].username
    {
      if j == |rows| {
        assert all[i] in rows;
      }
    }
    forall i, j | 0 <= i < j < |all| && all[i].role == ADMIN ensures all[j].role != ADMIN
    {
      if j == |rows| {
        assert rows[i].role == ADMIN;
      }
    }
  }

  /**
   * `register`: refuses a taken username, then a second administrator;
   * otherwise inserts one user with the hashed password.
   */
  method Register(users: UserTable, username: string, password: string, email: string, role: Role,
                  hash: string -> string)
    returns (outcome: Result<()>)
    requires users.Valid()
    modifies users
    ensures users.Valid()
    ensures var rejection := Rejection(old(users.rows), username, role);
      && (rejection.Some? ==>
            outcome == Err(rejection.value) && users.rows == old(users.rows) && users.nextId == old(users.nextId))
      && (rejection.None? ==>
            outcome == Ok(())
            && users.rows == old(users.rows) + [User(old(users.nextId), username, hash(password), email, role)])
  {
    var existing := users.FindByUsername(username);
    if existing.Some? {
      return Err(IllegalArgument(USERNAME_TAKEN));
    }
    if role == ADMIN {
      var adminExists := AdminExists(users);
      if adminExists {
        return Err(IllegalState(ADMIN_TAKEN));
      }
    }
    var hashed := hash(password);
    var id := users.Create(User(0, username, hashed, email, role));
    return Ok(());
  }

  /** `adminExists` */
  method AdminExists(users: UserTable) returns (exists_: bool)
    ensures exists_ <==> exists u :: u in users.rows && u.role == ADMIN
  {
    exists_ := users.AdminExists();
  }

  /** The user a login succeeds for: the user with that name, if the password matches its hash. */
  function Authenticate(rows: seq<User>, username: string, password: string,
                        matches: (string, string) -> bool): Option<User>
  {
    match First(rows, Named(username))
    case None => None
    case Some(u) => if matches(password, u.passwordHash) then Some(u) else None
  }

  /**
   * A login succeeds exactly for an existing username whose stored hash
   * matches the password; both ways of failing look the same to the caller.
   */
  lemma AuthenticateCases(rows: seq<User>, username: string, password: string, matches: (string, string) -> bool)
    requires UniqueUsernames(rows)
    ensures var a := Authenticate(rows, username, password, matches);
      && (a.Some? <==> exists u :: u in rows && u.username == username && matches(password, u.passwordHash))
      && (a.Some? ==> a.value in rows && a.value.username == username)
  {
    var first := First(rows, Named(username));
    if first.Some? {
      forall u | u in rows && u.username == username ensures u == first.value {
        var i :| 0 <= i < |rows| && rows[i] == u;
        var j :| 0 <= j < |rows| && rows[j] == first.value;
        assert rows[i].username == rows[j].username;
        assert i == j;
      }
    }
  }

  /** `login`: one message for an unknown user and a wrong password; success issues a token for the user. */
  method Login(users: UserTable, tokens: SessionTable, username: string, password: string,
               matches: (string, string) -> bool, token: string)
    returns (outcome: Result<string>)
    modifies tokens
    ensures match Authenticate(users.rows, username, password, matches)
      case None => outcome == Err(IllegalArgument(BAD_CREDENTIALS)) && tokens.sessions == old(tokens.sessions)
      case Some(u) => outcome == Ok(token) && tokens.sessions == old(tokens.sessions)[token := u]
  {
    var user := users.FindByUsername(username);
    if user.None? {
      return Err(IllegalArgument(BAD_CREDENTIALS));
    }
    if !matches(password, user.value.passwordHash) {
      return Err(IllegalArgument(BAD_CREDENTIALS));
    }
    var issued := tokens.GenerateToken(user.value, token);
    return Ok(issued);
  }

  /** `deleteUser`: removes the user row only; that user's codes are left in place. */
  method DeleteUser(users: UserTable, id: int)
    requires users.Valid()
    modifies users
    ensures users.Valid()
    ensures users.rows == Filter(old(users.rows), NotWithId(id))
  {
    users.Delete(id);
  }
}
