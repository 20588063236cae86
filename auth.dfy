/** The login layer of the August 11 backend: the user table read from a CSV file, and the
    global `SESSIONS` table from session token to user id that a successful login extends. */
module Auth {
  import opened Common

  type UserId = string
  type Token = string

  /** One row of `csv.DictReader`: column name to cell text. A column missing from the header
      is a key missing from the row. */
  type Row = map<string, string>

  /** The CSV file `read_users` opens: absent, present with its data rows in file order, or
      present but failing to open or decode with `error` (`PermissionError`,
      `IsADirectoryError`, `UnicodeDecodeError`, ...). */
  datatype CsvFile = Missing | Present(rows: seq<Row>) | Unreadable(error: PyError)

  /** The user table: user id to password. */
  type Users = map<UserId, string>

  /** `SESSIONS`: session token to user id. */
  type Sessions = map<Token, UserId>

  /** Whether `users[row["user_id"]] = row["password"]` can run on `row`. */
  predicate RowOk(row: Row) {
    "user_id" in row && "password" in row
  }

  /** The `KeyError` a row lacking a column raises. Python evaluates the right-hand side of an
      assignment first, so a missing "password" is reported before a missing "user_id". */
  function RowError(row: Row): PyError {
    if "password" !in row then KeyError("password") else KeyError("user_id")
  }

  /** The loop of `read_users` over the rows, as a specification: each row stores its password
      under its user id, a later row overwriting an earlier one; the first row lacking a column
      raises. */
  function UsersOf(rows: seq<Row>): (r: Result<Users, PyError>)
    ensures r.Ok? <==> forall k :: 0 <= k < |rows| ==> RowOk(rows[k])
    ensures r.Err? ==> exists k ::
      && 0 <= k < |rows| && !RowOk(rows[k]) && r.error == RowError(rows[k])
      && forall j :: 0 <= j < k ==> RowOk(rows[j])
  {
    if rows == [] then Ok(map[])
    else
      var init := rows[..|rows| - 1];
      var row := rows[|rows| - 1];
      var users := UsersOf(init);
      if users.Err? then
        assert forall k :: 0 <= k < |init| ==> init[k] == rows[k];
        users
      else if !RowOk(row) then Err(RowError(row))
      else Ok(users.value[row["user_id"] := row["password"]])
  }

  /** `read_users()` as a value: a missing file gives the empty table, only
      `FileNotFoundError` being caught; any other error of `open` or of reading propagates. */
  function UsersFrom(csv: CsvFile): Result<Users, PyError> {
    match csv
    case Missing => Ok(map[])
    case Present(rows) => UsersOf(rows)
    case Unreadable(e) => Err(e)
  }

  /** `read_users(csv_path)`. */
  method ReadUsers(csv: CsvFile) returns (r: Result<Users, PyError>)
    ensures csv.Missing? ==> r == Ok(map[])
    ensures csv.Unreadable? ==> r == Err(csv.error)
    ensures r == UsersFrom(csv)
  {
    if csv.Missing? {
      return Ok(map[]);
    }
    if csv.Unreadable? {
      return Err(csv.error);
    }
    var rows := csv.rows;
    var users: Users := map[];
    var i := 0;
    while i < |rows|
      invariant 0 <= i <= |rows|
      invariant UsersOf(rows[..i]) == Ok(users)
    {
      var row := rows[i];
      assert rows[..i + 1][..i] == rows[..i];
      if !RowOk(row) {
        ErrorPersists(rows, i + 1);
        return Err(RowError(row));
      }
      users := users[row["user_id"] := row["password"]];
      i := i + 1;
    }
    assert rows[..i] == rows;
    return Ok(users);
  }

  /** Once a prefix of the rows raises, the whole file raises the same error. */
  lemma {:induction false} ErrorPersists(rows: seq<Row>, i: nat)
    requires i <= |rows| && UsersOf(rows[..i]).Err?
    ensures UsersOf(rows) == UsersOf(rows[..i])
  {
    if i < |rows| {
      var init := rows[..|rows| - 1];
      assert init[..i] == rows[..i];
      ErrorPersists(init, i);
    } else {
      assert rows[..i] == rows;
    }
  }

  /** The index of the last row carrying user id `u`, or -1 when no row does. */
  function LastRowOf(rows: seq<Row>, u: UserId): (k: int)
    requires forall j :: 0 <= j < |rows| ==> "user_id" in rows[j]
    ensures -1 <= k < |rows|
    ensures 0 <= k ==> rows[k]["user_id"] == u
    ensures forall j :: k < j < |rows| ==> rows[j]["user_id"] != u
  {
    if rows == [] then -1
    else if rows[|rows| - 1]["user_id"] == u then |rows| - 1
    else LastRowOf(rows[..|rows| - 1], u)
  }

  /** A user id is in the table exactly when some row carries it, and its password is that of
      the last such row. */
  lemma {:induction false} LastRowWins(rows: seq<Row>, u: UserId)
    requires UsersOf(rows).Ok?
    ensures var users := UsersOf(rows).value;
      var k := LastRowOf(rows, u);
      && (u in users <==> 0 <= k)
      && (u in users ==> users[u] == rows[k]["password"])
  {
    if rows != [] {
      var init := rows[..|rows| - 1];
      var last := rows[|rows| - 1];
      assert UsersOf(init).Ok?;
      if last["user_id"] != u {
        LastRowWins(init, u);
        assert forall j :: 0 <= j < |init| ==> init[j] == rows[j];
      }
    }
  }

  /** What `authenticate` does once the table is read. */
  datatype AuthOutcome = AuthOutcome(token: Option<Token>, sessions: Sessions)

  /** `authenticate(user_id, password)` given the user table and the fresh token `uuid4` gives:
      the token is issued exactly when the user exists with that password, and it is then
      recorded for that user, over any earlier entry for the same token; otherwise `None` and
      the sessions are left as they are. */
  function AuthenticateOn(sessions: Sessions, users: Users, userId: UserId, password: string, token: Token)
    : (o: AuthOutcome)
    ensures o.token.Some? <==> userId in users && users[userId] == password
    ensures o.token.Some? ==> o.token.value == token && o.sessions == sessions[token := userId]
    ensures o.token.None? ==> o.sessions == sessions
  {
    if userId in users && users[userId] == password then AuthOutcome(Some(token), sessions[token := userId])
    else AuthOutcome(None, sessions)
  }

  /** One call of `authenticate`: the table it read, the credentials and the token `uuid4` gave. */
  datatype Attempt = Attempt(users: Users, userId: UserId, password: string, token: Token)

  /** The sessions after a series of `authenticate` calls, in call order. */
  function Replay(sessions: Sessions, attempts: seq<Attempt>): Sessions
    decreases |attempts|
  {
    if attempts == [] then sessions
    else
      var a := attempts[0];
      Replay(AuthenticateOn(sessions, a.users, a.userId, a.password, a.token).sessions, attempts[1..])
  }

  /** No call removes a session: a valid token stays valid. */
  lemma {:induction false} ValidityIsMonotone(sessions: Sessions, attempts: seq<Attempt>, t: Token)
    requires t in sessions
    ensures t in Replay(sessions, attempts)
    decreases |attempts|
  {
    if attempts != [] {
      var a := attempts[0];
      ValidityIsMonotone(AuthenticateOn(sessions, a.users, a.userId, a.password, a.token).sessions, attempts[1..], t);
    }
  }

  /** A token issued by the `k`-th call is valid after every later call. */
  lemma {:induction false} IssuedTokensStayValid(sessions: Sessions, attempts: seq<Attempt>, k: nat)
    requires k < |attempts|
    requires var a := attempts[k];
      AuthenticateOn(Replay(sessions, attempts[..k]), a.users, a.userId, a.password, a.token).token.Some?
    ensures attempts[k].token in Replay(sessions, attempts)
    decreases k
  {
    var a := attempts[0];
    var next := AuthenticateOn(sessions, a.users, a.userId, a.password, a.token).sessions;
    if k == 0 {
      assert attempts[..0] == [];
      ValidityIsMonotone(next, attempts[1..], a.token);
    } else {
      assert attempts[..k][0] == a && attempts[..k][1..] == attempts[1..][..k - 1];
      IssuedTokensStayValid(next, attempts[1..], k - 1);
    }
  }

  /** Why `login` failed: FastAPI's 401, or an exception from reading the user table. */
  datatype LoginFailure = HttpError(http: HttpException) | Exception(error: PyError)

  const InvalidCredentials: HttpException := HttpException(Unauthorized, "Invalid credentials")

  /** The module-level `SESSIONS` dictionary and the functions over it. */
  class SessionStore {
    var sessions: Sessions

    /** At import time `SESSIONS` is empty. */
    constructor ()
      ensures sessions == map[]
    {
      sessions := map[];
    }

    /** `is_valid_token(token)`: the token was issued by some successful `authenticate`. */
    function IsValidToken(token: Token): (b: bool)
      reads this
      ensures b <==> token in sessions
    {
      token in sessions
    }

    /** `authenticate(user_id, password)`, reading `csv` and using `token` as the `uuid4` value.
        A read error propagates and changes nothing. A successful check issues the token and
        makes it valid; every earlier session stays valid. */
    method Authenticate(csv: CsvFile, userId: UserId, password: string, token: Token)
      returns (r: Result<Option<Token>, PyError>)
      modifies this
      ensures UsersFrom(csv).Err? ==> r == Err(UsersFrom(csv).error) && sessions == old(sessions)
      ensures UsersFrom(csv).Ok? ==>
        var o := AuthenticateOn(old(sessions), UsersFrom(csv).value, userId, password, token);
        r == Ok(o.token) && sessions == o.sessions
      ensures r.Ok? && r.value.Some? ==> IsValidToken(token)
      ensures forall t :: t in old(sessions) ==> t in sessions
    {
      var users := ReadUsers(csv);
      if users.Err? {
        return Err(users.error);
      }
      if userId in users.value && users.value[userId] == password {
        sessions := sessions[token := userId];
        return Ok(Some(token));
      }
      return Ok(None);
    }

    /** `login(req)`: the token when `authenticate` returns a non-empty one, 401 "Invalid
        credentials" otherwise; an exception from reading the table propagates. */
    method Login(csv: CsvFile, userId: UserId, password: string, token: Token)
      returns (r: Result<Token, LoginFailure>)
      modifies this
      ensures UsersFrom(csv).Err? ==> r == Err(Exception(UsersFrom(csv).error)) && sessions == old(sessions)
      ensures UsersFrom(csv).Ok? ==>
        var o := AuthenticateOn(old(sessions), UsersFrom(csv).value, userId, password, token);
        && sessions == o.sessions
        && (if o.token.Some? && token != "" then r == Ok(token) else r == Err(HttpError(InvalidCredentials)))
      ensures r.Ok? ==> IsValidToken(r.value)
    {
      var t := Authenticate(csv, userId, password, token);
      match t {
        case Err(e) => return Err(Exception(e));
        case Ok(Some(tok)) =>
          if tok != "" {
            return Ok(tok);
          }
          return Err(HttpError(InvalidCredentials));
        case Ok(None) => return Err(HttpError(InvalidCredentials));
      }
    }
  }
}
