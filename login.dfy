/** `POST /api/login`: check the secret, the request fields, look the email up in the user
    database, compare the password as plain text, and on success sign a token and set it as the
    session cookie. */
module LoginRoute {
  import opened Text
  import opened Http
  import opened Jwt

  /** An entry of the user database (users.json). `passwordHash` holds the password in plain text. */
  datatype User = User(email: string, passwordHash: string, role: string)

  /** What `getUsers()` produces: the parsed list, or the failure it rethrows. */
  datatype UserDb = Loaded(users: seq<User>) | Unreadable

  /** What `request.json()` produces: the two fields ("" when absent), or the error it throws. */
  datatype LoginBody = Parsed(email: string, password: string) | Malformed(errorMessage: string)

  const CredentialsRequiredMessage: string := "Email and password are required."
  const LoginSuccessMessage: string := "Login successful"
  const InvalidCredentialsMessage: string := "Invalid email or password"
  const GenericLoginErrorMessage: string := "An error occurred during login."
  const DbErrorPrefix: string := "Could not read user database"

  /** `process.env.USER_DB_PATH || 'data/users.json'`. */
  function UserDbPath(env: Env): string {
    if env.userDbPath != "" then env.userDbPath else DefaultUserDbPath
  }

  /** The message `getUsers` throws when the file cannot be read or parsed. */
  function DbErrorMessage(env: Env): (m: string)
    ensures StartsWith(m, DbErrorPrefix)
  {
    DbErrorPrefix + ". Please check server configuration and ensure '" + UserDbPath(env)
    + "' exists and is valid JSON."
  }

  /** `users.find(u => u.email === email)`: a user with that email when there is one. */
  function Find(users: seq<User>, email: string): (r: Option<User>)
    ensures r.None? <==> forall i :: 0 <= i < |users| ==> users[i].email != email
    ensures r.Some? ==> r.value.email == email && r.value in users
  {
    if users == [] then None
    else if users[0].email == email then Some(users[0])
    else Find(users[1..], email)
  }

  /** ... and it is the first such user: `find` stops at the first match. */
  lemma {:induction false} FindIsFirst(users: seq<User>, email: string, i: nat)
    requires i < |users| && users[i].email == email
    requires forall k :: 0 <= k < i ==> users[k].email != email
    ensures Find(users, email) == Some(users[i])
  {
    if i > 0 {
      FindIsFirst(users[1..], email, i - 1);
    }
  }

  /** The `catch` block: an error whose message starts with the database prefix is reported as
      is, anything else with the generic message; both are 500 without a cookie. */
  function CatchResponse(errorMessage: string): (r: Response)
    ensures r.status == 500 && r.setCookie.None?
    ensures r.message == (if StartsWith(errorMessage, DbErrorPrefix) then errorMessage
                          else GenericLoginErrorMessage)
  {
    if StartsWith(errorMessage, DbErrorPrefix) then Response(500, errorMessage, None)
    else Response(500, GenericLoginErrorMessage, None)
  }

  /** `POST(request)` at time `now` (seconds), with the library's `sign`. */
  function Login(env: Env, body: LoginBody, db: UserDb, now: nat, sign: Signer): (r: Response)
    ensures r.status in {200, 400, 401, 500}
    ensures r.setCookie.Some? <==> r.status == 200
    ensures r.status == 200 <==>
              && SecretSet(env) && body.Parsed? && body.email != "" && body.password != ""
              && db.Loaded? && Find(db.users, body.email).Some?
              && Find(db.users, body.email).value.passwordHash == body.password
    ensures r.status == 200 ==> r.message == LoginSuccessMessage
    ensures r.status == 200 ==>
              var u := Find(db.users, body.email).value;
              r.setCookie == Some(SessionCookie(env, sign(Claims(u.email, u.role), env.jwtSecret, now)))
  {
    if !SecretSet(env) then Response(500, SecretMissingMessage, None)
    else match body
      case Malformed(e) => CatchResponse(e)
      case Parsed(email, password) =>
        if email == "" || password == "" then Response(400, CredentialsRequiredMessage, None)
        else match db
          case Unreadable => CatchResponse(DbErrorMessage(env))
          case Loaded(users) =>
            match Find(users, email)
            case Some(user) =>
              if user.passwordHash == password then
                var token := sign(Claims(user.email, user.role), env.jwtSecret, now);
                Response(200, LoginSuccessMessage, Some(SessionCookie(env, token)))
              else Response(401, InvalidCredentialsMessage, None)
            case None => Response(401, InvalidCredentialsMessage, None)
  }

  /** With the secret unset the answer is 500 whatever the body, the database and the clock: the
      body is not read and the database not consulted. */
  lemma SecretCheckedFirst(env: Env, b1: LoginBody, b2: LoginBody, db1: UserDb, db2: UserDb,
                           now: nat, sign: Signer)
    requires !SecretSet(env)
    ensures Login(env, b1, db1, now, sign) == Login(env, b2, db2, now, sign)
            == Response(500, SecretMissingMessage, None)
  {
  }

  /** An empty or missing field gives 400 before the database is consulted. */
  lemma FieldsCheckedBeforeLookup(env: Env, email: string, password: string, db1: UserDb,
                                  db2: UserDb, now: nat, sign: Signer)
    requires SecretSet(env) && (email == "" || password == "")
    ensures Login(env, Parsed(email, password), db1, now, sign)
            == Login(env, Parsed(email, password), db2, now, sign)
            == Response(400, CredentialsRequiredMessage, None)
  {
  }

  /** An unknown email and a wrong password get the same answer, so the response does not tell
      which emails exist. */
  lemma NoAccountEnumeration(env: Env, email: string, password: string, users: seq<User>,
                             others: seq<User>, now: nat, sign: Signer)
    requires SecretSet(env) && email != "" && password != ""
    requires Find(users, email).Some? && Find(users, email).value.passwordHash != password
    requires forall i :: 0 <= i < |others| ==> others[i].email != email
    ensures var wrongPassword := Login(env, Parsed(email, password), Loaded(users), now, sign);
            var unknownEmail := Login(env, Parsed(email, password), Loaded(others), now, sign);
            wrongPassword == unknownEmail == Response(401, InvalidCredentialsMessage, None)
  {
  }

  /** A database failure reports the "Could not read user database" message with 500 and no
      cookie; any other failure reports the generic message. */
  lemma ErrorClassification(env: Env, email: string, password: string, e: string, now: nat, sign: Signer)
    requires SecretSet(env) && email != "" && password != ""
    ensures Login(env, Parsed(email, password), Unreadable, now, sign)
            == Response(500, DbErrorMessage(env), None)
    ensures !StartsWith(e, DbErrorPrefix) ==>
              Login(env, Malformed(e), Unreadable, now, sign) == Response(500, GenericLoginErrorMessage, None)
  {
  }

  /** The token login issues lives exactly as long as the cookie carrying it: under the lifetime
      law it verifies with the server's secret at `t` precisely while `t` is within the cookie's
      Max-Age of the login, and then yields the matched user's email and role. */
  lemma TokenLifetimeMatchesCookie(env: Env, email: string, password: string, users: seq<User>,
                                   now: nat, sign: Signer, verify: Verifier, t: nat)
    requires LifetimeLaw(sign, verify)
    requires Login(env, Parsed(email, password), Loaded(users), now, sign).status == 200
    ensures var c := Login(env, Parsed(email, password), Loaded(users), now, sign).setCookie.value;
            && c.expiry == MaxAge(SessionLifetime)
            && (verify(c.value, env.jwtSecret, t).Some? <==> t < now + c.expiry.seconds)
            && (t < now + c.expiry.seconds ==>
                  verify(c.value, env.jwtSecret, t)
                  == Some(Claims(email, Find(users, email).value.role)))
  {
  }
}
