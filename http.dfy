/** What the route handlers share: the process environment they read, cookies as attribute
    records, the browser's cookie jar, JSON message responses, and the outcome of a shell command. */
module Http {

  datatype Option<+T> = None | Some(value: T)

  /** The environment variables the core reads. The empty string stands for "unset": every read
      of them is `!X`, `X || default` or `X === 'production'`, and each of these treats an unset
      variable and "" alike. */
  datatype Env = Env(
    jwtSecret: string,       // JWT_SECRET
    authCookieName: string,  // AUTH_COOKIE_NAME
    nodeEnv: string,         // NODE_ENV
    realm: string,           // REALM
    userDbPath: string)      // USER_DB_PATH

  const DefaultCookieName: string := "admin-auth-token"
  const DefaultUserDbPath: string := "data/users.json"

  /** `!JWT_SECRET` is false. */
  predicate SecretSet(env: Env) {
    env.jwtSecret != ""
  }

  /** `process.env.AUTH_COOKIE_NAME || 'admin-auth-token'`. */
  function CookieName(env: Env): (name: string)
    ensures name != ""
    ensures env.authCookieName != "" ==> name == env.authCookieName
    ensures env.authCookieName == "" ==> name == DefaultCookieName
  {
    if env.authCookieName != "" then env.authCookieName else DefaultCookieName
  }

  /** `process.env.NODE_ENV === 'production'`: decides the Secure attribute. */
  predicate Production(env: Env) {
    env.nodeEnv == "production"
  }

  datatype SameSite = Strict | Lax | NoneSameSite

  /** How a cookie ends: after Max-Age seconds, or at an absolute time (seconds since the epoch). */
  datatype Expiry = MaxAge(seconds: int) | Expires(epochSeconds: int)

  /** A Set-Cookie header as its attributes rather than its text. */
  datatype Cookie = Cookie(
    name: string, value: string,
    httpOnly: bool, secure: bool, path: string, sameSite: SameSite,
    expiry: Expiry)

  /** One day in seconds: the session token's lifetime ('1d') and the session cookie's Max-Age. */
  const SessionLifetime: nat := 60 * 60 * 24

  /** The cookie login sets: the token, HttpOnly, Path=/, SameSite=Strict, Secure only in
      production, Max-Age one day. */
  function SessionCookie(env: Env, token: string): (c: Cookie)
    ensures c.name == CookieName(env) && c.value == token
    ensures c.httpOnly && c.path == "/" && c.sameSite == Strict && (c.secure <==> Production(env))
    ensures c.expiry == MaxAge(86400)
  {
    Cookie(CookieName(env), token, true, Production(env), "/", Strict, MaxAge(SessionLifetime))
  }

  /** The cookie the gate, the self-check and logout send to end a session: same name and
      attributes as the session cookie, empty value, expired at the epoch. */
  function ClearingCookie(env: Env): (c: Cookie)
    ensures c.name == CookieName(env) && c.value == ""
    ensures c.httpOnly && c.path == "/" && c.sameSite == Strict && (c.secure <==> Production(env))
    ensures c.expiry == Expires(0)
  {
    Cookie(CookieName(env), "", true, Production(env), "/", Strict, Expires(0))
  }

  /** The cookies a request carries, by name. */
  type Jar = map<string, string>

  /** The browser storing a Set-Cookie (section 5.3 of RFC 6265): a cookie whose expiry is already
      past, or whose Max-Age is not positive, removes any cookie of that name; otherwise it
      replaces it. */
  function ApplySetCookie(jar: Jar, c: Cookie, now: int): (j: Jar)
    ensures j.Keys - {c.name} == jar.Keys - {c.name}
    ensures forall n :: n in jar && n != c.name ==> n in j && j[n] == jar[n]
    ensures c.name in j <==> match c.expiry
                             case MaxAge(s) => s > 0
                             case Expires(t) => t > now
    ensures c.name in j ==> j[c.name] == c.value
  {
    var expired := match c.expiry
      case MaxAge(s) => s <= 0
      case Expires(t) => t <= now;
    if expired then jar - {c.name} else jar[c.name := c.value]
  }

  /** `request.cookies.get(name)` followed by the `!cookie || !cookie.value` test: the token only
      when the cookie is there and not empty. */
  function ReadToken(jar: Jar, name: string): (t: Option<string>)
    ensures t.None? <==> name !in jar || jar[name] == ""
    ensures t.Some? ==> t.value != "" && t.value == jar[name]
  {
    if name in jar && jar[name] != "" then Some(jar[name]) else None
  }

  /** A JSON body `{ message }` with its status code and at most one Set-Cookie header. */
  datatype Response = Response(status: int, message: string, setCookie: Option<Cookie>)

  /** What a shell command (execSync / exec) does: it completes with its output, or it throws an
      error carrying a message and whatever the process wrote. */
  datatype Exec =
    | Ran(stdout: string, stderr: string)
    | Threw(errorMessage: string, stdout: string, stderr: string)

  /** A route handler's result together with the shell commands it ran, in order. */
  datatype Handled<+R> = Handled(response: R, commands: seq<string>)

  /** The message a route reports when the JWT secret is unset. */
  const SecretMissingMessage: string := "Server configuration error: JWT_SECRET missing."
}
