/** `GET /api/me`, the self-check a client uses to learn its own session state. It is public,
    and repeats the gate's checks itself. */
module MeRoute {
  import opened Http
  import opened Jwt
  import Middleware

  /** The JSON body `{ authenticated, user?, message? }` with status and Set-Cookie. */
  datatype MeResponse = MeResponse(
    status: int, authenticated: bool, user: Option<Claims>, message: Option<string>,
    setCookie: Option<Cookie>)

  const SessionInvalidMessage: string := "Invalid or expired session."
  const NotAuthenticatedMessage: string := "Not authenticated. Token not found."

  /** `GET(request)` for a request carrying `jar`, at `now`, with the library's `verify`. */
  function Me(env: Env, jar: Jar, now: nat, verify: Verifier): (r: MeResponse)
    ensures r.authenticated <==> r.status == 200
    ensures r.user.Some? <==> r.status == 200
    ensures r.status == 500 <==> !SecretSet(env)
    ensures r.status == 200 ==>
              && ReadToken(jar, CookieName(env)).Some?
              && r.user == verify(ReadToken(jar, CookieName(env)).value, env.jwtSecret, now)
    ensures r.setCookie.Some? ==> r.status == 401 && r.setCookie.value == ClearingCookie(env)
    ensures r.setCookie.Some? <==>
              && SecretSet(env) && ReadToken(jar, CookieName(env)).Some?
              && verify(ReadToken(jar, CookieName(env)).value, env.jwtSecret, now).None?
    ensures r.status == 401 ==>
              r.message == Some(if r.setCookie.Some? then SessionInvalidMessage else NotAuthenticatedMessage)
    ensures r.status in {200, 401, 500}
  {
    if !SecretSet(env) then
      MeResponse(500, false, None, Some(SecretMissingMessage), None)
    else match ReadToken(jar, CookieName(env))
      case Some(token) =>
        (match verify(token, env.jwtSecret, now)
         case Some(claims) => MeResponse(200, true, Some(Claims(claims.email, claims.role)), None, None)
         case None =>
           MeResponse(401, false, None, Some(SessionInvalidMessage), Some(ClearingCookie(env))))
      case None => MeResponse(401, false, None, Some(NotAuthenticatedMessage), None)
  }

  /** The self-check agrees with the gate on every protected path: it answers 200 exactly when
      the gate lets the request through, otherwise it answers with the gate's status, and it
      sends a clearing cookie exactly when the gate does, with identical attributes. */
  lemma AgreesWithGate(env: Env, path: string, jar: Jar, now: nat, verify: Verifier)
    requires Middleware.IsProtectedApiRoute(path)
    ensures var g := Middleware.Gate(env, path, jar, now, verify);
            var m := Me(env, jar, now, verify);
            && (m.status == 200 <==> g.Next?)
            && (g.Reject? ==> m.status == g.response.status && m.setCookie == g.response.setCookie)
  {
  }
}
