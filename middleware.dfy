/** The authentication gate run before every `/api/...` route: classify the path, and on a
    protected path demand a session cookie whose token verifies. */
module Middleware {
  import opened Text
  import opened Http
  import opened Jwt

  /** The protected routes, in the source's order. A route ending in '/' matches every path it
      prefixes; any other route matches only itself. */
  const ProtectedApiRoutes: seq<string> := [
    "/api/users",
    "/api/users/",
    "/api/status",
    "/api/logs",
    "/api/start",
    "/api/stop",
    "/api/restart",
    "/api/coturn-check"
  ]

  predicate RouteMatches(route: string, path: string) {
    if EndsWith(route, "/") then StartsWith(path, route) else path == route
  }

  /** `protectedApiRoutes.some(...)`. */
  predicate IsProtectedApiRoute(path: string) {
    exists i | 0 <= i < |ProtectedApiRoutes| :: RouteMatches(ProtectedApiRoutes[i], path)
  }

  /** The routes protected by exact match. */
  const ExactProtected: set<string> := {
    "/api/users", "/api/status", "/api/logs", "/api/start", "/api/stop", "/api/restart",
    "/api/coturn-check"
  }

  /** A path is protected exactly when it is one of the seven exact routes or lies under
      "/api/users/". */
  lemma ProtectedIff(path: string)
    ensures IsProtectedApiRoute(path) <==> path in ExactProtected || StartsWith(path, "/api/users/")
  {
    assert ProtectedApiRoutes[1] == "/api/users/";
    assert EndsWith(ProtectedApiRoutes[1], "/");
    forall i | 0 <= i < |ProtectedApiRoutes| && i != 1
      ensures !EndsWith(ProtectedApiRoutes[i], "/")
      ensures RouteMatches(ProtectedApiRoutes[i], path) <==> path == ProtectedApiRoutes[i]
    {
      var r := ProtectedApiRoutes[i];
      assert r[|r| - 1] != '/';
      assert r[|r| - 1..] == [r[|r| - 1]];
    }
    if path in ExactProtected {
      var i := if path == "/api/users" then 0 else if path == "/api/status" then 2
               else if path == "/api/logs" then 3 else if path == "/api/start" then 4
               else if path == "/api/stop" then 5 else if path == "/api/restart" then 6 else 7;
      assert RouteMatches(ProtectedApiRoutes[i], path);
    }
  }

  /** A trailing slash after an exact route leaves the path public. */
  lemma StatusWithSlashIsPublic()
    ensures !IsProtectedApiRoute("/api/status/")
  {
    ProtectedIff("/api/status/");
    assert "/api/status/"[6] != "/api/users/"[6];
  }

  /** Extra letters after "/api/users" leave the path public. */
  lemma UsersSuffixIsPublic()
    ensures !IsProtectedApiRoute("/api/usersX")
  {
    ProtectedIff("/api/usersX");
    assert "/api/usersX"[10] != "/api/users/"[10];
  }

  /** Every path under "/api/users/" is protected. */
  lemma UsersChildIsProtected(name: string)
    ensures IsProtectedApiRoute("/api/users/" + name)
  {
    ProtectedIff("/api/users/" + name);
    assert ("/api/users/" + name)[..11] == "/api/users/";
  }

  /** The session routes and the service-control route are not in the list. */
  lemma SessionAndControlArePublic(path: string)
    requires path in {"/api/login", "/api/logout", "/api/me", "/api/control"}
    ensures !IsProtectedApiRoute(path)
  {
    ProtectedIff(path);
    assert path[5] != "/api/users/"[5];
    if path in ExactProtected {
      ExactRouteShape(path);
    }
  }

  /** The exact routes differ from one another, and from the public session and control routes,
      in their sixth character or their length. */
  lemma ExactRouteShape(path: string)
    requires path in ExactProtected
    ensures || (path[5] == 'u' && |path| == 10) || (path[5] == 's' && |path| == 11)
            || (path[5] == 'l' && |path| == 9) || (path[5] == 's' && |path| == 10)
            || (path[5] == 's' && |path| == 9) || (path[5] == 'r' && |path| == 12)
            || (path[5] == 'c' && |path| == 17)
  {
  }

  /** The gate's decision: hand the request on to the route, or answer it. */
  datatype Verdict = Next | Reject(response: Response)

  const TokenNotFoundMessage: string := "Authentication required. Token not found."
  const TokenInvalidMessage: string := "Authentication failed. Invalid or expired token."

  /** `middleware(request)` for a request to `path` carrying `jar`, handled at `now` with the
      library's `verify`. Public paths pass untouched; on a protected one the secret is checked
      first, then the cookie, then the token. */
  function Gate(env: Env, path: string, jar: Jar, now: nat, verify: Verifier): (v: Verdict)
    ensures !IsProtectedApiRoute(path) ==> v == Next
    ensures v.Next? && IsProtectedApiRoute(path) ==>
              && SecretSet(env)
              && ReadToken(jar, CookieName(env)).Some?
              && verify(ReadToken(jar, CookieName(env)).value, env.jwtSecret, now).Some?
    ensures v.Reject? ==> IsProtectedApiRoute(path) && v.response.status in {401, 500}
    ensures v.Reject? && v.response.status == 500 <==> IsProtectedApiRoute(path) && !SecretSet(env)
    ensures v.Reject? && v.response.setCookie.Some? ==> v.response.setCookie.value == ClearingCookie(env)
  {
    if !IsProtectedApiRoute(path) then Next
    else if !SecretSet(env) then Reject(Response(500, SecretMissingMessage, None))
    else match ReadToken(jar, CookieName(env))
      case None => Reject(Response(401, TokenNotFoundMessage, None))
      case Some(token) =>
        if verify(token, env.jwtSecret, now).Some? then Next
        else Reject(Response(401, TokenInvalidMessage, Some(ClearingCookie(env))))
  }

  /** A path that is neither an exact protected route nor under `/api/users/` (login, logout, the
      self-check and control among them, by SessionAndControlArePublic) passes through whatever
      the cookies, the secret, the clock or the verifier: the gate fails open. */
  lemma PublicPassesThrough(env: Env, path: string, jar: Jar, now: nat, verify: Verifier)
    requires path !in ExactProtected && !StartsWith(path, "/api/users/")
    ensures Gate(env, path, jar, now, verify) == Next
  {
    ProtectedIff(path);
  }

  /** With the secret unset every protected path answers 500, before any cookie is read: the
      answer is the same for every jar, clock and verifier. */
  lemma SecretCheckedFirst(env: Env, path: string, jar1: Jar, jar2: Jar, now1: nat, now2: nat,
                           verify1: Verifier, verify2: Verifier)
    requires IsProtectedApiRoute(path) && !SecretSet(env)
    ensures Gate(env, path, jar1, now1, verify1) == Gate(env, path, jar2, now2, verify2)
            == Reject(Response(500, SecretMissingMessage, None))
  {
  }

  /** An absent or empty cookie on a protected path gives 401 "Token not found", with no
      Set-Cookie, whatever the verifier says. */
  lemma MissingTokenIs401(env: Env, path: string, jar: Jar, now: nat, verify: Verifier)
    requires IsProtectedApiRoute(path) && SecretSet(env)
    requires CookieName(env) !in jar || jar[CookieName(env)] == ""
    ensures Gate(env, path, jar, now, verify) == Reject(Response(401, TokenNotFoundMessage, None))
  {
  }

  /** A present token that fails verification gives 401 and clears the cookie. */
  lemma InvalidTokenIs401AndClears(env: Env, path: string, jar: Jar, now: nat, verify: Verifier)
    requires IsProtectedApiRoute(path) && SecretSet(env)
    requires CookieName(env) in jar && jar[CookieName(env)] != ""
    requires verify(jar[CookieName(env)], env.jwtSecret, now).None?
    ensures Gate(env, path, jar, now, verify)
            == Reject(Response(401, TokenInvalidMessage, Some(ClearingCookie(env))))
  {
  }

  /** A token that verifies lets the request through; the decoded claims (and so the role) are
      not consulted: any two verifiers that both accept give the same verdict. */
  lemma ValidTokenPasses(env: Env, path: string, jar: Jar, now: nat, verify1: Verifier, verify2: Verifier)
    requires IsProtectedApiRoute(path) && SecretSet(env)
    requires CookieName(env) in jar && jar[CookieName(env)] != ""
    requires verify1(jar[CookieName(env)], env.jwtSecret, now).Some?
    requires verify2(jar[CookieName(env)], env.jwtSecret, now).Some?
    ensures Gate(env, path, jar, now, verify1) == Gate(env, path, jar, now, verify2) == Next
  {
  }

  /** Every request gets exactly one of four outcomes. */
  lemma FourOutcomes(env: Env, path: string, jar: Jar, now: nat, verify: Verifier)
    ensures var v := Gate(env, path, jar, now, verify);
            || v == Next
            || v == Reject(Response(500, SecretMissingMessage, None))
            || v == Reject(Response(401, TokenNotFoundMessage, None))
            || v == Reject(Response(401, TokenInvalidMessage, Some(ClearingCookie(env))))
  {
  }
}
