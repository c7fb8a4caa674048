/** `GET /api/logout`: clear the session cookie, whatever the request carries. */
module LogoutRoute {
  import opened Http
  import Jwt
  import MeRoute
  import Middleware

  const LogoutSuccessMessage: string := "Logout successful"

  /** `GET(request)`. The request's cookies are a parameter only so that the lemmas can state that
      they are never read. The 302 redirect the handler builds first is discarded; the JSON
      response is what it returns. */
  function Logout(env: Env, jar: Jar): (r: Response)
    ensures r.status == 200 && r.message == LogoutSuccessMessage
    ensures r.setCookie.Some? && r.setCookie.value.value == "" && r.setCookie.value.expiry == Expires(0)
    ensures r.setCookie.value.name == CookieName(env)
    ensures r.setCookie == Some(ClearingCookie(env))
  {
    Response(200, LogoutSuccessMessage, Some(ClearingCookie(env)))
  }

  /** Logout does not depend on the session it ends. */
  lemma IndependentOfSession(env: Env, jar1: Jar, jar2: Jar)
    ensures Logout(env, jar1) == Logout(env, jar2)
  {
  }

  /** Once the browser stores logout's cookie, the session cookie is gone: logging out again
      answers the same, and the self-check reports "not authenticated" without clearing anything. */
  lemma LogoutEndsSession(env: Env, jar: Jar, now: nat, verify: Jwt.Verifier)
    requires SecretSet(env)
    ensures var after := ApplySetCookie(jar, Logout(env, jar).setCookie.value, now);
            && CookieName(env) !in after
            && Logout(env, after) == Logout(env, jar)
            && MeRoute.Me(env, after, now, verify)
               == MeRoute.MeResponse(401, false, None, Some(MeRoute.NotAuthenticatedMessage), None)
  {
  }

  /** The clearing header logout sends is the one the gate and the self-check send. */
  lemma SameClearingCookie(env: Env, path: string, jar: Jar, now: nat, verify: Jwt.Verifier)
    requires Middleware.IsProtectedApiRoute(path)
    ensures var g := Middleware.Gate(env, path, jar, now, verify);
            g.Reject? && g.response.setCookie.Some? ==> g.response.setCookie == Logout(env, jar).setCookie
    ensures var m := MeRoute.Me(env, jar, now, verify);
            m.setCookie.Some? ==> m.setCookie == Logout(env, jar).setCookie
  {
  }

  /** After logout's cookie is stored, the protected route answers "token not found" without a
      clearing cookie, and logging out again answers the same. */
  lemma LogoutThenProtectedRoute(env: Env, jar: Jar, path: string, now: nat, verify: Jwt.Verifier)
    requires SecretSet(env) && Middleware.IsProtectedApiRoute(path)
    ensures var after := ApplySetCookie(jar, Logout(env, jar).setCookie.value, now);
            && Middleware.Gate(env, path, after, now, verify)
               == Middleware.Reject(Response(401, Middleware.TokenNotFoundMessage, None))
            && Logout(env, after) == Logout(env, jar)
  {
    LogoutEndsSession(env, jar, now, verify);
  }
}
