/** A session from end to end: the browser stores login's cookie, and the gate and the
    self-check accept it while the token lives and reject it after. */
module SessionScenario {
  import opened Http
  import opened Jwt
  import LoginRoute
  import Middleware
  import MeRoute

  /** The browser's jar right after a successful login at `now`. */
  function JarAfterLogin(env: Env, email: string, password: string, users: seq<LoginRoute.User>,
                         now: nat, sign: Signer): Jar
    requires LoginRoute.Login(env, LoginRoute.Parsed(email, password), LoginRoute.Loaded(users), now, sign).status == 200
  {
    var c := LoginRoute.Login(env, LoginRoute.Parsed(email, password), LoginRoute.Loaded(users), now, sign).setCookie.value;
    ApplySetCookie(map[], c, now)
  }

  /** While the token lives, a protected route lets the stored cookie through and the self-check
      reports the logged-in user; afterwards a client that still sends the stale cookie gets 401
      and a clearing cookie from both. */
  lemma LoginThenProtectedRoute(env: Env, email: string, password: string, users: seq<LoginRoute.User>,
                                now: nat, sign: Signer, verify: Verifier, path: string, t: nat)
    requires LifetimeLaw(sign, verify)
    requires LoginRoute.Login(env, LoginRoute.Parsed(email, password), LoginRoute.Loaded(users), now, sign).status == 200
    requires Middleware.IsProtectedApiRoute(path)
    ensures var jar := JarAfterLogin(env, email, password, users, now, sign);
            var user := LoginRoute.Find(users, email).value;
            && (t < now + SessionLifetime ==>
                  && Middleware.Gate(env, path, jar, t, verify) == Middleware.Next
                  && MeRoute.Me(env, jar, t, verify)
                     == MeRoute.MeResponse(200, true, Some(Claims(email, user.role)), None, None))
            && (t >= now + SessionLifetime ==>
                  && Middleware.Gate(env, path, jar, t, verify)
                     == Middleware.Reject(Response(401, Middleware.TokenInvalidMessage, Some(ClearingCookie(env))))
                  && MeRoute.Me(env, jar, t, verify).status == 401
                  && MeRoute.Me(env, jar, t, verify).setCookie == Some(ClearingCookie(env)))
  {
  }
}
