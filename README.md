# turn-management: the request-decision core, in Dafny

turn-management is a small Next.js admin panel for a coturn TURN server. This project models the
part of it that decides what each request gets:

- the authentication gate that runs before every `/api/...` route (`middleware.ts`): which paths
  are protected, and for those, the 500 / 401 / 401-and-clear / pass-through verdict;
- the session endpoints: login (a first-match lookup in the user database, a plain-text password
  comparison, a signed one-day token in a one-day cookie), the self-check `/api/me`, and logout;
- the mock TURN user store (`services/turnAdminService.ts`), a module-level list that `addUser`
  pushes onto and `deleteUser` filters, modelled as a class with a `seq` field;
- the users route (parsing `turnadmin -L` output; validating an add and classifying its failure
  as 409 or 500), the service-control route (an action whitelist), and the coturn check (a version
  extracted with the regular expression `/version\s*([\d\w.-]+(?:'[^']+')?)/i`, then a decision
  over the outcomes of `turnserver -V` and `which turnserver`).

What stands in for the world:

- The environment is an `Http.Env` record, where "" means unset. The source reads every variable
  as `!X`, `X || default` or (NODE_ENV) `X === 'production'`, and each of these treats both cases
  alike.
- `jwt.sign` and `jwt.verify` are function parameters (`Jwt.Signer`, `Jwt.Verifier`).
  - The one property the routes rely on is `Jwt.LifetimeLaw`: a signed token is not empty, and it
    verifies under the same secret, giving back exactly the signed claims, until 86400 seconds
    after it was signed.
  - The lemmas that need this law take it as a precondition.
  - `Jwt.ReferenceCodecObeysLifetimeLaw` shows that some pair of functions meets it.
- A shell command is an oracle `exec: string -> Exec`. Its outcome is either `Ran(stdout, stderr)`
  or `Threw(message, stdout, stderr)`. A handler returns its response together with the commands
  it ran (`Http.Handled`).
- A Set-Cookie header is an attribute record (`Http.Cookie`).
- The browser's cookie store is a map. `Http.ApplySetCookie` stores a cookie as section 5.3 of
  RFC 6265 describes: a cookie that has already expired deletes the stored one.

Modules: `Text` (trim, split, substring search with ECMAScript white space), `Http`, `Jwt`,
`Types`, `Middleware`, `LoginRoute`, `MeRoute`, `LogoutRoute`, `TurnAdminService`, `UsersRoute`,
`ControlRoute`, `CoturnCheckRoute`, and `SessionScenario`. The last one strings login, the gate
and the self-check together over the browser's cookie store.

## Model

| member | source | states |
|---|---|---|
| Text.Trim | app/api/users/route.ts:18 | `trim()`: the result has no white space (ECMAScript WhiteSpace and LineTerminator) at either end, and the input is the result with only white space added before and after it |
| Text.TrimKeepsAbsent | app/api/users/route.ts:18 | trimming never introduces a character, in particular no line break |
| Text.TrimIdentity | app/api/coturn-check/route.ts:22 | trimming a string that has no white space at either end gives it back unchanged |
| Text.Split | app/api/users/route.ts:18 | `split('\n')` yields at least one piece and no piece contains the separator |
| Text.JoinSplit | app/api/users/route.ts:18 | joining the pieces with the separator gives back the input, so splitting loses nothing |
| Text.SplitNoSeparator | app/api/users/route.ts:18 | a string without the separator splits into itself alone |
| Text.SplitConcat | app/api/users/route.ts:18 | splitting `a + sep + b` gives the pieces of `a` followed by the pieces of `b` |
| Text.ContainsTail | app/api/users/route.ts:53 | a string containing `p + q` contains `q`, so "user already exists" in stderr implies "already exists" |
| Http.CookieName | middleware.ts:7 | the cookie name is AUTH_COOKIE_NAME when set and "admin-auth-token" otherwise, and is never empty |
| Http.SessionCookie | app/api/login/route.ts:54-60 | the session cookie carries the token, with HttpOnly, Path=/, SameSite=Strict, Secure exactly in production, and Max-Age 86400 |
| Http.ClearingCookie | middleware.ts:62-68 | the clearing cookie has the same name and attributes, an empty value, and Expires at the epoch |
| Http.ApplySetCookie | app/api/logout/route.ts:11 | storing a cookie leaves every other name untouched; the name is kept, with the new value, exactly when Max-Age is positive or Expires is still ahead |
| Http.ReadToken | middleware.ts:47-51 | the token is present exactly when the cookie exists and its value is not empty, and then it is that value |
| Jwt.ReferenceCodecObeysLifetimeLaw | app/api/login/route.ts:52 | a sign/verify pair exists that obeys the one-day lifetime law, so the lemmas that require the law are not vacuous |
| Middleware.ProtectedIff | middleware.ts:11-38 | a path is protected exactly when it is one of the seven exact routes or starts with "/api/users/" |
| Middleware.StatusWithSlashIsPublic | middleware.ts:34-37 | "/api/status/" is public, because exact routes match only themselves |
| Middleware.UsersSuffixIsPublic | middleware.ts:34-37 | "/api/usersX" is public |
| Middleware.UsersChildIsProtected | middleware.ts:13 | every path under "/api/users/" is protected |
| Middleware.SessionAndControlArePublic | middleware.ts:16-24 | /api/login, /api/logout, /api/me and /api/control are not protected |
| Middleware.Gate | middleware.ts:27-81 | public paths pass; passing a protected path needs the secret, a non-empty cookie, and a token that verifies; a rejection is 401 or 500; 500 happens exactly when the path is protected and the secret is unset; the only cookie ever sent is the clearing cookie |
| Middleware.PublicPassesThrough | middleware.ts:77-80 | every path that is neither an exact protected route nor under `/api/users/` passes whatever the cookie, the secret, the clock or the verifier (the gate fails open) |
| Middleware.SecretCheckedFirst | middleware.ts:41-45 | with the secret unset, a protected path gives 500 whatever the cookie, clock and verifier |
| Middleware.MissingTokenIs401 | middleware.ts:47-51 | an absent or empty cookie gives 401 "Token not found" with no Set-Cookie |
| Middleware.InvalidTokenIs401AndClears | middleware.ts:57-73 | a token that fails verification gives 401 with the clearing cookie |
| Middleware.ValidTokenPasses | middleware.ts:53-56 | a token that verifies passes, and the verdict does not depend on the decoded claims |
| Middleware.FourOutcomes | middleware.ts:27-81 | every request gets exactly one of: pass, 500, 401, or 401 with the clearing cookie |
| LoginRoute.DbErrorMessage | app/api/login/route.ts:28 | the database failure message starts with "Could not read user database" |
| LoginRoute.Find | app/api/login/route.ts:47 | `find` gives nothing exactly when no user has the email; otherwise it gives a listed user with that email |
| LoginRoute.FindIsFirst | app/api/login/route.ts:47 | the user found is the first one with the email |
| LoginRoute.CatchResponse | app/api/login/route.ts:69-75 | a thrown error gives 500 with no cookie; the message is the error's own when it starts with the database prefix, and the generic one otherwise |
| LoginRoute.Login | app/api/login/route.ts:32-76 | the status is 200, 400, 401 or 500; a cookie is set exactly on 200; 200 happens exactly when the secret is set, both fields are present, the database loads, and the first user with the email has that password; its message is "Login successful"; the cookie is the session cookie holding the token signed over that user's email and role |
| LoginRoute.SecretCheckedFirst | app/api/login/route.ts:33-36 | with the secret unset, the answer is 500 whatever the body and the database |
| LoginRoute.FieldsCheckedBeforeLookup | app/api/login/route.ts:42-44 | a missing field gives 400 whatever the database holds |
| LoginRoute.NoAccountEnumeration | app/api/login/route.ts:47-67 | a wrong password and an unknown email get the identical 401 "Invalid email or password" with no cookie |
| LoginRoute.ErrorClassification | app/api/login/route.ts:69-75 | an unreadable database gives 500 with the database message; any other error gives 500 with the generic message |
| LoginRoute.TokenLifetimeMatchesCookie | app/api/login/route.ts:52-57 | under the lifetime law, the issued token verifies exactly while the cookie's Max-Age of 86400 has not run out, and it yields the user's email and role |
| MeRoute.Me | app/api/me/route.ts:9-42 | 500 exactly when the secret is unset; `authenticated` and `user` are present exactly on 200; 200 needs a present token and returns the verified claims; the clearing cookie is sent exactly when a present token fails verification; each 401 carries its message |
| MeRoute.AgreesWithGate | app/api/me/route.ts:15-41 | on any protected path, the self-check answers 200 exactly when the gate passes, and otherwise answers with the gate's status and the gate's Set-Cookie |
| LogoutRoute.Logout | app/api/logout/route.ts:7-31 | the answer is always 200 "Logout successful" with the clearing cookie (`Http.ClearingCookie`: same name, HttpOnly, Path=/, SameSite=Strict, Secure only in production), empty and expired at the epoch; the redirect built first is not what is returned |
| LogoutRoute.IndependentOfSession | app/api/logout/route.ts:7-31 | the answer does not depend on the cookies the request carries |
| LogoutRoute.LogoutEndsSession | app/api/logout/route.ts:8-14 | once the browser stores the logout cookie, the session cookie is gone, logging out again answers the same, and the self-check answers 401 "not authenticated" with nothing to clear |
| LogoutRoute.SameClearingCookie | app/api/logout/route.ts:8-14 | logout's clearing cookie is the one the gate and the self-check send |
| TurnAdminService.Without | services/turnAdminService.ts:46 | the filter keeps exactly the entries other than `(username, realm)`, and shortens the list exactly when such an entry is present |
| TurnAdminService.WithoutConcat | services/turnAdminService.ts:46 | filtering works entry by entry, so the survivors stay in order |
| TurnAdminService.WithoutDistinct | services/turnAdminService.ts:46 | filtering preserves the no-duplicates invariant |
| TurnAdminService.WithoutNoMatch | services/turnAdminService.ts:46-49 | filtering out an absent pair leaves the list unchanged |
| TurnAdminService.AddDeleteRoundTrip | services/turnAdminService.ts:37-46 | appending an absent pair and then filtering it out gives back the original list |
| TurnAdminService.InitialUsers | services/turnAdminService.ts:5-9 | the three initial users are distinct |
| TurnAdminService.MockUserStore.constructor | services/turnAdminService.ts:5-9 | the store starts with user1, testuser and guest in the default realm, with no duplicates |
| TurnAdminService.MockUserStore.GetUsers | services/turnAdminService.ts:14-20 | `getUsers` returns the current list and changes nothing |
| TurnAdminService.MockUserStore.AddUser | services/turnAdminService.ts:22-40 | a missing field fails first, then a password shorter than 6, then an existing pair, each leaving the list unchanged; otherwise the new pair is appended and returned; the list stays free of duplicates |
| TurnAdminService.MockUserStore.DeleteUser | services/turnAdminService.ts:42-50 | the list becomes the filtered list, with no entry of the pair left; "not found" is raised exactly when nothing was removed, and then the list is unchanged |
| TurnAdminService.AddThenDelete | services/turnAdminService.ts:37-49 | an add followed by a delete of the same name leaves the store as it was |
| UsersRoute.TrimAll | app/api/users/route.ts:18 | `map(u => u.trim())` trims every line, keeping the count and the order |
| UsersRoute.NonEmpty | app/api/users/route.ts:18 | `filter(u => u.length > 0)`: an entry is kept exactly when it is in the input and not empty; with NonEmptyConcat, order is kept |
| UsersRoute.NonEmptyConcat | app/api/users/route.ts:18 | the filter distributes over concatenation, so it keeps order |
| UsersRoute.UsernamesAreTrimmedLines | app/api/users/route.ts:18 | every parsed username is trimmed and spans one line |
| UsersRoute.ParseListing | app/api/users/route.ts:18-20 | there are no more entries than lines; each entry is non-empty, trimmed, and on one line, and carries the configured realm |
| UsersRoute.TrimAllConcat | app/api/users/route.ts:18 | trimming every line distributes over concatenation |
| UsersRoute.UsernamesConcat | app/api/users/route.ts:18 | the usernames of two blocks joined by a line break are those of the first block followed by those of the second |
| UsersRoute.ListingConcat | app/api/users/route.ts:18-20 | the listing keeps line order: two blocks of lines list as the first block's entries followed by the second's |
| UsersRoute.ListingOfOneLine | app/api/users/route.ts:18-20 | a single line lists its trimmed text, or nothing when it is blank |
| UsersRoute.ListUsers | app/api/users/route.ts:9-26 | an unset realm gives 500 and runs nothing; otherwise `turnadmin -L` runs, and its output is parsed exactly when it does not throw |
| UsersRoute.AddFailure | app/api/users/route.ts:50-58 | a failed add gives 409 exactly when a truthy username was read and stderr contains "already exists", naming the user and realm, and 500 otherwise, with "Failed to add user." when no username was read |
| UsersRoute.AddUser | app/api/users/route.ts:28-59 | the fields are any JSON values; the add command runs exactly when the realm is set, both fields are truthy and `password.length < 6` does not hold (a number's `length` is undefined, so a numeric password skips the length check); it is the command for the fields' template-literal texts; 400 happens exactly when a field is falsy or `password.length < 6` holds; 201 happens exactly when the command succeeds; 409 happens exactly when it fails with "already exists" |
| UsersRoute.RealmCheckedFirst | app/api/users/route.ts:10-13 | with the realm unset, both GET and POST answer 500 and run nothing |
| UsersRoute.MissingFieldReportedBeforeLength | app/api/users/route.ts:41-46 | a missing (falsy) field is reported as such even when the password is also short |
| UsersRoute.NumericPasswordSkipsLengthCheck | app/api/users/route.ts:41-48 | the string password "12" is refused as too short, while the number 12 passes both checks and the add command runs with the password "12" |
| ControlRoute.FailureMessage | app/api/control/route.ts:23 | the failure message names the action, or "control" when no action was read |
| ControlRoute.Control | app/api/control/route.ts:7-25 | a command runs exactly when the action is start, stop or restart, and it is `sudo systemctl <action> coturn`; 400 happens exactly for a missing or other action; 200 happens exactly when the command succeeds, and carries the "<action>ed successfully" message; 500 carries the failure message |
| ControlRoute.OnlyWhitelistedCommands | app/api/control/route.ts:13-17 | no command other than the three systemctl commands can ever run |
| ControlRoute.RejectedActionRunsNothing | app/api/control/route.ts:13-15 | a rejected action runs nothing, and its answer does not depend on the commands |
| CoturnCheckRoute.SkipSpace | app/api/coturn-check/route.ts:19 | `\s*` stops at the first character that is not white space |
| CoturnCheckRoute.RunEnd | app/api/coturn-check/route.ts:19 | `[\d\w.-]*` is greedy and stops at the first character outside the class |
| CoturnCheckRoute.NextQuote | app/api/coturn-check/route.ts:19 | `[^']+'` ends at the first quote |
| CoturnCheckRoute.MatchAt | app/api/coturn-check/route.ts:19 | a match at a position needs "version" there in any letter case; the capture is non-empty, starts with a version character, and ends with a version character or a quote |
| CoturnCheckRoute.MatchIsTrimmed | app/api/coturn-check/route.ts:19-22 | a capture has no white space at either end |
| CoturnCheckRoute.Scan | app/api/coturn-check/route.ts:19 | any capture the scan returns is non-empty and trimmed |
| CoturnCheckRoute.ExtractVersion | app/api/coturn-check/route.ts:19 | the extracted version is non-empty and trimmed |
| CoturnCheckRoute.ScanIsLeftmost | app/api/coturn-check/route.ts:19 | the scan returns the capture at the leftmost position where the pattern matches |
| CoturnCheckRoute.ScanNone | app/api/coturn-check/route.ts:19 | the scan finds nothing exactly when the pattern matches at no position |
| CoturnCheckRoute.ScanSkips | app/api/coturn-check/route.ts:19 | positions where "version" does not start are skipped |
| CoturnCheckRoute.VersionTrimIsIdentity | app/api/coturn-check/route.ts:21-22 | the `trim()` applied to the captured version changes nothing |
| CoturnCheckRoute.PlainVersionExample | app/api/coturn-check/route.ts:17 | "turnserver version 4.6.2" yields "4.6.2" |
| CoturnCheckRoute.BannerVersionExample | app/api/coturn-check/route.ts:16 | "Coturn TURN Server version 4.5.2 'dan Eider'" yields "4.5.2", because a space comes before the quote |
| CoturnCheckRoute.QuotedNameExample | app/api/coturn-check/route.ts:19 | a quoted name glued to the number is captured, quotes included |
| CoturnCheckRoute.EmptyQuotesExample | app/api/coturn-check/route.ts:19 | empty quotes are not captured, because `[^']+` needs a character |
| CoturnCheckRoute.FirstLine | app/api/coturn-check/route.ts:28 | the first line of the trimmed output contains no line break |
| CoturnCheckRoute.VersionOutput | app/api/coturn-check/route.ts:12 | stderr is inspected when it is non-empty, and stdout otherwise |
| CoturnCheckRoute.CoturnCheck | app/api/coturn-check/route.ts:7-68 | `which` runs only after `-V` throws. Installed is true exactly when `-V` gives non-empty output, or when `-V` throws and `which` prints a non-blank path. A version is reported exactly when installed, and a message exactly when not. Non-empty output with a match reports the capture; without a match it reports "Unknown (installed)" with the first line of the output |
| CoturnCheckRoute.BlankWhichOutputIsNotFound | app/api/coturn-check/route.ts:45 | a `which` output made only of white space counts as not found |
| SessionScenario.LoginThenProtectedRoute | app/api/login/route.ts:52-65 | after the browser stores login's cookie, a protected route passes and the self-check reports the user while the token lives; afterwards the stale cookie gets 401 and the clearing cookie from both |
| LogoutRoute.LogoutThenProtectedRoute | app/api/logout/route.ts:8-31 | after the browser stores logout's cookie, a protected route answers "token not found" without clearing, and logging out again answers the same |

## Left out

- The jsonwebtoken library's internals (signature computation, base64url, `iat`/`exp` claims).
  Signing and verification are parameters. What the routes need of them is stated as `Jwt.LifetimeLaw`
  and required by the lemmas that use it. Unforgeability and detection of altered tokens are
  cryptographic properties, which the model does not prove.
- The text of Set-Cookie headers as `cookie.serialize` writes them: a cookie is a record of its attributes.
- Reading and parsing `users.json`. The database is an input, either a list of users or
  `Unreadable`.
- Login: JSON field values that are not strings (a number, an object) are not modelled; `email` and
  `password` are strings, "" when absent.
- Login: a `users.json` holding valid JSON that is not a list of users is not modelled.
- Process invocation. Each command's outcome comes from the `exec` oracle; the model does not
  capture exit codes, timeouts, or the `toString()` of the output buffer.
- The `error` and `stderr` fields that the users and control routes add to their 500 bodies, and all
  console logging.
- UsersRoute.AddUser: a non-string JSON field is given by its truthiness, whether its `length` compares below 6 and its template-literal text; the model does not derive these from the JSON value itself.
- UsersRoute.AddUser: shell quoting of the username and password inside the add command is not
  modelled (the command is the string the template builds).
- The start, stop, restart and status routes. They are thin shell wrappers outside this model, and
  so is the DELETE handler under `app/api/users/[username]/route.ts`.
- The 500 ms `simulateDelay` of the mock store and every other asynchronous delay: store operations
  are synchronous methods. Interleaving of concurrent requests against the module-level list is
  not modelled.
- `constants.ts` is not part of this model. DEFAULT_REALM is the store's constructor parameter.
- The Next.js matcher (`/api/:path*`): the gate is applied to whatever path it is given.
- The React pages, components and hooks.
- String lengths are counted in characters, not UTF-16 code units, so `password.length` may differ
  from the model for characters outside the Basic Multilingual Plane.
- The white-space set is the fixed list of ECMAScript WhiteSpace and LineTerminator characters
  (the Unicode Zs category as of Unicode 15); characters added to Zs by later Unicode versions are
  not tracked.
- The browser's own expiry of a stored cookie once its Max-Age runs out is not modelled:
  `Http.ApplySetCookie` acts when a header is received, and the scenario considers a client that
  keeps sending the stale cookie.
