/** `GET /api/users` lists the TURN users from the admin tool's output; `POST /api/users` adds
    one through the tool, after checking the request. */
module UsersRoute {
  import opened Text
  import opened Http
  import opened Types

  const RealmMissingMessage: string := "Server configuration error: REALM environment variable is not set."
  const ListFailedMessage: string := "Failed to list users."
  const FieldsRequiredMessage: string := "Username and password are required."
  const PasswordTooShortMessage: string := "Password must be at least 6 characters long."
  const MinPasswordLength: nat := 6

  /** The command whose output lists the users, one per line. */
  const ListCommand: string := "turnadmin -L"

  /** `lines.map(u => u.trim())`. */
  function TrimAll(lines: seq<string>): (r: seq<string>)
    ensures |r| == |lines|
    ensures forall i :: 0 <= i < |r| ==> r[i] == Trim(lines[i])
  {
    seq(|lines|, i requires 0 <= i < |lines| => Trim(lines[i]))
  }

  /** `names.filter(u => u.length > 0)`. */
  function NonEmpty(names: seq<string>): (r: seq<string>)
    ensures |r| <= |names|
    ensures forall i :: 0 <= i < |r| ==> r[i] != ""
    ensures forall x :: x in r <==> x in names && x != ""
  {
    if names == [] then []
    else if names[0] == "" then NonEmpty(names[1..])
    else [names[0]] + NonEmpty(names[1..])
  }

  /** One step of the filter: the first name is kept exactly when it is not empty. */
  lemma NonEmptyCons(x: string, names: seq<string>)
    ensures NonEmpty([x] + names) == (if x == "" then [] else [x]) + NonEmpty(names)
  {
    assert ([x] + names)[1..] == names;
  }

  /** The filter works name by name, so it keeps order. */
  lemma {:induction false} NonEmptyConcat(a: seq<string>, b: seq<string>)
    ensures NonEmpty(a + b) == NonEmpty(a) + NonEmpty(b)
  {
    if a == [] {
      assert a + b == b;
    } else {
      assert a + b == [a[0]] + (a[1..] + b);
      assert a == [a[0]] + a[1..];
      NonEmptyConcat(a[1..], b);
      NonEmptyCons(a[0], a[1..] + b);
      NonEmptyCons(a[0], a[1..]);
    }
  }

  /** The usernames in the output of `turnadmin -L`: split into lines, trim each, drop empties. */
  function Usernames(output: string): seq<string> {
    NonEmpty(TrimAll(Split(output, '\n')))
  }

  lemma UsernamesAreTrimmedLines(output: string)
    ensures forall x :: x in Usernames(output) ==> Trimmed(x) && '\n' !in x
  {
    var lines := Split(output, '\n');
    forall k | 0 <= k < |lines| ensures '\n' !in Trim(lines[k]) {
      TrimKeepsAbsent(lines[k], '\n');
    }
  }

  /** `usernames.map(username => ({ username, realm: REALM }))` over the parsed output. No entry
      is empty or padded with white space, none spans two lines, there are no more entries than
      lines, and all carry the configured realm. */
  function ParseListing(output: string, realm: string): (r: seq<TurnUser>)
    ensures |r| <= |Split(output, '\n')|
    ensures forall i :: 0 <= i < |r| ==>
              && r[i].realm == realm && r[i].username != ""
              && Trimmed(r[i].username) && '\n' !in r[i].username
  {
    var names := Usernames(output);
    UsernamesAreTrimmedLines(output);
    seq(|names|, i requires 0 <= i < |names| => TurnUser(names[i], realm))
  }

  lemma TrimAllConcat(a: seq<string>, b: seq<string>)
    ensures TrimAll(a + b) == TrimAll(a) + TrimAll(b)
  {
  }

  lemma UsernamesConcat(a: string, b: string)
    ensures Usernames(a + "\n" + b) == Usernames(a) + Usernames(b)
  {
    SplitConcat(a, b, '\n');
    assert a + "\n" + b == a + ['\n'] + b;
    var la, lb := Split(a, '\n'), Split(b, '\n');
    TrimAllConcat(la, lb);
    NonEmptyConcat(TrimAll(la), TrimAll(lb));
  }

  /** The listing keeps line order: the listing of two blocks of lines is the listing of the
      first followed by that of the second. */
  lemma ListingConcat(a: string, b: string, realm: string)
    ensures ParseListing(a + "\n" + b, realm) == ParseListing(a, realm) + ParseListing(b, realm)
  {
    UsernamesConcat(a, b);
    var na, nb := Usernames(a), Usernames(b);
    var l := ParseListing(a + "\n" + b, realm);
    assert |l| == |na| + |nb|;
    forall i | 0 <= i < |l| ensures l[i] == (ParseListing(a, realm) + ParseListing(b, realm))[i] {
      assert l[i] == TurnUser((na + nb)[i], realm);
    }
  }

  /** A single line lists its trimmed text, or nothing when it is blank. */
  lemma ListingOfOneLine(line: string, realm: string)
    requires '\n' !in line
    ensures ParseListing(line, realm)
            == if Trim(line) == "" then [] else [TurnUser(Trim(line), realm)]
  {
    SplitNoSeparator(line, '\n');
    assert TrimAll([line]) == [Trim(line)];
  }

  /** What `GET /api/users` answers: the listing, or an error with its status. */
  datatype ListResponse = Listed(users: seq<TurnUser>) | ListFailed(status: int, message: string)

  /** `GET()`, with `exec` standing for `execSync`. */
  function ListUsers(env: Env, exec: string -> Exec): (h: Handled<ListResponse>)
    ensures env.realm == "" ==> h == Handled(ListFailed(500, RealmMissingMessage), [])
    ensures env.realm != "" ==> h.commands == [ListCommand]
    ensures h.response.Listed? <==> env.realm != "" && exec(ListCommand).Ran?
    ensures h.response.Listed? ==> h.response.users == ParseListing(exec(ListCommand).stdout, env.realm)
    ensures h.response.ListFailed? ==> h.response.status == 500
  {
    if env.realm == "" then Handled(ListFailed(500, RealmMissingMessage), [])
    else match exec(ListCommand)
      case Ran(stdout, _) => Handled(Listed(ParseListing(stdout, env.realm)), [ListCommand])
      case Threw(_, _, _) => Handled(ListFailed(500, ListFailedMessage), [ListCommand])
  }

  /** A field of the body `request.json()` gives `POST`, as the handler uses it: a string ("" also
      standing for an absent field), or any other JSON value, given by what the handler does with
      it: whether it is truthy, whether `value.length < 6` holds (for a number `undefined < 6`,
      which is false), and the text it becomes inside a template literal. */
  datatype JsonField = Text(s: string) | NonText(truthy: bool, lengthBelowMin: bool, shown: string)

  /** `!!value`. */
  predicate Truthy(v: JsonField) {
    match v
    case Text(s) => s != ""
    case NonText(truthy, _, _) => truthy
  }

  /** `value.length < 6`. */
  predicate TooShort(v: JsonField) {
    match v
    case Text(s) => |s| < MinPasswordLength
    case NonText(_, lengthBelowMin, _) => lengthBelowMin
  }

  /** `${value}`. */
  function Shown(v: JsonField): string {
    match v
    case Text(s) => s
    case NonText(_, _, shown) => shown
  }

  /** What `request.json()` gives `POST`: the two fields, or a parse error. */
  datatype AddBody = AddFields(username: JsonField, password: JsonField) | AddMalformed

  function AddCommand(username: string, password: string, realm: string): string {
    "turnadmin -a -u \"" + username + "\" -p \"" + password + "\" -r \"" + realm + "\" -k"
  }

  function AddedMessage(username: string, realm: string): string {
    "User '" + username + "' added successfully to realm '" + realm + "'."
  }

  function ExistsMessage(username: string, realm: string): string {
    "User '" + username + "' already exists in realm '" + realm + "'."
  }

  /** The `catch` block, given the username read from the body (`Text("")` when none was read)
      and the failed command's stderr ("" when there is none). */
  function AddFailure(username: JsonField, stderr: string, realm: string): (r: Response)
    ensures r.setCookie.None? && r.status in {409, 500}
    ensures r.status == 409 <==> Truthy(username) && Contains(stderr, "already exists")
    ensures r.status == 409 ==> r.message == ExistsMessage(Shown(username), realm)
    ensures r.status == 500 && !Truthy(username) ==> r.message == "Failed to add user."
  {
    assert Contains(stderr, "user already exists") ==> Contains(stderr, "already exists") by {
      if Contains(stderr, "user already exists") {
        assert "user " + "already exists" == "user already exists";
        ContainsTail(stderr, "user ", "already exists");
      }
    }
    if Truthy(username) && stderr != ""
       && (Contains(stderr, "user already exists") || Contains(stderr, "already exists"))
    then Response(409, ExistsMessage(Shown(username), realm), None)
    else
      var message := if Truthy(username) then "Failed to add user '" + Shown(username) + "'." else "Failed to add user.";
      Response(500, message, None)
  }

  /** `POST(request)`, with `exec` standing for `execSync`. The add command runs only after the
      realm and both fields have been checked; the length check binds only values whose `length`
      compares below 6. */
  function AddUser(env: Env, body: AddBody, exec: string -> Exec): (h: Handled<Response>)
    ensures h.response.status in {201, 400, 409, 500} && h.response.setCookie.None?
    ensures h.commands != [] <==>
              && env.realm != "" && body.AddFields?
              && Truthy(body.username) && Truthy(body.password) && !TooShort(body.password)
    ensures h.commands != [] ==>
              h.commands == [AddCommand(Shown(body.username), Shown(body.password), env.realm)]
    ensures h.response.status == 400 <==>
              && env.realm != "" && body.AddFields?
              && (!Truthy(body.username) || !Truthy(body.password) || TooShort(body.password))
    ensures h.response.status == 201 <==> h.commands != [] && exec(h.commands[0]).Ran?
    ensures h.response.status == 201 ==> h.response.message == AddedMessage(Shown(body.username), env.realm)
    ensures h.response.status == 409 <==>
              h.commands != [] && exec(h.commands[0]).Threw? && Contains(exec(h.commands[0]).stderr, "already exists")
  {
    if env.realm == "" then Handled(Response(500, RealmMissingMessage, None), [])
    else match body
      case AddMalformed => Handled(AddFailure(Text(""), "", env.realm), [])
      case AddFields(username, password) =>
        if !Truthy(username) || !Truthy(password) then Handled(Response(400, FieldsRequiredMessage, None), [])
        else if TooShort(password) then Handled(Response(400, PasswordTooShortMessage, None), [])
        else
          var command := AddCommand(Shown(username), Shown(password), env.realm);
          match exec(command)
          case Ran(_, _) => Handled(Response(201, AddedMessage(Shown(username), env.realm), None), [command])
          case Threw(_, _, stderr) => Handled(AddFailure(username, stderr, env.realm), [command])
  }

  /** The length check binds strings only: the string "12" is refused as too short, while the
      number 12 (whose `length` is undefined) reaches the add command as the password "12". */
  lemma NumericPasswordSkipsLengthCheck(env: Env, username: string, exec: string -> Exec)
    requires env.realm != "" && username != ""
    ensures AddUser(env, AddFields(Text(username), Text("12")), exec).response
            == Response(400, PasswordTooShortMessage, None)
    ensures AddUser(env, AddFields(Text(username), NonText(true, false, "12")), exec).commands
            == [AddCommand(username, "12", env.realm)]
  {
  }

  /** An unset realm gives 500 for both handlers before anything else happens: no command runs. */
  lemma RealmCheckedFirst(env: Env, body: AddBody, exec: string -> Exec)
    requires env.realm == ""
    ensures ListUsers(env, exec) == Handled(ListFailed(500, RealmMissingMessage), [])
    ensures AddUser(env, body, exec) == Handled(Response(500, RealmMissingMessage, None), [])
  {
  }

  /** The length check comes only after both fields are present: a missing field is reported as
      such even when the password is short. */
  lemma MissingFieldReportedBeforeLength(env: Env, username: JsonField, password: JsonField, exec: string -> Exec)
    requires env.realm != "" && (!Truthy(username) || !Truthy(password))
    ensures AddUser(env, AddFields(username, password), exec).response
            == Response(400, FieldsRequiredMessage, None)
  {
  }
}
