/** The mock TURN user store: a module-level list of `{ username, realm }` that `addUser` pushes
    onto and `deleteUser` filters. */
module TurnAdminService {
  import opened Types

  /** Store operations fail by throwing an Error with a message. */
  datatype Result<+T> = Success(value: T) | Failure(error: string)

  const UsernamePasswordRequired: string := "Username and password are required."
  const PasswordTooShort: string := "Password must be at least 6 characters long."
  const MinPasswordLength: nat := 6

  function AlreadyExistsMessage(username: string, realm: string): string {
    "User '" + username + "' already exists in realm '" + realm + "'."
  }

  function NotFoundMessage(username: string, realm: string): string {
    "User '" + username + "' not found in realm '" + realm + "'."
  }

  /** No two entries are the same `(username, realm)` pair. */
  ghost predicate Distinct(users: seq<TurnUser>) {
    forall i, j :: 0 <= i < j < |users| ==> users[i] != users[j]
  }

  /** Some entry is `(username, realm)`. */
  predicate Has(users: seq<TurnUser>, username: string, realm: string) {
    exists i | 0 <= i < |users| :: users[i] == TurnUser(username, realm)
  }

  /** `users.filter(user => !(user.username === username && user.realm === realm))`. */
  function Without(users: seq<TurnUser>, username: string, realm: string): (r: seq<TurnUser>)
    ensures |r| <= |users|
    ensures forall u :: u in r <==> u in users && u != TurnUser(username, realm)
    ensures |r| == |users| <==> !Has(users, username, realm)
  {
    if users == [] then []
    else
      var rest := Without(users[1..], username, realm);
      assert Has(users, username, realm) <==> users[0] == TurnUser(username, realm) || Has(users[1..], username, realm) by {
        if Has(users[1..], username, realm) {
          var i :| 0 <= i < |users[1..]| && users[1..][i] == TurnUser(username, realm);
          assert users[i + 1] == TurnUser(username, realm);
        }
        if Has(users, username, realm) && users[0] != TurnUser(username, realm) {
          var i :| 0 <= i < |users| && users[i] == TurnUser(username, realm);
          assert users[1..][i - 1] == TurnUser(username, realm);
        }
      }
      if users[0] == TurnUser(username, realm) then rest else [users[0]] + rest
  }

  /** Filtering works entry by entry, so it keeps the survivors in their order. */
  lemma {:induction false} WithoutConcat(a: seq<TurnUser>, b: seq<TurnUser>, username: string, realm: string)
    ensures Without(a + b, username, realm) == Without(a, username, realm) + Without(b, username, realm)
  {
    if a != [] {
      WithoutConcat(a[1..], b, username, realm);
      assert (a + b)[0] == a[0];
      assert (a + b)[1..] == a[1..] + b;
    } else {
      assert a + b == b;
    }
  }

  /** Filtering keeps the store free of duplicates. */
  lemma {:induction false} WithoutDistinct(users: seq<TurnUser>, username: string, realm: string)
    requires Distinct(users)
    ensures Distinct(Without(users, username, realm))
  {
    if users != [] {
      WithoutDistinct(users[1..], username, realm);
      assert users[0] !in users[1..];
    }
  }

  /** Adding a user that was not there and then deleting it gives back the store as it was. */
  lemma AddDeleteRoundTrip(users: seq<TurnUser>, username: string, realm: string)
    requires !Has(users, username, realm)
    ensures Without(users + [TurnUser(username, realm)], username, realm) == users
  {
    WithoutConcat(users, [TurnUser(username, realm)], username, realm);
    var w := Without(users, username, realm);
    assert |w| <= |users| && forall u :: u in w <==> u in users;
    WithoutNoMatch(users, username, realm);
  }

  /** Filtering out a pair that is absent changes nothing. */
  lemma {:induction false} WithoutNoMatch(users: seq<TurnUser>, username: string, realm: string)
    requires !Has(users, username, realm)
    ensures Without(users, username, realm) == users
  {
    if users != [] {
      forall i | 0 <= i < |users[1..]| ensures users[1..][i] != TurnUser(username, realm) {
        assert users[1..][i] == users[i + 1];
      }
      WithoutNoMatch(users[1..], username, realm);
      assert users[0] != TurnUser(username, realm);
    }
  }

  /** The three users the store starts with. */
  function InitialUsers(defaultRealm: string): (users: seq<TurnUser>)
    ensures Distinct(users)
  {
    [TurnUser("user1", defaultRealm), TurnUser("testuser", defaultRealm), TurnUser("guest", defaultRealm)]
  }

  /** The store. `defaultRealm` is DEFAULT_REALM, which every added and deleted user belongs to. */
  class MockUserStore {
    const defaultRealm: string
    var users: seq<TurnUser>

    ghost predicate Valid()
      reads this
    {
      Distinct(users)
    }

    constructor (defaultRealm: string)
      ensures this.defaultRealm == defaultRealm
      ensures users == InitialUsers(defaultRealm) && Valid()
    {
      this.defaultRealm := defaultRealm;
      users := InitialUsers(defaultRealm);
    }

    /** `getUsers()`: a copy of the current list; the store is not touched. */
    method GetUsers() returns (r: seq<TurnUser>)
      ensures r == users
    {
      r := users;
    }

    /** `addUser({ username, password })`: the checks in order, then the new entry is pushed. */
    method AddUser(username: string, password: string) returns (r: Result<TurnUser>)
      requires Valid()
      modifies this
      ensures Valid()
      ensures username == "" || password == "" ==>
                r == Failure(UsernamePasswordRequired) && users == old(users)
      ensures username != "" && password != "" && |password| < MinPasswordLength ==>
                r == Failure(PasswordTooShort) && users == old(users)
      ensures username != "" && |password| >= MinPasswordLength && Has(old(users), username, defaultRealm) ==>
                r == Failure(AlreadyExistsMessage(username, defaultRealm)) && users == old(users)
      ensures r.Success? <==>
                username != "" && |password| >= MinPasswordLength && !Has(old(users), username, defaultRealm)
      ensures r.Success? ==>
                r.value == TurnUser(username, defaultRealm) && users == old(users) + [r.value]
    {
      if username == "" || password == "" {
        return Failure(UsernamePasswordRequired);
      }
      if |password| < MinPasswordLength {
        return Failure(PasswordTooShort);
      }
      if Has(users, username, defaultRealm) {
        return Failure(AlreadyExistsMessage(username, defaultRealm));
      }
      var newUser := TurnUser(username, defaultRealm);
      assert newUser !in users;
      users := users + [newUser];
      r := Success(newUser);
    }

    /** `deleteUser(username)`: drop every entry of `(username, defaultRealm)`; report "not found"
        when that dropped nothing, in which case the list is as before. */
    method DeleteUser(username: string) returns (r: Result<()>)
      requires Valid()
      modifies this
      ensures Valid()
      ensures users == Without(old(users), username, defaultRealm)
      ensures !Has(users, username, defaultRealm)
      ensures r.Failure? <==> !Has(old(users), username, defaultRealm)
      ensures r.Failure? ==> r.error == NotFoundMessage(username, defaultRealm) && users == old(users)
    {
      var initialLength := |users|;
      WithoutDistinct(users, username, defaultRealm);
      if !Has(users, username, defaultRealm) {
        WithoutNoMatch(users, username, defaultRealm);
      }
      users := Without(users, username, defaultRealm);
      forall i | 0 <= i < |users| ensures users[i] != TurnUser(username, defaultRealm) {
        assert users[i] in users;
      }
      if |users| == initialLength {
        return Failure(NotFoundMessage(username, defaultRealm));
      }
      r := Success(());
    }
  }

  /** A client of the store: a successful add followed by a delete of the same name leaves the
      store as it found it. */
  method AddThenDelete(store: MockUserStore, username: string, password: string)
    requires store.Valid()
    modifies store
    ensures store.Valid() && store.users == old(store.users)
  {
    var added := store.AddUser(username, password);
    if added.Success? {
      ghost var before := old(store.users);
      AddDeleteRoundTrip(before, username, store.defaultRealm);
      var deleted := store.DeleteUser(username);
      assert deleted.Success?;
    }
  }
}
