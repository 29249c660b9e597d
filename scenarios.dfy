/** End-to-end runs of the credential store and the middlewares together:
    registration with the first-user bootstrap, a refused duplicate, and a
    token issued before a promotion that the admin gate then lets through,
    because the middleware takes the role from the store. */
module Scenarios {
  import opened Results
  import opened Models
  import opened UserService
  import opened Middleware

  /** The first registered user is the admin with id 1, the second an
      ordinary user with id 2, and a repeated name is refused and leaves the
      store as it was. */
  method RegisterTwo(bcrypt: Bcrypt, salt: nat)
    returns (store: UserStore, alice: Result<User>, bob: Result<User>, again: Result<User>)
    requires forall password, s :: bcrypt.generate(password, s).Ok?
    ensures fresh(store) && store.Valid() && store.nextUserID == 3
    ensures alice.Ok? && alice.value.id == 1 && alice.value.username == "alice" && alice.value.role == RoleAdmin
    ensures bob.Ok? && bob.value.id == 2 && bob.value.username == "bob" && bob.value.role == RoleUser
    ensures again == Err(UsernameExists)
    ensures store.users == map[1 := alice.value, 2 := bob.value]
  {
    store := new UserStore(bcrypt);
    alice := store.CreateUser("alice", "alice-password", salt);
    assert store.users == map[1 := alice.value];
    assert !HasUsername(store.users, "bob");
    bob := store.CreateUser("bob", "bob-password", salt);
    assert store.users == map[1 := alice.value, 2 := bob.value];
    assert HasUsername(store.users, "alice") by {
      assert store.users[1].username == "alice";
    }
    again := store.CreateUser("alice", "another-password", salt);
  }

  /** Registration followed by a login with the same password gives back
      the registered user, whenever the hashing library accepts its own
      hashes; a registration fails only on a taken name or a hashing error. */
  method RegisterThenLogin(store: UserStore, username: string, password: string, salt: nat)
    returns (created: Result<User>, login: Result<User>)
    requires store.Valid() && Sound(store.bcrypt)
    modifies store
    ensures store.Valid()
    ensures created.Err? <==>
      HasUsername(old(store.users), username) || store.bcrypt.generate(password, salt).Err?
    ensures created.Ok? ==> login == created
  {
    created := store.CreateUser(username, password, salt);
    login := store.Authenticate(username, password);
    if created.Ok? {
      var id := created.value.id;
      assert store.users[id] == created.value;
    }
  }

  /** One request carrying `header` through `AuthMiddleware` and then the
      admin-only `RequireRole` gate: the middleware's rejection, or the role
      check of the user it stored. */
  method AdminRequest(store: UserStore, header: string, env: Env, now: int, parse: Parser)
    returns (aborted: Option<(int, string)>)
    requires store.Valid()
    ensures aborted == match Authorize(header, GetSecret(env), now, parse, store.users)
      case Reject(status, message) => Some((status, message))
      case Proceed(user) => RoleCheck(Some(user), {RoleAdmin})
  {
    var admins := RequireRole([RoleAdmin]);
    assert admins == {RoleAdmin};
    var c := new Context(header);
    AuthMiddleware(c, store, env, now, parse);
    if c.aborted.None? {
      RoleGate(c, admins);
    }
    aborted := c.aborted;
  }

  /** A request with the token issued to `u` at `now`, sent at that same
      moment to an admin-only route, is judged on the role the store holds
      for `u` now, not on the role in the token. */
  method AdminRequestWithToken(store: UserStore, u: User, env: Env, now: int, sign: Signer, parse: Parser)
    returns (aborted: Option<(int, string)>)
    requires store.Valid() && u.id in store.users
    requires ParsesSigned(sign, parse) && TokenFromUser(u, env, now, sign).Ok?
    ensures aborted == RoleCheck(Some(store.users[u.id]), {RoleAdmin})
  {
    var header := "Bearer " + TokenFromUser(u, env, now, sign).value;
    TokenFromUserLifetime(u, env, now);
    IssuedTokenAuthorizes(u, env, now, now, sign, parse, store.users);
    aborted := AdminRequest(store, header, env, now, parse);
  }

  /** Bob's token, issued while Bob is an ordinary user, is refused by the
      admin-only gate; once the store promotes Bob, the very same token
      passes it, although its claims still carry the role "user". */
  method StaleTokenAfterPromotion(bcrypt: Bcrypt, salt: nat, env: Env, now: int, sign: Signer, parse: Parser)
    returns (before: Option<(int, string)>, after: Option<(int, string)>)
    requires forall password, s :: bcrypt.generate(password, s).Ok?
    requires forall c, secret :: sign(c, secret).Ok?
    requires ParsesSigned(sign, parse)
    ensures before == Some((StatusForbidden, InsufficientPrivileges))
    ensures after == None
  {
    var store, alice, bob, again := RegisterTwo(bcrypt, salt);
    before := AdminRequestWithToken(store, bob.value, env, now, sign, parse);
    assert RoleUser !in {RoleAdmin} by {
      assert RoleUser[0] != RoleAdmin[0];
    }
    assert before == Some((StatusForbidden, InsufficientPrivileges));
    var promoted := store.PromoteToAdmin(2);
    assert store.users[2].role == RoleAdmin;
    after := AdminRequestWithToken(store, bob.value, env, now, sign, parse);
  }
}
