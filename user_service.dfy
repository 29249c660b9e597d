/** The in-memory credential store of data/user_service.go: a map from user
    id to user and the counter that hands out the next id. Each operation is
    modelled as one atomic step (the source holds a reader/writer lock for the
    whole call). */
module UserService {
  import opened Results
  import opened Models

  const UsernameExists: string := "username already exists"
  const InvalidCredentials: string := "invalid credentials"
  const UserNotFound: string := "user not found"

  /** The two bcrypt calls the store makes. `generate(password, salt)` is
      `GenerateFromPassword` with the random salt it draws made explicit;
      `compare(hash, password)` is `CompareHashAndPassword` returning nil. */
  datatype Bcrypt = Bcrypt(generate: (string, nat) -> Result<string>, compare: (string, string) -> bool)

  /** A hash that bcrypt produced for a password matches that password. */
  ghost predicate Sound(b: Bcrypt) {
    forall password, salt :: b.generate(password, salt).Ok? ==> b.compare(b.generate(password, salt).value, password)
  }

  predicate IsRole(role: string) {
    role == RoleAdmin || role == RoleUser
  }

  ghost predicate HasUsername(users: map<int, User>, name: string) {
    exists k :: k in users && users[k].username == name
  }

  ghost predicate UniqueUsernames(users: map<int, User>) {
    forall j, k :: j in users && k in users && users[j].username == users[k].username ==> j == k
  }

  /** Every user is stored under its own id. */
  ghost predicate KeyedById(users: map<int, User>) {
    forall k :: k in users ==> users[k].id == k
  }

  /** Every stored role is "admin" or "user". */
  ghost predicate RolesValid(users: map<int, User>) {
    forall k :: k in users ==> IsRole(users[k].role)
  }

  /** What the store keeps true between calls: the ids in use are exactly
      1 .. next-1 (ids are handed out in order and users are never deleted),
      every entry is stored under its own id, usernames are pairwise distinct,
      roles are "admin" or "user", and the first user ever created is admin. */
  ghost predicate StoreInvariant(users: map<int, User>, next: int) {
    && 1 <= next
    && users.Keys == IdsBelow(next)
    && KeyedById(users)
    && RolesValid(users)
    && UniqueUsernames(users)
    && (1 in users ==> users[1].role == RoleAdmin)
  }

  /** The map after `PromoteToAdmin(id)` has set that user's role. */
  function Promoted(users: map<int, User>, id: int): (m: map<int, User>)
    requires id in users
    ensures m.Keys == users.Keys
    ensures m[id].role == RoleAdmin
    ensures m[id].(role := users[id].role) == users[id]
    ensures forall k :: k in users && k != id ==> m[k] == users[k]
  {
    users[id := users[id].(role := RoleAdmin)]
  }

  /** Promotion is idempotent: promoting twice leaves the same map as once. */
  lemma PromotedIdempotent(users: map<int, User>, id: int)
    requires id in users
    ensures Promoted(Promoted(users, id), id) == Promoted(users, id)
  {
  }

  /** Promotion keeps the store invariant. */
  lemma PromotedKeepsInvariant(users: map<int, User>, next: int, id: int)
    requires StoreInvariant(users, next) && id in users
    ensures StoreInvariant(Promoted(users, id), next)
  {
    var m := Promoted(users, id);
    assert m.Keys == users.Keys;
    assert UniqueUsernames(m) by {
      forall j, k | j in m && k in m && m[j].username == m[k].username
        ensures j == k
      {
        assert m[j].username == users[j].username && m[k].username == users[k].username;
      }
    }
    assert KeyedById(m) by {
      forall k | k in m ensures m[k].id == k {
        assert m[k].id == users[k].id;
      }
    }
  }

  /** A user whose username is not yet taken, stored under a free id, keeps
      usernames distinct. */
  lemma InsertKeepsUnique(users: map<int, User>, id: int, u: User)
    requires UniqueUsernames(users) && id !in users && !HasUsername(users, u.username)
    ensures UniqueUsernames(users[id := u])
  {
    var m := users[id := u];
    forall j, k | j in m && k in m && m[j].username == m[k].username
      ensures j == k
    {
      if j != id && k != id {
        assert m[j] == users[j] && m[k] == users[k];
      }
    }
  }

  /** Storing a user with a fresh username under the next id, with the role
      `CreateUser` picks, keeps the store invariant. */
  lemma InsertKeepsInvariant(users: map<int, User>, next: int, u: User)
    requires StoreInvariant(users, next)
    requires u.id == next && IsRole(u.role) && !HasUsername(users, u.username)
    requires users == map[] ==> u.role == RoleAdmin
    ensures StoreInvariant(users[next := u], next + 1)
  {
    assert next !in users;
    InsertKeepsIds(users, next, u);
    InsertKeepsUnique(users, next, u);
    InsertKeepsKeyed(users, next, u);
    InsertKeepsRoles(users, next, u);
    if next == 1 {
      assert users.Keys == {};
    } else {
      assert 1 in users;
    }
  }

  lemma InsertKeepsIds(users: map<int, User>, next: int, u: User)
    requires 1 <= next && users.Keys == IdsBelow(next)
    ensures users[next := u].Keys == IdsBelow(next + 1)
  {
    assert IdsBelow(next + 1) == IdsBelow(next) + {next};
  }

  lemma InsertKeepsKeyed(users: map<int, User>, id: int, u: User)
    requires KeyedById(users) && u.id == id
    ensures KeyedById(users[id := u])
  {
  }

  lemma InsertKeepsRoles(users: map<int, User>, id: int, u: User)
    requires RolesValid(users) && IsRole(u.role)
    ensures RolesValid(users[id := u])
  {
  }

  /** The ids 1 .. n-1. */
  function IdsBelow(n: int): (ids: set<int>)
    ensures forall k :: k in ids <==> 1 <= k < n
    ensures 1 <= n ==> |ids| == n - 1
    decreases n
  {
    if n <= 1 then {} else IdsBelow(n - 1) + {n - 1}
  }

  /** The store holds exactly next-1 users: every id below the counter is used. */
  lemma StoreSize(users: map<int, User>, next: int)
    requires StoreInvariant(users, next)
    ensures |users| == next - 1
    ensures users == map[] <==> next == 1
  {
    assert |users| == |users.Keys|;
  }

  /** Every element of `out` is the stored user under an id of `ids`. */
  ghost predicate Stored(out: seq<User>, ids: set<int>, users: map<int, User>) {
    forall i :: 0 <= i < |out| ==> out[i].id in ids && out[i].id in users && users[out[i].id] == out[i]
  }

  /** No user appears twice in `out`. */
  ghost predicate DistinctIds(out: seq<User>) {
    forall i, j :: 0 <= i < j < |out| ==> out[i].id != out[j].id
  }

  /** Every user stored under an id of `ids` appears in `out`. */
  ghost predicate Covers(out: seq<User>, ids: set<int>, users: map<int, User>) {
    forall k :: k in ids ==> k in users && exists i :: 0 <= i < |out| && out[i] == users[k]
  }

  // Appending the user stored under a new id k keeps each of the three facts.

  lemma StoredAppend(out: seq<User>, ids: set<int>, users: map<int, User>, k: int)
    requires Stored(out, ids, users) && k in users && users[k].id == k
    ensures Stored(out + [users[k]], ids + {k}, users)
  {
    var out' := out + [users[k]];
    forall i | 0 <= i < |out'|
      ensures out'[i].id in ids + {k} && out'[i].id in users && users[out'[i].id] == out'[i]
    {
      if i < |out| { assert out'[i] == out[i]; }
    }
  }

  lemma DistinctAppend(out: seq<User>, ids: set<int>, users: map<int, User>, k: int)
    requires Stored(out, ids, users) && DistinctIds(out) && k in users && k !in ids && users[k].id == k
    ensures DistinctIds(out + [users[k]])
  {
    var out' := out + [users[k]];
    forall i, j | 0 <= i < j < |out'|
      ensures out'[i].id != out'[j].id
    {
      assert out'[i] == out[i];
      if j < |out| { assert out'[j] == out[j]; }
    }
  }

  lemma CoversAppend(out: seq<User>, ids: set<int>, users: map<int, User>, k: int)
    requires Covers(out, ids, users) && k in users
    ensures Covers(out + [users[k]], ids + {k}, users)
  {
    var out' := out + [users[k]];
    forall j | j in ids + {k}
      ensures j in users && exists i :: 0 <= i < |out'| && out'[i] == users[j]
    {
      if j == k {
        assert out'[|out|] == users[j];
      } else {
        var i :| 0 <= i < |out| && out[i] == users[j];
        assert out'[i] == users[j];
      }
    }
  }

  /** A non-empty set has an element (what lets a loop pick the next key). */
  lemma HasElement(s: set<int>)
    requires s != {}
    ensures exists x :: x in s
  {
    if forall x :: x !in s {
      assert false;
    }
  }

  class UserStore {
    /** The hashing library the store calls. */
    const bcrypt: Bcrypt
    /** `users` of data/user_service.go:16. */
    var users: map<int, User>
    /** `nextUserID` of data/user_service.go:18. */
    var nextUserID: int

    ghost predicate Valid()
      reads this
    {
      StoreInvariant(users, nextUserID)
    }

    /** The package-level state as the program starts: no users, counter 1. */
    constructor (bcrypt: Bcrypt)
      ensures Valid()
      ensures this.bcrypt == bcrypt && users == map[] && nextUserID == 1
    {
      this.bcrypt := bcrypt;
      users := map[];
      nextUserID := 1;
    }

    /** `CreateUser`: refuses a username already present, else hashes the
        password, makes the user admin iff the store is empty, and stores the
        user under the next id. A failed call changes nothing. */
    method CreateUser(username: string, plainPassword: string, salt: nat) returns (r: Result<User>)
      requires Valid()
      modifies this
      ensures Valid()
      ensures HasUsername(old(users), username) ==>
        r == Err(UsernameExists) && users == old(users) && nextUserID == old(nextUserID)
      ensures !HasUsername(old(users), username) && bcrypt.generate(plainPassword, salt).Err? ==>
        && r == Err(bcrypt.generate(plainPassword, salt).error)
        && users == old(users) && nextUserID == old(nextUserID)
      ensures !HasUsername(old(users), username) && bcrypt.generate(plainPassword, salt).Ok? ==>
        && r == Ok(User(old(nextUserID), username, bcrypt.generate(plainPassword, salt).value,
                        if old(users) == map[] then RoleAdmin else RoleUser))
        && users == old(users)[r.value.id := r.value]
        && nextUserID == old(nextUserID) + 1
      ensures r.Ok? ==> forall k :: k in old(users) ==> k < r.value.id
    {
      var taken := UsernameTaken(username);
      if taken {
        return Err(UsernameExists);
      }
      var hashed := bcrypt.generate(plainPassword, salt);
      if hashed.Err? {
        return Err(hashed.error);
      }
      var role := RoleUser;
      StoreSize(users, nextUserID);
      if |users| == 0 {
        role := RoleAdmin;
      }
      var u := User(nextUserID, username, hashed.value, role);
      InsertKeepsInvariant(users, nextUserID, u);
      nextUserID := nextUserID + 1;
      users := users[u.id := u];
      r := Ok(u);
    }

    /** The scan of `CreateUser` (data/user_service.go:29-33): is the
        username already in use? */
    method UsernameTaken(username: string) returns (taken: bool)
      ensures taken <==> HasUsername(users, username)
    {
      var unseen := users.Keys;
      while unseen != {}
        invariant unseen <= users.Keys
        invariant forall k :: k in users && k !in unseen ==> users[k].username != username
        decreases unseen
      {
        HasElement(unseen);
        var k :| k in unseen;
        if users[k].username == username {
          return true;
        }
        unseen := unseen - {k};
      }
      taken := false;
    }

    /** `Authenticate`: the user with that username if the password matches
        its hash; "user not found" or "invalid credentials" otherwise. */
    method Authenticate(username: string, plainPassword: string) returns (r: Result<User>)
      requires Valid()
      ensures !HasUsername(users, username) ==> r == Err(UserNotFound)
      ensures forall k :: k in users && users[k].username == username ==>
        r == if bcrypt.compare(users[k].password, plainPassword) then Ok(users[k]) else Err(InvalidCredentials)
    {
      var unseen := users.Keys;
      while unseen != {}
        invariant unseen <= users.Keys
        invariant forall k :: k in users && k !in unseen ==> users[k].username != username
        decreases unseen
      {
        HasElement(unseen);
        var k :| k in unseen;
        var u := users[k];
        if u.username == username {
          if !bcrypt.compare(u.password, plainPassword) {
            return Err(InvalidCredentials);
          }
          return Ok(u);
        }
        unseen := unseen - {k};
      }
      r := Err(UserNotFound);
    }

    /** `GetUserByID`: a copy of the stored user, or "user not found". */
    method GetUserByID(id: int) returns (r: Result<User>)
      requires Valid()
      ensures id in users ==> r == Ok(users[id]) && r.value.id == id
      ensures id !in users ==> r == Err(UserNotFound)
    {
      if id in users {
        r := Ok(users[id]);
      } else {
        r := Err(UserNotFound);
      }
    }

    /** `PromoteToAdmin`: sets that one user's role to admin and returns a copy
        of it; an unknown id is "user not found" and changes nothing. */
    method PromoteToAdmin(id: int) returns (r: Result<User>)
      requires Valid()
      modifies this
      ensures Valid()
      ensures nextUserID == old(nextUserID)
      ensures id in old(users) ==> users == Promoted(old(users), id) && r == Ok(users[id])
      ensures id !in old(users) ==> users == old(users) && r == Err(UserNotFound)
    {
      if id in users {
        PromotedKeepsInvariant(users, nextUserID, id);
        users := Promoted(users, id);
        r := Ok(users[id]);
      } else {
        r := Err(UserNotFound);
      }
    }

    /** `ListUsers`: one copy of every stored user, in the map's (unspecified)
        iteration order. */
    method ListUsers() returns (out: seq<User>)
      requires KeyedById(users)
      ensures |out| == |users|
      ensures Stored(out, users.Keys, users) && DistinctIds(out) && Covers(out, users.Keys, users)
    {
      out := [];
      var unseen := users.Keys;
      ghost var seen: set<int> := {};
      while unseen != {}
        invariant unseen !! seen && unseen + seen == users.Keys
        invariant |out| == |seen|
        invariant Stored(out, seen, users) && DistinctIds(out) && Covers(out, seen, users)
        decreases unseen
      {
        HasElement(unseen);
        var k :| k in unseen;
        StoredAppend(out, seen, users, k);
        DistinctAppend(out, seen, users, k);
        CoversAppend(out, seen, users, k);
        out := out + [users[k]];
        unseen := unseen - {k};
        seen := seen + {k};
      }
      assert seen == users.Keys;
    }
  }
}
