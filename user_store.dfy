/**
 * The user side of the data layer: the user model of models/user.go and the
 * gorm user repository of repository/simple/user.go (repository/sqlrepository/user.go
 * is the same code). Deleting a user also deletes the user's file tree
 * through the file repository.
 *
 * Every store call may fail; a failure is a nondeterministic choice of the
 * store, so each contract covers both outcomes.
 */
module UserStore {
  import opened Wrappers
  import FileTree
  import FileStore

  /**
   * A stored password. bcrypt is modelled symbolically: the hash of a
   * password is a value only that password matches.
   */
  datatype Password = NoPassword | Hashed(of: string)

  /** `password.CreateHashPassword`. */
  function HashPassword(pwd: string): Password {
    Hashed(pwd)
  }

  /** `password.CompareHashPassword(pwd, stored)`. */
  predicate PasswordMatches(pwd: string, stored: Password) {
    stored.Hashed? && stored.of == pwd
  }

  /** A password matches its own hash and no other password matches it. */
  lemma HashMatchesOnlyItsPassword(pwd: string, other: string)
    ensures PasswordMatches(other, HashPassword(pwd)) <==> other == pwd
  {
  }

  const RoleAdmin: string := "admin"
  const RoleUser: string := "user"

  /** A user row; the timestamps are not modelled. */
  datatype User = User(id: string, username: string, password: Password, email: string, role: string)

  /** The claims of a user's token (`UserTokenClaims`): subject, user id, role and expiry in Unix seconds. */
  datatype Claims = Claims(subject: string, id: string, role: string, expiresAt: int)

  /** `models.Token`: the signed claims and their lifetime in seconds. */
  datatype Token = Token(claims: Claims, expire: int)

  type Users = map<string, User>

  /** Each row is stored under its primary key. */
  predicate Keyed(us: Users) {
    forall k | k in us :: us[k].id == k
  }

  /** The unique indexes on username and email. */
  predicate UniqueLogins(us: Users) {
    forall a, b | a in us && b in us && a != b :: us[a].username != us[b].username && us[a].email != us[b].email
  }

  /** The users of the table `CheckUserExists` finds for a username or an email. */
  function Conflicting(us: Users, username: string, email: string): set<string> {
    set k | k in us && (us[k].username == username || us[k].email == email)
  }

  /** Whether the row can be stored without breaking a unique index (other rows than its own). */
  predicate Admissible(us: Users, u: User) {
    forall k | k in us && k != u.id :: us[k].username != u.username && us[k].email != u.email
  }

  /** Storing an admissible row keeps both invariants. */
  lemma AdmissibleKeepsUnique(us: Users, u: User)
    requires Keyed(us) && UniqueLogins(us) && Admissible(us, u)
    ensures Keyed(us[u.id := u]) && UniqueLogins(us[u.id := u])
  {
    var t := us[u.id := u];
    forall a, b | a in t && b in t && a != b ensures t[a].username != t[b].username && t[a].email != t[b].email {
      if a == u.id {
        assert t[b] == us[b];
      } else if b == u.id {
        assert t[a] == us[a];
      }
    }
  }

  /** The ids of a list of users. */
  function Ids(list: seq<User>): set<string> {
    set i | 0 <= i < |list| :: list[i].id
  }

  /** No user appears twice. */
  predicate Distinct(list: seq<User>) {
    forall i, j | 0 <= i < j < |list| :: list[i].id != list[j].id
  }

  /** Every listed user is the table's row. */
  predicate FromUsers(us: Users, list: seq<User>) {
    forall i | 0 <= i < |list| :: list[i].id in us && us[list[i].id] == list[i]
  }

  lemma AppendFresh(us: Users, list: seq<User>, u: User)
    requires Distinct(list) && FromUsers(us, list) && u.id !in Ids(list) && u.id in us && us[u.id] == u
    ensures Ids(list + [u]) == Ids(list) + {u.id}
    ensures Distinct(list + [u]) && FromUsers(us, list + [u])
  {
    var g := list + [u];
    forall x | x in Ids(g) ensures x in Ids(list) + {u.id} {
      var i :| 0 <= i < |g| && g[i].id == x;
      if i < |list| {
        assert list[i] == g[i];
      }
    }
    forall x | x in Ids(list) ensures x in Ids(g) {
      var i :| 0 <= i < |list| && list[i].id == x;
      assert g[i] == list[i];
    }
    assert g[|list|] == u;
    forall i, j | 0 <= i < j < |g| ensures g[i].id != g[j].id {
      if j == |list| {
        assert g[i] == list[i];
        assert g[i].id in Ids(list);
      }
    }
  }

  /** Every user of the table once, in an order the store chooses. */
  method Enumerate(us: Users) returns (all: seq<User>)
    requires Keyed(us)
    ensures Ids(all) == us.Keys && Distinct(all) && |all| == |us|
    ensures FromUsers(us, all)
  {
    var rest := us.Keys;
    all := [];
    while rest != {}
      invariant rest <= us.Keys
      invariant Ids(all) + rest == us.Keys && Ids(all) !! rest
      invariant Distinct(all) && |all| + |rest| == |us.Keys|
      invariant FromUsers(us, all)
    {
      var k :| k in rest;
      AppendFresh(us, all, us[k]);
      all := all + [us[k]];
      rest := rest - {k};
    }
  }

  /** The root of an owner's tree, as `DeleteUser` passes it to the file repository. */
  function OwnerRoot(id: string): FileTree.File {
    FileTree.File(id, id, "", true, "", "", 0)
  }

  class UserRepository {
    var users: Users
    /** The file repository of the same database (`dbRepository` serves both). */
    const files: FileStore.FileRepository

    ghost predicate Valid()
      reads this, files
    {
      Keyed(users) && UniqueLogins(users) && files.Valid()
    }

    constructor (files: FileStore.FileRepository)
      requires files.Valid()
      ensures Valid() && users == map[] && this.files == files
    {
      users := map[];
      this.files := files;
    }

    /**
     * `CreateUser`: the row gets a fresh primary key from the id generator
     * (`BeforeCreate`) and is inserted unless a unique index refuses it or
     * the store fails. The returned user carries the new id.
     */
    method CreateUser(user: User, newId: string) returns (created: User, ok: bool)
      requires Valid()
      modifies this
      ensures Valid()
      ensures created == user.(id := newId)
      ensures ok ==> newId !in old(users) && Admissible(old(users), created) && users == old(users)[newId := created]
      ensures !ok ==> users == old(users)
    {
      created := user.(id := newId);
      var fault: bool := *;
      if fault || newId in users || !Admissible(users, created) {
        return created, false;
      }
      AdmissibleKeepsUnique(users, created);
      users := users[newId := created];
      ok := true;
    }

    /** `UpdateUser` (`db.Save`): the row under the user's key becomes the user, unless an index refuses it or the store fails. */
    method UpdateUser(user: User) returns (ok: bool)
      requires Valid()
      modifies this
      ensures Valid()
      ensures ok ==> Admissible(old(users), user) && users == old(users)[user.id := user]
      ensures !ok ==> users == old(users)
    {
      var fault: bool := *;
      if fault || !Admissible(users, user) {
        return false;
      }
      AdmissibleKeepsUnique(users, user);
      users := users[user.id := user];
      ok := true;
    }

    /**
     * `DeleteUser(id)`: removes the user; only when a row was removed, the
     * repository's directory delete runs on the owner's root, which removes
     * every row of the owner's tree and their blobs. A failure of that
     * cascade is reported, but the user stays deleted.
     */
    method DeleteUser(id: string) returns (ok: bool, ghost complete: bool)
      requires Valid()
      modifies this, files, files.blobs, files.log
      ensures Valid()
      ensures users == old(users) || users == old(users) - {id}
      ensures ok ==> users == old(users) - {id}
      ensures id !in old(users) || users == old(users) ==>
                files.rows == old(files.rows) && files.blobs.blobs == old(files.blobs.blobs)
      ensures id in old(users) && users != old(users) ==>
                FileTree.SubTable(files.rows, old(files.rows)) &&
                old(files.rows).Keys - files.rows.Keys <= FileTree.Walked(old(files.rows), old(files.rank), OwnerRoot(id)) &&
                (complete ==> files.rows.Keys == old(files.rows).Keys - FileTree.Walked(old(files.rows), old(files.rank), OwnerRoot(id)))
      ensures complete ==> ok
    {
      var fault: bool := *;
      if fault {
        return false, false;
      }
      var affected := id in users;
      users := users - {id};
      if affected {
        ok, complete := files.DeleteFile(OwnerRoot(id));
      } else {
        ok, complete := true, true;
      }
    }

    /** `GetUser(id)`: the row with that key, or none. */
    method GetUser(id: string) returns (found: Option<User>, ok: bool)
      requires Valid()
      ensures ok ==> (found.Some? <==> id in users)
      ensures ok && found.Some? ==> found.value == users[id]
    {
      ok := *;
      if !ok {
        return None, false;
      }
      found := if id in users then Some(users[id]) else None;
    }

    /** `GetUserByUsername`: the row with that username, or none. */
    method GetUserByUsername(username: string) returns (found: Option<User>, ok: bool)
      requires Valid()
      ensures ok ==> (found.None? <==> forall k | k in users :: users[k].username != username)
      ensures ok && found.Some? ==> found.value.username == username && found.value.id in users
                                    && users[found.value.id] == found.value
      ensures !ok ==> found.None?
    {
      ok := *;
      if !ok {
        return None, false;
      }
      if k :| k in users && users[k].username == username {
        found := Some(users[k]);
      } else {
        found := None;
      }
    }

    /** `GetUserByEmail`: the row with that email, or none. */
    method GetUserByEmail(email: string) returns (found: Option<User>, ok: bool)
      requires Valid()
      ensures ok ==> (found.None? <==> forall k | k in users :: users[k].email != email)
      ensures ok && found.Some? ==> found.value.email == email && found.value.id in users
                                    && users[found.value.id] == found.value
      ensures !ok ==> found.None?
    {
      ok := *;
      if !ok {
        return None, false;
      }
      if k :| k in users && users[k].email == email {
        found := Some(users[k]);
      } else {
        found := None;
      }
    }

    /**
     * `GetUserList(limit, offset)`: `db.Limit` and `db.Offset` build new
     * queries whose results are dropped, so every user is listed once
     * whatever the limit and offset are.
     */
    method GetUserList(limit: int, offset: int) returns (list: seq<User>, ok: bool)
      requires Valid()
      ensures ok ==> Ids(list) == users.Keys && Distinct(list) && |list| == |users|
      ensures ok ==> FromUsers(users, list)
    {
      ok := *;
      if !ok {
        return [], false;
      }
      list := Enumerate(users);
    }

    /**
     * `CheckUserExists(user)`: the first row whose username or email equals
     * the request's; "" when there is none, "username" when that row's
     * username is the request's, "email" otherwise. Which row comes first is
     * the store's choice.
     */
    method CheckUserExists(user: User) returns (conflict: string, ok: bool)
      requires Valid()
      ensures ok ==> (conflict == "" <==> Conflicting(users, user.username, user.email) == {})
      ensures ok && conflict != "" ==> conflict == "username" || conflict == "email"
      ensures ok && conflict == "username" ==> exists k | k in users :: users[k].username == user.username
      ensures ok && conflict == "email" ==>
                exists k | k in users :: users[k].email == user.email && users[k].username != user.username
      ensures !ok ==> conflict == ""
    {
      ok := *;
      if !ok {
        return "", false;
      }
      var matching := Conflicting(users, user.username, user.email);
      if matching == {} {
        return "", true;
      }
      var k :| k in matching;
      conflict := if user.username == users[k].username then "username" else "email";
    }
  }

  /**
   * The outcomes of `CheckUserExists` over a table with unique indexes: a
   * request whose username is taken and whose email is free is always a
   * "username" conflict, and one whose email is taken by a user with another
   * username, with the username free, always an "email" conflict.
   */
  lemma ConflictOutcomes(us: Users, username: string, email: string, conflict: string)
    requires conflict == "" <==> Conflicting(us, username, email) == {}
    requires conflict != "" ==> conflict == "username" || conflict == "email"
    requires conflict == "username" ==> exists k | k in us :: us[k].username == username
    requires conflict == "email" ==> exists k | k in us :: us[k].email == email && us[k].username != username
    ensures (exists k | k in us :: us[k].username == username) && (forall k | k in us :: us[k].email != email)
            ==> conflict == "username"
    ensures (exists k | k in us :: us[k].email == email) && (forall k | k in us :: us[k].username != username)
            ==> conflict == "email"
  {
    if exists k | k in us :: us[k].username == username {
      var k :| k in us && us[k].username == username;
      assert k in Conflicting(us, username, email);
    }
    if exists k | k in us :: us[k].email == email {
      var k :| k in us && us[k].email == email;
      assert k in Conflicting(us, username, email);
    }
  }
}
