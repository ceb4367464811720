/** Signup, login and the current user's profile over the user table. The table is a
    map from user id to record; usernames are unique, which the database's own
    constraint guarantees. Password hashing is passlib's and the database's generated
    ids, column defaults and clock are the database's: all of them are parameters. */
module Auth {
  import opened Results
  import Security

  type UserId = string

  /** The only account status that may log in or receive a token. */
  const Active: string := "active"

  const Conflict: Failure := HttpError(409, "username already exists or insert failed")
  const Inactive: Failure := HttpError(403, "user inactive")
  const InvalidCredentials: Failure := HttpError(401, "invalid credentials")
  const UserNotFound: Failure := HttpError(404, "user not found")

  /** A row of the user table. */
  datatype User = User(
    userId: UserId, username: string, passwordHash: Option<string>,
    email: Option<string>, displayName: Option<string>,
    role: string, status: string, createdAt: int, updatedAt: int)

  /** The public fields of a user: every column but the password hash. */
  datatype Profile = Profile(
    userId: UserId, username: string, email: Option<string>, displayName: Option<string>,
    role: string, status: string, createdAt: int, updatedAt: int)

  datatype SignupReq = SignupReq(username: string, password: string, email: Option<string>, displayName: Option<string>)

  datatype LoginReq = LoginReq(username: string, password: string)

  /** What a successful signup or login returns. */
  datatype Session = Session(userId: UserId, role: string, accessToken: string)

  /** The password hasher: `hash(password, salt)` with the salt it draws at random,
      and `verify(password, hash)`. */
  datatype Hasher = Hasher(hash: (string, nat) -> string, verify: (string, string) -> bool)

  /** What the database decides when a user row is inserted: the id it generates,
      the role and status column defaults, its clock, and whether the insert fails
      for a reason the model does not see. */
  datatype InsertOutcome = InsertOutcome(newId: UserId, role: string, status: string, now: int, fails: bool)

  type Table = map<UserId, User>

  /** Every record sits under its own id and no two records share a username. */
  ghost predicate WellFormed(users: Table) {
    && (forall id | id in users :: users[id].userId == id)
    && (forall a, b | a in users && b in users && users[a].username == users[b].username :: a == b)
  }

  predicate UsernameTaken(users: Table, name: string) {
    exists id | id in users :: users[id].username == name
  }

  /** The row used by login: the one whose username is `name`, if any. */
  function FindByUsername(users: Table, name: string): (r: Option<User>)
    requires WellFormed(users)
    ensures r.Some? <==> UsernameTaken(users, name)
    ensures r.Some? ==> r.value.userId in users && users[r.value.userId] == r.value && r.value.username == name
  {
    if UsernameTaken(users, name) then
      var id :| id in users && users[id].username == name;
      Some(users[id])
    else
      None
  }

  /** A usable credential: a hash that is present and not empty. */
  predicate HasUsableHash(u: User) {
    u.passwordHash.Some? && u.passwordHash.value != ""
  }

  /** The insert fails on a duplicate username, on a generated id already in use, or
      for any other reason the database has. */
  predicate InsertFails(users: Table, name: string, db: InsertOutcome) {
    UsernameTaken(users, name) || db.newId in users || db.fails
  }

  /** The row a successful insert adds. */
  function NewUser(req: SignupReq, passwordHash: string, db: InsertOutcome): User {
    User(db.newId, req.username, Some(passwordHash), req.email, req.displayName, db.role, db.status, db.now, db.now)
  }

  function ProfileOf(u: User): Profile {
    Profile(u.userId, u.username, u.email, u.displayName, u.role, u.status, u.createdAt, u.updatedAt)
  }

  /** The profile shows no password hash: two users that differ only in their hash
      have the same profile. */
  lemma ProfileOmitsHash(u: User, h: Option<string>)
    ensures ProfileOf(u.(passwordHash := h)) == ProfileOf(u)
  {
  }

  /** Signup as a transition of the table: the answer, and the table afterwards. */
  function SignupStep(users: Table, req: SignupReq, hasher: Hasher, salt: nat, db: InsertOutcome,
                      tokens: Security.Tokens, now: real): (out: (Result<Session>, Table))
    requires WellFormed(users)
    ensures WellFormed(out.1)
    // a failed insert is rolled back and reported as a conflict
    ensures out.0 == Err(Conflict) <==> InsertFails(users, req.username, db)
    ensures InsertFails(users, req.username, db) ==> out.1 == users
    // a successful insert is committed before the status is looked at
    ensures !InsertFails(users, req.username, db) ==>
      && out.1.Keys == users.Keys + {db.newId}
      && (forall id | id in users :: out.1[id] == users[id])
      && out.1[db.newId] == NewUser(req, hasher.hash(req.password, salt), db)
    ensures !InsertFails(users, req.username, db) && db.status != Active ==> out.0 == Err(Inactive)
    // a token only for an active account, and for exactly the inserted id and role
    ensures out.0.Ok? <==> !InsertFails(users, req.username, db) && db.status == Active
    ensures out.0.Ok? ==>
      && out.0.value.userId == db.newId && out.0.value.role == db.role
      && out.0.value.accessToken == Security.MakeAccessToken(tokens, now, db.newId, db.role)
      && out.1[out.0.value.userId].status == Active
  {
    if InsertFails(users, req.username, db) then
      (Err(Conflict), users)
    else
      var users' := users[db.newId := NewUser(req, hasher.hash(req.password, salt), db)];
      if db.status != Active then
        (Err(Inactive), users')
      else
        (Ok(Session(db.newId, db.role, Security.MakeAccessToken(tokens, now, db.newId, db.role))), users')
  }

  /** Login as a transition of the table: the answer, and the table afterwards. */
  function LoginStep(users: Table, req: LoginReq, hasher: Hasher, dbNow: int,
                     tokens: Security.Tokens, now: real): (out: (Result<Session>, Table))
    requires WellFormed(users)
    ensures WellFormed(out.1)
    // no failure changes the table
    ensures out.0.Err? ==> out.1 == users
    // the checks, in their order: unknown user, inactive account, bad credential
    ensures !UsernameTaken(users, req.username) ==> out.0 == Err(InvalidCredentials)
    ensures var found := FindByUsername(users, req.username);
      found.Some? && found.value.status != Active ==> out.0 == Err(Inactive)
    ensures var found := FindByUsername(users, req.username);
      found.Some? && found.value.status == Active
      && (!HasUsableHash(found.value) || !hasher.verify(req.password, found.value.passwordHash.value))
      ==> out.0 == Err(InvalidCredentials)
    // success: a token for that user, and only its updated_at moves
    ensures var found := FindByUsername(users, req.username);
      out.0.Ok? <==> found.Some? && found.value.status == Active && HasUsableHash(found.value)
                     && hasher.verify(req.password, found.value.passwordHash.value)
    ensures out.0.Ok? ==>
      var u := FindByUsername(users, req.username).value;
      && out.0.value == Session(u.userId, u.role, Security.MakeAccessToken(tokens, now, u.userId, u.role))
      && out.1.Keys == users.Keys
      && (forall id | id in users && id != u.userId :: out.1[id] == users[id])
      && out.1[u.userId] == u.(updatedAt := dbNow)
  {
    match FindByUsername(users, req.username)
    case None => (Err(InvalidCredentials), users)
    case Some(u) =>
      if u.status != Active then
        (Err(Inactive), users)
      else if !HasUsableHash(u) || !hasher.verify(req.password, u.passwordHash.value) then
        (Err(InvalidCredentials), users)
      else
        (Ok(Session(u.userId, u.role, Security.MakeAccessToken(tokens, now, u.userId, u.role))),
         users[u.userId := u.(updatedAt := dbNow)])
  }

  /** A correct hasher: every hash it makes verifies against its password. */
  ghost predicate Correct(hasher: Hasher) {
    forall p: string, salt: nat {:trigger hasher.hash(p, salt)} :: hasher.verify(p, hasher.hash(p, salt))
  }

  /** Right after a successful signup, logging in with the same username and password
      succeeds, for the new id and role. */
  lemma SignupThenLogin(users: Table, req: SignupReq, hasher: Hasher, salt: nat, db: InsertOutcome,
                        tokens: Security.Tokens, now: real, dbNow: int, later: real)
    requires WellFormed(users) && Correct(hasher)
    requires SignupStep(users, req, hasher, salt, db, tokens, now).0.Ok?
    requires hasher.hash(req.password, salt) != ""
    ensures var users' := SignupStep(users, req, hasher, salt, db, tokens, now).1;
      LoginStep(users', LoginReq(req.username, req.password), hasher, dbNow, tokens, later).0
      == Ok(Session(db.newId, db.role, Security.MakeAccessToken(tokens, later, db.newId, db.role)))
  {
  }

  /** The token a successful signup returns passes the gate until it expires, and
      the profile it then opens is the new user's. */
  lemma SignupTokenOpensProfile(dir: UserDirectory, users: Table, req: SignupReq, hasher: Hasher, salt: nat,
                                db: InsertOutcome, tokens: Security.Tokens, now: real, clock: int)
    requires WellFormed(users) && Security.Ideal(tokens.codec)
    requires SignupStep(users, req, hasher, salt, db, tokens, now).0.Ok?
    requires dir.users == SignupStep(users, req, hasher, salt, db, tokens, now).1
    requires clock <= Security.AccessClaims(tokens.config, now, db.newId, db.role).exp.value
    ensures var s := SignupStep(users, req, hasher, salt, db, tokens, now).0.value;
      Security.CurrentUser(tokens, Some(s.accessToken), clock) == Ok(Security.Identity(db.newId, db.role))
    ensures dir.Valid() && dir.Me(Security.Identity(db.newId, db.role))
                         == Ok(ProfileOf(NewUser(req, hasher.hash(req.password, salt), db)))
  {
    Security.IssuedTokenAccepted(tokens, now, clock, db.newId, db.role);
  }

  /** Login answers an unknown username and a wrong password for a known active
      account identically, so the answer does not reveal which usernames exist. */
  lemma NoUsernameEnumeration(users: Table, unknown: LoginReq, known: LoginReq, hasher: Hasher, dbNow: int,
                              tokens: Security.Tokens, now: real)
    requires WellFormed(users)
    requires !UsernameTaken(users, unknown.username)
    requires var found := FindByUsername(users, known.username);
      found.Some? && found.value.status == Active
      && (!HasUsableHash(found.value) || !hasher.verify(known.password, found.value.passwordHash.value))
    ensures LoginStep(users, unknown, hasher, dbNow, tokens, now) == LoginStep(users, known, hasher, dbNow, tokens, now)
  {
  }

  /** An inactive account is refused the same way whatever password is offered. */
  lemma InactiveWhateverPassword(users: Table, name: string, p1: string, p2: string, hasher: Hasher, dbNow: int,
                                 tokens: Security.Tokens, now: real)
    requires WellFormed(users)
    requires var found := FindByUsername(users, name); found.Some? && found.value.status != Active
    ensures LoginStep(users, LoginReq(name, p1), hasher, dbNow, tokens, now)
         == LoginStep(users, LoginReq(name, p2), hasher, dbNow, tokens, now)
         == (Err(Inactive), users)
  {
  }

  /** The user table, updated in place by signup and login. */
  class UserDirectory {
    var users: Table

    ghost predicate Valid()
      reads this
    {
      WellFormed(users)
    }

    constructor ()
      ensures Valid() && users == map[]
    {
      users := map[];
    }

    /** The insert with its commit or rollback: either the new row is in the table
        and its id, role and status are returned, or nothing changed. */
    method Insert(req: SignupReq, passwordHash: string, db: InsertOutcome) returns (row: Option<(UserId, string, string)>)
      requires Valid()
      modifies this
      ensures Valid()
      ensures row.None? <==> InsertFails(old(users), req.username, db)
      ensures row.None? ==> users == old(users)
      ensures row.Some? ==>
        row.value == (db.newId, db.role, db.status) && users == old(users)[db.newId := NewUser(req, passwordHash, db)]
    {
      if InsertFails(users, req.username, db) {
        row := None;
      } else {
        users := users[db.newId := NewUser(req, passwordHash, db)];
        row := Some((db.newId, db.role, db.status));
      }
    }

    /** Sets the `updated_at` of `id` to the database clock. */
    method Touch(id: UserId, dbNow: int)
      requires Valid() && id in users
      modifies this
      ensures Valid()
      ensures users == old(users)[id := old(users)[id].(updatedAt := dbNow)]
    {
      users := users[id := users[id].(updatedAt := dbNow)];
    }

    method Signup(req: SignupReq, hasher: Hasher, salt: nat, db: InsertOutcome, tokens: Security.Tokens, now: real)
      returns (r: Result<Session>)
      requires Valid()
      modifies this
      ensures Valid()
      ensures (r, users) == SignupStep(old(users), req, hasher, salt, db, tokens, now)
    {
      var ph := hasher.hash(req.password, salt);
      var row := Insert(req, ph, db);
      if row.None? {
        return Err(Conflict);
      }
      var (userId, role, status) := row.value;
      if status != Active {
        return Err(Inactive);
      }
      var token := Security.MakeAccessToken(tokens, now, userId, role);
      return Ok(Session(userId, role, token));
    }

    method Login(req: LoginReq, hasher: Hasher, dbNow: int, tokens: Security.Tokens, now: real)
      returns (r: Result<Session>)
      requires Valid()
      modifies this
      ensures Valid()
      ensures (r, users) == LoginStep(old(users), req, hasher, dbNow, tokens, now)
    {
      var found := FindByUsername(users, req.username);
      if found.None? {
        return Err(InvalidCredentials);
      }
      var u := found.value;
      if u.status != Active {
        return Err(Inactive);
      }
      if !HasUsableHash(u) || !hasher.verify(req.password, u.passwordHash.value) {
        return Err(InvalidCredentials);
      }
      Touch(u.userId, dbNow);
      var token := Security.MakeAccessToken(tokens, now, u.userId, u.role);
      return Ok(Session(u.userId, u.role, token));
    }

    /** The caller's profile, looked up by the id the gate extracted. */
    function Me(cur: Security.Identity): (r: Result<Profile>)
      requires Valid()
      reads this
      ensures r.Ok? <==> cur.userId in users
      ensures r.Err? ==> r.failure == UserNotFound
      ensures r.Ok? ==> r.value.userId == cur.userId && r.value == ProfileOf(users[cur.userId])
    {
      if cur.userId in users then Ok(ProfileOf(users[cur.userId])) else Err(UserNotFound)
    }
  }
}
