/**
 * Registration and login: `POST /users` stores a new user under a unique
 * username, `POST /token` exchanges a username and password for a bearer
 * token whose subject is the username.
 *
 * Password hashing, password verification and token signing are done by
 * libraries outside the model, so they arrive as parameters: the hash to
 * store, the verdict of `verify_password`, and the encoder of the claims.
 */
module UserRouter {
  import opened Wrappers
  import opened Dicts
  import opened Exceptions
  import opened Store

  /** The registration form: a username and a plain-text password. */
  datatype UserCreate = UserCreate(username: string, password: string)

  /** The `Token` response. */
  datatype Token = Token(accessToken: string, tokenType: string)

  /** The claims of an access token: the subject and the expiry instant, in microseconds. */
  datatype Claims = Claims(sub: string, exp: int)

  const MinuteMicros := 60000000
  /** The lifetime `create_access_token` falls back to, in minutes. */
  const DefaultTokenMinutes := 15

  /** No two users share a username. */
  predicate UniqueUsernames(users: seq<User>)
  {
    forall i, j :: 0 <= i < j < |users| ==> users[i].username != users[j].username
  }

  /**
   * `create_user(user)`: the message returned and the users afterwards; the
   * new document gets the id `newId` and the stored hash `hashed`.
   */
  function CreateUserSpec(users: seq<User>, form: UserCreate, hashed: string, newId: ObjectId)
    : (Outcome<string>, seq<User>)
  {
    if FindUserByName(users, form.username).Some? then
      (Raised(HttpError(400, TextDetail("Username already registered"), [])), users)
    else
      (Returned("User created successfully"), users + [User(newId, form.username, hashed)])
  }

  /** `create_user(user)` on the database. */
  method CreateUser(db: Database, form: UserCreate, hashed: string, newId: ObjectId) returns (r: Outcome<string>)
    modifies db
    ensures (r, db.users) == CreateUserSpec(old(db.users), form, hashed, newId)
    ensures db.checkins == old(db.checkins) && db.rankings == old(db.rankings)
  {
    var existing := FindUserByName(db.users, form.username);
    if existing.Some? {
      r := Raised(HttpError(400, TextDetail("Username already registered"), []));
      return;
    }
    db.users := db.users + [User(newId, form.username, hashed)];
    r := Returned("User created successfully");
  }

  /**
   * `create_access_token(data={"sub": subject}, expires_delta)`, at the UTC
   * instant `nowMicros`: a missing or zero lifetime means 15 minutes.
   */
  function CreateAccessToken(subject: string, expiresMinutes: Option<int>, nowMicros: int,
                             encode: Claims -> string): string
  {
    var minutes := if expiresMinutes.Some? && expiresMinutes.value != 0 then expiresMinutes.value else DefaultTokenMinutes;
    encode(Claims(subject, nowMicros + minutes * MinuteMicros))
  }

  /**
   * `login_for_access_token(form_data)`; `verify(plain, hash)` stands for
   * `verify_password` and `expireMinutes` for `ACCESS_TOKEN_EXPIRE_MINUTES`.
   */
  function Login(users: seq<User>, username: string, password: string, verify: (string, string) -> bool,
                 expireMinutes: int, nowMicros: int, encode: Claims -> string): Outcome<Token>
  {
    var user := FindUserByName(users, username);
    if user.None? || !verify(password, user.value.password) then
      Raised(HttpError(401, TextDetail("Incorrect username or password"), [("WWW-Authenticate", "Bearer")]))
    else
      Returned(Token(CreateAccessToken(user.value.username, Some(expireMinutes), nowMicros, encode), "bearer"))
  }

  // ---------------------------------------------------------------------------
  // Lemmas

  /**
   * Registration succeeds exactly for a new username, appends exactly that
   * user, and keeps usernames unique.
   */
  lemma CreateUserEffect(users: seq<User>, form: UserCreate, hashed: string, newId: ObjectId)
    ensures var (r, users') := CreateUserSpec(users, form, hashed, newId);
      && (r.Returned? <==> forall i :: 0 <= i < |users| ==> users[i].username != form.username)
      && (r.Raised? ==> users' == users && r.exception.HttpError? && r.exception.status == 400)
      && (r.Returned? ==> (users' == users + [User(newId, form.username, hashed)]
            && FindUserByName(users', form.username) == Some(User(newId, form.username, hashed))))
      && (UniqueUsernames(users) ==> UniqueUsernames(users'))
  {
    var (r, users') := CreateUserSpec(users, form, hashed, newId);
    if r.Returned? {
      FindUserByNameAppend(users, User(newId, form.username, hashed));
    }
  }

  /** Looking a name up after appending a user with a new name finds that user. */
  lemma {:induction false} FindUserByNameAppend(users: seq<User>, u: User)
    requires forall i :: 0 <= i < |users| ==> users[i].username != u.username
    ensures FindUserByName(users + [u], u.username) == Some(u)
    decreases |users|
  {
    if |users| > 0 {
      FindUserByNameAppend(users[1..], u);
      assert (users + [u])[1..] == users[1..] + [u];
    }
  }

  /**
   * Login fails with 401 and a `WWW-Authenticate: Bearer` header exactly
   * when the user is unknown or the password does not verify; otherwise the
   * token is a bearer token for that username.
   */
  lemma LoginOutcome(users: seq<User>, username: string, password: string, verify: (string, string) -> bool,
                     expireMinutes: int, nowMicros: int, encode: Claims -> string)
    ensures var r := Login(users, username, password, verify, expireMinutes, nowMicros, encode);
      var user := FindUserByName(users, username);
      && (r.Returned? <==> user.Some? && verify(password, user.value.password))
      && (r.Raised? ==> (r.exception.HttpError? && r.exception.status == 401
            && Get(r.exception.headers, "WWW-Authenticate") == Some("Bearer")))
      && (r.Returned? ==> (r.value.tokenType == "bearer"
            && r.value.accessToken == encode(Claims(username,
                 nowMicros + (if expireMinutes != 0 then expireMinutes else DefaultTokenMinutes) * MinuteMicros))))
  {
  }

  /** A user who just registered can log in with the password the stored hash verifies. */
  lemma RegisteredUserCanLogIn(users: seq<User>, form: UserCreate, hashed: string, newId: ObjectId,
                               verify: (string, string) -> bool, expireMinutes: int, nowMicros: int,
                               encode: Claims -> string)
    requires CreateUserSpec(users, form, hashed, newId).0.Returned?
    requires verify(form.password, hashed)
    ensures Login(CreateUserSpec(users, form, hashed, newId).1, form.username, form.password, verify,
                  expireMinutes, nowMicros, encode).Returned?
  {
    CreateUserEffect(users, form, hashed, newId);
  }
}
