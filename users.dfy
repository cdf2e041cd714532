/** The user table behind `/register`, `/login`, `/me` and `/logout`.
    Password hashing and token signing are foreign: they are function-valued
    parameters (`Hasher`, `Signer`) the handlers apply, and the clock is an
    input in whole seconds, as token timestamps are. */
module Users {
  import opened Wrappers
  import opened Auth

  /** A salt, as the hash function receives it. */
  type Salt = seq<int>

  /** The salted hash function: password and salt to digest bytes. */
  type Hasher = (string, Salt) -> seq<int>

  /** What is stored instead of the password: the salt and the digest. No
      field of a stored user holds the plaintext. */
  datatype Digest = Digest(salt: Salt, hash: seq<int>)

  datatype User = User(id: UserId, username: string, email: string, password: Digest)

  /** The token payload: the user's id and name, issued-at and expiry times. */
  datatype Claims = Claims(id: UserId, username: string, issuedAt: int, expiresAt: int)

  /** The token signer, keyed by the server's secret. */
  type Signer = Claims -> string

  /** `expiresIn: '1d'`, in seconds. */
  const OneDay: int := 86400

  /** A reply carrying only a message. */
  datatype Reply = Reply(status: int, message: string)

  /** The user summary a successful login returns: no password. */
  datatype Profile = Profile(id: UserId, username: string, email: string)

  datatype LoginReply =
    | LoginFailed(status: int, message: string)
    | LoggedIn(token: string, user: Profile)

  /** The body `/me` answers with; `_id` may be missing from it. */
  datatype Me = Me(_id: Option<UserId>, username: string, email: string)

  /** No two users share an email. */
  predicate EmailsUnique(users: seq<User>) {
    forall i, j :: 0 <= i < j < |users| ==> users[i].email != users[j].email
  }

  /** No two users share an id. */
  predicate IdsUnique(users: seq<User>) {
    forall i, j :: 0 <= i < j < |users| ==> users[i].id != users[j].id
  }

  /** `findOne({ email })`: the first user, in table order, with that email. */
  function FindUser(users: seq<User>, email: string): (r: Option<User>)
    ensures r.None? <==> forall k :: 0 <= k < |users| ==> users[k].email != email
    ensures r.Some? ==> r.value in users && r.value.email == email
  {
    if users == [] then None
    else if users[0].email == email then Some(users[0])
    else
      var rest := FindUser(users[1..], email);
      assert forall k :: 0 < k < |users| ==> users[k] == users[1..][k - 1];
      rest
  }

  /** With unique emails, looking up a stored user's email finds that user:
      the lookup returns some stored user with that email, and only one
      stored user has it. */
  lemma FindUserFindsOwner(users: seq<User>, u: User)
    requires EmailsUnique(users) && u in users
    ensures FindUser(users, u.email) == Some(u)
  {
  }

  /** `bcrypt.compare`: the candidate, hashed with the stored salt, gives the
      stored digest. */
  predicate Matches(hasher: Hasher, candidate: string, d: Digest) {
    hasher(candidate, d.salt) == d.hash
  }

  /** `bcrypt.hash(password, salt)`. */
  function HashPassword(hasher: Hasher, password: string, salt: Salt): (d: Digest)
    ensures d.salt == salt
    ensures Matches(hasher, password, d)
  {
    Digest(salt, hasher(password, salt))
  }

  /** The `/me` handler as written: it reads `req.user._id`, but the
      authentication step builds `req.user` with `id`, so `_id` is always
      missing from the answer. */
  function GetMeAsWritten(user: AuthUser): (r: Me)
    ensures r.username == user.username && r.email == user.email
    ensures r._id.None?
  {
    Me(None, user.username, user.email)
  }

  /** The `/me` handler answering with the authenticated user's id. */
  function GetMe(user: AuthUser): (r: Me)
    ensures r == Me(Some(user.id), user.username, user.email)
  {
    Me(Some(user.id), user.username, user.email)
  }

  /** The discrepancy: for every authenticated user the handler as written
      loses the id the corrected one reports. */
  lemma GetMeLosesId(user: AuthUser)
    ensures GetMeAsWritten(user)._id != GetMe(user)._id
    ensures GetMe(user)._id.value == user.id
  {
  }

  class Registry {
    var users: seq<User>

    /** Emails and ids are unique in the table. */
    ghost predicate Valid()
      reads this
    {
      EmailsUnique(users) && IdsUnique(users)
    }

    constructor ()
      ensures Valid() && users == []
    {
      users := [];
    }

    /** `POST /register`: an email already in the table answers 400 and
        stores nothing; otherwise exactly one user is appended, holding the
        salted digest of the password, and the answer is 201. `freshId` is
        the id the store allocates. */
    method Register(username: string, email: string, password: string, salt: Salt,
                    freshId: UserId, hasher: Hasher) returns (reply: Reply)
      requires Valid()
      requires forall k :: 0 <= k < |users| ==> users[k].id != freshId
      modifies this
      ensures Valid()
      ensures FindUser(old(users), email).Some? ==>
        reply == Reply(400, "Email already in use") && users == old(users)
      ensures FindUser(old(users), email).None? ==>
        && reply == Reply(201, "User created successfully")
        && users == old(users) + [User(freshId, username, email, HashPassword(hasher, password, salt))]
    {
      var existing := FindUser(users, email);
      if existing.Some? {
        return Reply(400, "Email already in use");
      }
      var hashed := HashPassword(hasher, password, salt);
      users := users + [User(freshId, username, email, hashed)];
      reply := Reply(201, "User created successfully");
    }

    /** `POST /login`: an unknown email answers 400 "User not found", a
        password the digest rejects 400 "Invalid credentials"; otherwise a
        token signed over the user's id and name, expiring one day after
        `now`, and the user's summary. Nothing changes. */
    method Login(email: string, password: string, now: int, hasher: Hasher, sign: Signer)
      returns (reply: LoginReply)
      ensures FindUser(users, email).None? ==> reply == LoginFailed(400, "User not found")
      ensures FindUser(users, email).Some? && !Matches(hasher, password, FindUser(users, email).value.password) ==>
        reply == LoginFailed(400, "Invalid credentials")
      ensures FindUser(users, email).Some? && Matches(hasher, password, FindUser(users, email).value.password) ==>
        var u := FindUser(users, email).value;
        reply == LoggedIn(sign(Claims(u.id, u.username, now, now + OneDay)), Profile(u.id, u.username, u.email))
      ensures reply.LoggedIn? ==>
        exists u :: u in users && u.email == email && Matches(hasher, password, u.password)
          && reply == LoggedIn(sign(Claims(u.id, u.username, now, now + OneDay)), Profile(u.id, u.username, u.email))
    {
      var found := FindUser(users, email);
      if found.None? {
        return LoginFailed(400, "User not found");
      }
      var user := found.value;
      if !Matches(hasher, password, user.password) {
        return LoginFailed(400, "Invalid credentials");
      }
      var token := sign(Claims(user.id, user.username, now, now + OneDay));
      reply := LoggedIn(token, Profile(user.id, user.username, user.email));
    }

    /** `POST /register` with a new email followed by `POST /login` with the
        same email and password: the registration answers 201 and the login
        succeeds for the new user, with a token over its id and name. */
    method RegisterThenLogin(username: string, email: string, password: string, salt: Salt,
                             freshId: UserId, hasher: Hasher, now: int, sign: Signer)
      returns (registered: Reply, login: LoginReply)
      requires Valid()
      requires forall k :: 0 <= k < |users| ==> users[k].id != freshId
      requires FindUser(users, email).None?
      modifies this
      ensures Valid()
      ensures registered == Reply(201, "User created successfully")
      ensures login == LoggedIn(sign(Claims(freshId, username, now, now + OneDay)), Profile(freshId, username, email))
    {
      registered := Register(username, email, password, salt, freshId, hasher);
      var u := User(freshId, username, email, HashPassword(hasher, password, salt));
      assert u in users;
      FindUserFindsOwner(users, u);
      login := Login(email, password, now, hasher, sign);
    }

    /** `POST /logout`: always 200; the table is not touched. */
    method Logout() returns (reply: Reply)
      ensures reply.status == 200 && reply.message == "Logged out successfully"
    {
      reply := Reply(200, "Logged out successfully");
    }
  }
}
