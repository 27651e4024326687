/**
 * Registration and Telegram login of handler/user.go over an in-memory
 * `users` table. Password hashing and token signing are library calls: the
 * hash is an input and a token is represented by the claims it would carry.
 */
module Users {
  import opened Common
  import TelegramAuth

  /** A `model.User` row. */
  datatype User = User(id: Uuid, username: string, password: string)

  /** The registration body. */
  datatype Credentials = Credentials(username: string, password: string)

  /** The claims a signed token carries (the 30-day expiry is left out). */
  datatype Claims = Claims(username: string, id: Uuid)

  /** The ways the user handlers answer with an error. */
  datatype UserError =
    | InvalidInput                                  // the body could not be parsed
    | ValidationFailed                              // a required field is empty
    | UsernameTaken                                 // "user with this username already exists"
    | RegistrationFailed                            // the database refused the new row
    | BotTokenMissing                               // BOT_TOKEN is not set
    | Unauthorized(cause: TelegramAuth.AuthError)   // the verifier's error, answered with 401
    | AuthenticationFailed                          // the verifier said no without an error

  datatype Outcome<T> = Success(value: T) | Failure(error: UserError)

  /** True when some stored user has the name; the `Where("username = ?").First` lookup finds it. */
  predicate Taken(m: map<Uuid, User>, name: string)
  {
    exists id :: id in m && m[id].username == name
  }

  /** What the table keeps: rows under their own keys, and no two users with one name. */
  ghost predicate Consistent(m: map<Uuid, User>)
  {
    && (forall id :: id in m ==> m[id].id == id)
    && (forall a, b :: a in m && b in m && m[a].username == m[b].username ==> a == b)
  }

  /**
   * In a consistent table a taken name belongs to exactly one stored user, so
   * the row the username lookup finds is determined by the name.
   */
  lemma TakenUnique(m: map<Uuid, User>, name: string) returns (id: Uuid)
    requires Consistent(m) && Taken(m, name)
    ensures id in m && m[id].username == name
    ensures forall other :: other in m && m[other].username == name ==> other == id
  {
    id :| id in m && m[id].username == name;
  }

  /** Adding a user under a fresh id and an unused name keeps the table consistent. */
  lemma InsertKeepsConsistent(m: map<Uuid, User>, u: User)
    requires Consistent(m) && u.id !in m && !Taken(m, u.username)
    ensures Consistent(m[u.id := u])
  {
    forall k | k in m
      ensures m[k].username != u.username
    {
    }
  }

  /** The answer of a handler together with the table it leaves behind. */
  datatype Transition = Transition(outcome: Outcome<Claims>, store: map<Uuid, User>)

  /**
   * `Register`: a taken username is refused and leaves the table as it was;
   * otherwise exactly one user, with the fresh id `newId` and the password
   * hash `hashed`, is added and a token is issued for it.
   */
  function RegisterTransition(m: map<Uuid, User>, body: Option<Credentials>, hashed: string, newId: Uuid): (t: Transition)
    ensures t.outcome.Failure? ==> t.store == m
    ensures body.None? ==> t.outcome == Failure(InvalidInput)
    ensures body.Some? && (body.value.username == "" || body.value.password == "") ==>
      t.outcome == Failure(ValidationFailed)
    ensures body.Some? && body.value.username != "" && body.value.password != "" && Taken(m, body.value.username) ==>
      t.outcome == Failure(UsernameTaken)
    ensures (body.Some? && body.value.username != "" && body.value.password != ""
             && !Taken(m, body.value.username) && newId in m) ==>
      t.outcome == Failure(RegistrationFailed)
    ensures t.outcome.Success? <==>
      body.Some? && body.value.username != "" && body.value.password != ""
      && !Taken(m, body.value.username) && newId !in m
    ensures t.outcome.Success? ==>
      && t.outcome.value == Claims(body.value.username, newId)
      && t.store == m[newId := User(newId, body.value.username, hashed)]
      && |t.store| == |m| + 1
  {
    if body.None? then Transition(Failure(InvalidInput), m)
    else if body.value.username == "" || body.value.password == "" then Transition(Failure(ValidationFailed), m)
    else if Taken(m, body.value.username) then Transition(Failure(UsernameTaken), m)
    else if newId in m then Transition(Failure(RegistrationFailed), m)
    else Transition(Success(Claims(body.value.username, newId)), m[newId := User(newId, body.value.username, hashed)])
  }

  /** Registration keeps the table consistent. */
  lemma RegisterKeepsConsistent(m: map<Uuid, User>, body: Option<Credentials>, hashed: string, newId: Uuid)
    requires Consistent(m)
    ensures Consistent(RegisterTransition(m, body, hashed, newId).store)
  {
    var t := RegisterTransition(m, body, hashed, newId);
    if t.outcome.Success? {
      InsertKeepsConsistent(m, User(newId, body.value.username, hashed));
    }
  }

  /** A second registration under the same name is refused. */
  lemma RegisterTwiceRefused(m: map<Uuid, User>, body: Credentials, h1: string, h2: string, id1: Uuid, id2: Uuid)
    requires RegisterTransition(m, Some(body), h1, id1).outcome.Success?
    ensures var m1 := RegisterTransition(m, Some(body), h1, id1).store;
      RegisterTransition(m1, Some(body), h2, id2) == Transition(Failure(UsernameTaken), m1)
  {
    var m1 := RegisterTransition(m, Some(body), h1, id1).store;
    assert m1[id1].username == body.username;
  }

  /**
   * `Authenticate` as written: after a successful Telegram verification, a user
   * named after the Telegram username (with the Telegram id as its password)
   * is created when no user has that name yet, and the token is issued for
   * the new user value, fresh id included, whether or not it was stored.
   */
  function AuthenticateTransition(m: map<Uuid, User>, body: Option<TelegramAuth.AuthData>, botToken: string,
                                  now: Instant, crypto: TelegramAuth.Crypto, order: seq<string>, newId: Uuid): (t: Transition)
    requires multiset(order) == multiset(TelegramAuth.MapKeys)
    ensures body.None? ==> t.outcome == Failure(InvalidInput)
    ensures body.Some? && botToken == "" ==> t.outcome == Failure(BotTokenMissing)
    ensures body.Some? && botToken != "" ==>
      var verdict := TelegramAuth.VerifyTelegramAuth(botToken, body.value, body.value.hash, now, crypto, order);
      verdict.err.Some? ==> t.outcome == Failure(Unauthorized(verdict.err.value))
    ensures t.outcome.Success? <==>
      body.Some? && botToken != ""
      && TelegramAuth.VerifyTelegramAuth(botToken, body.value, body.value.hash, now, crypto, order).valid
    ensures t.outcome.Success? ==> t.outcome.value == Claims(body.value.username, newId)
    ensures t.outcome != Failure(AuthenticationFailed)
    ensures t.outcome.Success? && !Taken(m, body.value.username) && newId !in m ==>
      t.store == m[newId := User(newId, body.value.username, body.value.id)]
    ensures t.outcome.Failure? || Taken(m, body.value.username) || newId in m ==> t.store == m
  {
    if body.None? then Transition(Failure(InvalidInput), m)
    else if botToken == "" then Transition(Failure(BotTokenMissing), m)
    else
      var data := body.value;
      var verdict := TelegramAuth.VerifyTelegramAuth(botToken, data, data.hash, now, crypto, order);
      if verdict.err.Some? then Transition(Failure(Unauthorized(verdict.err.value)), m)
      else
        var newUser := User(newId, data.username, data.id);
        var store := if !Taken(m, data.username) && newId !in m then m[newId := newUser] else m;
        Transition(Success(Claims(newUser.username, newUser.id)), store)
  }

  /** Telegram login keeps the table consistent. */
  lemma AuthenticateKeepsConsistent(m: map<Uuid, User>, body: Option<TelegramAuth.AuthData>, botToken: string,
                                    now: Instant, crypto: TelegramAuth.Crypto, order: seq<string>, newId: Uuid)
    requires multiset(order) == multiset(TelegramAuth.MapKeys)
    requires Consistent(m)
    ensures Consistent(AuthenticateTransition(m, body, botToken, now, crypto, order, newId).store)
  {
    var t := AuthenticateTransition(m, body, botToken, now, crypto, order, newId);
    if t.outcome.Success? && !Taken(m, body.value.username) && newId !in m {
      InsertKeepsConsistent(m, User(newId, body.value.username, body.value.id));
    }
  }

  /**
   * A returning Telegram user gets a token whose id names no stored user: the
   * stored user with that name keeps its own id and the fresh id is stored
   * nowhere.
   */
  lemma ReturningUserTokenNamesNoUser(m: map<Uuid, User>, data: TelegramAuth.AuthData, botToken: string,
                                      now: Instant, crypto: TelegramAuth.Crypto, order: seq<string>, newId: Uuid)
    requires multiset(order) == multiset(TelegramAuth.MapKeys)
    requires Taken(m, data.username) && newId !in m
    requires AuthenticateTransition(m, Some(data), botToken, now, crypto, order, newId).outcome.Success?
    ensures var t := AuthenticateTransition(m, Some(data), botToken, now, crypto, order, newId);
      t.store == m && t.outcome.value.id !in t.store
  {
  }

  /**
   * `Authenticate` as evidently intended: the token names the user that is
   * stored under the Telegram username, whether it was just created or
   * already there.
   */
  ghost function AuthenticateIntendedTransition(m: map<Uuid, User>, body: Option<TelegramAuth.AuthData>, botToken: string,
                                          now: Instant, crypto: TelegramAuth.Crypto, order: seq<string>, newId: Uuid): (t: Transition)
    requires multiset(order) == multiset(TelegramAuth.MapKeys)
    requires Consistent(m)
    ensures Consistent(t.store)
    ensures t.outcome.Success? ==> body.Some?
    ensures t.outcome.Success? ==>
      && t.outcome.value.id in t.store
      && t.store[t.outcome.value.id].username == t.outcome.value.username == body.value.username
    ensures t.outcome.Success? && Taken(m, body.value.username) ==> t.store == m
  {
    if body.None? then Transition(Failure(InvalidInput), m)
    else if botToken == "" then Transition(Failure(BotTokenMissing), m)
    else
      var data := body.value;
      var verdict := TelegramAuth.VerifyTelegramAuth(botToken, data, data.hash, now, crypto, order);
      if verdict.err.Some? then Transition(Failure(Unauthorized(verdict.err.value)), m)
      else if Taken(m, data.username) then
        var id :| id in m && m[id].username == data.username;
        Transition(Success(Claims(data.username, id)), m)
      else if newId in m then Transition(Failure(RegistrationFailed), m)
      else
        var user := User(newId, data.username, data.id);
        InsertKeepsConsistent(m, user);
        Transition(Success(Claims(data.username, newId)), m[newId := user])
  }

  /** The `users` table and the handlers that write it. */
  class UserStore {
    var users: map<Uuid, User>

    ghost predicate Valid()
      reads this
    {
      Consistent(users)
    }

    constructor ()
      ensures users == map[] && Valid()
    {
      users := map[];
    }

    /** `Register`, with the bcrypt hash of the password and the fresh id as inputs. */
    method Register(body: Option<Credentials>, hashed: string, newId: Uuid) returns (r: Outcome<Claims>)
      requires Valid()
      modifies this
      ensures Valid()
      ensures r == RegisterTransition(old(users), body, hashed, newId).outcome
      ensures users == RegisterTransition(old(users), body, hashed, newId).store
    {
      if body.None? {
        return Failure(InvalidInput);
      }
      var user := body.value;
      if user.username == "" || user.password == "" {
        return Failure(ValidationFailed);
      }
      if Taken(users, user.username) {
        return Failure(UsernameTaken);
      }
      var newUser := User(newId, user.username, hashed);
      if newId in users {
        return Failure(RegistrationFailed);
      }
      InsertKeepsConsistent(users, newUser);
      users := users[newId := newUser];
      return Success(Claims(newUser.username, newUser.id));
    }

    /**
     * `Authenticate`, with the bot token, the clock, the hash functions, the
     * map's key order and the fresh id as inputs. The result of creating the
     * user is not checked, so a failed insert still issues a token.
     */
    method Authenticate(body: Option<TelegramAuth.AuthData>, botToken: string, now: Instant,
                        crypto: TelegramAuth.Crypto, order: seq<string>, newId: Uuid)
      returns (r: Outcome<Claims>)
      requires multiset(order) == multiset(TelegramAuth.MapKeys)
      requires Valid()
      modifies this
      ensures Valid()
      ensures r == AuthenticateTransition(old(users), body, botToken, now, crypto, order, newId).outcome
      ensures users == AuthenticateTransition(old(users), body, botToken, now, crypto, order, newId).store
    {
      if body.None? {
        return Failure(InvalidInput);
      }
      if botToken == "" {
        return Failure(BotTokenMissing);
      }
      var data := body.value;
      var verdict := TelegramAuth.VerifyTelegramAuth(botToken, data, data.hash, now, crypto, order);
      if verdict.err.Some? {
        return Failure(Unauthorized(verdict.err.value));
      }
      // The handler's `!valid` branch is dead: the verifier never answers (false, nil).
      if !verdict.valid {
        assert false;
      }
      var newUser := User(newId, data.username, data.id);
      if !Taken(users, newUser.username) {
        if newId !in users {
          InsertKeepsConsistent(users, newUser);
          users := users[newId := newUser];
        }
      }
      return Success(Claims(newUser.username, newUser.id));
    }

    /**
     * `Authenticate` as evidently intended: a returning user gets a token for
     * the stored row with that name, and a new user is stored before the token
     * for it is issued.
     */
    method AuthenticateIntended(body: Option<TelegramAuth.AuthData>, botToken: string, now: Instant,
                                crypto: TelegramAuth.Crypto, order: seq<string>, newId: Uuid)
      returns (r: Outcome<Claims>)
      requires multiset(order) == multiset(TelegramAuth.MapKeys)
      requires Valid()
      modifies this
      ensures Valid()
      ensures r == AuthenticateIntendedTransition(old(users), body, botToken, now, crypto, order, newId).outcome
      ensures users == AuthenticateIntendedTransition(old(users), body, botToken, now, crypto, order, newId).store
    {
      if body.None? {
        return Failure(InvalidInput);
      }
      if botToken == "" {
        return Failure(BotTokenMissing);
      }
      var data := body.value;
      var verdict := TelegramAuth.VerifyTelegramAuth(botToken, data, data.hash, now, crypto, order);
      if verdict.err.Some? {
        return Failure(Unauthorized(verdict.err.value));
      }
      if Taken(users, data.username) {
        var id :| id in users && users[id].username == data.username;
        return Success(Claims(data.username, id));
      }
      if newId in users {
        return Failure(RegistrationFailed);
      }
      var newUser := User(newId, data.username, data.id);
      InsertKeepsConsistent(users, newUser);
      users := users[newId := newUser];
      return Success(Claims(newUser.username, newUser.id));
    }
  }
}
