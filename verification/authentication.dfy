/**
  The authentication state machine as transitions over the tables: each
  handler takes the database before the request and gives the database after
  it together with the HTTP-level response.

  The collaborators the handlers call but whose code is not part of this
  model (the lockout service, BCrypt, the OtpNet TOTP check, Guid.TryParse,
  the clock, and the expiry CreateTotpToken stamps on a challenge) come in
  through an `Env`; freshly generated Guids and the random TOTP key come in
  as arguments, with the promise the generator gives (a Guid no row uses,
  a key of 20 bytes).
 */
module Authentication {
  import opened Wrappers
  import opened Base32
  import opened Schema

  /** What a handler answers; Fault is the unhandled exception (HTTP 500). */
  datatype Response<+T> = Ok(value: T) | BadRequest | NotFound | Fault

  /** The database after a request and the answer to it. */
  datatype Outcome<+T> = Outcome(db: Db, response: Response<T>)

  datatype LoginRequest = LoginRequest(login: string, password: string)

  datatype TotpRequest = TotpRequest(totpToken: Guid, secret: string)

  datatype LogoutRequest = LogoutRequest(token: string)

  datatype RegisterRequest = RegisterRequest(
    email: string,
    login: string,
    name: string,
    surname: string,
    password: string)

  datatype RegisterResponse = RegisterResponse(secret: string, totpToken: Guid)

  /** The collaborators of the handlers, as seen at the time of one request. */
  datatype Env = Env(
    now: Timestamp,                                   // DateTime.UtcNow
    isUserLockedOut: (Option<Guid>, string) -> bool,  // ILockoutService.IsUserLockedOut(user, login)
    verifyPassword: (string, string) -> bool,         // BCrypt.Verify(candidate, hash)
    hashPassword: string -> string,                   // BCrypt.HashPassword
    verifyTotp: (seq<byte>, string) -> bool,          // new OtpNet.Totp(secret).VerifyTotp(code)
    tryParseGuid: string -> Option<Guid>,             // Guid.TryParse
    challengeUntil: Timestamp)                        // expiry CreateTotpToken gives a new challenge

  /** The number of bytes of a freshly generated TOTP secret. */
  const SecretLength := 20

  // ---------------------------------------------------------------------
  // Effects of the database service, as the handlers use them
  // ---------------------------------------------------------------------

  /** LogLoginAttempt(user): one more attempt against a known user. */
  function LogUserAttempt(db: Db, userId: Guid, now: Timestamp, id: Guid): (r: Db)
    requires id !in db.loginAttempts
    ensures r == db.(loginAttempts := r.loginAttempts)
    ensures r.loginAttempts.Keys == db.loginAttempts.Keys + {id}
    ensures r.loginAttempts[id] == UserLoginAttempt(now, userId)
    ensures forall k :: k in db.loginAttempts ==> r.loginAttempts[k] == db.loginAttempts[k]
    ensures Wf(db) && userId in db.users ==> Wf(r)
  {
    db.(loginAttempts := db.loginAttempts[id := UserLoginAttempt(now, userId)])
  }

  /** LogLoginAttempt(login): one more honeypot attempt, keyed by the raw login text. */
  function LogHoneypotAttempt(db: Db, login: string, now: Timestamp, id: Guid): (r: Db)
    requires id !in db.honeypotAttempts
    ensures r == db.(honeypotAttempts := r.honeypotAttempts)
    ensures r.honeypotAttempts.Keys == db.honeypotAttempts.Keys + {id}
    ensures r.honeypotAttempts[id] == UserLoginHoneypotAttempt(now, login)
    ensures forall k :: k in db.honeypotAttempts ==> r.honeypotAttempts[k] == db.honeypotAttempts[k]
    ensures Wf(db) ==> Wf(r)
  {
    db.(honeypotAttempts := db.honeypotAttempts[id := UserLoginHoneypotAttempt(now, login)])
  }

  /** CreateTotpToken(user): one more challenge for the user, under the key `id`. */
  function AddTotpToken(db: Db, userId: Guid, until: Timestamp, id: Guid): (r: Db)
    requires id !in db.totpTokens
    ensures r == db.(totpTokens := r.totpTokens)
    ensures r.totpTokens.Keys == db.totpTokens.Keys + {id}
    ensures r.totpTokens[id] == TotpToken(userId, until)
    ensures forall k :: k in db.totpTokens ==> r.totpTokens[k] == db.totpTokens[k]
    ensures Wf(db) && userId in db.users ==> Wf(r)
  {
    db.(totpTokens := db.totpTokens[id := TotpToken(userId, until)])
  }

  /** GenerateUserToken(user): one more session token for the user, under the key `id`. */
  function AddUserToken(db: Db, userId: Guid, id: Guid): (r: Db)
    requires id !in db.userTokens
    ensures r == db.(userTokens := r.userTokens)
    ensures r.userTokens.Keys == db.userTokens.Keys + {id}
    ensures r.userTokens[id] == UserToken(userId)
    ensures forall k :: k in db.userTokens ==> r.userTokens[k] == db.userTokens[k]
    ensures Wf(db) && userId in db.users ==> Wf(r)
  {
    db.(userTokens := db.userTokens[id := UserToken(userId)])
  }

  /** Users.Add: one more user, whose Password and Totp rows must exist. */
  function AddUser(db: Db, user: User, id: Guid): (r: Db)
    requires id !in db.users
    ensures r == db.(users := r.users)
    ensures r.users.Keys == db.users.Keys + {id}
    ensures r.users[id] == user
    ensures forall k :: k in db.users ==> r.users[k] == db.users[k]
    ensures Wf(db) && user.passwordId in db.passwords && user.totpId in db.totps ==> Wf(r)
  {
    db.(users := db.users[id := user])
  }

  // ---------------------------------------------------------------------
  // Lookup of a user by login
  // ---------------------------------------------------------------------

  /** What SingleOrDefault finds: no row, exactly one, or more than one (it throws). */
  datatype Lookup = Absent | Unique(id: Guid) | Ambiguous

  function UsersWithLogin(users: map<Guid, User>, login: string): (matches: set<Guid>)
  {
    set id | id in users && users[id].login == login
  }

  lemma SingletonMember(s: set<Guid>, a: Guid, b: Guid)
    requires |s| == 1 && a in s && b in s
    ensures a == b
  {
    assert |s - {a}| == 0;
  }

  /** `Users.SingleOrDefault(u => u.Login == login)`. */
  ghost function FindByLogin(users: map<Guid, User>, login: string): (r: Lookup)
    ensures r.Unique? ==> r.id in users && users[r.id].login == login
  {
    var matches := UsersWithLogin(users, login);
    if |matches| == 0 then Absent
    else if |matches| == 1 then var id :| id in matches; Unique(id)
    else Ambiguous
  }

  /**
    FindByLogin finds nothing exactly when no user has the login, and when it
    finds one user, no other user has that login.
   */
  lemma FindByLoginCorrect(users: map<Guid, User>, login: string)
    ensures FindByLogin(users, login).Absent? <==> forall id :: id in users ==> users[id].login != login
    ensures FindByLogin(users, login).Unique? ==>
              forall id :: id in users && users[id].login == login ==> id == FindByLogin(users, login).id
  {
    var matches := UsersWithLogin(users, login);
    var r := FindByLogin(users, login);
    if |matches| == 0 {
      assert matches == {};
      forall id | id in users ensures users[id].login != login {
        assert id !in matches;
      }
    } else if r.Unique? {
      forall other | other in users && users[other].login == login ensures other == r.id {
        assert other in matches;
        SingletonMember(matches, other, r.id);
      }
    } else {
      var a :| a in matches;
      assert a in users && users[a].login == login;
    }
  }

  /** SingleOrDefault throws exactly when two distinct users have the login. */
  lemma AmbiguousIffSharedLogin(users: map<Guid, User>, login: string)
    ensures FindByLogin(users, login) == Ambiguous <==>
              exists a, b :: a in users && b in users && a != b &&
                             users[a].login == login && users[b].login == login
  {
    FindByLoginCorrect(users, login);
    var matches := UsersWithLogin(users, login);
    if FindByLogin(users, login) == Ambiguous {
      var a :| a in matches;
      assert |matches - {a}| > 0;
      var b :| b in matches - {a};
      assert b in users && users[b].login == login;
    }
  }

  // ---------------------------------------------------------------------
  // The four handlers
  // ---------------------------------------------------------------------

  /** The lockout verdict on the user the login names (None when no user has it). */
  ghost predicate LockedOut(db: Db, login: string, env: Env)
  {
    match FindByLogin(db.users, login)
    case Absent => env.isUserLockedOut(None, login)
    case Unique(u) => env.isUserLockedOut(Some(u), login)
    case Ambiguous => false
  }

  /** The password hash stored for a user. */
  function StoredHash(db: Db, userId: Guid): (hash: string)
    requires Wf(db) && userId in db.users
  {
    db.passwords[db.users[userId].passwordId].secret
  }

  /**
    LoginHandler. The lookup runs first and throws when two users share the
    login. The lockout check comes before any password check; a locked out
    login is answered NotFound, as if it did not exist. A wrong password logs
    one attempt against the user, an unknown login one honeypot attempt
    against the login text; both answer BadRequest. A right password creates
    one challenge, under `newId`, and answers Ok with it.
   */
  ghost function Login(db: Db, req: LoginRequest, env: Env, newId: Guid): (o: Outcome<Guid>)
    requires Wf(db) && Unused(db, newId)
    ensures Wf(o.db)
    ensures o.response.Fault? <==> FindByLogin(db.users, req.login).Ambiguous?
    ensures o.response.NotFound? <==> LockedOut(db, req.login, env)
    ensures o.response.Ok? <==>
              && FindByLogin(db.users, req.login).Unique?
              && !LockedOut(db, req.login, env)
              && env.verifyPassword(req.password, StoredHash(db, FindByLogin(db.users, req.login).id))
  {
    match FindByLogin(db.users, req.login)
    case Ambiguous => Outcome(db, Fault)
    case Absent =>
      if env.isUserLockedOut(None, req.login) then Outcome(db, NotFound)
      else Outcome(LogHoneypotAttempt(db, req.login, env.now, newId), BadRequest)
    case Unique(u) =>
      if env.isUserLockedOut(Some(u), req.login) then Outcome(db, NotFound)
      else if !env.verifyPassword(req.password, StoredHash(db, u)) then
        Outcome(LogUserAttempt(db, u, env.now, newId), BadRequest)
      else
        Outcome(AddTotpToken(db, u, env.challengeUntil, newId), Ok(newId))
  }

  /**
    What each answer of Login did to the tables: Fault and NotFound change
    nothing; Ok adds exactly the challenge `newId` for the user found; a
    BadRequest adds exactly one attempt, against the user when the login was
    found and against the login text when it was not.
   */
  lemma LoginEffects(db: Db, req: LoginRequest, env: Env, newId: Guid)
    requires Wf(db) && Unused(db, newId)
    ensures var o := Login(db, req, env, newId);
            o.response.Fault? || o.response.NotFound? ==> o.db == db
    ensures var o := Login(db, req, env, newId);
            o.response.Ok? ==>
              && o.response.value == newId
              && o.db == AddTotpToken(db, FindByLogin(db.users, req.login).id, env.challengeUntil, newId)
    ensures var o := Login(db, req, env, newId);
            o.response.BadRequest? && FindByLogin(db.users, req.login).Unique? ==>
              o.db == LogUserAttempt(db, FindByLogin(db.users, req.login).id, env.now, newId)
    ensures var o := Login(db, req, env, newId);
            o.response.BadRequest? && FindByLogin(db.users, req.login).Absent? ==>
              o.db == LogHoneypotAttempt(db, req.login, env.now, newId)
  {
  }

  /**
    A rejected login creates no token and logs exactly one attempt, either
    against the user or, for an unknown login, against the login text.
   */
  lemma RejectedLoginLogsOneAttempt(db: Db, req: LoginRequest, env: Env, newId: Guid)
    requires Wf(db) && Unused(db, newId)
    requires Login(db, req, env, newId).response == BadRequest
    ensures var after := Login(db, req, env, newId).db;
            && after.totpTokens == db.totpTokens && after.userTokens == db.userTokens
            && |after.loginAttempts| + |after.honeypotAttempts|
               == |db.loginAttempts| + |db.honeypotAttempts| + 1
  {
  }

  /** A challenge has expired only once its `until` lies strictly before `now`. */
  predicate Expired(token: TotpToken, now: Timestamp)
  {
    token.until < now
  }

  /** The TOTP secret of the user a challenge belongs to. */
  function ChallengeSecret(db: Db, token: TotpToken): (secret: seq<byte>)
    requires Wf(db) && token.userId in db.users
  {
    db.totps[db.users[token.userId].totpId].secret
  }

  /**
    TotpHandler. An unknown challenge answers BadRequest and changes nothing.
    An expired one is removed and answers BadRequest. A wrong code answers
    BadRequest and leaves the challenge in place. A right code creates one
    session token for the challenge's user, under `newId`, removes the
    challenge and answers Ok with the token.
   */
  function SubmitTotp(db: Db, req: TotpRequest, env: Env, newId: Guid): (o: Outcome<Guid>)
    requires Wf(db) && Unused(db, newId)
    ensures Wf(o.db)
    ensures req.totpToken !in db.totpTokens ==> o == Outcome(db, BadRequest)
    ensures req.totpToken in db.totpTokens && Expired(db.totpTokens[req.totpToken], env.now) ==>
              o == Outcome(db.(totpTokens := db.totpTokens - {req.totpToken}), BadRequest)
    ensures o.response.Ok? <==>
              && req.totpToken in db.totpTokens
              && !Expired(db.totpTokens[req.totpToken], env.now)
              && env.verifyTotp(ChallengeSecret(db, db.totpTokens[req.totpToken]), req.secret)
    ensures o.response.Ok? ==>
              && o.response.value == newId
              && o.db == AddUserToken(db, db.totpTokens[req.totpToken].userId, newId)
                           .(totpTokens := db.totpTokens - {req.totpToken})
    ensures !o.response.Ok? ==> o.response == BadRequest && o.db.userTokens == db.userTokens
    ensures (o.response == BadRequest && req.totpToken in db.totpTokens
             && !Expired(db.totpTokens[req.totpToken], env.now)) ==> o.db == db
  {
    if req.totpToken !in db.totpTokens then
      Outcome(db, BadRequest)
    else
      var token := db.totpTokens[req.totpToken];
      if Expired(token, env.now) then
        Outcome(db.(totpTokens := db.totpTokens - {req.totpToken}), BadRequest)
      else if !env.verifyTotp(ChallengeSecret(db, token), req.secret) then
        Outcome(db, BadRequest)
      else
        var issued := AddUserToken(db, token.userId, newId);
        Outcome(issued.(totpTokens := issued.totpTokens - {req.totpToken}), Ok(newId))
  }

  /**
    LogoutHandler. A token text that does not parse, and a parsed token no
    row has, answer BadRequest and change nothing. A present token is
    removed, and only it; the answer is Ok.
   */
  function Logout(db: Db, req: LogoutRequest, env: Env): (o: Outcome<()>)
    requires Wf(db)
    ensures Wf(o.db)
    ensures o.response.Ok? <==>
              env.tryParseGuid(req.token).Some? && env.tryParseGuid(req.token).value in db.userTokens
    ensures o.response.Ok? ==>
              o.db == db.(userTokens := db.userTokens - {env.tryParseGuid(req.token).value})
    ensures !o.response.Ok? ==> o == Outcome(db, BadRequest)
  {
    match env.tryParseGuid(req.token)
    case None => Outcome(db, BadRequest)
    case Some(id) =>
      if id !in db.userTokens then Outcome(db, BadRequest)
      else Outcome(db.(userTokens := db.userTokens - {id}), Ok(()))
  }

  /** The provisioning URI handed out at registration. */
  function KeyUri(login: string, secret: seq<byte>): (uri: string)
    ensures var start, text := SecretStart(login), Encode(secret);
            && |uri| == start + |text| + |"&issuer=Panel"|
            && uri[start..start + |text|] == text
  {
    var head := "otpauth://totp/Panel:" + login + "?secret=";
    var text := Encode(secret);
    assert (head + text + "&issuer=Panel")[|head|..|head| + |text|] == text;
    head + text + "&issuer=Panel"
  }

  /** Where the Base32 secret starts in the provisioning URI. */
  function SecretStart(login: string): (start: nat)
  {
    |"otpauth://totp/Panel:"| + |login| + |"?secret="|
  }

  /** The secret bytes can be read back from the provisioning URI. */
  lemma KeyUriCarriesSecret(login: string, secret: seq<byte>)
    requires |secret| == SecretLength
    ensures var uri := KeyUri(login, secret);
            var start := SecretStart(login);
            && |uri| == start + 32 + |"&issuer=Panel"|
            && Decode(uri[start..start + 32]) == Some(secret)
  {
    SecretTextLength(secret);
    DecodeEncode(secret);
  }

  /** A secret of 20 bytes is 32 Base32 characters, with no padding. */
  lemma SecretTextLength(secret: seq<byte>)
    requires |secret| == SecretLength
    ensures |Encode(secret)| == 32
  {
    EncodedLength(secret);
  }

  /**
    RegisterHandler. No check that the login is free. It adds one Password
    holding the hash of the password, one Totp holding the fresh 20-byte key,
    one User with the request's fields linked to both, and one challenge for
    that user; it always answers Ok with the provisioning URI and the challenge.
   */
  function Register(
    db: Db, req: RegisterRequest, env: Env, randomKey: seq<byte>,
    passwordId: Guid, totpId: Guid, userId: Guid, tokenId: Guid): (o: Outcome<RegisterResponse>)
    requires Wf(db) && |randomKey| == SecretLength
    requires Unused(db, passwordId) && Unused(db, totpId) && Unused(db, userId) && Unused(db, tokenId)
    ensures Wf(o.db)
    ensures o.response == Ok(RegisterResponse(KeyUri(req.login, randomKey), tokenId))
    ensures o.db.passwords == db.passwords[passwordId := Password(env.hashPassword(req.password))]
    ensures o.db.totps == db.totps[totpId := Totp(randomKey)]
    ensures o.db.users ==
              db.users[userId := User(req.email, req.login, req.name, req.surname, passwordId, totpId)]
    ensures o.db.totpTokens == db.totpTokens[tokenId := TotpToken(userId, env.challengeUntil)]
    ensures o.db == db.(passwords := o.db.passwords, totps := o.db.totps,
                        users := o.db.users, totpTokens := o.db.totpTokens)
  {
    var withPassword := db.(passwords := db.passwords[passwordId := Password(env.hashPassword(req.password))]);
    assert Wf(withPassword);
    var withTotp := withPassword.(totps := withPassword.totps[totpId := Totp(randomKey)]);
    assert Wf(withTotp);
    var withUser := AddUser(withTotp, User(req.email, req.login, req.name, req.surname, passwordId, totpId), userId);
    Outcome(AddTotpToken(withUser, userId, env.challengeUntil, tokenId),
            Ok(RegisterResponse(KeyUri(req.login, randomKey), tokenId)))
  }

  /**
    The three rows registration adds before its challenge (the Password, the
    Totp and the User pointing at both) keep referential integrity.
   */
  lemma AccountRowsKeepIntegrity(
    db: Db, password: Password, totp: Totp, user: User, passwordId: Guid, totpId: Guid, userId: Guid)
    requires Wf(db) && user.passwordId == passwordId && user.totpId == totpId
    ensures Wf(db.(passwords := db.passwords[passwordId := password],
                   totps := db.totps[totpId := totp],
                   users := db.users[userId := user]))
  {
  }

  // ---------------------------------------------------------------------
  // Properties over several requests
  // ---------------------------------------------------------------------

  /** A locked out login gets NotFound whatever the password, and nothing changes. */
  lemma LockoutHidesPassword(
    db: Db, req: LoginRequest, env: Env, verify: (string, string) -> bool, newId: Guid)
    requires Wf(db) && Unused(db, newId)
    requires FindByLogin(db.users, req.login) != Ambiguous
    requires env.isUserLockedOut(
               if FindByLogin(db.users, req.login).Unique?
               then Some(FindByLogin(db.users, req.login).id) else None,
               req.login)
    ensures Login(db, req, env, newId) == Outcome(db, NotFound)
    ensures Login(db, req, env.(verifyPassword := verify), newId) == Outcome(db, NotFound)
  {
  }

  /**
    A wrong password for an existing login and any password for a login no
    user has give the same answer.
   */
  lemma WrongPasswordLooksLikeUnknownLogin(
    db: Db, known: LoginRequest, unknown: LoginRequest, env: Env, newId: Guid)
    requires Wf(db) && Unused(db, newId)
    requires FindByLogin(db.users, known.login).Unique?
    requires !env.isUserLockedOut(Some(FindByLogin(db.users, known.login).id), known.login)
    requires !env.verifyPassword(
               known.password,
               db.passwords[db.users[FindByLogin(db.users, known.login).id].passwordId].secret)
    requires forall id :: id in db.users ==> db.users[id].login != unknown.login
    requires !env.isUserLockedOut(None, unknown.login)
    ensures Login(db, known, env, newId).response == Login(db, unknown, env, newId).response == BadRequest
  {
  }

  /** A challenge whose `until` equals `now` is still accepted. */
  lemma ChallengeLiveAtItsUntil(db: Db, req: TotpRequest, env: Env, newId: Guid)
    requires Wf(db) && Unused(db, newId)
    requires req.totpToken in db.totpTokens && db.totpTokens[req.totpToken].until == env.now
    requires env.verifyTotp(ChallengeSecret(db, db.totpTokens[req.totpToken]), req.secret)
    ensures SubmitTotp(db, req, env, newId).response == Ok(newId)
  {
  }

  /**
    A challenge is single-use: once a code has been accepted for it, the same
    challenge is answered BadRequest, with any code, at any time, and no
    further session token is created.
   */
  lemma ChallengeSingleUse(
    db: Db, req: TotpRequest, env: Env, newId: Guid, again: TotpRequest, env2: Env, newId2: Guid)
    requires Wf(db) && Unused(db, newId)
    requires SubmitTotp(db, req, env, newId).response.Ok?
    requires again.totpToken == req.totpToken
    requires Unused(SubmitTotp(db, req, env, newId).db, newId2)
    ensures var after := SubmitTotp(db, req, env, newId).db;
            SubmitTotp(after, again, env2, newId2) == Outcome(after, BadRequest)
  {
  }

  /** A session token logs out once; the second logout with it is BadRequest. */
  lemma LogoutOnce(db: Db, req: LogoutRequest, env: Env)
    requires Wf(db)
    requires Logout(db, req, env).response.Ok?
    ensures var after := Logout(db, req, env).db;
            Logout(after, req, env) == Outcome(after, BadRequest)
  {
  }

  /** Registration keeps every user and adds the new one under `userId`, with the request's login. */
  lemma RegisterAddsUser(
    db: Db, req: RegisterRequest, env: Env, key: seq<byte>,
    passwordId: Guid, totpId: Guid, userId: Guid, tokenId: Guid)
    requires Wf(db) && |key| == SecretLength
    requires Unused(db, passwordId) && Unused(db, totpId) && Unused(db, userId) && Unused(db, tokenId)
    ensures var after := Register(db, req, env, key, passwordId, totpId, userId, tokenId).db;
            && userId !in db.users && userId in after.users && after.users[userId].login == req.login
            && forall id :: id in db.users ==> id in after.users && after.users[id] == db.users[id]
  {
  }

  /**
    Registering twice with one login is accepted, and from then on every
    login with that name ends in the exception SingleOrDefault throws.
   */
  lemma DuplicateLoginFaults(
    db: Db, first: RegisterRequest, second: RegisterRequest, env: Env,
    key1: seq<byte>, key2: seq<byte>, ids1: seq<Guid>, ids2: seq<Guid>,
    password: string, loginId: Guid)
    requires Wf(db) && |key1| == SecretLength && |key2| == SecretLength
    requires |ids1| == 4 && forall i :: 0 <= i < 4 ==> Unused(db, ids1[i])
    requires first.login == second.login
    requires var mid := Register(db, first, env, key1, ids1[0], ids1[1], ids1[2], ids1[3]).db;
             |ids2| == 4 && forall i :: 0 <= i < 4 ==> Unused(mid, ids2[i])
    requires var mid := Register(db, first, env, key1, ids1[0], ids1[1], ids1[2], ids1[3]).db;
             var end := Register(mid, second, env, key2, ids2[0], ids2[1], ids2[2], ids2[3]).db;
             Unused(end, loginId)
    ensures var mid := Register(db, first, env, key1, ids1[0], ids1[1], ids1[2], ids1[3]).db;
            var end := Register(mid, second, env, key2, ids2[0], ids2[1], ids2[2], ids2[3]).db;
            Login(end, LoginRequest(first.login, password), env, loginId) == Outcome(end, Fault)
  {
    assert Unused(db, ids1[0]) && Unused(db, ids1[1]) && Unused(db, ids1[2]) && Unused(db, ids1[3]);
    var mid := Register(db, first, env, key1, ids1[0], ids1[1], ids1[2], ids1[3]).db;
    RegisterAddsUser(db, first, env, key1, ids1[0], ids1[1], ids1[2], ids1[3]);
    assert Unused(mid, ids2[0]) && Unused(mid, ids2[1]) && Unused(mid, ids2[2]) && Unused(mid, ids2[3]);
    var end := Register(mid, second, env, key2, ids2[0], ids2[1], ids2[2], ids2[3]).db;
    RegisterAddsUser(mid, second, env, key2, ids2[0], ids2[1], ids2[2], ids2[3]);
    var a, b := ids1[2], ids2[2];
    assert a in end.users && a != b;
    AmbiguousIffSharedLogin(end.users, first.login);
    LoginEffects(end, LoginRequest(first.login, password), env, loginId);
  }

  /**
    The whole flow: after registration, the challenge it hands out accepts a
    right code and yields a session token; logging out with that token
    succeeds once, and a second logout with it is BadRequest.
   */
  lemma RegisterTotpLogout(
    db: Db, req: RegisterRequest, env: Env, key: seq<byte>,
    passwordId: Guid, totpId: Guid, userId: Guid, tokenId: Guid,
    code: string, sessionId: Guid, logout: LogoutRequest)
    requires Wf(db) && |key| == SecretLength
    requires Unused(db, passwordId) && Unused(db, totpId) && Unused(db, userId) && Unused(db, tokenId)
    requires Unused(Register(db, req, env, key, passwordId, totpId, userId, tokenId).db, sessionId)
    requires env.now <= env.challengeUntil && env.verifyTotp(key, code)
    requires env.tryParseGuid(logout.token) == Some(sessionId)
    ensures var registered := Register(db, req, env, key, passwordId, totpId, userId, tokenId);
            var totp := SubmitTotp(registered.db, TotpRequest(tokenId, code), env, sessionId);
            var out := Logout(totp.db, logout, env);
            && registered.response.Ok? && registered.response.value.totpToken == tokenId
            && totp.response == Ok(sessionId)
            && totp.db.userTokens[sessionId] == UserToken(userId)
            && out.response.Ok?
            && sessionId !in out.db.userTokens
            && Logout(out.db, logout, env) == Outcome(out.db, BadRequest)
  {
    var registered := Register(db, req, env, key, passwordId, totpId, userId, tokenId);
    var challenge := registered.db.totpTokens[tokenId];
    assert challenge == TotpToken(userId, env.challengeUntil);
    assert ChallengeSecret(registered.db, challenge) == key;
    var totp := SubmitTotp(registered.db, TotpRequest(tokenId, code), env, sessionId);
    assert totp.response == Ok(sessionId);
    assert totp.db.userTokens[sessionId] == UserToken(userId);
    var out := Logout(totp.db, logout, env);
    assert out.response.Ok?;
    LogoutOnce(totp.db, logout, env);
  }

  /** Adding a user whose login no user had makes the lookup find exactly that user. */
  lemma FoundAfterAdding(users: map<Guid, User>, user: User, userId: Guid)
    requires forall id :: id in users ==> users[id].login != user.login
    ensures FindByLogin(users[userId := user], user.login) == Unique(userId)
  {
    assert UsersWithLogin(users[userId := user], user.login) == {userId};
  }

  /** A login no user had before registration names exactly the new user after it. */
  lemma RegisteredLoginIsUnique(
    db: Db, req: RegisterRequest, env: Env, key: seq<byte>,
    passwordId: Guid, totpId: Guid, userId: Guid, tokenId: Guid)
    requires Wf(db) && |key| == SecretLength
    requires Unused(db, passwordId) && Unused(db, totpId) && Unused(db, userId) && Unused(db, tokenId)
    requires forall id :: id in db.users ==> db.users[id].login != req.login
    ensures FindByLogin(Register(db, req, env, key, passwordId, totpId, userId, tokenId).db.users, req.login)
            == Unique(userId)
  {
    var users := Register(db, req, env, key, passwordId, totpId, userId, tokenId).db.users;
    assert users == db.users[userId := User(req.email, req.login, req.name, req.surname, passwordId, totpId)];
    FoundAfterAdding(db.users, User(req.email, req.login, req.name, req.surname, passwordId, totpId), userId);
  }

  /**
    After registration a login with the same name and password (the hash
    verifying against its own password, the name unique and not locked out)
    yields a challenge.
   */
  lemma RegisterThenLogin(
    db: Db, req: RegisterRequest, env: Env, key: seq<byte>,
    passwordId: Guid, totpId: Guid, userId: Guid, tokenId: Guid, loginId: Guid)
    requires Wf(db) && |key| == SecretLength
    requires Unused(db, passwordId) && Unused(db, totpId) && Unused(db, userId) && Unused(db, tokenId)
    requires forall id :: id in db.users ==> db.users[id].login != req.login
    requires env.verifyPassword(req.password, env.hashPassword(req.password))
    requires !env.isUserLockedOut(Some(userId), req.login)
    requires Unused(Register(db, req, env, key, passwordId, totpId, userId, tokenId).db, loginId)
    ensures var registered := Register(db, req, env, key, passwordId, totpId, userId, tokenId).db;
            var login := Login(registered, LoginRequest(req.login, req.password), env, loginId);
            && login.response == Ok(loginId)
            && login.db.totpTokens[loginId] == TotpToken(userId, env.challengeUntil)
  {
    var registered := Register(db, req, env, key, passwordId, totpId, userId, tokenId).db;
    RegisteredLoginIsUnique(db, req, env, key, passwordId, totpId, userId, tokenId);
    assert StoredHash(registered, userId) == env.hashPassword(req.password);
    LoginEffects(registered, LoginRequest(req.login, req.password), env, loginId);
  }
}
