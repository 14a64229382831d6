/**
  The authentication service as the object it is: the tables of the database
  context are fields, and each handler updates them in place. Every handler
  is proved to leave the tables exactly as the matching transition of the
  Authentication module says and to answer what it answers, so the
  properties proved there hold of the service.
 */
module Service {
  import opened Wrappers
  import opened Base32
  import opened Schema
  import opened Authentication

  class AuthenticationService {
    var passwords: map<Guid, Password>
    var totps: map<Guid, Totp>
    var users: map<Guid, User>
    var totpTokens: map<Guid, TotpToken>
    var userTokens: map<Guid, UserToken>
    var accountLocks: map<Guid, UserAccountLock>
    var honeypotLocks: map<Guid, UserAccountHoneypotLock>
    var loginAttempts: map<Guid, UserLoginAttempt>
    var honeypotAttempts: map<Guid, UserLoginHoneypotAttempt>

    /** The tables as one database value. */
    function Tables(): Db
      reads this
    {
      Db(passwords, totps, users, totpTokens, userTokens,
         accountLocks, honeypotLocks, loginAttempts, honeypotAttempts)
    }

    /** Every foreign key of the tables names an existing row. */
    ghost predicate Valid()
      reads this
    {
      Wf(Tables())
    }

    /** A service over a database that satisfies referential integrity. */
    constructor(db: Db)
      requires Wf(db)
      ensures Valid() && Tables() == db
    {
      passwords, totps, users := db.passwords, db.totps, db.users;
      totpTokens, userTokens := db.totpTokens, db.userTokens;
      accountLocks, honeypotLocks := db.accountLocks, db.honeypotLocks;
      loginAttempts, honeypotAttempts := db.loginAttempts, db.honeypotAttempts;
    }

    // -------------------------------------------------------------------
    // The database service calls the handlers make
    // -------------------------------------------------------------------

    /** LogLoginAttempt(user): one attempt against a known user, under `id`. */
    method LogLoginAttempt(userId: Guid, now: Timestamp, id: Guid)
      requires Valid() && userId in users && id !in loginAttempts
      modifies this
      ensures Valid()
      ensures Tables() == LogUserAttempt(old(Tables()), userId, now, id)
    {
      loginAttempts := loginAttempts[id := UserLoginAttempt(now, userId)];
    }

    /** LogLoginAttempt(login): one honeypot attempt against the login text, under `id`. */
    method LogHoneypotLoginAttempt(login: string, now: Timestamp, id: Guid)
      requires Valid() && id !in honeypotAttempts
      modifies this
      ensures Valid()
      ensures Tables() == LogHoneypotAttempt(old(Tables()), login, now, id)
    {
      honeypotAttempts := honeypotAttempts[id := UserLoginHoneypotAttempt(now, login)];
    }

    /** CreateTotpToken(user): one challenge for the user, under `id`; answers `id`. */
    method CreateTotpToken(userId: Guid, until: Timestamp, id: Guid) returns (token: Guid)
      requires Valid() && userId in users && id !in totpTokens
      modifies this
      ensures Valid()
      ensures token == id
      ensures Tables() == AddTotpToken(old(Tables()), userId, until, id)
    {
      totpTokens := totpTokens[id := TotpToken(userId, until)];
      token := id;
    }

    /** GenerateUserToken(user): one session token for the user, under `id`; answers `id`. */
    method GenerateUserToken(userId: Guid, id: Guid) returns (token: Guid)
      requires Valid() && userId in users && id !in userTokens
      modifies this
      ensures Valid()
      ensures token == id
      ensures Tables() == AddUserToken(old(Tables()), userId, id)
    {
      userTokens := userTokens[id := UserToken(userId)];
      token := id;
    }

    // -------------------------------------------------------------------
    // The handlers
    // -------------------------------------------------------------------

    /** LoginHandler: answers and updates the tables as Login says. */
    method LoginHandler(req: LoginRequest, env: Env, newId: Guid) returns (r: Response<Guid>)
      requires Valid() && Unused(Tables(), newId)
      modifies this
      ensures Valid()
      ensures Outcome(Tables(), r) == Login(old(Tables()), req, env, newId)
    {
      var matches := set id | id in users && users[id].login == req.login;
      assert matches == UsersWithLogin(users, req.login);
      if |matches| > 1 {
        return Fault;
      }
      var user: Option<Guid> := None;
      if |matches| == 1 {
        var id :| id in matches;
        var chosen := FindByLogin(users, req.login).id;
        SingletonMember(matches, id, chosen);
        user := Some(id);
      }
      if env.isUserLockedOut(user, req.login) {
        return NotFound;
      }
      if user.Some? && !env.verifyPassword(req.password, passwords[users[user.value].passwordId].secret) {
        LogLoginAttempt(user.value, env.now, newId);
        return BadRequest;
      }
      if user.None? {
        LogHoneypotLoginAttempt(req.login, env.now, newId);
        return BadRequest;
      }
      var token := CreateTotpToken(user.value, env.challengeUntil, newId);
      r := Ok(token);
    }

    /** TotpHandler: answers and updates the tables as SubmitTotp says. */
    method TotpHandler(req: TotpRequest, env: Env, newId: Guid) returns (r: Response<Guid>)
      requires Valid() && Unused(Tables(), newId)
      modifies this
      ensures Valid()
      ensures Outcome(Tables(), r) == SubmitTotp(old(Tables()), req, env, newId)
    {
      if req.totpToken !in totpTokens {
        return BadRequest;
      }
      var challenge := totpTokens[req.totpToken];
      if challenge.until < env.now {
        totpTokens := totpTokens - {req.totpToken};
        return BadRequest;
      }
      var secret := totps[users[challenge.userId].totpId].secret;
      if !env.verifyTotp(secret, req.secret) {
        return BadRequest;
      }
      var token := GenerateUserToken(challenge.userId, newId);
      totpTokens := totpTokens - {req.totpToken};
      r := Ok(token);
    }

    /** LogoutHandler: answers and updates the tables as Logout says. */
    method LogoutHandler(req: LogoutRequest, env: Env) returns (r: Response<()>)
      requires Valid()
      modifies this
      ensures Valid()
      ensures Outcome(Tables(), r) == Logout(old(Tables()), req, env)
    {
      var parsed := env.tryParseGuid(req.token);
      if parsed.None? {
        return BadRequest;
      }
      if parsed.value !in userTokens {
        return BadRequest;
      }
      userTokens := userTokens - {parsed.value};
      r := Ok(());
    }

    /**
      RegisterHandler: answers and updates the tables as Register says; the
      fresh key and the four fresh Guids are the generator's.
     */
    method RegisterHandler(
      req: RegisterRequest, env: Env, randomKey: seq<byte>,
      passwordId: Guid, totpId: Guid, userId: Guid, tokenId: Guid) returns (r: Response<RegisterResponse>)
      requires Valid() && |randomKey| == SecretLength
      requires Unused(Tables(), passwordId) && Unused(Tables(), totpId)
      requires Unused(Tables(), userId) && Unused(Tables(), tokenId)
      modifies this
      ensures Valid()
      ensures Outcome(Tables(), r) ==
                Register(old(Tables()), req, env, randomKey, passwordId, totpId, userId, tokenId)
    {
      ghost var before := Tables();
      var password := Password(env.hashPassword(req.password));
      var totp := Totp(randomKey);
      var user := User(req.email, req.login, req.name, req.surname, passwordId, totpId);
      AccountRowsKeepIntegrity(before, password, totp, user, passwordId, totpId, userId);
      passwords := passwords[passwordId := password];
      totps := totps[totpId := totp];
      users := users[userId := user];
      assert Tables() == before.(passwords := before.passwords[passwordId := password],
                                 totps := before.totps[totpId := totp],
                                 users := before.users[userId := user]);
      var token := CreateTotpToken(userId, env.challengeUntil, tokenId);
      assert Tables() == Register(before, req, env, randomKey, passwordId, totpId, userId, tokenId).db;
      r := Ok(RegisterResponse(KeyUri(req.login, randomKey), token));
    }
  }
}
