/**
  The persisted schema of the login panel: one table per entity, each keyed
  by a Guid primary key `Id`, the required foreign keys between them and what
  the database deletes in cascade.

  User rows point at their Password and Totp rows (PasswordId, TotpId).
  TotpToken, UserToken, UserAccountLock and UserLoginAttempt rows point at a
  User (UserId). The two honeypot tables name the user only by the raw login
  text and hold no foreign key.
 */
module Schema {
  import opened Wrappers

  /** A 128-bit Guid, as a number. */
  type Guid = x: int | 0 <= x < 0x1_0000_0000_0000_0000_0000_0000_0000_0000

  /** A point in time (a DateTime, in ticks). */
  type Timestamp = int

  datatype Password = Password(secret: string)

  datatype Totp = Totp(secret: seq<byte>)

  /** A pre-2FA challenge; `until` is read by the TOTP step (see README). */
  datatype TotpToken = TotpToken(userId: Guid, until: Timestamp)

  datatype User = User(
    email: string,
    login: string,
    name: string,
    surname: string,
    passwordId: Guid,
    totpId: Guid)

  datatype UserAccountHoneypotLock = UserAccountHoneypotLock(until: Timestamp, user: string)

  datatype UserAccountLock = UserAccountLock(until: Timestamp, userId: Guid)

  datatype UserLoginAttempt = UserLoginAttempt(timeStamp: Timestamp, userId: Guid)

  datatype UserLoginHoneypotAttempt = UserLoginHoneypotAttempt(timeStamp: Timestamp, user: string)

  /** A post-2FA session token. */
  datatype UserToken = UserToken(userId: Guid)

  /** The contents of every table, each a map from primary key to row. */
  datatype Db = Db(
    passwords: map<Guid, Password>,
    totps: map<Guid, Totp>,
    users: map<Guid, User>,
    totpTokens: map<Guid, TotpToken>,
    userTokens: map<Guid, UserToken>,
    accountLocks: map<Guid, UserAccountLock>,
    honeypotLocks: map<Guid, UserAccountHoneypotLock>,
    loginAttempts: map<Guid, UserLoginAttempt>,
    honeypotAttempts: map<Guid, UserLoginHoneypotAttempt>)

  const EmptyDb: Db := Db(map[], map[], map[], map[], map[], map[], map[], map[], map[])

  /** Referential integrity: every required foreign key names an existing row. */
  predicate Wf(db: Db)
  {
    && (forall id :: id in db.users ==>
          db.users[id].passwordId in db.passwords && db.users[id].totpId in db.totps)
    && (forall id :: id in db.totpTokens ==> db.totpTokens[id].userId in db.users)
    && (forall id :: id in db.userTokens ==> db.userTokens[id].userId in db.users)
    && (forall id :: id in db.accountLocks ==> db.accountLocks[id].userId in db.users)
    && (forall id :: id in db.loginAttempts ==> db.loginAttempts[id].userId in db.users)
  }

  /** `id` is the key of no row in any table: what a freshly generated Guid is. */
  predicate Unused(db: Db, id: Guid)
  {
    && id !in db.passwords && id !in db.totps && id !in db.users
    && id !in db.totpTokens && id !in db.userTokens
    && id !in db.accountLocks && id !in db.honeypotLocks
    && id !in db.loginAttempts && id !in db.honeypotAttempts
  }

  /**
    Deleting the users in `doomed`: the database also deletes, in cascade,
    every TotpToken, UserToken, UserAccountLock and UserLoginAttempt that
    points at one of them, and nothing else. Passwords and Totps are the
    principals of the User foreign keys, so they stay.
   */
  function DeleteUsers(db: Db, doomed: set<Guid>): (r: Db)
    ensures r.users.Keys == db.users.Keys - doomed
    ensures forall id :: id in r.users ==> r.users[id] == db.users[id]
    ensures forall id :: id in r.totpTokens <==>
              id in db.totpTokens && db.totpTokens[id].userId !in doomed
    ensures forall id :: id in r.userTokens <==>
              id in db.userTokens && db.userTokens[id].userId !in doomed
    ensures forall id :: id in r.accountLocks <==>
              id in db.accountLocks && db.accountLocks[id].userId !in doomed
    ensures forall id :: id in r.loginAttempts <==>
              id in db.loginAttempts && db.loginAttempts[id].userId !in doomed
    ensures forall id :: id in r.totpTokens ==> r.totpTokens[id] == db.totpTokens[id]
    ensures forall id :: id in r.userTokens ==> r.userTokens[id] == db.userTokens[id]
    ensures forall id :: id in r.accountLocks ==> r.accountLocks[id] == db.accountLocks[id]
    ensures forall id :: id in r.loginAttempts ==> r.loginAttempts[id] == db.loginAttempts[id]
    ensures r.passwords == db.passwords && r.totps == db.totps
    ensures r.honeypotLocks == db.honeypotLocks && r.honeypotAttempts == db.honeypotAttempts
    ensures Wf(db) ==> Wf(r)
  {
    db.(
      users := db.users - doomed,
      totpTokens := map id | id in db.totpTokens && db.totpTokens[id].userId !in doomed :: db.totpTokens[id],
      userTokens := map id | id in db.userTokens && db.userTokens[id].userId !in doomed :: db.userTokens[id],
      accountLocks := map id | id in db.accountLocks && db.accountLocks[id].userId !in doomed :: db.accountLocks[id],
      loginAttempts := map id | id in db.loginAttempts && db.loginAttempts[id].userId !in doomed :: db.loginAttempts[id])
  }

  /** Deleting one User row, with its cascade. */
  function DeleteUser(db: Db, userId: Guid): (r: Db)
    ensures userId !in r.users
    ensures forall id :: id in r.users <==> id in db.users && id != userId
    ensures forall id :: id in r.totpTokens <==>
              id in db.totpTokens && db.totpTokens[id].userId != userId
    ensures forall id :: id in r.userTokens <==>
              id in db.userTokens && db.userTokens[id].userId != userId
    ensures forall id :: id in r.accountLocks <==>
              id in db.accountLocks && db.accountLocks[id].userId != userId
    ensures forall id :: id in r.loginAttempts <==>
              id in db.loginAttempts && db.loginAttempts[id].userId != userId
    ensures forall id :: id in r.users ==> r.users[id] == db.users[id]
    ensures forall id :: id in r.totpTokens ==> r.totpTokens[id] == db.totpTokens[id]
    ensures forall id :: id in r.userTokens ==> r.userTokens[id] == db.userTokens[id]
    ensures forall id :: id in r.accountLocks ==> r.accountLocks[id] == db.accountLocks[id]
    ensures forall id :: id in r.loginAttempts ==> r.loginAttempts[id] == db.loginAttempts[id]
    ensures r.passwords == db.passwords && r.totps == db.totps
    ensures r.honeypotLocks == db.honeypotLocks && r.honeypotAttempts == db.honeypotAttempts
    ensures Wf(db) ==> Wf(r)
  {
    DeleteUsers(db, {userId})
  }

  /** The users whose PasswordId is `passwordId`. */
  function UsersOfPassword(db: Db, passwordId: Guid): (holders: set<Guid>)
  {
    set id | id in db.users && db.users[id].passwordId == passwordId
  }

  /** The users whose TotpId is `totpId`. */
  function UsersOfTotp(db: Db, totpId: Guid): (holders: set<Guid>)
  {
    set id | id in db.users && db.users[id].totpId == totpId
  }

  /**
    Deleting a Password row: the cascade runs along User.PasswordId, so every
    user holding it goes too, and with them their dependants.
   */
  function DeletePassword(db: Db, passwordId: Guid): (r: Db)
    ensures r.passwords == db.passwords - {passwordId}
    ensures forall id :: id in r.users <==> id in db.users && db.users[id].passwordId != passwordId
    ensures forall id :: id in r.totpTokens <==>
              id in db.totpTokens && db.totpTokens[id].userId !in UsersOfPassword(db, passwordId)
    ensures forall id :: id in r.userTokens <==>
              id in db.userTokens && db.userTokens[id].userId !in UsersOfPassword(db, passwordId)
    ensures forall id :: id in r.accountLocks <==>
              id in db.accountLocks && db.accountLocks[id].userId !in UsersOfPassword(db, passwordId)
    ensures forall id :: id in r.loginAttempts <==>
              id in db.loginAttempts && db.loginAttempts[id].userId !in UsersOfPassword(db, passwordId)
    ensures forall id :: id in r.users ==> r.users[id] == db.users[id]
    ensures forall id :: id in r.totpTokens ==> r.totpTokens[id] == db.totpTokens[id]
    ensures forall id :: id in r.userTokens ==> r.userTokens[id] == db.userTokens[id]
    ensures forall id :: id in r.accountLocks ==> r.accountLocks[id] == db.accountLocks[id]
    ensures forall id :: id in r.loginAttempts ==> r.loginAttempts[id] == db.loginAttempts[id]
    ensures r.totps == db.totps
    ensures r.honeypotLocks == db.honeypotLocks && r.honeypotAttempts == db.honeypotAttempts
  {
    DeleteUsers(db.(passwords := db.passwords - {passwordId}), UsersOfPassword(db, passwordId))
  }

  /** Deleting a Password row, with its cascade, keeps referential integrity. */
  lemma DeletePasswordKeepsIntegrity(db: Db, passwordId: Guid)
    requires Wf(db)
    ensures Wf(DeletePassword(db, passwordId))
  {
  }

  /** Deleting a Totp row: the users holding it go too, and their dependants. */
  function DeleteTotp(db: Db, totpId: Guid): (r: Db)
    ensures r.totps == db.totps - {totpId}
    ensures forall id :: id in r.users <==> id in db.users && db.users[id].totpId != totpId
    ensures forall id :: id in r.totpTokens <==>
              id in db.totpTokens && db.totpTokens[id].userId !in UsersOfTotp(db, totpId)
    ensures forall id :: id in r.userTokens <==>
              id in db.userTokens && db.userTokens[id].userId !in UsersOfTotp(db, totpId)
    ensures forall id :: id in r.accountLocks <==>
              id in db.accountLocks && db.accountLocks[id].userId !in UsersOfTotp(db, totpId)
    ensures forall id :: id in r.loginAttempts <==>
              id in db.loginAttempts && db.loginAttempts[id].userId !in UsersOfTotp(db, totpId)
    ensures forall id :: id in r.users ==> r.users[id] == db.users[id]
    ensures forall id :: id in r.totpTokens ==> r.totpTokens[id] == db.totpTokens[id]
    ensures forall id :: id in r.userTokens ==> r.userTokens[id] == db.userTokens[id]
    ensures forall id :: id in r.accountLocks ==> r.accountLocks[id] == db.accountLocks[id]
    ensures forall id :: id in r.loginAttempts ==> r.loginAttempts[id] == db.loginAttempts[id]
    ensures r.passwords == db.passwords
    ensures r.honeypotLocks == db.honeypotLocks && r.honeypotAttempts == db.honeypotAttempts
  {
    DeleteUsers(db.(totps := db.totps - {totpId}), UsersOfTotp(db, totpId))
  }

  /** Deleting a Totp row, with its cascade, keeps referential integrity. */
  lemma DeleteTotpKeepsIntegrity(db: Db, totpId: Guid)
    requires Wf(db)
    ensures Wf(DeleteTotp(db, totpId))
  {
  }

  /** Deleting a user never removes the Password or Totp it points at. */
  lemma DeleteUserKeepsCredentials(db: Db, userId: Guid)
    requires Wf(db) && userId in db.users
    ensures db.users[userId].passwordId in DeleteUser(db, userId).passwords
    ensures db.users[userId].totpId in DeleteUser(db, userId).totps
  {
  }

  /**
    The schema relates Password and Totp to User one-to-many: a well-formed
    database may hold two users with the same login that share one Password
    row and one Totp row.
   */
  lemma SharedRowsAndLoginsAllowed() returns (db: Db, first: Guid, second: Guid)
    ensures Wf(db)
    ensures first in db.users && second in db.users && first != second
    ensures db.users[first].passwordId == db.users[second].passwordId
    ensures db.users[first].totpId == db.users[second].totpId
    ensures db.users[first].login == db.users[second].login
  {
    var u := User("a@example.org", "alice", "Alice", "Smith", 0, 0);
    first, second := 1, 2;
    db := EmptyDb.(
      passwords := map[0 := Password("hash")],
      totps := map[0 := Totp([])],
      users := map[first := u, second := u.(email := "b@example.org")]);
  }

  /** Deleting a shared Password row removes all of its users together. */
  lemma DeletingSharedPasswordRemovesAllHolders(db: Db, first: Guid, second: Guid)
    requires Wf(db) && first in db.users && second in db.users
    requires db.users[first].passwordId == db.users[second].passwordId
    ensures first !in DeletePassword(db, db.users[first].passwordId).users
    ensures second !in DeletePassword(db, db.users[first].passwordId).users
  {
  }
}
