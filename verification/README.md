# Login-Panel authentication, modelled in Dafny

Login-Panel is a login service with two factors. A user registers with an
e-mail, a login, a name, a surname and a password. Registration stores a
BCrypt hash of the password and a fresh 20-byte TOTP secret. It hands back
an `otpauth://` provisioning URI and a first TOTP challenge.

Logging in is a two-step process:
1. The login and password are checked against the lockout service and
   BCrypt. A correct pair yields a short-lived challenge (a `TotpToken`).
2. The challenge and a TOTP code are submitted. A correct code yields a
   session token (a `UserToken`).

Logout deletes the session token. Failed logins are recorded, so that the
lockout service can act on them. The records go against the user when the
login exists. Otherwise they go against the raw login text, as a
"honeypot" record.

The project models two things:
- The persisted schema: its entities, their required foreign keys and the
  cascade deletes the database performs.
- The authentication service: its four handlers, as an object whose
  tables they update in place.

Files:
- `wrappers.dfy`: the `Option` type.
- `base32.dfy`: Base32 as in section 6 of RFC 4648, with its round trip
  and its output length proved. The provisioning URI carries the secret
  in this encoding.
- `schema.dfy`: the entities of the model snapshot as datatypes. It also
  holds the database as one map per table, keyed by the Guid primary key,
  and referential integrity (`Wf`: every required foreign key names an
  existing row). Finally it holds the cascade deletes, each proved to keep
  referential integrity and to delete exactly the rows that depend on the
  deleted one.
- `authentication.dfy`: each handler as a transition. A transition takes
  the database before a request and gives the database after it, with the
  answer. The file also holds the properties that span several requests:
  - lockout hides the password check;
  - challenges and session tokens are single-use;
  - a registration leads through the whole flow;
  - a duplicated login makes logins fail.
- `authentication_service.dfy`: the class `AuthenticationService`. Its
  fields are the tables, and its methods are `LoginHandler`,
  `TotpHandler`, `LogoutHandler` and `RegisterHandler`. Each method:
  - keeps referential integrity;
  - is proved to answer and update the tables exactly as the matching
    transition says.

  The same class holds the database-service calls the handlers make
  (`LogLoginAttempt`, `CreateTotpToken`, `GenerateUserToken`).

Collaborators whose code is not part of this model come in as an `Env`
value of functions:
- the lockout verdict;
- BCrypt hashing and verification;
- the TOTP code check;
- `Guid.TryParse`;
- the clock;
- the expiry stamped on a new challenge.

Freshly generated Guids and the random key are arguments. Each argument
carries the generator's promise: a Guid no row uses, or a key of 20 bytes.

`Users.SingleOrDefault` throws when two users share a login. Nothing
prevents that: the login column has no unique index, and registration does
not check. The model answers `Fault` (an unhandled exception, HTTP 500) in
that case.

Two behaviours of the code are kept as written:
- A logout with a well-formed token that no row has answers BadRequest.
- The TOTP handler reads an expiry (`Until`) on a challenge, although the
  schema snapshot declares no such column for `TotpToken`. The model's
  `TotpToken` carries the field.

## Model

| member | source | states |
|---|---|---|
| Schema.DeleteUsers | Backend/Login-Panel.Infrastructure/Migrations/AppDbContextModelSnapshot.cs:198-259 | Deleting a set of users deletes exactly the TotpTokens, UserTokens, UserAccountLocks and UserLoginAttempts pointing at one of them. Remaining rows are unchanged. Passwords, Totps and both honeypot tables are untouched. Referential integrity is kept. |
| Schema.DeleteUser | Backend/Login-Panel.Infrastructure/Migrations/AppDbContextModelSnapshot.cs:198-259 | Deleting one user removes it and exactly its dependants of the four kinds. Every surviving row keeps its contents. Passwords, Totps and the honeypot records are untouched. Referential integrity is kept. |
| Schema.DeletePassword | Backend/Login-Panel.Infrastructure/Migrations/AppDbContextModelSnapshot.cs:209-215 | Deleting a Password row removes exactly that row and cascades along User.PasswordId. A user survives exactly when it does not hold that password. A dependant survives exactly when its user does not hold it. Surviving users and dependants keep their contents. Totps and honeypots are untouched. |
| Schema.DeletePasswordKeepsIntegrity | Backend/Login-Panel.Infrastructure/Migrations/AppDbContextModelSnapshot.cs:209-215 | Deleting a Password row, with its cascade, keeps referential integrity. |
| Schema.DeleteTotp | Backend/Login-Panel.Infrastructure/Migrations/AppDbContextModelSnapshot.cs:217-221 | The same as DeletePassword, along User.TotpId: exactly that Totp row goes, its holders and their dependants go, and survivors keep their contents. |
| Schema.DeleteTotpKeepsIntegrity | Backend/Login-Panel.Infrastructure/Migrations/AppDbContextModelSnapshot.cs:217-221 | Deleting a Totp row, with its cascade, keeps referential integrity. |
| Schema.Wf | Backend/Login-Panel.Infrastructure/Migrations/AppDbContextModelSnapshot.cs:198-259 | Defines referential integrity. Every User names an existing Password and Totp. Every TotpToken, UserToken, UserAccountLock and UserLoginAttempt names an existing User. The two honeypot tables have no foreign key. |
| Schema.DeleteUserKeepsCredentials | Backend/Login-Panel.Infrastructure/Migrations/AppDbContextModelSnapshot.cs:209-221 | The cascade runs from Password and Totp to User and not back. Deleting a user leaves its Password and Totp rows in place. |
| Schema.SharedRowsAndLoginsAllowed | Backend/Login-Panel.Infrastructure/Migrations/AppDbContextModelSnapshot.cs:81-105 | Password and Totp relate to User one-to-many, and Login has no unique index. A well-formed database can hold two users with one login that share one Password row and one Totp row. |
| Schema.DeletingSharedPasswordRemovesAllHolders | Backend/Login-Panel.Infrastructure/Migrations/AppDbContextModelSnapshot.cs:211-215 | Deleting a shared Password row removes every user that holds it. |
| Base32.Encode | Backend/Login-Panel.API/Features/Authentication/Services/AuthenticationService.cs:132 | The Base32 text of the secret is always a whole number of 8-character blocks. |
| Base32.DecodeEncode | Backend/Login-Panel.API/Features/Authentication/Services/AuthenticationService.cs:132 | Decoding the Base32 text of any byte string gives that byte string back. |
| Base32.EncodedLength | Backend/Login-Panel.API/Features/Authentication/Services/AuthenticationService.cs:132 | n bytes become ceil(n/5)*8 characters. |
| Base32.BitsToBytesOfBytes | Backend/Login-Panel.API/Features/Authentication/Services/AuthenticationService.cs:132 | Grouping the bits of some bytes back into bytes, ignoring fewer than eight trailing fill bits, gives the bytes. |
| Base32.DecodeEncodeGroups | Backend/Login-Panel.API/Features/Authentication/Services/AuthenticationService.cs:132 | Reading the letters written for a bit string gives back the bit string. |
| Authentication.LogUserAttempt | Backend/Login-Panel.API/Features/Authentication/Services/AuthenticationService.cs:36 | Adds exactly one UserLoginAttempt against the user, under a fresh key. Every other row and table is unchanged. Referential integrity is kept when the user exists. |
| Authentication.LogHoneypotAttempt | Backend/Login-Panel.API/Features/Authentication/Services/AuthenticationService.cs:42 | Adds exactly one honeypot attempt holding the raw login text. Nothing else changes. Referential integrity is kept. |
| Authentication.AddTotpToken | Backend/Login-Panel.API/Features/Authentication/Services/AuthenticationService.cs:46 | Adds exactly one challenge for the user under the given key. Nothing else changes. Referential integrity is kept when the user exists. |
| Authentication.AddUserToken | Backend/Login-Panel.API/Features/Authentication/Services/AuthenticationService.cs:75 | Adds exactly one session token for the user under the given key. Nothing else changes. Referential integrity is kept when the user exists. |
| Authentication.AddUser | Backend/Login-Panel.API/Features/Authentication/Services/AuthenticationService.cs:114-123 | Adds exactly one user. Nothing else changes. Referential integrity is kept when its Password and Totp rows exist. |
| Authentication.Expired | Backend/Login-Panel.API/Features/Authentication/Services/AuthenticationService.cs:64 | Defines expiry as `until` strictly before the current time. |
| Authentication.KeyUri | Backend/Login-Panel.API/Features/Authentication/Services/AuthenticationService.cs:131-132 | The URI's length is the `otpauth://totp/Panel:{login}?secret=` head, the Base32 secret and `&issuer=Panel`. The Base32 text of the secret sits right after the head. |
| Authentication.AccountRowsKeepIntegrity | Backend/Login-Panel.API/Features/Authentication/Services/AuthenticationService.cs:102-123 | Adding a Password, a Totp and a User pointing at both keeps referential integrity. |
| Authentication.FoundAfterAdding | Backend/Login-Panel.API/Features/Authentication/Services/AuthenticationService.cs:28-30 | After adding a user whose login no other user has, the lookup finds exactly that user. |
| Authentication.FindByLogin | Backend/Login-Panel.API/Features/Authentication/Services/AuthenticationService.cs:28-30 | A unique match is a user that has the login. |
| Authentication.FindByLoginCorrect | Backend/Login-Panel.API/Features/Authentication/Services/AuthenticationService.cs:28-30 | The lookup finds nothing exactly when no user has the login. When it finds one user, no other user has that login. |
| Authentication.AmbiguousIffSharedLogin | Backend/Login-Panel.API/Features/Authentication/Services/AuthenticationService.cs:28-30 | The lookup throws exactly when two distinct users have the login. |
| Authentication.Login | Backend/Login-Panel.API/Features/Authentication/Services/AuthenticationService.cs:26-49 | Keeps referential integrity. Fault exactly when the login is ambiguous. NotFound exactly when the lockout service says locked out. Ok exactly when the login names one user, is not locked out and the password verifies against that user's stored hash. Otherwise BadRequest. |
| Authentication.LoginEffects | Backend/Login-Panel.API/Features/Authentication/Services/AuthenticationService.cs:32-48 | Fault and NotFound change nothing. Ok answers the new challenge's id, and the only change is that one challenge for the user found. BadRequest adds exactly one attempt: against the user when the login was found, against the login text when it was not. |
| Authentication.RejectedLoginLogsOneAttempt | Backend/Login-Panel.API/Features/Authentication/Services/AuthenticationService.cs:34-44 | A BadRequest login creates no challenge and no session token. The two attempt tables together grow by exactly one row. |
| Authentication.SubmitTotp | Backend/Login-Panel.API/Features/Authentication/Services/AuthenticationService.cs:51-82 | Keeps referential integrity. An unknown challenge gives BadRequest with no change. An expired challenge (strictly before now) is removed and gives BadRequest. Ok exactly when the challenge is present, live and the code verifies against its user's secret. Ok adds exactly one session token for that user and removes the challenge. A wrong code on a live challenge changes nothing. No failure creates a session token. |
| Authentication.Logout | Backend/Login-Panel.API/Features/Authentication/Services/AuthenticationService.cs:84-96 | Keeps referential integrity. Ok exactly when the text parses as a Guid and that session token exists, and then only that token is removed. Every other case is BadRequest with no change. |
| Authentication.KeyUriCarriesSecret | Backend/Login-Panel.API/Features/Authentication/Services/AuthenticationService.cs:129-133 | For a 20-byte secret the provisioning URI holds the secret as 32 Base32 characters after `secret=`, and those decode to the secret. |
| Authentication.SecretTextLength | Backend/Login-Panel.API/Features/Authentication/Services/AuthenticationService.cs:111-132 | The 20-byte key becomes exactly 32 Base32 characters, with no padding. |
| Authentication.Register | Backend/Login-Panel.API/Features/Authentication/Services/AuthenticationService.cs:98-135 | Always Ok, with the provisioning URI of the login and key and with the new challenge. Adds exactly a Password holding the hash, a Totp holding the key, a User with the request's fields linked to both, and one challenge for that user. No other table changes, and referential integrity is kept. |
| Authentication.RegisterAddsUser | Backend/Login-Panel.API/Features/Authentication/Services/AuthenticationService.cs:114-123 | Registration keeps every existing user and adds a new one with the request's login, whether or not that login is taken. |
| Authentication.RegisteredLoginIsUnique | Backend/Login-Panel.API/Features/Authentication/Services/AuthenticationService.cs:114-123 | After registering a login no user had, the lookup finds exactly the new user. |
| Authentication.LockoutHidesPassword | Backend/Login-Panel.API/Features/Authentication/Services/AuthenticationService.cs:28-32 | For a locked-out login the answer is NotFound with no change, whatever the password checker says. |
| Authentication.WrongPasswordLooksLikeUnknownLogin | Backend/Login-Panel.API/Features/Authentication/Services/AuthenticationService.cs:34-44 | A wrong password for an existing login and any password for an unknown login both answer BadRequest. |
| Authentication.ChallengeLiveAtItsUntil | Backend/Login-Panel.API/Features/Authentication/Services/AuthenticationService.cs:64 | A challenge whose expiry equals the current time still accepts a right code. |
| Authentication.ChallengeSingleUse | Backend/Login-Panel.API/Features/Authentication/Services/AuthenticationService.cs:62-81 | Once a code has been accepted for a challenge, the same challenge is answered BadRequest with no change, for any code and at any time. |
| Authentication.LogoutOnce | Backend/Login-Panel.API/Features/Authentication/Services/AuthenticationService.cs:88-95 | After a successful logout, the same logout is BadRequest with no change. |
| Authentication.DuplicateLoginFaults | Backend/Login-Panel.API/Features/Authentication/Services/AuthenticationService.cs:28-135 | Two registrations with one login both succeed. A login with that name right after the second registration ends in the exception and changes nothing. |
| Authentication.RegisterTotpLogout | Backend/Login-Panel.API/Features/Authentication/Services/AuthenticationService.cs:51-135 | After registration, the challenge handed out accepts a right code before it expires and yields a session token for the new user. Logging out with that token succeeds once and then answers BadRequest. |
| Authentication.RegisterThenLogin | Backend/Login-Panel.API/Features/Authentication/Services/AuthenticationService.cs:26-135 | After registering a fresh login, logging in with the same password (not locked out) answers Ok with a new challenge for the new user. |
| Service.AuthenticationService.constructor | Backend/Login-Panel.API/Features/Authentication/Services/AuthenticationService.cs:16-23 | The service starts on the given tables, which satisfy referential integrity. |
| Service.AuthenticationService.LogLoginAttempt | Backend/Login-Panel.API/Features/Authentication/Services/AuthenticationService.cs:36 | The tables become LogUserAttempt of the old tables. |
| Service.AuthenticationService.LogHoneypotLoginAttempt | Backend/Login-Panel.API/Features/Authentication/Services/AuthenticationService.cs:42 | The tables become LogHoneypotAttempt of the old tables. |
| Service.AuthenticationService.CreateTotpToken | Backend/Login-Panel.API/Features/Authentication/Services/AuthenticationService.cs:46 | Answers the new challenge's id. The tables become AddTotpToken of the old tables. |
| Service.AuthenticationService.GenerateUserToken | Backend/Login-Panel.API/Features/Authentication/Services/AuthenticationService.cs:75 | Answers the new session token's id. The tables become AddUserToken of the old tables. |
| Service.AuthenticationService.LoginHandler | Backend/Login-Panel.API/Features/Authentication/Services/AuthenticationService.cs:26-49 | Keeps referential integrity. The answer and the new tables are exactly those of Login on the old tables. |
| Service.AuthenticationService.TotpHandler | Backend/Login-Panel.API/Features/Authentication/Services/AuthenticationService.cs:51-82 | Keeps referential integrity. The answer and the new tables are exactly those of SubmitTotp on the old tables. |
| Service.AuthenticationService.LogoutHandler | Backend/Login-Panel.API/Features/Authentication/Services/AuthenticationService.cs:84-96 | Keeps referential integrity. The answer and the new tables are exactly those of Logout on the old tables. |
| Service.AuthenticationService.RegisterHandler | Backend/Login-Panel.API/Features/Authentication/Services/AuthenticationService.cs:98-135 | Keeps referential integrity. The answer and the new tables are exactly those of Register on the old tables. |

## Left out

- BCrypt hashing and verification, the OtpNet TOTP check with its drift window, `KeyGeneration.GenerateRandomKey`, Guid generation and `Guid.TryParse` are not modelled. They are uninterpreted functions in `Env` or arguments with the generator's promise.
- The lockout service's rules (thresholds, windows, any lock rows it writes) are not modelled. `IsUserLockedOut` is an arbitrary verdict on the user found and the login text, and it changes no table.
- The internals of the database service are not modelled. `LogLoginAttempt`, `CreateTotpToken` and `GenerateUserToken` are taken from how the handlers use them: each adds one row and answers its key.
- The expiry `CreateTotpToken` stamps on a new challenge is an `Env` value. How it is computed is not modelled.
- Entity Framework change tracking and persistence are not modelled. Every table edit takes effect at once. The code differs in two places:
  - The TOTP step never calls `SaveChanges`. Its `Remove` of the challenge (AuthenticationService.cs:66 and :76, the latter after `GenerateUserToken`) is not persisted by the handler. SubmitTotp's removal of the challenge, ChallengeSingleUse and RegisterTotpLogout therefore hold only under the immediate-edit reading. In the code, a later request on a fresh context may still find the challenge.
  - Logout starts `SaveChangesAsync` without awaiting it. Logout's removal and LogoutOnce likewise assume the removal is in effect for the next request.
- Concurrency is not modelled. That includes two TOTP submissions racing on one challenge (the read-then-delete window).
- The HTTP controller and its artificial delay, and the Angular frontend, are not modelled. Answers are the four `Response` cases, without bodies beyond the ids and the URI.
- Logging through `ILogger` is not modelled.
- Schema metadata is not modelled: provider annotations, column types, identity settings and indexes. The model keeps no index. The facts it uses are that Login and the Password and Totp foreign keys are not unique.
- Any exception the TOTP library might raise on a malformed stored key is not modelled. The code check is a total function of the stored key and the submitted code.
- Base32.Decode: lenient. It drops trailing '=' without checking their count and ignores leftover bits. Only the round trip on the encoder's own output is proved.
- Authentication.Register: the key is not modelled as random. Any 20-byte value is accepted.
