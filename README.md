# Account lifecycle of the TradLenguas back end

The back end serves one user router, `api/User.js`, which implements a small account lifecycle over three
MongoDB collections:

- `User`: name, surname, birthday, e-mail, bcrypt hash of the password, and the `verifyEmail` flag;
- `UserVerification`: one-time e-mail verification tickets;
- `PasswordReset`: one-time password reset tickets.

The router has six handlers. `GET /verified` (api/User.js:271-274) only serves a static page; the other
five are modelled:

- `POST /signup` trims and validates the form. It refuses an e-mail already on file, stores an
  unverified user and mails a verification link. The link's secret is `uuidv4() + _id`, and only its
  bcrypt hash is kept, in a ticket that expires 6 hours (21600000 ms) later.
- `GET /verify/:userId/:uniqueString` looks up the first ticket of the user.
  - Expired ticket: the ticket and the user are deleted.
  - Live ticket whose hash matches the secret: the user is marked verified and the ticket is deleted.
  - Otherwise an error page.
- `POST /signin` trims both fields. It succeeds only for a verified user with that e-mail whose stored
  hash matches the trimmed password, and returns that user's record.
- `POST /requestPasswordReset` accepts only a verified user. It deletes all of that user's reset
  tickets, then saves and mails a new one that expires after 60 minutes (3600000 ms).
- `POST /resetPassword` consumes a live, matching reset ticket. It stores the hash of the new password.

The model has three layers:

1. Pure functions for the pieces the handlers rely on, in modules `JsString` (`trim`, UTF-16 `length`),
   `EmailPattern` (the e-mail regular expression), `SignupValidation`, `Hashing` (the opaque bcrypt
   digest) and `Tickets` (the `find`, `deleteOne` and `deleteMany` queries on a ticket collection).
2. The handlers as transitions in `Accounts`. Each maps the tables before a request to the tables after
   it and the JSON answer. It covers every branch, every error message and every store call that can
   reject.
3. A class `Service.AccountService`. It owns the three collections as fields and changes them one store
   call at a time, in the order the handlers make those calls. Each method is proved to end exactly where
   the matching transition ends.

`AccountProperties` proves per-request facts:
- what each branch writes or leaves alone;
- that every handler keeps an invariant `WellFormed`: unique e-mails, every verification ticket belonging
  to a user, at most one ticket of each kind per user, and fixed lifetimes.

`AccountScenarios` proves whole request sequences.

Things the code does that are easy to misread, and that the model follows:

- Signing up again with the e-mail of a user who is not yet verified is refused. `User.find({ email })`
  also finds unverified users, so the e-mail address stays unique. The e-mail comes free again only
  after an expired verification deletes the user (`AccountScenarios.SignupUndoneByExpiry`).
- Suppose a user requests a reset twice and then sends the token of the first request. The answer is the
  "details not valid" mismatch message, not "request not found": the second request's ticket exists
  (`AccountScenarios.OnlyLatestResetTokenWorks`).
- A ticket is still live at the very millisecond of its `expiresAt`, because a ticket is expired when
  `expiresAt < Date.now()`.
- `POST /requestPasswordReset` looks the e-mail up untrimmed.
- `POST /resetPassword` hashes the new password untrimmed, while sign-in trims. For a hash that tells
  distinct strings apart, a new password that starts or ends with white space therefore locks the user out
  (`AccountProperties.ResetWithPaddedPasswordLocksOut`). bcrypt reads only the first 72 bytes of its input,
  so this holds for real bcrypt only when the padding falls within those bytes.

What comes from outside is passed in as parameters:
- the current time `now`, one instant per request;
- the `uuidv4()` string;
- the `_id` the store gives a new user;
- bcrypt as a total function `hash`, so that `bcrypt.compare(p, h)` is `h == hash(p)`;
- the date parser behind `new Date(birthday).getTime()`;
- `fault`, the one collaborator call (query, hash, save, mail) that rejects, if any.

## Model

| member | source | states |
|---|---|---|
| JsString.Trim | api/User.js:50-54 | the trimmed field is no longer than the input and neither starts nor ends with a white-space or line-terminator character |
| JsString.TrimStartShape | api/User.js:50-54 | trimming the front removes exactly a white-space prefix and stops at the first other character |
| JsString.TrimEndShape | api/User.js:50-54 | trimming the back removes exactly a white-space suffix and stops at the last other character |
| JsString.TrimShape | api/User.js:50-54 | the trimmed field is a contiguous piece of the input with only white space before and after it |
| JsString.TrimBlank | api/User.js:56 | a field trims to the empty string exactly when it consists of white space only |
| JsString.TrimIdempotent | api/User.js:279-280 | trimming an already trimmed value changes nothing |
| JsString.TrimUnchanged | api/User.js:279-280 | a string that neither starts nor ends with white space is its own trim |
| JsString.Utf16Length | api/User.js:81 | `password.length` lies between the number of characters and twice that, and equals the number of characters exactly when none is outside the Basic Multilingual Plane |
| EmailPattern.IsEmail | api/User.js:76 | the recognizer accepts a string exactly when the regular expression `^[\w-\.]+@([\w-]+\.)+[\w-]{2,4}$` matches all of it |
| EmailPattern.RecognizerCorrect | api/User.js:76 | the character recognizer and the sub-expression-by-sub-expression reading of the regular expression agree on every string |
| EmailPattern.RecognizerSound | api/User.js:76 | every string the recognizer accepts matches the regular expression |
| EmailPattern.RecognizerComplete | api/User.js:76 | every string that matches the regular expression is accepted by the recognizer |
| SignupValidation.Validate | api/User.js:49-86 | the form is accepted, as its trimmed fields, exactly when all six checks pass on the trimmed fields; a rejection names a check that fails while every earlier check in the handler's order passes |
| SignupValidation.CheckTrimmed | api/User.js:56-86 | the chain of six checks in order: accepted exactly when all pass, otherwise the first failing one |
| SignupValidation.BlankFieldRejected | api/User.js:50-60 | a field that is empty or all white space makes the answer "No se han llenado todos los campos" |
| SignupValidation.AcceptedForm | api/User.js:56-86 | an accepted form has non-empty names of letters and spaces only, a birthday that parses to a non-zero instant, an e-mail the pattern matches, and a password of at least 8 UTF-16 units |
| SignupValidation.RejectionMessage | api/User.js:56-85 | the FAILED message of each of the six checks, in the source's wording |
| SignupValidation.RejectionMessagesDistinct | api/User.js:56-85 | two checks give the same message exactly when they are the same check, so the answer tells which check failed |
| SignupValidation.IsName | api/User.js:61-66 | `/^[a-zA-Z ]*$/` matches the name: every character is an ASCII letter or a space, the empty string included |
| SignupValidation.BirthdayAccepted | api/User.js:71 | `new Date(birthday).getTime()` is truthy: the string parses, and to an instant other than 0 |
| Tickets.Count | api/User.js:193-196 | the number of a user's tickets is at most the table size, and 0 exactly when no ticket carries that userId |
| Tickets.First | api/User.js:193-199 | `find({ userId })[0]` is absent exactly when the user holds no ticket, and otherwise is a ticket of the table that belongs to that user |
| Tickets.DeleteOne | api/User.js:204-205 | `deleteOne({ userId })` leaves the table unchanged when the user has no ticket, lowers that user's count by one otherwise, and keeps every other user's count |
| Tickets.DeleteMany | api/User.js:377-378 | `deleteMany({ userId })` leaves the user no ticket, shrinks the table by exactly the user's count, and keeps exactly the other users' tickets |
| Tickets.CountAppend | api/User.js:150-156 | saving a ticket adds one to its owner's count and changes no other user's count |
| Tickets.DeleteOneRemovesFirst | api/User.js:231-232 | `deleteOne` removes exactly one copy of the ticket `find` returned first, and nothing else |
| Tickets.DeleteOneThenMany | api/User.js:377-378 | deleting one ticket of a user and then all of them is the same as deleting all of them (an expired reset attempt followed by a new request) |
| Tickets.FirstAppend | api/User.js:394-403 | a newly saved ticket is found first only when its owner held no earlier ticket |
| Tickets.DeleteOneAppend | api/User.js:204-205 | deleting the only ticket of a user, saved last, restores the table as it was before the save |
| Tickets.DeleteOneSubset | api/User.js:204-205 | every ticket left by `deleteOne` was in the table before |
| Accounts.UserByEmail | api/User.js:287-291 | `User.find({ email })[0]` is absent exactly when no user has that e-mail, and otherwise is the id of a user holding it |
| Accounts.UserByEmailUnique | api/User.js:288-293 | with unique e-mails the lookup returns exactly the user holding the address |
| Accounts.EmailTaken | api/User.js:87-88 | `User.find({ email })` is not empty: some user on file, verified or not, holds exactly that e-mail |
| Accounts.SetVerified | api/User.js:229 | `User.updateOne({ _id }, { verifyEmail: true })`: the same ids, that user's record equal to the old one with only `verifyEmail` set, every other user unchanged |
| Accounts.SetPassword | api/User.js:484-485 | `User.updateOne({ _id }, { password })`: the same ids, that user's record equal to the old one with only the stored hash replaced, every other user unchanged |
| Accounts.Expired | api/User.js:202 | a ticket is expired when `expiresAt < Date.now()`, so it is still live at `expiresAt` itself |
| Accounts.NewUser | api/User.js:97-104 | the record stored for a new user is unverified and holds the e-mail and the hash of the password of the validated form |
| Accounts.VerificationTicket | api/User.js:150-155 | the verification ticket belongs to the new user, is created now and lives exactly 21600000 ms |
| Accounts.ResetTicket | api/User.js:394-399 | the reset ticket belongs to the user, is created now and lives exactly 3600000 ms |
| Accounts.Signup | api/User.js:48-133 | a rejected form answers the first failing check's message and writes nothing; the answer is never SUCCESS; at most the one new unverified user with the trimmed fields and its verification ticket are added, the user only for an accepted form with a free e-mail; the answer is PENDING exactly when the form is accepted, the e-mail is free and no call rejects |
| Accounts.Register | api/User.js:87-132 | after validation: the user table changes only by adding the new user, and only when the e-mail is free; a ticket is added only together with the user; reset tickets are untouched; the answer is PENDING exactly when the e-mail is free and no call rejects |
| Accounts.SendVerificationEmail | api/User.js:136-187 | only the verification tickets change, by at most the one ticket holding the hash of `uuid + _id` and expiring 21600000 ms after now; the answer is PENDING exactly when hashing, saving and mailing all succeed |
| Accounts.Verify | api/User.js:190-268 | the answer is never PENDING and reset tickets are untouched; the user's ticket is either kept or removed by `deleteOne`; the user is removed only when its first ticket has expired, and marked verified only when that ticket is live and its hash matches the secret; SUCCESS means exactly that, with the user marked verified, the ticket consumed and nothing else changed |
| Accounts.SignIn | api/User.js:277-335 | the answer is never PENDING; SUCCESS requires both trimmed fields to be non-empty, a user with the trimmed e-mail who is verified and whose stored hash is the hash of the trimmed password, and carries that user's record |
| Accounts.RequestReset | api/User.js:338-372 | the answer is never SUCCESS; users and verification tickets are untouched; the reset tickets change only when a verified user holds the untrimmed e-mail; PENDING only when a verified user holds it and none of the lookup, delete, hash, save and mail calls rejects |
| Accounts.SendResetEmail | api/User.js:375-445 | users and verification tickets are untouched; if `deleteMany` rejects nothing changes, otherwise the user's reset tickets are all deleted and at most the one new ticket is appended; the answer is PENDING exactly when no call rejects |
| Accounts.ResetPassword | api/User.js:447-551 | the answer is never PENDING; verification tickets are untouched; the reset table is either kept or has the user's first ticket removed; a password changes only for `userId`, only to the hash of the new password, and only through a live reset ticket whose hash matches the secret; SUCCESS only when the first ticket is live and matches, none of the five calls rejects, and the tables are exactly the user's new hash with that ticket deleted |
| AccountProperties.FirstFailureDecides | api/User.js:56-86 | when check k fails and all checks before it pass, the answer is check k's rejection |
| AccountProperties.RejectedFormTouchesNothing | api/User.js:56-86 | a form failing check k, with every earlier check passing, gets check k's message and leaves every table unchanged |
| AccountProperties.SignupEmailTaken | api/User.js:87-92 | an accepted form whose trimmed e-mail is on file, verified or not, changes no table and is answered "El correo electrónico ingresado ya se encuentra registrado" unless the lookup itself rejects |
| AccountProperties.SignupAccepted | api/User.js:49-87 | an accepted form continues with exactly its trimmed fields |
| AccountProperties.SignupInserts | api/User.js:94-187 | with a free e-mail and no rejected store or hash call: exactly the user record of the trimmed fields with `verifyEmail` false and the hashed password is added, and exactly the ticket `(newId, hash(uuid + newId), now, now + 21600000)`; the answer is PENDING, or the mail-failure message |
| AccountProperties.RegisterInserts | api/User.js:94-187 | the same insertion, stated for an already accepted form |
| AccountProperties.SignupStoresOnlyTokenHash | api/User.js:139-155 | two secrets with the same hash give the same tables and answer: the secret is kept only as its hash |
| AccountProperties.RegisterStoresOnlyTokenHash | api/User.js:139-155 | the same, stated for an already accepted form |
| AccountProperties.SignupWellFormed | api/User.js:48-187 | signup preserves `WellFormed` |
| AccountProperties.RegisterWellFormed | api/User.js:87-187 | signup after validation preserves `WellFormed`, in particular e-mail uniqueness and one ticket per user |
| AccountProperties.AddUserWellFormed | api/User.js:87-106 | storing a user under a fresh id with an e-mail not on file keeps the tables well formed, and the new user holds no verification ticket |
| AccountProperties.SendVerificationEmailWellFormed | api/User.js:136-187 | for a user on file holding no verification ticket, sendVerificationEmail preserves `WellFormed` |
| AccountProperties.VerifyNoTicket | api/User.js:257-261 | no ticket for the user: the "no record found" error (or the lookup error), and no table changes |
| AccountProperties.VerifyExpired | api/User.js:202-216 | an expired ticket with no rejected call: the ticket and the user are deleted and the answer is the "link has expired" error |
| AccountProperties.VerifyMatch | api/User.js:225-234 | a live ticket (valid up to and including `expiresAt`) whose hash matches, with no rejected call: SUCCESS, the user marked verified, the ticket deleted |
| AccountProperties.VerifyMismatch | api/User.js:246-249 | a live ticket whose hash does not match: FAILED and no table changes |
| AccountProperties.VerifyTwice | api/User.js:193-261 | after a successful verification the same link finds no ticket and changes nothing |
| AccountProperties.DeleteOneAtMostOne | api/User.js:204-205 | `deleteOne` keeps a table holding at most one ticket per user |
| AccountProperties.VerificationsAfterDeleteOne | api/User.js:204-205 | in well-formed tables, what `deleteOne` leaves holds no ticket of the user and only tickets that were there |
| AccountProperties.VerifyWellFormed | api/User.js:190-268 | verification preserves `WellFormed`, including when it deletes a user |
| AccountProperties.SignInBlank | api/User.js:279-286 | an e-mail or password of white space only gets "Datos de inicio de sesión en blanco" |
| AccountProperties.SignInUnknown | api/User.js:288-291 | an e-mail not on file gets "Datos de inicio de sesión incorrectos" |
| AccountProperties.SignInUnverified | api/User.js:293-297 | a user still unverified gets the "not verified yet" error whatever the password |
| AccountProperties.SignInKnownUser | api/User.js:277-320 | for the user holding the trimmed e-mail, when no call rejects: SUCCESS exactly when the trimmed password is non-empty, the user is verified and its stored hash is the hash of the trimmed password; SUCCESS returns that user |
| AccountProperties.RequestResetRefused | api/User.js:342-363 | when no verified user holds the e-mail: FAILED and no table changes |
| AccountProperties.RequestResetIssues | api/User.js:349-403 | for a verified user: every earlier reset ticket of the user is deleted, then exactly `(id, hash(uuid + id), now, now + 3600000)` is saved unless hashing or saving rejects; the deletion stands either way and the user ends with at most one ticket |
| AccountProperties.RequestResetPendingIff | api/User.js:343-412 | for the holder of the e-mail (e-mails unique): PENDING exactly when that holder is verified and none of the lookup, delete, hash, save and mail calls rejects |
| AccountProperties.RequestResetWellFormed | api/User.js:338-445 | a reset request preserves `WellFormed` |
| AccountProperties.SendResetEmailWellFormed | api/User.js:375-445 | sendResetEmail preserves `WellFormed` for any user id, whichever call rejects |
| AccountProperties.ResetNoTicket | api/User.js:537-542 | no reset ticket: "Solicitud de restablecimiento de contraseña no encontrada." (or the lookup error) and no table changes |
| AccountProperties.ResetExpired | api/User.js:457-465 | an expired reset ticket is deleted, the password is not changed, and the answer is the expiry message |
| AccountProperties.ResetMatch | api/User.js:474-495 | a live matching reset ticket with no rejected call: SUCCESS, the password set to the hash of the new password, the ticket deleted |
| AccountProperties.ResetMismatch | api/User.js:521-526 | a live ticket whose hash does not match: FAILED and no table changes |
| AccountProperties.ResetPasswordWellFormed | api/User.js:447-551 | a password reset preserves `WellFormed` |
| AccountProperties.ResetWithPaddedPasswordLocksOut | api/User.js:481-485 | with a hash that tells strings apart, a successful reset to a password with leading or trailing white space leaves the user unable to sign in with any password |
| AccountScenarios.SignupVerifySignIn | api/User.js:48-335 | signup is PENDING; a wrong token fails and changes nothing; the mailed token, within 6 hours, verifies the user; then signing in with the form's e-mail and password succeeds |
| AccountScenarios.SignupIssuesTicket | api/User.js:87-164 | an accepted signup with a free e-mail and no rejected call is PENDING, adds exactly the new user, keeps the tables well formed, and the new user's first verification ticket is the one just issued |
| AccountScenarios.VerifiedUserSignsIn | api/User.js:277-306 | once the user created from an accepted form is verified, signing in with the e-mail and password as typed into the signup form succeeds |
| AccountScenarios.ResetRequestedTwice | api/User.js:338-445 | two reset requests are both PENDING and leave the user exactly one reset ticket, the second request's |
| AccountScenarios.OnlyLatestResetTokenWorks | api/User.js:447-551 | with the second request's ticket in place, the first request's token gets the mismatch message and changes nothing; the second's resets the password and consumes the ticket |
| AccountScenarios.ExpiredResetThenRequest | api/User.js:457-465 | an attempt with an expired reset ticket deletes only that ticket; a reset request made afterwards ends exactly as it would have without the attempt |
| AccountScenarios.RequestResetOfVerifiedUser | api/User.js:342-356 | a reset request for the verified holder of the e-mail is sendResetEmail for that user |
| AccountScenarios.SendResetEmailAfterDeleteOne | api/User.js:377-378 | because sendResetEmail deletes all of the user's reset tickets, an earlier `deleteOne` of theirs does not change its outcome |
| AccountScenarios.SendResetEmailSucceeds | api/User.js:375-411 | with no rejected call, sendResetEmail replaces the user's reset tickets by the one new ticket and answers PENDING |
| AccountScenarios.SignupUndoneByExpiry | api/User.js:190-216 | a signup whose ticket expires unused is undone by the late verification: exactly the tables from before the signup remain |
| AccountScenarios.RegistrationUndoneByExpiry | api/User.js:202-216 | the same, stated for an already accepted form |
| Service.AccountService.constructor | models/User.js:4-11 | the service starts with empty collections, which are well formed |
| Service.AccountService.Signup | api/User.js:48-133 | the handler, one store call at a time, ends in the tables and answer of `Accounts.Signup` and keeps the collections well formed |
| Service.AccountService.Register | api/User.js:87-132 | ends in the tables and answer of `Accounts.Register` and keeps the collections well formed |
| Service.AccountService.SendVerificationEmail | api/User.js:136-187 | for a user on file holding no verification ticket, ends in the tables and answer of `Accounts.SendVerificationEmail` and keeps the collections well formed |
| Service.AccountService.Verify | api/User.js:190-268 | ends in the tables and answer of `Accounts.Verify` and keeps the collections well formed |
| Service.AccountService.SignIn | api/User.js:277-335 | changes nothing and answers as `Accounts.SignIn` does |
| Service.AccountService.RequestPasswordReset | api/User.js:338-372 | ends in the tables and answer of `Accounts.RequestReset` and keeps the collections well formed |
| Service.AccountService.SendResetEmail | api/User.js:375-445 | ends in the tables and answer of `Accounts.SendResetEmail` and keeps the collections well formed |
| Service.AccountService.ResetPassword | api/User.js:447-551 | ends in the tables and answer of `Accounts.ResetPassword` and keeps the collections well formed |

## Left out

- Mail delivery (`nodemailer`): the mail's contents (`from`, `subject`, the HTML body, the link built from `currentUrl` or `redirectUrl`) are not modelled. Only whether `sendMail` rejects is, through `fault`. `redirectUrl` serves only to build that link. The `transporter.verify` start-up log is left out too.
- bcrypt: salts and cost factor are not modelled. A hash is a deterministic, total function, and a comparison is equality with it. Salting does not change which comparisons succeed. Real bcrypt ignores every byte past the 72nd of its input, so two passwords that share their first 72 bytes compare equal; the model's `hash` is arbitrary and does not build this in, and every lemma that needs distinct strings to hash apart (the lock-out lemma) states it as a hypothesis, which real bcrypt meets only for strings that differ within their first 72 bytes.
- `uuidv4()` randomness and MongoDB `_id` generation: both are parameters. The new id is assumed not to be in use.
- `Date.now()`: one instant `now` per request. The source reads the clock twice when it builds a ticket, so `createdAt` and `expiresAt - lifetime` could differ by a millisecond.
- `new Date(birthday)` parsing is a parameter `parseDate`. `None` stands for an invalid date, and an instant of 0 is rejected as the source's falsy test does. The schema stores `birthday` as a `Date`; the model keeps the validated string.
- Concurrency: requests are atomic transitions. Interleaved asynchronous store calls from concurrent requests, and the races they allow (two signups with one e-mail), are not modelled.
- The answer's presentation: the verification handler's redirects carry the message in the URL, and its success page (`views/verified.html`) is modelled as SUCCESS with an empty message. The `GET /verified` page is out of scope.
- Accounts.SignIn: returns the record of one user as `data`. The source returns the array of every user `User.find({ email })` found, which under unique e-mails is that single user.
- Accounts.Register: the user-save failure answer carries `data: result`, the empty lookup result; the model sends no data.
- `PasswordReset.expiresAt` is declared as a `String` in models/PasswordReset.js:8. JavaScript's `<` between that string of digits and a number compares numerically, so the model keeps an integer.
- models/UserVerification.js is not part of this model; its fields are taken from how api/User.js:150-155 builds a ticket, and it is given the same shape as `PasswordReset`.
- api/Translate.js and server.js (routing, the translation endpoint, process start-up) are outside the account core.
- Logging (`console.log`) is not modelled.
- Request bodies are parsed JSON (server.js:15) and no handler checks field types; the model takes every field as a string. A missing or non-string field of `/signup` or `/signin` makes `.trim()` throw (api/User.js:50-54, 279-280): Express answers with its own error page instead of one of the modelled JSON answers, and nothing is written. `/requestPasswordReset` and `/resetPassword` neither trim nor check their fields, so an object value reaches `User.find` (api/User.js:343), `PasswordReset.find` and `deleteOne` (api/User.js:451, 459, 489) and `User.updateOne` (api/User.js:485) as a query filter rather than a value; those queries are not modelled.
