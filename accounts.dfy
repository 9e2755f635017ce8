/**
  The account lifecycle of api/User.js as transitions over the three tables:
  users, verification tickets and reset tickets. Each handler is one function
  from the tables before the request to the tables after it and the response.

  What the handlers get from outside is passed in: the current time `now` in
  milliseconds (one instant per request), the `uuidv4()` string, the id the
  store gives a new user, the bcrypt hash as a total function `hash` (so that
  `bcrypt.compare(p, h)` is `h == hash(p)`), the date parser, and `fault`,
  the collaborator call (store query, hash, mail) that rejects, if any.
  A rejected call ends the request with FAILED; writes made before it stay.
*/
module Accounts {
  import opened Wrappers
  import opened JsString
  import opened SignupValidation
  import opened Hashing
  import opened Tickets

  /** A document of the `User` collection (models/User.js:4-11). */
  datatype User = User(
    nombre: string, apellido: string, birthday: string, email: string,
    password: Digest, verifyEmail: bool)

  /** The three collections: users by `_id`, and the two ticket collections in natural order. */
  datatype Tables = Tables(users: map<string, User>, verifications: seq<Ticket>, resets: seq<Ticket>)

  datatype Status = Pending | Success | Failed

  /** `{ status, message, data? }`; `data` is only sent by a successful sign-in. */
  datatype Response = Response(status: Status, message: string, data: Option<User>)

  function Fail(message: string): Response {
    Response(Failed, message, None)
  }

  /** The collaborator calls a handler makes, any of which may reject. */
  datatype IoStep =
    | FindUser | HashPassword | SaveUser | HashToken | SaveTicket | SendMail
    | FindTicket | DeleteTicket | DeleteTickets | DeleteUser | CompareHash | UpdateUser

  datatype Outcome = Outcome(tables: Tables, response: Response)

  /** Lifetime of a verification ticket: 6 hours in milliseconds. */
  const VerificationLifetime: int := 21600000
  /** Lifetime of a reset ticket: 60 minutes in milliseconds. */
  const ResetLifetime: int := 3600000

  const MsgSignupLookupError := "Error mientras se buscaba un usuario existente"
  const MsgEmailTaken := "El correo electrónico ingresado ya se encuentra registrado"
  const MsgPasswordHashError := "Error mientras se aplicaba hash a la contraseña"
  const MsgUserSaveError := "Error mientras se creaba usuario nuevo"
  const MsgVerificationHashError := "Ocurrió un error mientras se hacía hash a los datos del correo"
  const MsgVerificationSaveError := "No se pudo guardar la información de verificación de correo"
  const MsgVerificationMailError := "Falló la verificación de correo electrónico"
  const MsgVerificationSent := "Se envió la verificación de correo electrónico"

  const MsgVerificationLookupError :=
    "Se produjo un error al verificar el registro de verificación de usuario existente"
  const MsgNoVerification :=
    "No se encontró registro de cuenta o ya se encuentra verificada. Por favor, registrate o inicia sesión."
  const MsgExpiryDeleteError := "Ocurrió un error al verificar la expiración de verificación"
  const MsgUserDeleteError := "Error al eliminar usuario con unique string"
  const MsgVerificationExpired := "El enlace ha expirado. Por favor, registrate de nuevo."
  const MsgVerificationCompareError := "Se produjo un error al comparar unique strings."
  const MsgVerificationMismatch := "Detalles de verificación incorrectos. Verificar bandeja de entrada."
  const MsgVerifyUpdateError := "Error al actualizar verificación"
  const MsgVerifyFinishError := "Se produjo un error mientras finalizaba la verificación."
  /** The success answer of verification is the page views/verified.html, which has no message. */
  const MsgVerified := ""

  const MsgSignInBlank := "Datos de inicio de sesión en blanco"
  const MsgUserLookupError := "Ocurrió un error mientras se verificaba la existencia del usuario"
  const MsgSignInUnknown := "Datos de inicio de sesión incorrectos"
  const MsgSignInUnverified :=
    "El correo electrónico no ha sido verificado aún. Comprobar bandeja de entrada."
  const MsgPasswordCompareError := "Ocurrió un error mientras se comparaban contraseñas"
  const MsgSignedIn := "Inicio de sesión éxitoso"
  const MsgWrongPassword := "Contraseña introducida inválida"

  const MsgResetUnverified := "El correo electrónico no se encuentra verificado aún"
  const MsgResetUnknown := "No existe una cuenta asosiada al correo electrónico introducido"
  const MsgResetClearError :=
    "Ocurrió un error al intentar borrrar los  datos de restablecimiento de contraseña existentes"
  const MsgResetHashError :=
    "Ocurrió un error mientras se realizaba el hash a los datos de restablecimiento de contraseña"
  const MsgResetSaveError := "No se pudo guardar los datos de restablecimiento de contraseña"
  const MsgResetMailError := "No se pudo enviar correo de restablecimiento de contraseña"
  const MsgResetSent := "Se envió el correo para el restablecimiento de contraseña"

  const MsgResetLookupError :=
    "Ocurrió un error al intentar buscar los  datos de restablecimiento de contraseña existentes"
  const MsgResetNotFound := "Solicitud de restablecimiento de contraseña no encontrada."
  const MsgResetDeleteError := "Error al borrar el registro de restablecimiento de contraseña."
  const MsgResetExpired := "El enlace para restablecer contraseña ha expirado."
  const MsgResetCompareError := "Error al comparar cadena de restablecimiento de contraseña."
  const MsgResetMismatch := "Detalles de restablecimiento de contraseña no válidos."
  const MsgNewPasswordHashError := "Se produjo un errormientras se realizaba hash a la contraseña nueva."
  const MsgPasswordUpdateError := "Error al actualizar contraseña de usuario."
  const MsgResetFinishError := "Se produjo un error al restablecer contraseña."
  const MsgPasswordReset := "Se restableció la contraseña con éxito."

  predicate Rejects(fault: Option<IoStep>, step: IoStep) {
    fault == Some(step)
  }

  // ---------------------------------------------------------------------------
  // The users table
  // ---------------------------------------------------------------------------

  /** `User.find({ email })` is not empty. */
  predicate EmailTaken(users: map<string, User>, email: string) {
    exists id :: id in users && users[id].email == email
  }

  /** No two users share an e-mail address; signup keeps it so. */
  ghost predicate EmailsUnique(users: map<string, User>) {
    forall a, b :: a in users && b in users && users[a].email == users[b].email ==> a == b
  }

  /** `User.find({ email })` read through `data[0]`: the id of a user with that e-mail, if any. */
  ghost function UserByEmail(users: map<string, User>, email: string): (r: Option<string>)
    ensures r.None? <==> !EmailTaken(users, email)
    ensures r.Some? ==> r.value in users && users[r.value].email == email
  {
    if EmailTaken(users, email) then
      var id :| id in users && users[id].email == email;
      Some(id)
    else None
  }

  /** With unique e-mail addresses, the lookup finds exactly the user holding the address. */
  lemma UserByEmailUnique(users: map<string, User>, email: string, id: string)
    requires EmailsUnique(users)
    requires id in users && users[id].email == email
    ensures UserByEmail(users, email) == Some(id)
  {
  }

  /** `User.updateOne({ _id: id }, { verifyEmail: true })`; no user with that id, no change. */
  function SetVerified(users: map<string, User>, id: string): (r: map<string, User>)
    ensures r.Keys == users.Keys
    ensures id in users ==> r[id] == users[id].(verifyEmail := true)
    ensures forall u :: u in users && u != id ==> r[u] == users[u]
  {
    if id in users then users[id := users[id].(verifyEmail := true)] else users
  }

  /** `User.updateOne({ _id: id }, { password: h })`; no user with that id, no change. */
  function SetPassword(users: map<string, User>, id: string, h: Digest): (r: map<string, User>)
    ensures r.Keys == users.Keys
    ensures id in users ==> r[id] == users[id].(password := h)
    ensures forall u :: u in users && u != id ==> r[u] == users[u]
  {
    if id in users then users[id := users[id].(password := h)] else users
  }

  /** A ticket is live while `expiresAt` is not before now: the handlers test `expiresAt < Date.now()`. */
  predicate Expired(t: Ticket, now: int) {
    t.expiresAt < now
  }

  /**
    What every handler keeps true of the tables: e-mail addresses are unique,
    every verification ticket belongs to a user, nobody holds two tickets of
    one kind, and each ticket lives exactly its kind's lifetime.
  */
  ghost predicate WellFormed(db: Tables) {
    && EmailsUnique(db.users)
    && (forall t :: t in db.verifications ==> t.userId in db.users)
    && AtMostOnePerUser(db.verifications)
    && AtMostOnePerUser(db.resets)
    && (forall t :: t in db.verifications ==> t.expiresAt == t.createdAt + VerificationLifetime)
    && (forall t :: t in db.resets ==> t.expiresAt == t.createdAt + ResetLifetime)
  }

  // ---------------------------------------------------------------------------
  // POST /signup and sendVerificationEmail
  // ---------------------------------------------------------------------------

  /** The user record signup stores for an accepted form. */
  function NewUser(f: SignupForm, hash: string -> Digest): (u: User)
    ensures !u.verifyEmail && u.email == f.email && u.password == hash(f.password)
  {
    User(f.nombre, f.apellido, f.birthday, f.email, hash(f.password), false)
  }

  /** The verification ticket issued to `id`: its secret is `uuid + id`, of which only the hash is kept. */
  function VerificationTicket(id: string, hash: string -> Digest, uuid: string, now: int): (t: Ticket)
    ensures t.userId == id && t.createdAt == now && t.expiresAt - t.createdAt == VerificationLifetime
  {
    Ticket(id, hash(uuid + id), now, now + VerificationLifetime)
  }

  /** The calls of signup that may reject, in the order it makes them. */
  const SignupCalls: set<IoStep> := {FindUser, HashPassword, SaveUser, HashToken, SaveTicket, SendMail}

  /** No call among `calls` rejects. */
  predicate NoneRejects(fault: Option<IoStep>, calls: set<IoStep>) {
    fault.None? || fault.value !in calls
  }

  /**
    `POST /signup` (lines 48-133): a rejected form is answered before any
    table is read; an accepted one goes on to `Register` with its trimmed
    fields.
  */
  function Signup(
    db: Tables, form: SignupForm, parseDate: string -> Option<int>, hash: string -> Digest,
    newId: string, uuid: string, now: int, fault: Option<IoStep>): (o: Outcome)
    requires newId !in db.users
    ensures Validate(form, parseDate).Rejected? ==>
      o == Outcome(db, Fail(RejectionMessage(Validate(form, parseDate).failed)))
    ensures o.response.status != Success
    ensures o.tables.resets == db.resets
    ensures o.tables.users == db.users || o.tables.users == db.users[newId := NewUser(Trimmed(form), hash)]
    ensures o.tables.users != db.users ==>
      Validate(form, parseDate).Accepted? && !EmailTaken(db.users, Trim(form.email))
    ensures o.tables.verifications == db.verifications
         || o.tables.verifications == db.verifications + [VerificationTicket(newId, hash, uuid, now)]
    ensures o.response.status == Pending <==>
      && Validate(form, parseDate).Accepted?
      && !EmailTaken(db.users, Validate(form, parseDate).form.email)
      && NoneRejects(fault, SignupCalls)
  {
    match Validate(form, parseDate)
    case Rejected(c) => Outcome(db, Fail(RejectionMessage(c)))
    case Accepted(f) => Register(db, f, hash, newId, uuid, now, fault)
  }

  /**
    Lines 87-132, on an accepted form `f`: reject a registered e-mail, store
    the new unverified user, then issue its verification ticket. Users are
    only ever added, never as verified, and the reset tickets are not
    touched; PENDING comes exactly when the e-mail is free and no call
    rejects.
  */
  function Register(
    db: Tables, f: SignupForm, hash: string -> Digest,
    newId: string, uuid: string, now: int, fault: Option<IoStep>): (o: Outcome)
    requires newId !in db.users
    ensures o.response.status != Success
    ensures o.tables.resets == db.resets
    ensures o.tables.users == db.users || o.tables.users == db.users[newId := NewUser(f, hash)]
    ensures o.tables.users != db.users ==> !EmailTaken(db.users, f.email)
    ensures o.tables.verifications == db.verifications
         || o.tables.verifications == db.verifications + [VerificationTicket(newId, hash, uuid, now)]
    ensures o.tables.verifications != db.verifications ==> o.tables.users != db.users
    ensures o.response.status == Pending <==> !EmailTaken(db.users, f.email) && NoneRejects(fault, SignupCalls)
  {
    if Rejects(fault, FindUser) then Outcome(db, Fail(MsgSignupLookupError))
    else if EmailTaken(db.users, f.email) then Outcome(db, Fail(MsgEmailTaken))
    else if Rejects(fault, HashPassword) then Outcome(db, Fail(MsgPasswordHashError))
    else if Rejects(fault, SaveUser) then Outcome(db, Fail(MsgUserSaveError))
    else
      SendVerificationEmail(db.(users := db.users[newId := NewUser(f, hash)]), newId, hash, uuid, now, fault)
  }

  /**
    sendVerificationEmail: hash the secret, save the ticket, send the mail.
    Only the verification table changes, by at most the one new ticket; the
    answer is PENDING exactly when none of the three calls rejects.
  */
  function SendVerificationEmail(
    db: Tables, id: string, hash: string -> Digest, uuid: string, now: int,
    fault: Option<IoStep>): (o: Outcome)
    ensures o.tables.users == db.users && o.tables.resets == db.resets
    ensures o.tables.verifications == db.verifications
         || o.tables.verifications == db.verifications + [VerificationTicket(id, hash, uuid, now)]
    ensures o.response.status != Success
    ensures o.response.status == Pending <==> NoneRejects(fault, {HashToken, SaveTicket, SendMail})
  {
    if Rejects(fault, HashToken) then Outcome(db, Fail(MsgVerificationHashError))
    else if Rejects(fault, SaveTicket) then Outcome(db, Fail(MsgVerificationSaveError))
    else
      var db' := db.(verifications := db.verifications + [VerificationTicket(id, hash, uuid, now)]);
      if Rejects(fault, SendMail) then Outcome(db', Fail(MsgVerificationMailError))
      else Outcome(db', Response(Pending, MsgVerificationSent, None))
  }

  // ---------------------------------------------------------------------------
  // GET /verify/:userId/:uniqueString
  // ---------------------------------------------------------------------------

  /**
    `GET /verify/:userId/:uniqueString`. The answer is never PENDING, the
    reset tickets are untouched, users only disappear, no user but `userId`
    changes, and `userId` becomes verified only through a live ticket whose
    hash matches `uniqueString`; SUCCESS means exactly that, with the ticket
    consumed.
  */
  function Verify(
    db: Tables, userId: string, uniqueString: string, hash: string -> Digest, now: int,
    fault: Option<IoStep>): (o: Outcome)
    ensures o.response.status != Pending
    ensures o.tables.resets == db.resets
    ensures o.tables.verifications == db.verifications
         || o.tables.verifications == DeleteOne(db.verifications, userId)
    ensures o.tables.users == db.users || o.tables.users == db.users - {userId}
         || o.tables.users == SetVerified(db.users, userId)
    ensures o.tables.users == db.users - {userId} && o.tables.users != db.users ==>
      && First(db.verifications, userId).Some?
      && Expired(First(db.verifications, userId).value, now)
    ensures o.tables.users == SetVerified(db.users, userId) && o.tables.users != db.users ==>
      && First(db.verifications, userId).Some?
      && !Expired(First(db.verifications, userId).value, now)
      && First(db.verifications, userId).value.hashed == hash(uniqueString)
    ensures o.response.status == Success ==>
      && First(db.verifications, userId).Some?
      && !Expired(First(db.verifications, userId).value, now)
      && First(db.verifications, userId).value.hashed == hash(uniqueString)
      && o.tables == Tables(SetVerified(db.users, userId), DeleteOne(db.verifications, userId), db.resets)
  {
    if Rejects(fault, FindTicket) then Outcome(db, Fail(MsgVerificationLookupError))
    else match First(db.verifications, userId)
      case None => Outcome(db, Fail(MsgNoVerification))
      case Some(t) =>
        if Expired(t, now) then
          if Rejects(fault, DeleteTicket) then Outcome(db, Fail(MsgExpiryDeleteError))
          else
            var db' := db.(verifications := DeleteOne(db.verifications, userId));
            if Rejects(fault, DeleteUser) then Outcome(db', Fail(MsgUserDeleteError))
            else Outcome(db'.(users := db'.users - {userId}), Fail(MsgVerificationExpired))
        else if Rejects(fault, CompareHash) then Outcome(db, Fail(MsgVerificationCompareError))
        else if t.hashed != hash(uniqueString) then Outcome(db, Fail(MsgVerificationMismatch))
        else if Rejects(fault, UpdateUser) then Outcome(db, Fail(MsgVerifyUpdateError))
        else
          var db' := db.(users := SetVerified(db.users, userId));
          if Rejects(fault, DeleteTicket) then Outcome(db', Fail(MsgVerifyFinishError))
          else
            Outcome(db'.(verifications := DeleteOne(db.verifications, userId)),
                    Response(Success, MsgVerified, None))
  }

  // ---------------------------------------------------------------------------
  // POST /signin
  // ---------------------------------------------------------------------------

  /**
    `POST /signin`. It reads the users table and writes nothing. SUCCESS
    comes only for a verified user with the trimmed e-mail whose stored hash
    is the hash of the trimmed password, and carries that user's record.
  */
  ghost function SignIn(
    db: Tables, email: string, password: string, hash: string -> Digest,
    fault: Option<IoStep>): (r: Response)
    ensures r.status != Pending
    ensures r.status == Success ==>
      && Trim(email) != "" && Trim(password) != ""
      && UserByEmail(db.users, Trim(email)).Some?
      && r.data == Some(db.users[UserByEmail(db.users, Trim(email)).value])
      && r.data.value.verifyEmail && r.data.value.password == hash(Trim(password))
  {
    var e := Trim(email);
    var p := Trim(password);
    if e == "" || p == "" then Fail(MsgSignInBlank)
    else if Rejects(fault, FindUser) then Fail(MsgUserLookupError)
    else match UserByEmail(db.users, e)
      case None => Fail(MsgSignInUnknown)
      case Some(id) =>
        var u := db.users[id];
        if !u.verifyEmail then Fail(MsgSignInUnverified)
        else if Rejects(fault, CompareHash) then Fail(MsgPasswordCompareError)
        else if u.password == hash(p) then Response(Success, MsgSignedIn, Some(u))
        else Fail(MsgWrongPassword)
  }

  // ---------------------------------------------------------------------------
  // POST /requestPasswordReset and sendResetEmail
  // ---------------------------------------------------------------------------

  /** The reset ticket issued to `id`: its secret is `uuid + id`, of which only the hash is kept. */
  function ResetTicket(id: string, hash: string -> Digest, uuid: string, now: int): (t: Ticket)
    ensures t.userId == id && t.createdAt == now && t.expiresAt - t.createdAt == ResetLifetime
  {
    Ticket(id, hash(uuid + id), now, now + ResetLifetime)
  }

  /**
    `POST /requestPasswordReset`. The e-mail is used as sent, untrimmed. Only
    the reset tickets change, and only those of the verified user with that
    e-mail; the answer is never SUCCESS.
  */
  ghost function RequestReset(
    db: Tables, email: string, hash: string -> Digest, uuid: string, now: int,
    fault: Option<IoStep>): (o: Outcome)
    ensures o.response.status != Success
    ensures o.tables.users == db.users && o.tables.verifications == db.verifications
    ensures o.tables.resets != db.resets ==>
      UserByEmail(db.users, email).Some? && db.users[UserByEmail(db.users, email).value].verifyEmail
    ensures o.response.status == Pending ==>
      && UserByEmail(db.users, email).Some? && db.users[UserByEmail(db.users, email).value].verifyEmail
      && NoneRejects(fault, {FindUser, DeleteTickets, HashToken, SaveTicket, SendMail})
  {
    if Rejects(fault, FindUser) then Outcome(db, Fail(MsgUserLookupError))
    else match UserByEmail(db.users, email)
      case None => Outcome(db, Fail(MsgResetUnknown))
      case Some(id) =>
        if !db.users[id].verifyEmail then Outcome(db, Fail(MsgResetUnverified))
        else SendResetEmail(db, id, hash, uuid, now, fault)
  }

  /**
    sendResetEmail: delete every reset ticket of `id`, then hash the secret,
    save the new ticket and send the mail. Afterwards `id` holds at most one
    reset ticket, every other user's are untouched, and the answer is PENDING
    exactly when no call rejects.
  */
  function SendResetEmail(
    db: Tables, id: string, hash: string -> Digest, uuid: string, now: int,
    fault: Option<IoStep>): (o: Outcome)
    ensures o.tables.users == db.users && o.tables.verifications == db.verifications
    ensures Rejects(fault, DeleteTickets) ==> o.tables == db
    ensures !Rejects(fault, DeleteTickets) ==>
      o.tables.resets == DeleteMany(db.resets, id)
      || o.tables.resets == DeleteMany(db.resets, id) + [ResetTicket(id, hash, uuid, now)]
    ensures o.response.status != Success
    ensures o.response.status == Pending <==> NoneRejects(fault, {DeleteTickets, HashToken, SaveTicket, SendMail})
  {
    if Rejects(fault, DeleteTickets) then Outcome(db, Fail(MsgResetClearError))
    else
      var db1 := db.(resets := DeleteMany(db.resets, id));
      if Rejects(fault, HashToken) then Outcome(db1, Fail(MsgResetHashError))
      else if Rejects(fault, SaveTicket) then Outcome(db1, Fail(MsgResetSaveError))
      else
        var db2 := db1.(resets := db1.resets + [ResetTicket(id, hash, uuid, now)]);
        if Rejects(fault, SendMail) then Outcome(db2, Fail(MsgResetMailError))
        else Outcome(db2, Response(Pending, MsgResetSent, None))
  }

  // ---------------------------------------------------------------------------
  // POST /resetPassword
  // ---------------------------------------------------------------------------

  /**
    `POST /resetPassword`. The verification tickets are untouched, no user is
    added or removed and none changes its verification flag; a password
    changes only for `userId`, only to `hash(newPassword)`, and only through
    a live reset ticket whose hash matches `resetString`.
  */
  function ResetPassword(
    db: Tables, userId: string, resetString: string, newPassword: string,
    hash: string -> Digest, now: int, fault: Option<IoStep>): (o: Outcome)
    ensures o.response.status != Pending
    ensures o.tables.verifications == db.verifications
    ensures o.tables.resets == db.resets || o.tables.resets == DeleteOne(db.resets, userId)
    ensures o.tables.users == db.users || o.tables.users == SetPassword(db.users, userId, hash(newPassword))
    ensures o.tables.users != db.users ==>
      && First(db.resets, userId).Some?
      && !Expired(First(db.resets, userId).value, now)
      && First(db.resets, userId).value.hashed == hash(resetString)
    ensures o.response.status == Success ==>
      && First(db.resets, userId).Some?
      && !Expired(First(db.resets, userId).value, now)
      && First(db.resets, userId).value.hashed == hash(resetString)
      && NoneRejects(fault, {FindTicket, CompareHash, HashPassword, UpdateUser, DeleteTicket})
      && o.tables == Tables(SetPassword(db.users, userId, hash(newPassword)), db.verifications,
                            DeleteOne(db.resets, userId))
  {
    if Rejects(fault, FindTicket) then Outcome(db, Fail(MsgResetLookupError))
    else match First(db.resets, userId)
      case None => Outcome(db, Fail(MsgResetNotFound))
      case Some(t) =>
        if Expired(t, now) then
          if Rejects(fault, DeleteTicket) then Outcome(db, Fail(MsgResetDeleteError))
          else Outcome(db.(resets := DeleteOne(db.resets, userId)), Fail(MsgResetExpired))
        else if Rejects(fault, CompareHash) then Outcome(db, Fail(MsgResetCompareError))
        else if t.hashed != hash(resetString) then Outcome(db, Fail(MsgResetMismatch))
        else if Rejects(fault, HashPassword) then Outcome(db, Fail(MsgNewPasswordHashError))
        else if Rejects(fault, UpdateUser) then Outcome(db, Fail(MsgPasswordUpdateError))
        else
          var db' := db.(users := SetPassword(db.users, userId, hash(newPassword)));
          if Rejects(fault, DeleteTicket) then Outcome(db', Fail(MsgResetFinishError))
          else Outcome(db'.(resets := DeleteOne(db.resets, userId)), Response(Success, MsgPasswordReset, None))
  }
}
