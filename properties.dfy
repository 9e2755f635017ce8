/**
  What the handlers guarantee, one request at a time: which tables a request
  touches in each branch, what it inserts, and that every handler keeps the
  tables well formed.
*/
module AccountProperties {
  import opened Wrappers
  import opened JsString
  import opened SignupValidation
  import opened Hashing
  import opened Tickets
  import opened Accounts

  // ---------------------------------------------------------------------------
  // Validation
  // ---------------------------------------------------------------------------

  /** The check that fails first, in the handler's order, is the one reported. */
  lemma FirstFailureDecides(form: SignupForm, parseDate: string -> Option<int>, k: nat)
    requires k < |CheckOrder|
    requires !Passes(CheckOrder[k], Trimmed(form), parseDate)
    requires forall j :: 0 <= j < k ==> Passes(CheckOrder[j], Trimmed(form), parseDate)
    ensures Validate(form, parseDate) == Rejected(CheckOrder[k])
  {
    var r := Validate(form, parseDate);
    assert r.Rejected?;
    var p := Position(r.failed);
    assert p <= k;
    assert k <= p;
  }

  /** A rejected form is answered with its check's message and no table changes. */
  lemma RejectedFormTouchesNothing(
    db: Tables, form: SignupForm, parseDate: string -> Option<int>, hash: string -> Digest,
    newId: string, uuid: string, now: int, fault: Option<IoStep>, k: nat)
    requires newId !in db.users
    requires k < |CheckOrder|
    requires !Passes(CheckOrder[k], Trimmed(form), parseDate)
    requires forall j :: 0 <= j < k ==> Passes(CheckOrder[j], Trimmed(form), parseDate)
    ensures Signup(db, form, parseDate, hash, newId, uuid, now, fault)
         == Outcome(db, Fail(RejectionMessage(CheckOrder[k])))
  {
    FirstFailureDecides(form, parseDate, k);
  }

  // ---------------------------------------------------------------------------
  // Signup
  // ---------------------------------------------------------------------------

  /** A registered e-mail address: FAILED, and every table as it was. */
  lemma SignupEmailTaken(
    db: Tables, form: SignupForm, parseDate: string -> Option<int>, hash: string -> Digest,
    newId: string, uuid: string, now: int, fault: Option<IoStep>)
    requires newId !in db.users
    requires Validate(form, parseDate).Accepted?
    requires EmailTaken(db.users, Trim(form.email))
    ensures Signup(db, form, parseDate, hash, newId, uuid, now, fault).tables == db
    ensures Signup(db, form, parseDate, hash, newId, uuid, now, fault).response
         == Fail(if Rejects(fault, FindUser) then MsgSignupLookupError else MsgEmailTaken)
  {
  }

  /** An accepted form goes on to `Register` with its trimmed fields. */
  lemma SignupAccepted(
    db: Tables, form: SignupForm, parseDate: string -> Option<int>, hash: string -> Digest,
    newId: string, uuid: string, now: int, fault: Option<IoStep>)
    requires newId !in db.users
    requires Validate(form, parseDate).Accepted?
    ensures Signup(db, form, parseDate, hash, newId, uuid, now, fault)
         == Register(db, Trimmed(form), hash, newId, uuid, now, fault)
  {
  }

  /**
    A free e-mail address and no failing write: exactly one user is added,
    unverified and holding the hash of the trimmed password, and exactly one
    verification ticket for it, holding the hash of `uuid + newId` and
    expiring 21600000 ms after its creation.
  */
  lemma SignupInserts(
    db: Tables, form: SignupForm, parseDate: string -> Option<int>, hash: string -> Digest,
    newId: string, uuid: string, now: int, fault: Option<IoStep>)
    requires newId !in db.users
    requires Validate(form, parseDate).Accepted?
    requires !EmailTaken(db.users, Trim(form.email))
    requires NoneRejects(fault, {FindUser, HashPassword, SaveUser, HashToken, SaveTicket})
    ensures var o := Signup(db, form, parseDate, hash, newId, uuid, now, fault);
      && o.tables.users == db.users[newId := User(Trim(form.nombre), Trim(form.apellido),
           Trim(form.birthday), Trim(form.email), hash(Trim(form.password)), false)]
      && o.tables.verifications == db.verifications + [Ticket(newId, hash(uuid + newId), now, now + 21600000)]
      && o.tables.resets == db.resets
      && o.response == if Rejects(fault, SendMail) then Fail(MsgVerificationMailError)
                       else Response(Pending, MsgVerificationSent, None)
  {
    SignupAccepted(db, form, parseDate, hash, newId, uuid, now, fault);
    RegisterInserts(db, Trimmed(form), hash, newId, uuid, now, fault);
  }

  lemma RegisterInserts(
    db: Tables, f: SignupForm, hash: string -> Digest,
    newId: string, uuid: string, now: int, fault: Option<IoStep>)
    requires newId !in db.users
    requires !EmailTaken(db.users, f.email)
    requires NoneRejects(fault, {FindUser, HashPassword, SaveUser, HashToken, SaveTicket})
    ensures var o := Register(db, f, hash, newId, uuid, now, fault);
      && o.tables.users == db.users[newId := User(f.nombre, f.apellido, f.birthday, f.email, hash(f.password), false)]
      && o.tables.verifications == db.verifications + [Ticket(newId, hash(uuid + newId), now, now + 21600000)]
      && o.tables.resets == db.resets
      && o.response == if Rejects(fault, SendMail) then Fail(MsgVerificationMailError)
                       else Response(Pending, MsgVerificationSent, None)
  {
  }

  /**
    The secret string reaches the tables only through its hash: two secrets
    with the same hash leave the same tables and the same answer.
  */
  lemma SignupStoresOnlyTokenHash(
    db: Tables, form: SignupForm, parseDate: string -> Option<int>, hash: string -> Digest,
    newId: string, uuid1: string, uuid2: string, now: int, fault: Option<IoStep>)
    requires newId !in db.users
    requires hash(uuid1 + newId) == hash(uuid2 + newId)
    ensures Signup(db, form, parseDate, hash, newId, uuid1, now, fault)
         == Signup(db, form, parseDate, hash, newId, uuid2, now, fault)
  {
    if Validate(form, parseDate).Accepted? {
      SignupAccepted(db, form, parseDate, hash, newId, uuid1, now, fault);
      SignupAccepted(db, form, parseDate, hash, newId, uuid2, now, fault);
      RegisterStoresOnlyTokenHash(db, Trimmed(form), hash, newId, uuid1, uuid2, now, fault);
    }
  }

  lemma RegisterStoresOnlyTokenHash(
    db: Tables, f: SignupForm, hash: string -> Digest,
    newId: string, uuid1: string, uuid2: string, now: int, fault: Option<IoStep>)
    requires newId !in db.users
    requires hash(uuid1 + newId) == hash(uuid2 + newId)
    ensures Register(db, f, hash, newId, uuid1, now, fault) == Register(db, f, hash, newId, uuid2, now, fault)
  {
    assert VerificationTicket(newId, hash, uuid1, now) == VerificationTicket(newId, hash, uuid2, now);
  }

  /** Signup keeps the tables well formed. */
  lemma SignupWellFormed(
    db: Tables, form: SignupForm, parseDate: string -> Option<int>, hash: string -> Digest,
    newId: string, uuid: string, now: int, fault: Option<IoStep>)
    requires WellFormed(db) && newId !in db.users
    ensures WellFormed(Signup(db, form, parseDate, hash, newId, uuid, now, fault).tables)
  {
    if Validate(form, parseDate).Accepted? {
      RegisterWellFormed(db, Validate(form, parseDate).form, hash, newId, uuid, now, fault);
    }
  }

  /** Signup after validation keeps the tables well formed. */
  lemma RegisterWellFormed(
    db: Tables, f: SignupForm, hash: string -> Digest,
    newId: string, uuid: string, now: int, fault: Option<IoStep>)
    requires WellFormed(db) && newId !in db.users
    ensures WellFormed(Register(db, f, hash, newId, uuid, now, fault).tables)
  {
    if !Rejects(fault, FindUser) && !EmailTaken(db.users, f.email)
       && !Rejects(fault, HashPassword) && !Rejects(fault, SaveUser)
    {
      AddUserWellFormed(db, newId, NewUser(f, hash));
      SendVerificationEmailWellFormed(db.(users := db.users[newId := NewUser(f, hash)]), newId, hash, uuid, now, fault);
    }
  }

  /**
    Storing a user under a fresh id with an e-mail not on file keeps the
    tables well formed, and the new user holds no verification ticket yet.
  */
  lemma AddUserWellFormed(db: Tables, newId: string, u: User)
    requires WellFormed(db) && newId !in db.users && !EmailTaken(db.users, u.email)
    ensures WellFormed(db.(users := db.users[newId := u]))
    ensures Count(db.verifications, newId) == 0
  {
    forall i | 0 <= i < |db.verifications| ensures db.verifications[i].userId != newId {
      assert db.verifications[i] in db.verifications;
    }
    assert EmailsUnique(db.users[newId := u]);
  }

  /**
    sendVerificationEmail keeps the tables well formed when it is given a
    user on file who holds no verification ticket, as signup gives it.
  */
  lemma SendVerificationEmailWellFormed(
    db: Tables, id: string, hash: string -> Digest, uuid: string, now: int, fault: Option<IoStep>)
    requires WellFormed(db) && id in db.users && Count(db.verifications, id) == 0
    ensures WellFormed(SendVerificationEmail(db, id, hash, uuid, now, fault).tables)
  {
    var t := VerificationTicket(id, hash, uuid, now);
    forall uid ensures Count(db.verifications + [t], uid) <= 1 {
      CountAppend(db.verifications, t, uid);
    }
    var o := SendVerificationEmail(db, id, hash, uuid, now, fault);
    assert o.tables == db || o.tables == db.(verifications := db.verifications + [t]);
  }

  // ---------------------------------------------------------------------------
  // Verify
  // ---------------------------------------------------------------------------

  /** No verification ticket for `userId`: an error, and no table changes. */
  lemma VerifyNoTicket(
    db: Tables, userId: string, uniqueString: string, hash: string -> Digest, now: int,
    fault: Option<IoStep>)
    requires First(db.verifications, userId).None?
    ensures Verify(db, userId, uniqueString, hash, now, fault)
         == Outcome(db, Fail(if Rejects(fault, FindTicket) then MsgVerificationLookupError else MsgNoVerification))
  {
  }

  /**
    An expired ticket (`expiresAt < now`): that ticket is deleted, then the
    user with `_id = userId`, and the answer is the expiry message.
  */
  lemma VerifyExpired(
    db: Tables, userId: string, uniqueString: string, hash: string -> Digest, now: int,
    fault: Option<IoStep>)
    requires First(db.verifications, userId).Some?
    requires First(db.verifications, userId).value.expiresAt < now
    requires NoneRejects(fault, {FindTicket, DeleteTicket, DeleteUser})
    ensures Verify(db, userId, uniqueString, hash, now, fault)
         == Outcome(Tables(db.users - {userId}, DeleteOne(db.verifications, userId), db.resets),
                    Fail(MsgVerificationExpired))
  {
    assert !Rejects(fault, FindTicket) && !Rejects(fault, DeleteTicket) && !Rejects(fault, DeleteUser);
  }

  /**
    A live ticket whose hash matches: the user becomes verified, the ticket is
    deleted, and no other user changes. A ticket with `expiresAt == now` is
    still live.
  */
  lemma VerifyMatch(
    db: Tables, userId: string, uniqueString: string, hash: string -> Digest, now: int,
    fault: Option<IoStep>)
    requires First(db.verifications, userId).Some?
    requires now <= First(db.verifications, userId).value.expiresAt
    requires First(db.verifications, userId).value.hashed == hash(uniqueString)
    requires NoneRejects(fault, {FindTicket, CompareHash, UpdateUser, DeleteTicket})
    ensures var o := Verify(db, userId, uniqueString, hash, now, fault);
      && o.response.status == Success
      && o.tables.users == SetVerified(db.users, userId)
      && o.tables.verifications == DeleteOne(db.verifications, userId)
      && o.tables.resets == db.resets
  {
    assert !Rejects(fault, FindTicket) && !Rejects(fault, CompareHash);
    assert !Rejects(fault, UpdateUser) && !Rejects(fault, DeleteTicket);
    assert !Expired(First(db.verifications, userId).value, now);
  }

  /** A live ticket whose hash does not match: an error, and no table changes. */
  lemma VerifyMismatch(
    db: Tables, userId: string, uniqueString: string, hash: string -> Digest, now: int,
    fault: Option<IoStep>)
    requires First(db.verifications, userId).Some?
    requires now <= First(db.verifications, userId).value.expiresAt
    requires First(db.verifications, userId).value.hashed != hash(uniqueString)
    ensures Verify(db, userId, uniqueString, hash, now, fault).tables == db
    ensures Verify(db, userId, uniqueString, hash, now, fault).response.status == Failed
  {
  }

  /**
    A successful verification consumes the user's only ticket, so the same
    request again finds no ticket: an error that changes nothing.
  */
  lemma VerifyTwice(
    db: Tables, userId: string, uniqueString: string, hash: string -> Digest, now: int, later: int,
    fault: Option<IoStep>, fault2: Option<IoStep>)
    requires WellFormed(db)
    requires Verify(db, userId, uniqueString, hash, now, fault).response.status == Success
    ensures var db' := Verify(db, userId, uniqueString, hash, now, fault).tables;
      Verify(db', userId, uniqueString, hash, later, fault2)
        == Outcome(db', Fail(if Rejects(fault2, FindTicket) then MsgVerificationLookupError else MsgNoVerification))
  {
    var db' := Verify(db, userId, uniqueString, hash, now, fault).tables;
    assert db'.verifications == DeleteOne(db.verifications, userId);
    assert Count(db.verifications, userId) <= 1;
    assert Count(db'.verifications, userId) == 0;
    VerifyNoTicket(db', userId, uniqueString, hash, later, fault2);
  }

  /** `DeleteOne` keeps a ticket table free of duplicates per user. */
  lemma DeleteOneAtMostOne(ts: seq<Ticket>, uid: string)
    requires AtMostOnePerUser(ts)
    ensures AtMostOnePerUser(DeleteOne(ts, uid))
  {
    forall u ensures Count(DeleteOne(ts, uid), u) <= 1 {
      assert Count(ts, u) <= 1;
    }
  }

  /** What is left of a well-formed verification table after `DeleteOne`. */
  lemma VerificationsAfterDeleteOne(db: Tables, userId: string)
    requires WellFormed(db)
    ensures var rest := DeleteOne(db.verifications, userId);
      && AtMostOnePerUser(rest)
      && (forall t :: t in rest ==> t in db.verifications && t.userId != userId)
  {
    var rest := DeleteOne(db.verifications, userId);
    DeleteOneAtMostOne(db.verifications, userId);
    assert Count(db.verifications, userId) <= 1;
    assert Count(rest, userId) == 0;
    forall t | t in rest ensures t in db.verifications && t.userId != userId {
      DeleteOneSubset(db.verifications, userId, t);
      var i :| 0 <= i < |rest| && rest[i] == t;
    }
  }

  /** Verify keeps the tables well formed. */
  lemma VerifyWellFormed(
    db: Tables, userId: string, uniqueString: string, hash: string -> Digest, now: int,
    fault: Option<IoStep>)
    requires WellFormed(db)
    ensures WellFormed(Verify(db, userId, uniqueString, hash, now, fault).tables)
  {
    var o := Verify(db, userId, uniqueString, hash, now, fault);
    var rest := DeleteOne(db.verifications, userId);
    VerificationsAfterDeleteOne(db, userId);
    var removed := Tables(db.users - {userId}, rest, db.resets);
    var marked := Tables(SetVerified(db.users, userId), db.verifications, db.resets);
    assert WellFormed(db.(verifications := rest));
    assert WellFormed(removed) by { assert EmailsUnique(db.users - {userId}); }
    assert WellFormed(marked) by { assert EmailsUnique(SetVerified(db.users, userId)); }
    assert WellFormed(marked.(verifications := rest));
    assert o.tables in {db, db.(verifications := rest), removed, marked, marked.(verifications := rest)};
  }

  // ---------------------------------------------------------------------------
  // Sign-in
  // ---------------------------------------------------------------------------

  /** A blank trimmed e-mail or password is refused before any lookup. */
  lemma SignInBlank(db: Tables, email: string, password: string, hash: string -> Digest, fault: Option<IoStep>)
    requires AllWhitespace(email) || AllWhitespace(password)
    ensures SignIn(db, email, password, hash, fault) == Fail(MsgSignInBlank)
  {
    TrimBlank(email);
    TrimBlank(password);
  }

  /** No user holds the trimmed e-mail: FAILED. */
  lemma SignInUnknown(db: Tables, email: string, password: string, hash: string -> Digest, fault: Option<IoStep>)
    requires Trim(email) != "" && Trim(password) != "" && !Rejects(fault, FindUser)
    requires !EmailTaken(db.users, Trim(email))
    ensures SignIn(db, email, password, hash, fault) == Fail(MsgSignInUnknown)
  {
  }

  /** The user with that e-mail is not verified: FAILED, whatever the password. */
  lemma SignInUnverified(
    db: Tables, email: string, password: string, hash: string -> Digest, fault: Option<IoStep>, id: string)
    requires EmailsUnique(db.users)
    requires Trim(email) != "" && Trim(password) != "" && !Rejects(fault, FindUser)
    requires id in db.users && db.users[id].email == Trim(email) && !db.users[id].verifyEmail
    ensures SignIn(db, email, password, hash, fault) == Fail(MsgSignInUnverified)
  {
    UserByEmailUnique(db.users, Trim(email), id);
  }

  /**
    With unique e-mail addresses and no failing call, sign-in as the user
    holding the trimmed e-mail succeeds exactly when that user is verified and
    holds the hash of the trimmed password, and then it returns that user.
  */
  lemma SignInKnownUser(
    db: Tables, email: string, password: string, hash: string -> Digest, fault: Option<IoStep>, id: string)
    requires EmailsUnique(db.users)
    requires NoneRejects(fault, {FindUser, CompareHash})
    requires Trim(email) != "" && id in db.users && db.users[id].email == Trim(email)
    ensures SignIn(db, email, password, hash, fault).status == Success <==>
      Trim(password) != "" && db.users[id].verifyEmail && db.users[id].password == hash(Trim(password))
    ensures SignIn(db, email, password, hash, fault).status == Success ==>
      SignIn(db, email, password, hash, fault).data == Some(db.users[id])
  {
    UserByEmailUnique(db.users, Trim(email), id);
  }

  // ---------------------------------------------------------------------------
  // Reset request
  // ---------------------------------------------------------------------------

  /** No verified user holds the e-mail: FAILED, and no table changes. */
  lemma RequestResetRefused(db: Tables, email: string, hash: string -> Digest, uuid: string, now: int, fault: Option<IoStep>)
    requires !exists id :: id in db.users && db.users[id].email == email && db.users[id].verifyEmail
    ensures RequestReset(db, email, hash, uuid, now, fault).tables == db
    ensures RequestReset(db, email, hash, uuid, now, fault).response.status == Failed
  {
  }

  /**
    The verified user `id` holds the e-mail: all of their reset tickets are
    deleted first, then exactly one new one is saved, holding the hash of
    `uuid + id` and expiring at `now + 3600000`. The deletion stands when a
    later call fails.
  */
  lemma RequestResetIssues(
    db: Tables, email: string, hash: string -> Digest, uuid: string, now: int, fault: Option<IoStep>, id: string)
    requires EmailsUnique(db.users)
    requires id in db.users && db.users[id].email == email && db.users[id].verifyEmail
    requires NoneRejects(fault, {FindUser, DeleteTickets})
    ensures var o := RequestReset(db, email, hash, uuid, now, fault);
      && o.tables.users == db.users && o.tables.verifications == db.verifications
      && o.tables.resets == (if Rejects(fault, HashToken) || Rejects(fault, SaveTicket)
                             then DeleteMany(db.resets, id)
                             else DeleteMany(db.resets, id) + [Ticket(id, hash(uuid + id), now, now + 3600000)])
      && Count(o.tables.resets, id) <= 1
  {
    UserByEmailUnique(db.users, email, id);
    CountAppend(DeleteMany(db.resets, id), ResetTicket(id, hash, uuid, now), id);
  }

  /**
    For the holder `id` of the e-mail, the answer is PENDING exactly when the
    holder is verified and none of the five calls rejects.
  */
  lemma RequestResetPendingIff(
    db: Tables, email: string, hash: string -> Digest, uuid: string, now: int, fault: Option<IoStep>, id: string)
    requires EmailsUnique(db.users)
    requires id in db.users && db.users[id].email == email
    ensures RequestReset(db, email, hash, uuid, now, fault).response.status == Pending
        <==> db.users[id].verifyEmail && NoneRejects(fault, {FindUser, DeleteTickets, HashToken, SaveTicket, SendMail})
  {
    UserByEmailUnique(db.users, email, id);
  }

  /** Requesting a reset keeps the tables well formed. */
  lemma RequestResetWellFormed(
    db: Tables, email: string, hash: string -> Digest, uuid: string, now: int, fault: Option<IoStep>)
    requires WellFormed(db)
    ensures WellFormed(RequestReset(db, email, hash, uuid, now, fault).tables)
  {
    var o := RequestReset(db, email, hash, uuid, now, fault);
    if o.tables.resets != db.resets {
      var id :| id in db.users && db.users[id].email == email && db.users[id].verifyEmail;
      UserByEmailUnique(db.users, email, id);
      SendResetEmailWellFormed(db, id, hash, uuid, now, fault);
    }
  }

  /** sendResetEmail keeps the tables well formed, for any user id. */
  lemma SendResetEmailWellFormed(
    db: Tables, id: string, hash: string -> Digest, uuid: string, now: int, fault: Option<IoStep>)
    requires WellFormed(db)
    ensures WellFormed(SendResetEmail(db, id, hash, uuid, now, fault).tables)
  {
    var kept := DeleteMany(db.resets, id);
    var t := ResetTicket(id, hash, uuid, now);
    forall u ensures Count(kept + [t], u) <= 1 {
      CountAppend(kept, t, u);
      assert Count(db.resets, u) <= 1;
    }
    var o := SendResetEmail(db, id, hash, uuid, now, fault);
    assert o.tables == db || o.tables == db.(resets := kept) || o.tables == db.(resets := kept + [t]);
  }

  // ---------------------------------------------------------------------------
  // Reset completion
  // ---------------------------------------------------------------------------

  /** No reset ticket for `userId`: FAILED, and no table changes. */
  lemma ResetNoTicket(
    db: Tables, userId: string, resetString: string, newPassword: string,
    hash: string -> Digest, now: int, fault: Option<IoStep>)
    requires First(db.resets, userId).None?
    ensures ResetPassword(db, userId, resetString, newPassword, hash, now, fault)
         == Outcome(db, Fail(if Rejects(fault, FindTicket) then MsgResetLookupError else MsgResetNotFound))
  {
  }

  /**
    An expired reset ticket is deleted and the answer is the expiry message;
    unlike an expired verification, the user stays, password and all.
  */
  lemma ResetExpired(
    db: Tables, userId: string, resetString: string, newPassword: string,
    hash: string -> Digest, now: int, fault: Option<IoStep>)
    requires First(db.resets, userId).Some? && First(db.resets, userId).value.expiresAt < now
    requires NoneRejects(fault, {FindTicket, DeleteTicket})
    ensures ResetPassword(db, userId, resetString, newPassword, hash, now, fault)
         == Outcome(db.(resets := DeleteOne(db.resets, userId)), Fail(MsgResetExpired))
  {
  }

  /** A live, matching reset ticket: the password becomes `hash(newPassword)` and the ticket is deleted. */
  lemma ResetMatch(
    db: Tables, userId: string, resetString: string, newPassword: string,
    hash: string -> Digest, now: int, fault: Option<IoStep>)
    requires First(db.resets, userId).Some? && now <= First(db.resets, userId).value.expiresAt
    requires First(db.resets, userId).value.hashed == hash(resetString)
    requires NoneRejects(fault, {FindTicket, CompareHash, HashPassword, UpdateUser, DeleteTicket})
    ensures ResetPassword(db, userId, resetString, newPassword, hash, now, fault)
         == Outcome(Tables(SetPassword(db.users, userId, hash(newPassword)), db.verifications,
                           DeleteOne(db.resets, userId)),
                    Response(Success, MsgPasswordReset, None))
  {
    assert !Rejects(fault, FindTicket) && !Rejects(fault, CompareHash) && !Rejects(fault, HashPassword);
    assert !Rejects(fault, UpdateUser) && !Rejects(fault, DeleteTicket);
  }

  /** A live reset ticket whose hash does not match: FAILED, and no table changes. */
  lemma ResetMismatch(
    db: Tables, userId: string, resetString: string, newPassword: string,
    hash: string -> Digest, now: int, fault: Option<IoStep>)
    requires First(db.resets, userId).Some? && now <= First(db.resets, userId).value.expiresAt
    requires First(db.resets, userId).value.hashed != hash(resetString)
    ensures ResetPassword(db, userId, resetString, newPassword, hash, now, fault).tables == db
    ensures ResetPassword(db, userId, resetString, newPassword, hash, now, fault).response.status == Failed
  {
  }

  /** Completing a reset keeps the tables well formed. */
  lemma ResetPasswordWellFormed(
    db: Tables, userId: string, resetString: string, newPassword: string,
    hash: string -> Digest, now: int, fault: Option<IoStep>)
    requires WellFormed(db)
    ensures WellFormed(ResetPassword(db, userId, resetString, newPassword, hash, now, fault).tables)
  {
    var o := ResetPassword(db, userId, resetString, newPassword, hash, now, fault);
    var rest := DeleteOne(db.resets, userId);
    DeleteOneAtMostOne(db.resets, userId);
    forall t | t in rest ensures t in db.resets {
      DeleteOneSubset(db.resets, userId, t);
    }
    var changed := db.(users := SetPassword(db.users, userId, hash(newPassword)));
    assert WellFormed(db.(resets := rest));
    assert WellFormed(changed) by { assert EmailsUnique(changed.users); }
    assert WellFormed(changed.(resets := rest));
    assert o.tables in {db, db.(resets := rest), changed, changed.(resets := rest)};
  }

  /**
    The new password is stored untrimmed while sign-in trims what it is
    given. With a hash that tells strings apart, a new password that starts
    or ends with white space matches no password sign-in can be given: after
    such a reset the user cannot sign in.
  */
  lemma ResetWithPaddedPasswordLocksOut(
    db: Tables, userId: string, resetString: string, newPassword: string,
    hash: string -> Digest, now: int, fault: Option<IoStep>, email: string, password: string, fault2: Option<IoStep>)
    requires forall a, b :: hash(a) == hash(b) ==> a == b
    requires userId in db.users && EmailsUnique(db.users)
    requires Trim(newPassword) != newPassword
    requires ResetPassword(db, userId, resetString, newPassword, hash, now, fault).response.status == Success
    requires Trim(email) == db.users[userId].email
    ensures SignIn(ResetPassword(db, userId, resetString, newPassword, hash, now, fault).tables,
                   email, password, hash, fault2).status != Success
  {
    var users := SetPassword(db.users, userId, hash(newPassword));
    assert ResetPassword(db, userId, resetString, newPassword, hash, now, fault).tables.users == users;
    assert EmailsUnique(users);
    UserByEmailUnique(users, Trim(email), userId);
    TrimIdempotent(password);
  }
}
