/**
  Sequences of requests: the account lifecycle end to end, from signup
  through verification to sign-in, repeated reset requests, and a signup
  that follows an expired verification.
*/
module AccountScenarios {
  import opened Wrappers
  import opened JsString
  import opened SignupValidation
  import opened Hashing
  import opened Tickets
  import opened Accounts
  import opened AccountProperties

  /**
    Signup is PENDING; verifying with a token whose hash does not match fails
    and changes nothing; verifying with the mailed token, no later than the
    ticket's expiry, succeeds and marks the user verified; signing in with the
    same e-mail and password then succeeds.
  */
  lemma SignupVerifySignIn(
    db: Tables, form: SignupForm, parseDate: string -> Option<int>, hash: string -> Digest,
    newId: string, uuid: string, wrong: string, now: int, later: int)
    requires WellFormed(db) && newId !in db.users
    requires Validate(form, parseDate).Accepted? && !EmailTaken(db.users, Trim(form.email))
    requires hash(wrong) != hash(uuid + newId)
    requires now <= later <= now + 21600000
    ensures var o1 := Signup(db, form, parseDate, hash, newId, uuid, now, None);
      var o2 := Verify(o1.tables, newId, wrong, hash, later, None);
      var o3 := Verify(o2.tables, newId, uuid + newId, hash, later, None);
      && o1.response.status == Pending
      && o2 == Outcome(o1.tables, Fail(MsgVerificationMismatch))
      && o3.response.status == Success
      && newId in o3.tables.users && o3.tables.users[newId].verifyEmail
      && SignIn(o3.tables, form.email, form.password, hash, None).status == Success
  {
    SignupIssuesTicket(db, form, parseDate, hash, newId, uuid, now);
    var o1 := Signup(db, form, parseDate, hash, newId, uuid, now, None);
    VerifyMismatch(o1.tables, newId, wrong, hash, later, None);
    VerifyMatch(o1.tables, newId, uuid + newId, hash, later, None);
    VerifyWellFormed(o1.tables, newId, uuid + newId, hash, later, None);
    var o3 := Verify(o1.tables, newId, uuid + newId, hash, later, None);
    VerifiedUserSignsIn(o3.tables, form, parseDate, hash, newId);
  }

  /**
    An accepted signup with a free e-mail and no rejected call is PENDING and
    leaves well-formed tables in which the new user's first verification
    ticket is the one just issued.
  */
  lemma SignupIssuesTicket(
    db: Tables, form: SignupForm, parseDate: string -> Option<int>, hash: string -> Digest,
    newId: string, uuid: string, now: int)
    requires WellFormed(db) && newId !in db.users
    requires Validate(form, parseDate).Accepted? && !EmailTaken(db.users, Trim(form.email))
    ensures var o1 := Signup(db, form, parseDate, hash, newId, uuid, now, None);
      && o1.response.status == Pending
      && WellFormed(o1.tables)
      && o1.tables.users == db.users[newId := NewUser(Trimmed(form), hash)]
      && First(o1.tables.verifications, newId) == Some(Ticket(newId, hash(uuid + newId), now, now + 21600000))
  {
    var t := Ticket(newId, hash(uuid + newId), now, now + 21600000);
    SignupInserts(db, form, parseDate, hash, newId, uuid, now, None);
    SignupWellFormed(db, form, parseDate, hash, newId, uuid, now, None);
    assert Count(db.verifications, newId) == 0;
    FirstAppend(db.verifications, t, newId);
  }

  /**
    Once the user created from an accepted form is verified, signing in with
    the form's e-mail and password succeeds.
  */
  lemma VerifiedUserSignsIn(
    db: Tables, form: SignupForm, parseDate: string -> Option<int>, hash: string -> Digest, id: string)
    requires Validate(form, parseDate).Accepted?
    requires EmailsUnique(db.users) && id in db.users
    requires db.users[id] == NewUser(Trimmed(form), hash).(verifyEmail := true)
    ensures SignIn(db, form.email, form.password, hash, None).status == Success
  {
    AcceptedForm(form, parseDate);
    TrimIdempotent(form.email);
    TrimIdempotent(form.password);
    SignInKnownUser(db, form.email, form.password, hash, None, id);
  }

  /**
    Two reset requests in a row are both PENDING and leave the user exactly
    one reset ticket: the one issued by the second request.
  */
  lemma ResetRequestedTwice(
    db: Tables, email: string, hash: string -> Digest, id: string,
    uuid1: string, uuid2: string, now1: int, now2: int)
    requires EmailsUnique(db.users)
    requires id in db.users && db.users[id].email == email && db.users[id].verifyEmail
    ensures var o1 := RequestReset(db, email, hash, uuid1, now1, None);
      var o2 := RequestReset(o1.tables, email, hash, uuid2, now2, None);
      && o1.response.status == Pending && o2.response.status == Pending
      && o2.tables.users == db.users
      && Count(o2.tables.resets, id) == 1
      && First(o2.tables.resets, id) == Some(Ticket(id, hash(uuid2 + id), now2, now2 + 3600000))
  {
    var db1 := db.(resets := DeleteMany(db.resets, id) + [ResetTicket(id, hash, uuid1, now1)]);
    RequestResetOfVerifiedUser(db, email, hash, uuid1, now1, id);
    SendResetEmailSucceeds(db, id, hash, uuid1, now1);
    assert RequestReset(db, email, hash, uuid1, now1, None).tables == db1;
    RequestResetOfVerifiedUser(db1, email, hash, uuid2, now2, id);
    SendResetEmailSucceeds(db1, id, hash, uuid2, now2);
    var kept := DeleteMany(db1.resets, id);
    var t := ResetTicket(id, hash, uuid2, now2);
    CountAppend(kept, t, id);
    FirstAppend(kept, t, id);
  }

  /**
    When the user's one reset ticket is the second request's, the first
    request's token is refused as not matching (the ticket exists, so the
    answer is not "not found"), and the second's resets the password and
    consumes the ticket.
  */
  lemma OnlyLatestResetTokenWorks(
    db: Tables, hash: string -> Digest, id: string,
    uuid1: string, uuid2: string, now2: int, later: int, newPassword: string)
    requires Count(db.resets, id) == 1
    requires First(db.resets, id) == Some(Ticket(id, hash(uuid2 + id), now2, now2 + 3600000))
    requires hash(uuid1 + id) != hash(uuid2 + id)
    requires now2 <= later <= now2 + 3600000
    ensures var o3 := ResetPassword(db, id, uuid1 + id, newPassword, hash, later, None);
      var o4 := ResetPassword(o3.tables, id, uuid2 + id, newPassword, hash, later, None);
      && o3 == Outcome(db, Fail(MsgResetMismatch))
      && o4.response.status == Success
      && o4.tables.users == SetPassword(db.users, id, hash(newPassword))
      && Count(o4.tables.resets, id) == 0
  {
    ResetMismatch(db, id, uuid1 + id, newPassword, hash, later, None);
    ResetMatch(db, id, uuid2 + id, newPassword, hash, later, None);
  }

  /**
    A reset attempt with an expired ticket deletes that ticket; a reset
    request made afterwards ends exactly as it would have without the
    attempt, since the request deletes all of the user's tickets anyway.
  */
  lemma ExpiredResetThenRequest(
    db: Tables, hash: string -> Digest, id: string, email: string, resetString: string,
    newPassword: string, now: int, uuid: string, later: int)
    requires EmailsUnique(db.users)
    requires id in db.users && db.users[id].email == email && db.users[id].verifyEmail
    requires First(db.resets, id).Some? && First(db.resets, id).value.expiresAt < now
    ensures var o1 := ResetPassword(db, id, resetString, newPassword, hash, now, None);
      && o1.response == Fail(MsgResetExpired)
      && o1.tables == db.(resets := DeleteOne(db.resets, id))
      && RequestReset(o1.tables, email, hash, uuid, later, None) == RequestReset(db, email, hash, uuid, later, None)
  {
    ResetExpired(db, id, resetString, newPassword, hash, now, None);
    var db1 := db.(resets := DeleteOne(db.resets, id));
    RequestResetOfVerifiedUser(db, email, hash, uuid, later, id);
    RequestResetOfVerifiedUser(db1, email, hash, uuid, later, id);
    SendResetEmailAfterDeleteOne(db, id, hash, uuid, later);
  }

  /** A reset request for the verified holder of the e-mail is sendResetEmail for that user. */
  lemma RequestResetOfVerifiedUser(db: Tables, email: string, hash: string -> Digest, uuid: string, now: int, id: string)
    requires EmailsUnique(db.users)
    requires id in db.users && db.users[id].email == email && db.users[id].verifyEmail
    ensures RequestReset(db, email, hash, uuid, now, None) == SendResetEmail(db, id, hash, uuid, now, None)
  {
    UserByEmailUnique(db.users, email, id);
  }

  /** sendResetEmail deletes all of the user's tickets, so an earlier `deleteOne` of theirs makes no difference. */
  lemma SendResetEmailAfterDeleteOne(db: Tables, id: string, hash: string -> Digest, uuid: string, now: int)
    ensures SendResetEmail(db.(resets := DeleteOne(db.resets, id)), id, hash, uuid, now, None)
         == SendResetEmail(db, id, hash, uuid, now, None)
  {
    var db1 := db.(resets := DeleteOne(db.resets, id));
    var t := ResetTicket(id, hash, uuid, now);
    SendResetEmailSucceeds(db, id, hash, uuid, now);
    SendResetEmailSucceeds(db1, id, hash, uuid, now);
    DeleteOneThenMany(db.resets, id);
    assert db1.(resets := DeleteMany(db1.resets, id) + [t]) == db.(resets := DeleteMany(db.resets, id) + [t]);
  }

  /** With no rejected call, sendResetEmail replaces the user's reset tickets by the new one and is PENDING. */
  lemma SendResetEmailSucceeds(db: Tables, id: string, hash: string -> Digest, uuid: string, now: int)
    ensures SendResetEmail(db, id, hash, uuid, now, None)
         == Outcome(db.(resets := DeleteMany(db.resets, id) + [ResetTicket(id, hash, uuid, now)]),
                    Response(Pending, MsgResetSent, None))
  {
  }

  /**
    A signup whose ticket expires unused: the late verification deletes the
    ticket and the user, which leaves exactly the tables from before the
    signup, so a new signup with the same e-mail is treated as the first.
  */
  lemma SignupUndoneByExpiry(
    db: Tables, form: SignupForm, parseDate: string -> Option<int>, hash: string -> Digest,
    id: string, uuid: string, token: string, now: int, later: int)
    requires id !in db.users && Count(db.verifications, id) == 0
    requires Validate(form, parseDate).Accepted? && !EmailTaken(db.users, Trim(form.email))
    requires now + 21600000 < later
    ensures var o1 := Signup(db, form, parseDate, hash, id, uuid, now, None);
      && o1.response.status == Pending
      && Verify(o1.tables, id, token, hash, later, None) == Outcome(db, Fail(MsgVerificationExpired))
  {
    SignupAccepted(db, form, parseDate, hash, id, uuid, now, None);
    RegistrationUndoneByExpiry(db, Trimmed(form), hash, id, uuid, token, now, later);
  }

  /** `SignupUndoneByExpiry` for an already accepted form. */
  lemma RegistrationUndoneByExpiry(
    db: Tables, f: SignupForm, hash: string -> Digest,
    id: string, uuid: string, token: string, now: int, later: int)
    requires id !in db.users && Count(db.verifications, id) == 0
    requires !EmailTaken(db.users, f.email)
    requires now + 21600000 < later
    ensures Verify(Register(db, f, hash, id, uuid, now, None).tables, id, token, hash, later, None)
         == Outcome(db, Fail(MsgVerificationExpired))
  {
    var t := VerificationTicket(id, hash, uuid, now);
    var added := Tables(db.users[id := NewUser(f, hash)], db.verifications + [t], db.resets);
    RegisterInserts(db, f, hash, id, uuid, now, None);
    assert Register(db, f, hash, id, uuid, now, None).tables == added;
    FirstAppend(db.verifications, t, id);
    DeleteOneAppend(db.verifications, t);
    VerifyExpired(added, id, token, hash, later, None);
    RemoveAdded(db.users, id, NewUser(f, hash));
  }

  /** Removing a user that was just added gives back the users from before. */
  lemma RemoveAdded(users: map<string, User>, id: string, u: User)
    requires id !in users
    ensures users[id := u] - {id} == users
  {
  }
}
