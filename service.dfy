/**
  The handlers of api/User.js as an object that owns the three collections
  and changes them one store call at a time, in the order the handlers make
  those calls. Every method ends in the state and with the answer that the
  matching transition of `Accounts` gives, and keeps the collections well
  formed; the properties proved of the transitions therefore hold of the
  methods.
*/
module Service {
  import opened Wrappers
  import opened JsString
  import opened SignupValidation
  import opened Hashing
  import opened Tickets
  import opened Accounts
  import opened AccountProperties

  class AccountService {
    /** The `User` collection, by `_id`. */
    var users: map<string, User>
    /** The `UserVerification` collection, in insertion order. */
    var verifications: seq<Ticket>
    /** The `PasswordReset` collection, in insertion order. */
    var resets: seq<Ticket>
    /** `bcrypt.hash`, its salt abstracted away. */
    const hash: string -> Digest
    /** The birthday parser: milliseconds since the epoch, `None` for an invalid date. */
    const parseDate: string -> Option<int>

    function State(): Tables
      reads this
    {
      Tables(users, verifications, resets)
    }

    ghost predicate Valid()
      reads this
    {
      WellFormed(State())
    }

    /** Empty collections. */
    constructor (hash: string -> Digest, parseDate: string -> Option<int>)
      ensures Valid() && State() == Tables(map[], [], [])
      ensures this.hash == hash && this.parseDate == parseDate
    {
      users, verifications, resets := map[], [], [];
      this.hash, this.parseDate := hash, parseDate;
    }

    /** `POST /signup` (lines 48-133). */
    method Signup(form: SignupForm, newId: string, uuid: string, now: int, fault: Option<IoStep>)
      returns (r: Response)
      requires Valid() && newId !in users
      modifies this
      ensures Valid()
      ensures Outcome(State(), r) == Accounts.Signup(old(State()), form, parseDate, hash, newId, uuid, now, fault)
    {
      ghost var db := State();
      SignupWellFormed(db, form, parseDate, hash, newId, uuid, now, fault);
      var checked := Validate(form, parseDate);
      match checked
      case Rejected(c) =>
        r := Fail(RejectionMessage(c));
      case Accepted(f) =>
        SignupAccepted(db, form, parseDate, hash, newId, uuid, now, fault);
        r := Register(f, newId, uuid, now, fault);
    }

    /** Lines 87-132: the steps of signup after the form is accepted. */
    method Register(f: SignupForm, newId: string, uuid: string, now: int, fault: Option<IoStep>)
      returns (r: Response)
      requires Valid() && newId !in users
      modifies this
      ensures Valid()
      ensures Outcome(State(), r) == Accounts.Register(old(State()), f, hash, newId, uuid, now, fault)
    {
      RegisterWellFormed(State(), f, hash, newId, uuid, now, fault);
      if Rejects(fault, FindUser) {
        r := Fail(MsgSignupLookupError);
      } else if EmailTaken(users, f.email) {
        r := Fail(MsgEmailTaken);
      } else if Rejects(fault, HashPassword) {
        r := Fail(MsgPasswordHashError);
      } else if Rejects(fault, SaveUser) {
        r := Fail(MsgUserSaveError);
      } else {
        AddUserWellFormed(State(), newId, NewUser(f, hash));
        users := users[newId := NewUser(f, hash)];
        r := SendVerificationEmail(newId, uuid, now, fault);
      }
    }

    /** sendVerificationEmail (lines 136-187). */
    method SendVerificationEmail(id: string, uuid: string, now: int, fault: Option<IoStep>)
      returns (r: Response)
      requires Valid() && id in users && Count(verifications, id) == 0
      modifies this
      ensures Valid()
      ensures Outcome(State(), r) == Accounts.SendVerificationEmail(old(State()), id, hash, uuid, now, fault)
    {
      SendVerificationEmailWellFormed(State(), id, hash, uuid, now, fault);
      if Rejects(fault, HashToken) {
        r := Fail(MsgVerificationHashError);
        return;
      }
      var ticket := VerificationTicket(id, hash, uuid, now);
      if Rejects(fault, SaveTicket) {
        r := Fail(MsgVerificationSaveError);
        return;
      }
      verifications := verifications + [ticket];
      if Rejects(fault, SendMail) {
        r := Fail(MsgVerificationMailError);
      } else {
        r := Response(Pending, MsgVerificationSent, None);
      }
    }

    /** `GET /verify/:userId/:uniqueString` (lines 190-268). */
    method Verify(userId: string, uniqueString: string, now: int, fault: Option<IoStep>)
      returns (r: Response)
      requires Valid()
      modifies this
      ensures Valid()
      ensures Outcome(State(), r) == Accounts.Verify(old(State()), userId, uniqueString, hash, now, fault)
    {
      VerifyWellFormed(State(), userId, uniqueString, hash, now, fault);
      if Rejects(fault, FindTicket) {
        r := Fail(MsgVerificationLookupError);
        return;
      }
      var found := First(verifications, userId);
      if found.None? {
        r := Fail(MsgNoVerification);
        return;
      }
      var t := found.value;
      if Expired(t, now) {
        if Rejects(fault, DeleteTicket) {
          r := Fail(MsgExpiryDeleteError);
          return;
        }
        verifications := DeleteOne(verifications, userId);
        if Rejects(fault, DeleteUser) {
          r := Fail(MsgUserDeleteError);
          return;
        }
        users := users - {userId};
        r := Fail(MsgVerificationExpired);
      } else if Rejects(fault, CompareHash) {
        r := Fail(MsgVerificationCompareError);
      } else if t.hashed != hash(uniqueString) {
        r := Fail(MsgVerificationMismatch);
      } else if Rejects(fault, UpdateUser) {
        r := Fail(MsgVerifyUpdateError);
      } else {
        users := SetVerified(users, userId);
        if Rejects(fault, DeleteTicket) {
          r := Fail(MsgVerifyFinishError);
          return;
        }
        verifications := DeleteOne(verifications, userId);
        r := Response(Success, MsgVerified, None);
      }
    }

    /** `POST /signin` (lines 277-335): reads the users and changes nothing. */
    method SignIn(email: string, password: string, fault: Option<IoStep>) returns (r: Response)
      requires Valid()
      ensures r == Accounts.SignIn(State(), email, password, hash, fault)
    {
      var e, p := Trim(email), Trim(password);
      if e == "" || p == "" {
        r := Fail(MsgSignInBlank);
      } else if Rejects(fault, FindUser) {
        r := Fail(MsgUserLookupError);
      } else if !EmailTaken(users, e) {
        r := Fail(MsgSignInUnknown);
      } else {
        var id :| id in users && users[id].email == e;
        UserByEmailUnique(users, e, id);
        var u := users[id];
        if !u.verifyEmail {
          r := Fail(MsgSignInUnverified);
        } else if Rejects(fault, CompareHash) {
          r := Fail(MsgPasswordCompareError);
        } else if u.password == hash(p) {
          r := Response(Success, MsgSignedIn, Some(u));
        } else {
          r := Fail(MsgWrongPassword);
        }
      }
    }

    /** `POST /requestPasswordReset` (lines 338-372). */
    method RequestPasswordReset(email: string, uuid: string, now: int, fault: Option<IoStep>)
      returns (r: Response)
      requires Valid()
      modifies this
      ensures Valid()
      ensures Outcome(State(), r) == Accounts.RequestReset(old(State()), email, hash, uuid, now, fault)
    {
      RequestResetWellFormed(State(), email, hash, uuid, now, fault);
      if Rejects(fault, FindUser) {
        r := Fail(MsgUserLookupError);
      } else if !EmailTaken(users, email) {
        r := Fail(MsgResetUnknown);
      } else {
        var id :| id in users && users[id].email == email;
        UserByEmailUnique(users, email, id);
        if !users[id].verifyEmail {
          r := Fail(MsgResetUnverified);
        } else {
          r := SendResetEmail(id, uuid, now, fault);
        }
      }
    }

    /** sendResetEmail (lines 375-445). */
    method SendResetEmail(id: string, uuid: string, now: int, fault: Option<IoStep>)
      returns (r: Response)
      requires Valid()
      modifies this
      ensures Valid()
      ensures Outcome(State(), r) == Accounts.SendResetEmail(old(State()), id, hash, uuid, now, fault)
    {
      SendResetEmailWellFormed(State(), id, hash, uuid, now, fault);
      if Rejects(fault, DeleteTickets) {
        r := Fail(MsgResetClearError);
        return;
      }
      resets := DeleteMany(resets, id);
      if Rejects(fault, HashToken) {
        r := Fail(MsgResetHashError);
        return;
      }
      var ticket := ResetTicket(id, hash, uuid, now);
      if Rejects(fault, SaveTicket) {
        r := Fail(MsgResetSaveError);
        return;
      }
      resets := resets + [ticket];
      if Rejects(fault, SendMail) {
        r := Fail(MsgResetMailError);
      } else {
        r := Response(Pending, MsgResetSent, None);
      }
    }

    /** `POST /resetPassword` (lines 447-551). */
    method ResetPassword(userId: string, resetString: string, newPassword: string, now: int, fault: Option<IoStep>)
      returns (r: Response)
      requires Valid()
      modifies this
      ensures Valid()
      ensures Outcome(State(), r)
           == Accounts.ResetPassword(old(State()), userId, resetString, newPassword, hash, now, fault)
    {
      ResetPasswordWellFormed(State(), userId, resetString, newPassword, hash, now, fault);
      if Rejects(fault, FindTicket) {
        r := Fail(MsgResetLookupError);
        return;
      }
      var found := First(resets, userId);
      if found.None? {
        r := Fail(MsgResetNotFound);
        return;
      }
      var t := found.value;
      if Expired(t, now) {
        if Rejects(fault, DeleteTicket) {
          r := Fail(MsgResetDeleteError);
          return;
        }
        resets := DeleteOne(resets, userId);
        r := Fail(MsgResetExpired);
      } else if Rejects(fault, CompareHash) {
        r := Fail(MsgResetCompareError);
      } else if t.hashed != hash(resetString) {
        r := Fail(MsgResetMismatch);
      } else if Rejects(fault, HashPassword) {
        r := Fail(MsgNewPasswordHashError);
      } else if Rejects(fault, UpdateUser) {
        r := Fail(MsgPasswordUpdateError);
      } else {
        users := SetPassword(users, userId, hash(newPassword));
        if Rejects(fault, DeleteTicket) {
          r := Fail(MsgResetFinishError);
          return;
        }
        resets := DeleteOne(resets, userId);
        r := Response(Success, MsgPasswordReset, None);
      }
    }
  }
}
