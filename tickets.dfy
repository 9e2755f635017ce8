/**
  The two ticket collections of the account service, `UserVerification` and
  `PasswordReset`, as sequences in the store's natural (insertion) order, with
  the three queries the handlers run on them, all filtered by `userId`:
  `find(...)` read through its first element, `deleteOne(...)` and
  `deleteMany(...)`.
*/
module Tickets {
  import opened Wrappers
  import opened Hashing

  /**
    A verification or reset ticket (models/PasswordReset.js:4-9): the user it
    belongs to, the hash of its secret string, and two instants in milliseconds.
  */
  datatype Ticket = Ticket(userId: string, hashed: Digest, createdAt: int, expiresAt: int)

  /** Number of tickets that `uid` holds. */
  function Count(ts: seq<Ticket>, uid: string): (n: nat)
    ensures n <= |ts|
    ensures n == 0 <==> forall i :: 0 <= i < |ts| ==> ts[i].userId != uid
  {
    if ts == [] then 0
    else
      var n := Count(ts[1..], uid) + (if ts[0].userId == uid then 1 else 0);
      assert forall i :: 0 < i < |ts| ==> ts[i] == ts[1..][i - 1];
      n
  }

  /** Each user holds at most one ticket. */
  ghost predicate AtMostOnePerUser(ts: seq<Ticket>) {
    forall uid :: Count(ts, uid) <= 1
  }

  /** `find({ userId: uid })` followed by `result[0]`: the earliest ticket of `uid`, if any. */
  function First(ts: seq<Ticket>, uid: string): (r: Option<Ticket>)
    ensures r.None? <==> Count(ts, uid) == 0
    ensures r.Some? ==> r.value in ts && r.value.userId == uid
  {
    if ts == [] then None
    else if ts[0].userId == uid then Some(ts[0])
    else First(ts[1..], uid)
  }

  /**
    `deleteOne({ userId: uid })`: removes exactly the ticket `First` finds and
    keeps everything else in order.
  */
  function DeleteOne(ts: seq<Ticket>, uid: string): (r: seq<Ticket>)
    ensures First(ts, uid).None? ==> r == ts
    ensures Count(r, uid) == if Count(ts, uid) == 0 then 0 else Count(ts, uid) - 1
    ensures forall u :: u != uid ==> Count(r, u) == Count(ts, u)
  {
    if ts == [] then []
    else if ts[0].userId == uid then
      assert ts == [ts[0]] + ts[1..];
      ts[1..]
    else
      var r := [ts[0]] + DeleteOne(ts[1..], uid);
      assert ts == [ts[0]] + ts[1..];
      assert r[1..] == DeleteOne(ts[1..], uid);
      r
  }

  /** `deleteMany({ userId: uid })`: keeps the tickets of every other user, in order. */
  function DeleteMany(ts: seq<Ticket>, uid: string): (r: seq<Ticket>)
    ensures Count(r, uid) == 0
    ensures |r| == |ts| - Count(ts, uid)
    ensures forall t :: t in r <==> t in ts && t.userId != uid
    ensures forall u :: u != uid ==> Count(r, u) == Count(ts, u)
  {
    if ts == [] then []
    else if ts[0].userId == uid then
      assert forall t :: t in ts <==> t == ts[0] || t in ts[1..];
      DeleteMany(ts[1..], uid)
    else
      var r := [ts[0]] + DeleteMany(ts[1..], uid);
      assert forall t :: t in ts <==> t == ts[0] || t in ts[1..];
      assert r[1..] == DeleteMany(ts[1..], uid);
      r
  }

  /** Appending one ticket adds one to its owner's count and nothing to anyone else's. */
  lemma {:induction false} CountAppend(ts: seq<Ticket>, t: Ticket, uid: string)
    ensures Count(ts + [t], uid) == Count(ts, uid) + (if t.userId == uid then 1 else 0)
  {
    if ts != [] {
      assert (ts + [t])[1..] == ts[1..] + [t];
      CountAppend(ts[1..], t, uid);
    } else {
      assert [t][1..] == [];
    }
  }

  /** `DeleteOne` removes the ticket `First` finds, one copy of it, and nothing else. */
  lemma {:induction false} DeleteOneRemovesFirst(ts: seq<Ticket>, uid: string)
    requires First(ts, uid).Some?
    ensures multiset(DeleteOne(ts, uid)) + multiset{First(ts, uid).value} == multiset(ts)
  {
    assert ts == [ts[0]] + ts[1..];
    if ts[0].userId != uid {
      DeleteOneRemovesFirst(ts[1..], uid);
    }
  }

  /** Deleting one ticket of `uid` and then all of them is deleting all of them. */
  lemma {:induction false} DeleteOneThenMany(ts: seq<Ticket>, uid: string)
    ensures DeleteMany(DeleteOne(ts, uid), uid) == DeleteMany(ts, uid)
  {
    if ts != [] && ts[0].userId != uid {
      DeleteOneThenMany(ts[1..], uid);
      var r := DeleteOne(ts, uid);
      assert r == [ts[0]] + DeleteOne(ts[1..], uid);
      assert r[0] == ts[0] && r[1..] == DeleteOne(ts[1..], uid);
    }
  }

  /** A ticket saved after the others is found only when its user holds no earlier one. */
  lemma {:induction false} FirstAppend(ts: seq<Ticket>, t: Ticket, uid: string)
    ensures First(ts + [t], uid)
         == if First(ts, uid).Some? then First(ts, uid) else if t.userId == uid then Some(t) else None
  {
    if ts == [] {
      assert [t][1..] == [];
    } else {
      assert (ts + [t])[1..] == ts[1..] + [t];
      if ts[0].userId != uid {
        FirstAppend(ts[1..], t, uid);
      }
    }
  }

  /** Deleting the one ticket of a user whose only ticket was saved last restores the table. */
  lemma {:induction false} DeleteOneAppend(ts: seq<Ticket>, t: Ticket)
    requires Count(ts, t.userId) == 0
    ensures DeleteOne(ts + [t], t.userId) == ts
  {
    if ts == [] {
      assert [t][1..] == [];
    } else {
      assert (ts + [t])[1..] == ts[1..] + [t];
      assert ts[0].userId != t.userId;
      DeleteOneAppend(ts[1..], t);
      assert [ts[0]] + ts[1..] == ts;
    }
  }

  /** `DeleteOne` only removes: every ticket it leaves was there before. */
  lemma DeleteOneSubset(ts: seq<Ticket>, uid: string, t: Ticket)
    requires t in DeleteOne(ts, uid)
    ensures t in ts
  {
    var r := DeleteOne(ts, uid);
    if First(ts, uid).Some? {
      DeleteOneRemovesFirst(ts, uid);
      assert t in multiset(r);
      assert t in multiset(ts);
    }
  }
}
