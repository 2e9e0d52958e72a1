/**
 * The signup/verify lifecycle across requests: the table's invariant is kept,
 * a row goes from pending to verified and never back, a second signup for an
 * email is always rejected, and verifying twice is the same as verifying once.
 */
module Lifecycle {
  import opened Wrappers
  import opened Subscribers
  import opened SignupHandler
  import opened VerifyHandler

  /** Only row `i` carries its token. */
  ghost predicate SoleHolder(rs: seq<Subscriber>, i: nat)
  {
    i < |rs| && forall j :: 0 <= j < |rs| && j != i ==> rs[j].token != rs[i].token
  }

  // ---------------------------------------------------------------- signup

  /** Signup keeps the invariant, changes no existing row, and what it adds is pending. */
  lemma SignupKeepsInvariant(s: Store, email: Option<string>, phone: Option<string>, token: string,
                             insertFault: Option<string>, lookupFails: bool, sendFault: Option<string>)
    requires Wellformed(s)
    ensures var r := Signup(s, email, phone, token, insertFault, lookupFails, sendFault);
      Wellformed(r.after) && Evolves(s.rows, r.after.rows) && s.rows <= r.after.rows &&
      forall i :: |s.rows| <= i < |r.after.rows| ==> !r.after.rows[i].verified
  {
  }

  /** An email that already has a row is rejected, classified by that row's verified flag, and nothing changes. */
  lemma {:induction false} SignupExistingEmail(s: Store, i: nat, phone: Option<string>, token: string,
                                               lookupFails: bool, sendFault: Option<string>)
    requires Wellformed(s) && i < |s.rows| && s.rows[i].email != ""
    ensures Signup(s, Some(s.rows[i].email), phone, token, None, lookupFails, sendFault) ==
      SignupHandler.Result(
        if lookupFails then AlreadyRegisteredUnclassified
        else if s.rows[i].verified then SignupHandler.AlreadyVerified
        else AlreadyRegistered,
        s, None)
  {
    MatchingUnique(s.rows, Email, i);
  }

  /** An email without a row gets exactly one new pending row; the reply depends only on the mail sender. */
  lemma {:induction false} SignupNewEmail(s: Store, e: string, phone: Option<string>, token: string,
                                          lookupFails: bool, sendFault: Option<string>)
    requires e != ""
    requires forall i :: 0 <= i < |s.rows| ==> s.rows[i].email != e
    ensures var r := Signup(s, Some(e), phone, token, None, lookupFails, sendFault);
      r.outcome == (if sendFault.Some? then SendFailed(sendFault.value) else Subscribed) &&
      r.mailed == Some(Mail(e, token)) &&
      r.after.rows == s.rows + [Subscriber(s.nextId, e, StoredPhone(phone), token, false, s.nextId)] &&
      r.after.nextId == s.nextId + 1
  {
    MatchingNone(s.rows, Email, e);
  }

  /**
   * Two signups for the same email: once the first has inserted a row (whether or not its mail
   * went out), the second is a conflict, changes nothing, and reports the row as still pending.
   */
  lemma SecondSignupRejected(s: Store, e: string, phone1: Option<string>, token1: string, sendFault1: Option<string>,
                             phone2: Option<string>, token2: string, lookupFails: bool, sendFault2: Option<string>)
    requires Wellformed(s)
    ensures var r1 := Signup(s, Some(e), phone1, token1, None, false, sendFault1);
      Inserts(r1.outcome) ==>
        Signup(r1.after, Some(e), phone2, token2, None, lookupFails, sendFault2) ==
        SignupHandler.Result(if lookupFails then AlreadyRegisteredUnclassified else AlreadyRegistered, r1.after, None)
  {
    var r1 := Signup(s, Some(e), phone1, token1, None, false, sendFault1);
    if Inserts(r1.outcome) {
      SignupKeepsInvariant(s, Some(e), phone1, token1, None, false, sendFault1);
      SignupExistingEmail(r1.after, |s.rows|, phone2, token2, lookupFails, sendFault2);
    }
  }

  /** With a token no row carries yet, signup keeps tokens unique. */
  lemma SignupKeepsTokensUnique(s: Store, email: Option<string>, phone: Option<string>, token: string,
                                insertFault: Option<string>, lookupFails: bool, sendFault: Option<string>)
    requires UniqueOn(s.rows, Token)
    requires forall i :: 0 <= i < |s.rows| ==> s.rows[i].token != token
    ensures UniqueOn(Signup(s, email, phone, token, insertFault, lookupFails, sendFault).after.rows, Token)
  {
  }

  // ---------------------------------------------------------------- verify

  /** Verify keeps the invariant, adds no row, and only sets verified flags. */
  lemma VerifyKeepsInvariant(s: Store, token: Option<string>, findFault: Option<string>, updateFault: Option<string>)
    requires Wellformed(s)
    ensures var r := Verify(s, token, findFault, updateFault);
      Wellformed(r.after) && Evolves(s.rows, r.after.rows) && |r.after.rows| == |s.rows|
  {
    var r := Verify(s, token, findFault, updateFault);
    if r.outcome.Verified? {
      MarkVerifiedEvolves(s.rows, token.value);
    }
  }

  /** A token no row carries is rejected and nothing changes. */
  lemma {:induction false} VerifyNeverIssued(s: Store, t: string, updateFault: Option<string>)
    requires t != ""
    requires forall i :: 0 <= i < |s.rows| ==> s.rows[i].token != t
    ensures Verify(s, Some(t), None, updateFault) == VerifyHandler.Result(InvalidToken, s)
  {
    MatchingNone(s.rows, Token, t);
  }

  /**
   * The token of row `i`, carried by no other row: a pending row becomes verified (that row
   * alone) and its email is returned; a verified row is reported with its email and nothing
   * changes; a failed update changes nothing.
   */
  lemma {:induction false} VerifyOwnToken(s: Store, i: nat, updateFault: Option<string>)
    requires SoleHolder(s.rows, i) && s.rows[i].token != ""
    ensures var x := s.rows[i];
      Verify(s, Some(x.token), None, updateFault) ==
      if x.verified then VerifyHandler.Result(VerifyHandler.AlreadyVerified(x.email), s)
      else if updateFault.Some? then VerifyHandler.Result(UpdateFailed(updateFault.value), s)
      else VerifyHandler.Result(Verified(x.email), s.(rows := s.rows[i := x.(verified := true)]))
  {
    var x := s.rows[i];
    SoleHolderSelected(s.rows, i);
    if !x.verified && updateFault.None? {
      assert MarkVerified(s.rows, x.token) == s.rows[i := x.(verified := true)];
    }
  }

  /** The token of the only row carrying it selects exactly that row. */
  lemma SoleHolderSelected(rs: seq<Subscriber>, i: nat)
    requires SoleHolder(rs, i)
    ensures Matching(rs, Token, rs[i].token) == [rs[i]]
  {
    var x := rs[i];
    var before, after := rs[..i], rs[i + 1..];
    assert rs == before + [x] + after;
    MatchingNone(before, Token, x.token);
    MatchingNone(after, Token, x.token);
    MatchingAppend(before, [x], Token, x.token);
    MatchingAppend(before + [x], after, Token, x.token);
  }

  /** A token carried by two rows makes the lookup fail with a store error (500); nothing changes. */
  lemma {:induction false} VerifySharedToken(s: Store, i: nat, j: nat, updateFault: Option<string>)
    requires i < j < |s.rows| && s.rows[i].token == s.rows[j].token != ""
    ensures Verify(s, Some(s.rows[i].token), None, updateFault) ==
      VerifyHandler.Result(LookupFailed(ManyRowsError), s)
    ensures VerifyHandler.VerifyReply(LookupFailed(ManyRowsError)).status == 500
  {
    var t := s.rows[i].token;
    var before, middle, after := s.rows[..i], s.rows[i + 1..j], s.rows[j + 1..];
    assert s.rows == before + [s.rows[i]] + middle + [s.rows[j]] + after;
    MatchingAppend(before + [s.rows[i]] + middle + [s.rows[j]], after, Token, t);
    MatchingAppend(before + [s.rows[i]] + middle, [s.rows[j]], Token, t);
    MatchingAppend(before + [s.rows[i]], middle, Token, t);
    MatchingAppend(before, [s.rows[i]], Token, t);
    assert |Matching(s.rows, Token, t)| >= 2;
  }

  /**
   * Idempotence: once a verify has marked a token's row, verifying the same token again
   * succeeds with "Already verified" and the same email, and changes nothing.
   */
  lemma VerifyIdempotent(s: Store, t: string, updateFault1: Option<string>, updateFault2: Option<string>)
    ensures var r1 := Verify(s, Some(t), None, updateFault1);
      r1.outcome.Verified? ==>
        Verify(r1.after, Some(t), None, updateFault2) ==
        VerifyHandler.Result(VerifyHandler.AlreadyVerified(r1.outcome.email), r1.after)
  {
    var r1 := Verify(s, Some(t), None, updateFault1);
    if r1.outcome.Verified? {
      MatchingAfterMark(s.rows, t);
    }
  }

  // ---------------------------------------------------------------- sessions

  /** A request as the server receives it, with the outcomes of its collaborators. */
  datatype Request =
    | SignupRequest(email: Option<string>, phone: Option<string>, issued: string,
                    insertFault: Option<string>, lookupFails: bool, sendFault: Option<string>)
    | VerifyRequest(token: Option<string>, findFault: Option<string>, updateFault: Option<string>)

  function Handle(s: Store, q: Request): Store
  {
    match q
    case SignupRequest(e, p, t, f, l, m) => Signup(s, e, p, t, f, l, m).after
    case VerifyRequest(t, f, u) => Verify(s, t, f, u).after
  }

  /** The table after the server has handled `qs` in order. */
  function Run(s: Store, qs: seq<Request>): Store
    decreases |qs|
  {
    if qs == [] then s else Run(Handle(s, qs[0]), qs[1..])
  }

  /**
   * Whatever requests arrive: at most one row per email holds throughout, no row is ever
   * removed or reordered, and a verified row never becomes pending again.
   */
  lemma {:induction false} RunKeepsInvariant(s: Store, qs: seq<Request>)
    requires Wellformed(s)
    ensures Wellformed(Run(s, qs))
    ensures Evolves(s.rows, Run(s, qs).rows)
    decreases |qs|
  {
    if qs != [] {
      var next := Handle(s, qs[0]);
      match qs[0] {
        case SignupRequest(e, p, t, f, l, m) => SignupKeepsInvariant(s, e, p, t, f, l, m);
        case VerifyRequest(t, f, u) => VerifyKeepsInvariant(s, t, f, u);
      }
      RunKeepsInvariant(next, qs[1..]);
      EvolvesTransitive(s.rows, next.rows, Run(next, qs[1..]).rows);
    }
  }
}
