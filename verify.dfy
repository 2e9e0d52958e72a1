/**
 * `GET /api/verify?token=...`: resolve the token to its row, report a row
 * that is already verified, otherwise mark it verified. The store's
 * failures are parameters.
 */
module VerifyHandler {
  import opened Wrappers
  import opened Subscribers
  import opened Http

  datatype Outcome =
    | TokenRequired                      // 400 "Token required"
    | LookupFailed(error: string)        // 500 with the store's message
    | InvalidToken                       // 400 "Invalid or expired token"
    | AlreadyVerified(email: string)     // 200 with message "Already verified"
    | UpdateFailed(error: string)        // 500 with the store's message
    | Verified(email: string)            // 200 with the row's email

  datatype Result = Result(outcome: Outcome, after: Store)

  /** The error `.maybeSingle()` reports when the token selects more than one row. */
  const ManyRowsError: string := "JSON object requested, multiple (or no) rows returned"

  /** Some row carries token `t`, has `email`, and its verified flag is `verified`. */
  ghost predicate HoldsToken(rs: seq<Subscriber>, t: string, email: string, verified: bool)
  {
    exists i :: 0 <= i < |rs| && rs[i].token == t && rs[i].email == email && rs[i].verified == verified
  }

  /**
   * One verify request against store `s`. `findFault` is the lookup's error, `updateFault`
   * the update's error (a failed update changes no row).
   */
  function Verify(s: Store, token: Option<string>, findFault: Option<string>, updateFault: Option<string>): (r: Result)
    ensures r.outcome == TokenRequired <==> Missing(token)
    ensures Missing(token) ==> r == Result(TokenRequired, s)
    ensures !Missing(token) && findFault.Some? ==> r == Result(LookupFailed(findFault.value), s)
    ensures !Missing(token) && findFault.None? && |Matching(s.rows, Token, token.value)| > 1 ==>
      r == Result(LookupFailed(ManyRowsError), s)
    ensures r.outcome.LookupFailed? ==>
      !Missing(token) && (findFault.Some? || |Matching(s.rows, Token, token.value)| > 1)
    ensures r.outcome.UpdateFailed? ==> updateFault == Some(r.outcome.error)
    ensures r.outcome.Verified? ==> findFault.None? && updateFault.None?
    ensures r.outcome.Verified? ==>
      !Missing(token) && r.after == s.(rows := MarkVerified(s.rows, token.value)) &&
      HoldsToken(s.rows, token.value, r.outcome.email, false)
    ensures !r.outcome.Verified? ==> r.after == s
    ensures r.outcome.AlreadyVerified? ==>
      !Missing(token) && HoldsToken(s.rows, token.value, r.outcome.email, true)
    ensures r.outcome == InvalidToken <==>
      !Missing(token) && findFault.None? && Matching(s.rows, Token, token.value) == []
  {
    if Missing(token) then Result(TokenRequired, s)
    else
      var t := token.value;
      if findFault.Some? then Result(LookupFailed(findFault.value), s)
      else
        match MaybeSingle(Matching(s.rows, Token, t))
        case ManyRows => Result(LookupFailed(ManyRowsError), s)
        case NoRow => Result(InvalidToken, s)
        case OneRow(row) =>
          assert row in Matching(s.rows, Token, t);
          if row.verified then Result(AlreadyVerified(row.email), s)
          else if updateFault.Some? then Result(UpdateFailed(updateFault.value), s)
          else Result(Verified(row.email), s.(rows := MarkVerified(s.rows, t)))
  }

  /** The HTTP reply for each outcome; `success` always agrees with the status. */
  function VerifyReply(o: Outcome): (r: Reply)
    ensures r.status == 200 <==> o.Verified? || o.AlreadyVerified?
    ensures r.status == 400 <==> o == TokenRequired || o == InvalidToken
    ensures r.status == 500 <==> o.LookupFailed? || o.UpdateFailed?
    ensures r.success == Some(r.status == 200)
    ensures r.email.Some? <==> r.status == 200
    ensures r.email.Some? ==> r.email.value == o.email
    ensures r.message.Some? <==> o.AlreadyVerified?
    ensures o.AlreadyVerified? ==> r.message == Some("Already verified")
    ensures r.error.Some? <==> r.status != 200
    ensures o == TokenRequired ==> r.error == Some("Token required")
    ensures o == InvalidToken ==> r.error == Some("Invalid or expired token")
    ensures o.LookupFailed? || o.UpdateFailed? ==> r.error == Some(o.error)
    ensures r.code == None
  {
    match o
    case TokenRequired => Reply(400, Some(false), None, None, Some("Token required"), None)
    case LookupFailed(m) => Reply(500, Some(false), None, None, Some(m), None)
    case InvalidToken => Reply(400, Some(false), None, None, Some("Invalid or expired token"), None)
    case AlreadyVerified(e) => Reply(200, Some(true), Some(e), Some("Already verified"), None, None)
    case UpdateFailed(m) => Reply(500, Some(false), None, None, Some(m), None)
    case Verified(e) => Reply(200, Some(true), Some(e), None, None, None)
  }
}
