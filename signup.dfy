/**
 * `POST /api/signup`: validate the email, insert a pending row, classify a
 * unique-email conflict, and hand the verification mail to the sender.
 * The store's failures, the mail sender's outcome and the freshly issued
 * token are parameters.
 */
module SignupHandler {
  import opened Wrappers
  import opened Subscribers
  import opened Http

  datatype Outcome =
    | Subscribed                         // 200 { success: true }
    | EmailRequired                      // 400 "Email required"
    | AlreadyVerified                    // 400 with code EMAIL_ALREADY_VERIFIED
    | AlreadyRegistered                  // 400 with code EMAIL_ALREADY_REGISTERED
    | AlreadyRegisteredUnclassified      // 400 "Email already registered." (the follow-up lookup failed)
    | InsertRejected(message: string)    // 400 with the store's message: an insert error other than 23505
    | SendFailed(message: string)        // 500: the row was inserted, the mail was not sent

  /** The verification mail handed to the sender: its recipient and the token its link carries. */
  datatype Mail = Mail(to: string, token: string)

  /** The reply's outcome, the table afterwards, and the mail the handler tried to send, if any. */
  datatype Result = Result(outcome: Outcome, after: Store, mailed: Option<Mail>)

  /** The outcomes that insert a row. */
  predicate Inserts(o: Outcome)
  {
    o.Subscribed? || o.SendFailed?
  }

  /** The outcomes reported for an email that already has a row (error code 23505). */
  predicate IsConflict(o: Outcome)
  {
    o == AlreadyVerified || o == AlreadyRegistered || o == AlreadyRegisteredUnclassified
  }

  /** `phone || null`: an absent or empty phone is stored as null. */
  function StoredPhone(phone: Option<string>): (p: Option<string>)
    ensures p == None <==> Missing(phone)
    ensures p.Some? ==> p == phone
  {
    if Missing(phone) then None else phone
  }

  /** The row the insert writes: unverified, with the issued token. */
  function PendingRow(s: Store, email: string, phone: Option<string>, token: string): (x: Subscriber)
    ensures !x.verified && x.email == email && x.token == token && x.phone == StoredPhone(phone)
    ensures CreationOrdered(s) ==> CreationOrdered(Store(s.rows + [x], s.nextId + 1))
  {
    Subscriber(s.nextId, email, StoredPhone(phone), token, false, s.nextId)
  }

  /**
   * The reply to a unique-email conflict, from the follow-up `select('verified').eq('email', email)`:
   * a failed lookup (or several rows, which `.maybeSingle()` reports as an error) gives no code;
   * a verified row gives EMAIL_ALREADY_VERIFIED; anything else, a missing row included, gives
   * EMAIL_ALREADY_REGISTERED.
   */
  function Classify(lookupFails: bool, existing: Single): (o: Outcome)
    ensures IsConflict(o)
    ensures o == AlreadyVerified <==> !lookupFails && existing.OneRow? && existing.row.verified
    ensures o == AlreadyRegisteredUnclassified <==> lookupFails || existing.ManyRows?
  {
    if lookupFails || existing.ManyRows? then AlreadyRegisteredUnclassified
    else if existing.OneRow? && existing.row.verified then AlreadyVerified
    else AlreadyRegistered
  }

  /**
   * One signup request against store `s`. `insertFault` is an insert error other than the
   * unique violation (it stops the insert before the constraint is consulted), `lookupFails`
   * makes the follow-up lookup fail, `sendFault` is the mail sender's error.
   */
  function Signup(s: Store, email: Option<string>, phone: Option<string>, token: string,
                  insertFault: Option<string>, lookupFails: bool, sendFault: Option<string>): (r: Result)
    ensures r.outcome == EmailRequired <==> Missing(email)
    ensures Missing(email) ==> r == Result(EmailRequired, s, None)
    ensures !Missing(email) && insertFault.Some? ==> r == Result(InsertRejected(insertFault.value), s, None)
    ensures Inserts(r.outcome) <==>
      !Missing(email) && insertFault.None? && Matching(s.rows, Email, email.value) == []
    ensures Inserts(r.outcome) ==>
      r.after == Store(s.rows + [PendingRow(s, email.value, phone, token)], s.nextId + 1)
    ensures !Inserts(r.outcome) ==> r.after == s
    ensures r.mailed.Some? <==> Inserts(r.outcome)
    ensures r.mailed.Some? ==> r.mailed.value == Mail(email.value, token)
    ensures r.outcome.SendFailed? <==> Inserts(r.outcome) && sendFault.Some?
    ensures r.outcome.SendFailed? ==> r.outcome.message == sendFault.value
    ensures IsConflict(r.outcome) <==>
      !Missing(email) && insertFault.None? && Matching(s.rows, Email, email.value) != []
  {
    if Missing(email) then Result(EmailRequired, s, None)
    else
      var e := email.value;
      if insertFault.Some? then Result(InsertRejected(insertFault.value), s, None)
      else if Matching(s.rows, Email, e) != [] then
        Result(Classify(lookupFails, MaybeSingle(Matching(s.rows, Email, e))), s, None)
      else
        var after := Store(s.rows + [PendingRow(s, e, phone, token)], s.nextId + 1);
        var mail := Some(Mail(e, token));
        if sendFault.Some? then Result(SendFailed(sendFault.value), after, mail)
        else Result(Subscribed, after, mail)
  }

  /** The HTTP reply for each outcome. */
  function SignupReply(o: Outcome): (r: Reply)
    ensures r.status == 200 <==> o == Subscribed
    ensures r.status == 500 <==> o.SendFailed?
    ensures r.status == 400 <==> !Inserts(o)
    ensures r.success == if o == Subscribed then Some(true) else None
    ensures r.email == None && r.message == None
    ensures r.code.Some? <==> o == AlreadyVerified || o == AlreadyRegistered
    ensures o == AlreadyVerified ==> r.code == Some("EMAIL_ALREADY_VERIFIED")
    ensures o == AlreadyRegistered ==> r.code == Some("EMAIL_ALREADY_REGISTERED")
    ensures r.error.Some? <==> o != Subscribed
    ensures o == EmailRequired ==> r.error == Some("Email required")
    ensures o == AlreadyVerified ==> r.error == Some("Email already registered and verified.")
    ensures o == AlreadyRegistered ==>
      r.error == Some("Email already registered. Check your inbox for the verification link.")
    ensures o == AlreadyRegisteredUnclassified ==> r.error == Some("Email already registered.")
    ensures o.InsertRejected? ==> r.error == Some(o.message)
    ensures o.SendFailed? ==> r.error == Some("Something went wrong: " + o.message)
  {
    match o
    case Subscribed => Reply(200, Some(true), None, None, None, None)
    case EmailRequired => Reply(400, None, None, None, Some("Email required"), None)
    case AlreadyVerified =>
      Reply(400, None, None, None, Some("Email already registered and verified."), Some("EMAIL_ALREADY_VERIFIED"))
    case AlreadyRegistered =>
      Reply(400, None, None, None,
            Some("Email already registered. Check your inbox for the verification link."),
            Some("EMAIL_ALREADY_REGISTERED"))
    case AlreadyRegisteredUnclassified => Reply(400, None, None, None, Some("Email already registered."), None)
    case InsertRejected(m) => Reply(400, None, None, None, Some(m), None)
    case SendFailed(m) => Reply(500, None, None, None, Some("Something went wrong: " + m), None)
  }
}
