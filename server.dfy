/**
 * The service: the `subscribers` table as a mutable registry, with the two
 * handlers as methods that update it in place and the admin listing as a
 * method that only reads it.
 */
module Server {
  import opened Wrappers
  import opened Subscribers
  import SignupHandler
  import VerifyHandler
  import AdminListing
  import Lifecycle

  class Registry {
    var rows: seq<Subscriber>
    var nextId: nat

    ghost predicate Valid()
      reads this
    {
      Wellformed(Store(rows, nextId))
    }

    function State(): Store
      reads this
    {
      Store(rows, nextId)
    }

    /** An empty table. */
    constructor ()
      ensures Valid() && rows == [] && nextId == 0
    {
      rows := [];
      nextId := 0;
    }

    /** `POST /api/signup` with body `{ email, phone }`; `token` is the one just issued. */
    method Signup(email: Option<string>, phone: Option<string>, token: string,
                  insertFault: Option<string>, lookupFails: bool, sendFault: Option<string>)
      returns (o: SignupHandler.Outcome, mailed: Option<SignupHandler.Mail>)
      requires Valid()
      modifies this
      ensures Valid()
      ensures SignupHandler.Result(o, State(), mailed) ==
        SignupHandler.Signup(old(State()), email, phone, token, insertFault, lookupFails, sendFault)
    {
      Lifecycle.SignupKeepsInvariant(State(), email, phone, token, insertFault, lookupFails, sendFault);
      mailed := None;
      if Missing(email) {
        return SignupHandler.EmailRequired, mailed;
      }
      var e := email.value;
      if insertFault.Some? {
        return SignupHandler.InsertRejected(insertFault.value), mailed;
      }
      var existing := Matching(rows, Email, e);
      if existing != [] {
        // the UNIQUE constraint on email refused the insert (error code 23505)
        return SignupHandler.Classify(lookupFails, MaybeSingle(existing)), mailed;
      }
      rows := rows + [SignupHandler.PendingRow(State(), e, phone, token)];
      nextId := nextId + 1;
      mailed := Some(SignupHandler.Mail(e, token));
      if sendFault.Some? {
        // the row stays in place, unverified
        return SignupHandler.SendFailed(sendFault.value), mailed;
      }
      return SignupHandler.Subscribed, mailed;
    }

    /** `GET /api/verify?token=...`. */
    method Verify(token: Option<string>, findFault: Option<string>, updateFault: Option<string>)
      returns (o: VerifyHandler.Outcome)
      requires Valid()
      modifies this
      ensures Valid()
      ensures VerifyHandler.Result(o, State()) ==
        VerifyHandler.Verify(old(State()), token, findFault, updateFault)
    {
      Lifecycle.VerifyKeepsInvariant(State(), token, findFault, updateFault);
      if Missing(token) {
        return VerifyHandler.TokenRequired;
      }
      var t := token.value;
      if findFault.Some? {
        return VerifyHandler.LookupFailed(findFault.value);
      }
      var found := MaybeSingle(Matching(rows, Token, t));
      if found.ManyRows? {
        return VerifyHandler.LookupFailed(VerifyHandler.ManyRowsError);
      }
      if found.NoRow? {
        return VerifyHandler.InvalidToken;
      }
      if found.row.verified {
        return VerifyHandler.AlreadyVerified(found.row.email);
      }
      if updateFault.Some? {
        return VerifyHandler.UpdateFailed(updateFault.value);
      }
      rows := MarkVerified(rows, t);
      return VerifyHandler.Verified(found.row.email);
    }

    /** `GET /api/admin/users`: every subscriber without the token, newest first. */
    method AdminUsers(fault: Option<string>) returns (r: AdminListing.AdminReply)
      requires Valid()
      ensures fault.Some? ==> r == AdminListing.ListFailed(fault.value) && r.Status() == 500
      ensures fault.None? ==> r.Status() == 200
      ensures fault.None? ==> r.Listed?
      ensures r.Listed? ==> AdminListing.NewestFirst(r.users)
      ensures r.Listed? ==> multiset(r.users) == multiset(AdminListing.Project(rows))
      ensures r.Listed? ==> r.users == AdminListing.Reverse(AdminListing.Project(rows))
    {
      if fault.Some? {
        return AdminListing.ListFailed(fault.value);
      }
      AdminListing.ListingIsTableReversed(State());
      return AdminListing.Listed(AdminListing.Listing(rows));
    }
  }

  /**
   * A session on a fresh registry: sign up, sign up again before verifying, verify,
   * verify again, sign up once more.
   */
  method SignupVerifySession(email: string, token: string)
    returns (first: SignupHandler.Outcome, second: SignupHandler.Outcome,
             confirm: VerifyHandler.Outcome, again: VerifyHandler.Outcome, third: SignupHandler.Outcome)
    requires email != "" && token != ""
    ensures first == SignupHandler.Subscribed
    ensures second == SignupHandler.AlreadyRegistered
    ensures confirm == VerifyHandler.Verified(email)
    ensures again == VerifyHandler.AlreadyVerified(email)
    ensures third == SignupHandler.AlreadyVerified
  {
    var registry := new Registry();
    var mail;
    first, mail := registry.Signup(Some(email), None, token, None, false, None);
    second, mail := registry.Signup(Some(email), None, token + "'", None, false, None);
    confirm := registry.Verify(Some(token), None, None);
    again := registry.Verify(Some(token), None, None);
    third, mail := registry.Signup(Some(email), None, token + "''", None, false, None);
  }
}
