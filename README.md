# McMaster Snow Day Notifier: subscriber signup and verification

This Dafny project models the service core of the snow-day alert server (`server.js`).

- The `subscribers` table is a registry of rows. Each row has an `id`, an `email`, a `phone` that may be null, a `verification_token`, a `verified` flag and a `created_at` order.
- `POST /api/signup` validates the email and inserts a pending row. When the email already has a row, the insert hits the UNIQUE constraint (error code 23505). The handler then classifies the rejection by that row's `verified` flag. After a successful insert it hands the verification mail to the sender.
- `GET /api/verify` resolves a token to its row. A row that is already verified is reported with "Already verified". Otherwise the update sets `verified` to true on the rows carrying the token, and the handler returns the row's email.
- `GET /api/admin/users` lists every row without its token, newest first.

The collaborators are parameters:

- A failure of the store (Supabase) is an optional error message passed to each handler. For the follow-up email lookup it is a boolean.
- The mail sender's outcome (Brevo) is an optional error message.
- The freshly issued random token is a caller-supplied string.

Files:

- `wrappers.dfy`: `Option`.
- `http.dfy`: the JSON reply.
- `subscribers.dfy`: rows, the store, the `eq` query, `.maybeSingle()`, the `verified` update and the table invariants.
- `signup.dfy`, `verify.dfy`: each handler as a pure step function on the store, with its HTTP reply.
- `admin.dfy`: the admin listing.
- `lifecycle.dfy`: properties over several requests.
- `server.dfy`: the `Registry` class. Its `Signup` and `Verify` methods update the table in place and are proved equal to the step functions.

The model follows `server.js` as written, including these behaviours:

- A repeated signup of an unverified email sends no new mail and issues no new token. It returns 400 with `EMAIL_ALREADY_REGISTERED`.
- An insert error other than 23505 is answered with 400 and the store's message, not with a 500.
- Supabase's `.maybeSingle()` reports an error when a query selects several rows. So a token carried by two rows makes verify answer 500 instead of updating both rows. The model keeps this and assumes nothing about token freshness. `Lifecycle.SignupKeepsTokensUnique` shows that fresh tokens keep tokens unique.

## Model

| member | source | states |
|---|---|---|
| Subscribers.Matching | server.js:198-202 | the rows selected by `eq(column, value)` are exactly the table's rows with that value |
| Subscribers.MarkVerified | server.js:220-223 | the update keeps the table's length, sets `verified` on every row carrying the token and leaves every other row as it was |
| Subscribers.Missing | server.js:46 | the `!email` / `!token` test on a string field: true exactly when the field is absent or empty |
| Subscribers.MaybeSingle | server.js:198-202 | `.maybeSingle()`: no row exactly when nothing matched, the one row when exactly one matched, an error exactly when two or more matched |
| Subscribers.MatchingNone | server.js:208-210 | a token or email that no row carries selects no row |
| Subscribers.MatchingUnique | server.js:63-68 | when a column is unique, looking up a row's value selects exactly that row |
| Subscribers.MatchingAppend | server.js:198-202 | selecting from two concatenated parts of the table gives the selections from each part, in order |
| Subscribers.MatchingAfterMark | server.js:212-223 | after the update, selecting the token gives the same rows as before, each now verified |
| Subscribers.MarkVerifiedEvolves | server.js:220-223 | the update changes no row's id, email, phone, token or creation order, and never clears `verified` |
| SignupHandler.StoredPhone | server.js:55 | an absent or empty phone is stored as null; any other phone is stored as given |
| SignupHandler.PendingRow | server.js:53-58 | the inserted row carries the email, the phone stored as `phone \|\| null`, the issued token and `verified = false`; it is newer than every existing row |
| SignupHandler.Classify | server.js:63-84 | a conflict is answered with EMAIL_ALREADY_VERIFIED exactly when the lookup succeeded and found one verified row; with no code exactly when the lookup failed (or saw several rows); otherwise with EMAIL_ALREADY_REGISTERED |
| SignupHandler.Signup | server.js:43-187 | "Email required" is answered exactly for a missing or empty email, with no change and no mail. An insert error other than 23505 is answered with that error's message, with no change and no mail. A row is inserted exactly when the email is present, the insert has no other error and no row has that email. The new row is the unverified pending row with the issued token, and the store is otherwise unchanged. Exactly then one mail is handed to the sender, to that email and carrying that token. A send failure (with the sender's message) happens only after an insert. A conflict is reported exactly when the email already has a row. Every non-inserting outcome leaves the store unchanged |
| SignupHandler.SignupReply | server.js:46-87 | status 200 with `success: true` only for success, 500 only for a failed send, 400 for every rejection. EMAIL_ALREADY_VERIFIED and EMAIL_ALREADY_REGISTERED go to their own conflicts and no other outcome has a code. Each outcome gets its exact error text: "Email required", the two conflict texts, "Email already registered.", the store's message, or "Something went wrong: " followed by the sender's message |
| VerifyHandler.Verify | server.js:190-229 | "Token required" is answered exactly for a missing or empty token, with no change. A failed lookup gives that store error. A token selecting several rows gives the multiple-rows store error. Both change nothing. Only a newly verified outcome changes the store, and that change is exactly the update on the token; it needs both lookup and update to succeed, and the email it returns belongs to a pending row with that token. "Already verified" returns the email of a verified row with that token. A failed update carries the update's message. "Invalid or expired token" is returned exactly when the lookup succeeded and no row carries the token |
| VerifyHandler.VerifyReply | server.js:193-229 | 200 exactly for the two success outcomes, 400 exactly for a missing and an unknown token, 500 exactly for the two store errors. `success` agrees with the status. The email is present exactly on success, and an error exactly on failure. The texts are "Token required", "Invalid or expired token" and the store's message. The message "Already verified" appears only on a repeat |
| AdminListing.Project | server.js:240 | each listed user is the row at the same position, without its token |
| AdminListing.InsertNewestFirst | server.js:241 | inserting into a newest-first list keeps it newest first and adds exactly that user |
| AdminListing.SortNewestFirst | server.js:241 | the ordered listing is newest first and a permutation of its input |
| AdminListing.Listing | server.js:236-245 | the reply lists every row exactly once, without tokens, ordered by `created_at` descending |
| AdminListing.InsertOldest | server.js:241 | a user older than all users of a newest-first list is placed at its end |
| AdminListing.FirstIsOldest | server.js:241 | in a table in creation order, the first row is older than every row after it |
| AdminListing.SortIncreasing | server.js:241 | views in strict creation order sort to their reverse |
| AdminListing.ListingIsTableReversed | server.js:241 | on a well-formed table the listing is the table read from the newest row back |
| Lifecycle.SignupKeepsInvariant | server.js:51-68 | signup keeps at most one row per email and the creation order. The old table is a prefix of the new one, so no existing row changes, and every row it adds is unverified |
| Lifecycle.SignupExistingEmail | server.js:63-84 | signup of an email that has a row changes nothing and sends no mail. It answers "Email already registered." when the lookup fails, EMAIL_ALREADY_VERIFIED when the row is verified, and EMAIL_ALREADY_REGISTERED otherwise |
| Lifecycle.SignupNewEmail | server.js:51-60 | signup of an email without a row appends exactly one pending row with that email, the stored phone and the issued token. It hands one mail to that email with that token, and answers success, or the send failure with the row kept |
| Lifecycle.SecondSignupRejected | server.js:51-84 | once a signup has inserted a row, a second signup for the same email changes nothing and sends no mail. It is answered with EMAIL_ALREADY_REGISTERED (the row is still pending) when the follow-up lookup succeeds, and with "Email already registered." and no code when the lookup fails |
| Lifecycle.SignupKeepsTokensUnique | server.js:48-57 | with a token no row carries yet, signup keeps tokens unique |
| Lifecycle.VerifyKeepsInvariant | server.js:212-223 | verify keeps the table's invariant, adds no row and only sets `verified` flags |
| Lifecycle.VerifyNeverIssued | server.js:208-210 | a token no row carries gives "Invalid or expired token" and changes nothing |
| Lifecycle.VerifyOwnToken | server.js:212-229 | for a token held by one row: a verified row is reported with its email and nothing changes; a failed update changes nothing; otherwise exactly that row becomes verified and its email is returned |
| Lifecycle.VerifyIdempotent | server.js:212-229 | after a verify has marked a row, verifying the same token again returns "Already verified" with the same email and changes nothing |
| Lifecycle.VerifySharedToken | server.js:198-205 | a token carried by two rows is answered with the multiple-rows store error, status 500, and changes nothing |
| Lifecycle.SoleHolderSelected | server.js:198-202 | the token of the only row carrying it selects exactly that row |
| Lifecycle.RunKeepsInvariant | server.js:43-234 | for any sequence of requests, the table keeps at most one row per email, no row is removed or reordered, and a verified row never becomes pending again |
| Server.Registry.Signup | server.js:43-187 | the in-place signup keeps the registry invariant. Its outcome, new table and attempted mail are those of `SignupHandler.Signup` |
| Server.Registry.Verify | server.js:190-234 | the in-place verify keeps the registry invariant and produces the outcome and new table of `VerifyHandler.Verify` |
| AdminListing.AdminReply.Status | server.js:243-245 | a listing is sent with status 200 and a store error with status 500 |
| Server.Registry.AdminUsers | server.js:236-250 | a store error is answered with status 500 and the error. Otherwise the status is 200 and the reply is a newest-first permutation of the projected rows, namely the table reversed |
| Server.SignupVerifySession | server.js:43-229 | on a fresh registry the calls answer in turn: signup succeeds; a repeat signup is EMAIL_ALREADY_REGISTERED; verify returns the email; a second verify returns "Already verified" with that email; a last signup is EMAIL_ALREADY_VERIFIED |

## Left out

- Token generation (`makeToken`, server.js:35-40) uses `Math.random`, which is randomness and floating point. The issued token is a parameter.
- The Brevo client, the HTML mail body and the verify link built with `encodeURIComponent` (server.js:5-11, 90-168) are left out. They are a foreign library and string formatting. The model records the mail's recipient, the token its link carries, and the send's success or failure.
- Exceptions thrown by the Supabase client itself are not modelled. These would reach the catch blocks at server.js:183-185, 230-233 and 246-249. Store errors are modelled as the error values the client returns. The send failure that is rethrown at server.js:179 is modelled.
- Express, CORS, `/health`, `app.listen` and console logging are plumbing.
- Concurrent duplicate signups are not modelled because the model is sequential. The database's unique constraint is what makes the race safe.
- `created_at` is not a timestamp. It and the serial `id` both come from one insertion counter. The counter advances only on a successful insert, although a database sequence also advances on a failed insert.
- Only `email` is treated as a UNIQUE column, because the table schema is not part of this model. An insert error other than 23505 is a parameter that takes precedence over the conflict.
- Request values that are not strings are not modelled. This covers a numeric email and a token given twice in the query string. "Missing" means absent or the empty string.
- `src/App.js`, `src/Verify.js` and `src/index.js` are left out. They are React pages and their client-side checks.
- AdminListing.Listing: Postgres leaves the order of rows with equal `created_at` unspecified. The model fixes one order by insertion sort. On a well-formed table no two rows tie.
