# Hotel booking backend: a verified model of `server.js`

The backend keeps its data in JSON files. Every request reads a whole file,
computes the new contents in memory and writes the file back whole. This
project models the two collections the handlers change, `users` and
`bookings`, as the sequence fields of a `Store` class. It models the handlers
that read and rewrite them:

- `POST /api/register`
- `POST /api/login`
- `GET /api/bookings`, `POST /api/bookings` and `DELETE /api/bookings/:id`
- the `auth` middleware in front of the three booking routes

Modules, leaves first:

- `Wrappers`: `Option`, which stands for JavaScript's `undefined` and `NaN`.
- `Seqs`: `Array.prototype.filter` (`Filter`). It is specified as the
  subsequence that keeps exactly the accepted elements, with multiplicity.
  The module also holds lemmas on appending, idempotence and commuting filters.
- `JsText`: `split(' ')` as the inverse of `join(' ')`; the global
  `parseInt` (leading white space, one sign, a `0x` prefix, the longest run
  of digits, `NaN`); and the decimal form `String(n)` of an integer.
- `Credentials`: bcrypt and jsonwebtoken as function values supplied from
  outside, with the server's secret `"supersecret"`. The ghost predicate
  `Sound` collects what the end-to-end lemmas assume of these libraries:
  - a password matches every digest made from it;
  - a signed token verifies to the claims it was signed with;
  - a token is non-empty and contains no space.
- `Records`: users, bookings and the JSON responses.
- `Auth`: bearer-token extraction and the 401/403 gate.
- `Users`: find-by-email, uniqueness of addresses, and the login response.
- `Bookings`: the owner filter of the listing and the rewrite done by cancel.
- `Server`: the `Store` class and its handlers, plus three short client
  methods that chain handlers (register twice; register, log in and
  authenticate; create then delete).

The bcrypt salt and the `Date.now()` ids are parameters of the handlers that
use them. Nothing in the model claims that ids are unique, because the code
does not guarantee it.

The handlers that change state (`Register`, `CreateBooking`,
`CancelBooking`, `PostBookings`, `DeleteBooking`) are stated in terms of
`old(...)`. Their contracts give the complete new state. The properties
behind those contracts are proved as lemmas about the functions the contracts
use.

The booking routes take the owner of a booking from the verified token,
never from the request body or query.

## Model

| member | source | states |
|---|---|---|
| Seqs.Filter | server.js:74 | `filter` returns a subsequence of its input that holds each accepted element as often as the input does, and no rejected element |
| Seqs.FilterIdempotent | server.js:89 | filtering a second time by the same predicate changes nothing |
| Seqs.FilterAppend | server.js:82 | filtering a concatenation is the concatenation of the filtered parts |
| Seqs.FilterCommute | server.js:74-89 | two filters applied one after the other give the same result in either order |
| JsText.Split | server.js:35 | `split(' ')` yields at least one field, no field contains a space, and joining the fields with spaces gives back the header |
| JsText.SplitJoin | server.js:35 | splitting a space-joined list of space-free fields gives back exactly those fields |
| JsText.ParseInt | server.js:89 | `parseInt` gives `NaN` exactly when no digit of the selected radix (16 after a `0x`/`0X` prefix, 10 otherwise) follows the leading white space and the optional sign; a negative result needs a leading minus sign |
| JsText.ParseIntDecimal | server.js:89 | `parseInt(String(n) + rest)` is `n` whenever `rest` cannot continue the number (no leading digit, and no `x`/`X` after a lone `0`), so `"123abc"` reads as 123 |
| Auth.BearerToken | server.js:35 | a token taken from the header is the second space-separated field, and it is non-empty and space-free |
| Auth.BearerTokenOf | server.js:35 | the header `scheme token` yields `token` |
| Auth.BearerTokenWithTrailer | server.js:35 | anything after another space in the header is ignored |
| Auth.NoSpaceNoToken | server.js:35-36 | a header without a space carries no token and is answered 401 "No token" |
| Auth.DoubleSpaceNoToken | server.js:35-36 | two spaces after the scheme leave an empty second field, so there is no token |
| Auth.Authenticate | server.js:34-42 | 401 "No token" exactly when there is no token; 403 "Invalid token" exactly when verification fails; otherwise the request passes with the decoded claims |
| Auth.SignedTokenAuthenticates | server.js:37-40 | a token the server signed passes the gate with exactly the claims signed into it |
| Users.FirstWithEmail | server.js:48 | `find` on the address gives the first user holding it, and gives nothing exactly when no user holds it |
| Users.UniqueEmailHasOneOwner | server.js:47-50 | with unique addresses, a taken address belongs to exactly one user |
| Users.AppendKeepsUnique | server.js:48-53 | appending a user keeps addresses unique if and only if the new address is not yet taken |
| Users.LoginResponse | server.js:58-67 | login succeeds exactly when the first user with the address exists and the password matches its digest; the token signs that user's `{id, email}` and the returned user is its id, name and address, without the digest; any failure is 400 "Invalid credentials" |
| Users.RegisterThenLogin | server.js:51-66 | after a fresh address is registered, logging in with it and the same password returns a token for the new user's `{id, email}` and the user without password |
| Users.LoginTokenNamesUser | server.js:65-66 | the token a successful login returns verifies to the id and address of the returned user, whose address is the one given |
| Bookings.OwnedBy | server.js:74 | the listing holds exactly the bookings whose `userId` is the caller's id, in store order and with their multiplicity |
| Bookings.Cancelled | server.js:89 | the rewritten list keeps, in order, exactly the bookings that are not the caller's with the parsed id |
| Bookings.CancelNaNKeepsAll | server.js:89 | an id that parses to `NaN` removes nothing |
| Bookings.CancelIdempotent | server.js:89 | cancelling twice has the same effect as cancelling once |
| Bookings.CancelSparesOthers | server.js:89 | a cancel leaves every other user's bookings exactly as they were |
| Bookings.CreateThenList | server.js:74-82 | a created booking shows up at the end of its owner's listing and in no other user's |
| Bookings.CreateThenCancel | server.js:81-89 | deleting a just-created booking through the decimal form of its id, as its owner, restores the collection, unless an older booking of that owner has the same id |
| Server.Store.ReadUsers | server.js:26-28 | reading the users file yields the stored users |
| Server.Store.WriteUsers | server.js:29-31 | writing the users file replaces the whole collection and leaves the bookings alone |
| Server.Store.ReadBookings | server.js:26-28 | reading the bookings file yields the stored bookings |
| Server.Store.WriteBookings | server.js:29-31 | writing the bookings file replaces the whole collection and leaves the users alone |
| Server.Store.Register | server.js:45-56 | a taken address gives 400 "Email already registered" and leaves users unchanged; otherwise exactly one user is appended, carrying the given id, name and address and the digest `hash(password, salt)` instead of the password, and the reply is a message only; unique addresses stay unique; bookings are untouched |
| Server.Store.Login | server.js:58-67 | the reply is the login response for the stored users, and the store is not changed |
| Server.Store.ListBookings | server.js:73-76 | the reply is 200 with exactly the caller's bookings, in store order |
| Server.Store.CreateBooking | server.js:78-85 | exactly one booking is appended, with the given id, the authenticated user as owner, and the room and dates from the body; earlier bookings and users are unchanged; the reply carries the new booking |
| Server.Store.CancelBooking | server.js:87-92 | the bookings become the cancel rewrite of the old list for `parseInt` of the path id; the reply is "Booking cancelled" whether or not anything was removed |
| Server.Store.GetBookings | server.js:73-76 | a denied request gets the gate's 401/403; a granted one lists the bookings of the id in the token |
| Server.Store.PostBookings | server.js:78-85 | a denied request gets 401/403 and writes nothing; a granted one appends a booking owned by the id in the token |
| Server.Store.DeleteBooking | server.js:87-92 | a denied request gets 401/403 and writes nothing; a granted one cancels for the id in the token |
| Server.RegisterTwice | server.js:45-56 | registering an address twice refuses the second call, and the address still belongs to exactly one user |
| Server.RegisterLoginAuthenticate | server.js:45-67 | register a fresh address, then log in: the users gain exactly the new user, the bookings are unchanged, login answers with the returned token and the new user's public record, and presenting `Bearer <token>` passes the gate as the new user's `{id, email}` |
| Server.CreateThenDelete | server.js:78-92 | create a booking, then delete it by its decimal id as the same user: the store is as before |

## Left out

- Express setup, CORS, JSON body parsing, route dispatch and `app.listen` (server.js:1-16, server.js:94): framework plumbing. The gated booking routes are modelled as the composition of `Authenticate` and the handler.
- `GET /api/rooms` (server.js:69-71): it only sends the rooms file, with no logic to model.
- Real file I/O through `jsonfile`: a missing or corrupt file throws and Express answers 500. The store is in-memory sequences that are replaced whole.
- bcrypt and jsonwebtoken internals: they are supplied function values. What the lemmas assume of them is stated in `Sound`.
- The `iat` claim: `jwt.sign` adds an issued-at time to the payload, so `req.user` also holds `iat`. The model keeps only `{id, email}`.
- The random salt of `bcrypt.hashSync(password, 10)` and the clock value of `Date.now()`: both are handler parameters. Ids are not claimed to be unique.
- Body fields and stored records are typed: names, addresses, passwords, room ids and dates are strings, and ids are integers. JavaScript cases such as `undefined` fields, a non-string password (bcrypt throws, which gives a 500) or a `userId` stored as a string (never `===` to a numeric id) are not modelled. The same holds for the decoded token payload: `jwt.verify` returns whatever JSON was signed, and since the secret is hard-coded (server.js:18) anyone can sign a payload whose `id` is a string or is missing. The model's claims always hold an integer `id` and a string `email`.
- Number precision: ids and `parseInt` results are exact integers. JavaScript numbers lose precision above 2^53. `String(n)` switches to exponent notation at 10^21, so `IntToDecimal` is the decimal form only below that.
- The `Authorization` header is one string or absent. How Node merges repeated headers is not modelled.
- Read-modify-write races between concurrent requests on the same file: the code has no guard for them, and the model runs one handler at a time.
