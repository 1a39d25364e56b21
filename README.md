# Contacts backend: authentication routes, contact repository and routes

This project models the core of a FastAPI contacts backend in Dafny and proves properties of that model.

The authentication routes are `signup`, `login`, `refresh_token`, `confirmed_email`, `request_email`, `reset_password` and the reset-password form. They work over three pieces of state:

- a users table keyed by email;
- a user cache that holds a snapshot and a time to live;
- a queue of background mail tasks.

Each route is specified by a pure function in module `Session` that maps the old state to the new state and a response. Each route is also written imperatively as a method of the class `AuthRoutes.AuthRouter`, which mutates its fields in the handler's order. Each method's postcondition ties it to its function. Module `SessionTraces` proves what holds over any sequence of requests:

- the state invariant is kept;
- users are never removed, and their roles never change;
- confirmation is never undone;
- once reuse of a refresh token is detected, every refresh for that user fails until the next login.

The contact repository (`ContactRepository`) models `filter_by`/`where` as `Select`, a filter over the rows in table order, and `.offset().limit()` as `Window`. The table is a class, `ContactTable`. Its `Create`, `Update` and `Delete` methods change the row sequence in place. They are specified by `InsertRow`, `UpdateRow` and `RemoveRow`. The contact routes (`ContactRoutes`) map repository results to responses. This covers the pagination bounds and the role guard of `/contacts/all`. Two routes crash or misbehave because they call the repository with the wrong arguments; these are modelled both as written and as intended.

Modules: `Wrappers` (Option), `Http` (the response shapes), `Codec` (the token and password service the routes call), `Schemas` (the pydantic shapes and validators), `Session`, `SessionTraces`, `AuthRoutes`, `ContactRepository`, `ContactRoutes`.

Source behaviours the model keeps as they are:

- `reset_password` answers differently for registered and unregistered emails, so its reply tells whether an email is registered.
- `request_email` crashes on an unregistered email.
- Confirmation and reset tokens are read by the same decoder (`get_email_from_token`), so one email-action purpose serves both.

## Model

| member | source | states |
|---|---|---|
| `Codec.Hash` | src/routes/auth.py:21 | `get_password_hash`: no password other than the given one yields the same hash |
| `Codec.Verify` | src/routes/auth.py:36 | `verify_password` accepts a plaintext exactly when the stored hash was made from it |
| `Codec.VerifyHash` | src/routes/auth.py:104-105 | a hash verifies its own plaintext and no other: `Verify(p, Hash(q)) <==> p == q` |
| `Codec.MintAccess` | src/routes/auth.py:39 | the access token is signed for the access purpose with the user's email as subject |
| `Codec.MintRefresh` | src/routes/auth.py:40 | the refresh token is signed for the refresh purpose with the user's email as subject |
| `Codec.MintEmail` | src/routes/auth.py:25 | the token a confirmation or reset mail carries has the email-action purpose and the user's email as subject |
| `Codec.DecodeRefresh` | src/routes/auth.py:49 | yields a subject exactly for signed refresh tokens, and that subject is the token's |
| `Codec.EmailFromToken` | src/routes/auth.py:63 | yields a subject exactly for signed email-action tokens, and that subject is the token's |
| `Codec.MintDecodeRoundTrip` | src/routes/auth.py:49 | decoding a freshly minted refresh or email token gives back its email |
| `Codec.PurposeIsChecked` | src/routes/auth.py:63 | a token minted for one purpose is refused by the other purpose's decoder |
| `Codec.MintedTokensDiffer` | src/routes/auth.py:40 | two refresh tokens are equal exactly when they were minted for the same email with the same serial |
| `Schemas.UserSchemaErrors` | src/schemas/user.py:9-12 | a signup body is rejected exactly when the username is outside 3..50 characters or the password outside 6..8; names each failing field |
| `Schemas.UserResetPasswordErrors` | src/schemas/user.py:33-35 | a reset form is rejected exactly when `password1` or `password2` is outside 6..8 characters; names each failing field |
| `Schemas.BearerPair` | src/schemas/user.py:25-28 | a token response carries both tokens and `token_type` "bearer" |
| `Session.ToResponse` | src/schemas/user.py:15-19 | the response exposes id, username, email and role of the row |
| `Session.ResponseHidesSecrets` | src/schemas/user.py:15-19 | the response does not depend on the password hash, the refresh token or the confirmed flag |
| `Session.Signup` | src/routes/auth.py:16-26 | an invalid body gives 422 and an existing email gives 409 "Account already exists", both with nothing changed; otherwise exactly one row is added, unconfirmed, role user, holding `Hash(password)`, and only that password verifies against it; the row is cached with TTL 300, exactly one confirmation mail is queued, and 201 returns the row's public fields |
| `Session.Login` | src/routes/auth.py:29-42 | checks run in order: absent email, then unconfirmed, then wrong password, each a 401 with its own message and no state change; success mints an access and a refresh token, stores the refresh token as the user's only one, and no token issued earlier matches it |
| `Session.Refresh` | src/routes/auth.py:45-59 | an undecodable token is rejected with no change, and an unknown subject crashes with no change; a token other than the stored one clears the stored token and gives 401; the stored token gives a new pair, the new refresh token is stored, and no earlier token is accepted any more |
| `Session.ConfirmEmail` | src/routes/auth.py:61-70 | an unknown user gives 400 "Verification error"; an already confirmed user gets "already confirmed" with no change; otherwise only `confirmed` becomes true; no confirmed user becomes unconfirmed |
| `Session.RequestEmailAsWritten` | src/routes/auth.py:72-81 | an unknown email crashes; a confirmed user gets "already confirmed" with nothing queued; an unconfirmed user gets exactly one confirmation mail |
| `Session.RequestEmail` | src/routes/auth.py:72-81 | with the `None` test first: always 200; a mail is queued exactly for a registered, unconfirmed email; users, cache and counters are unchanged |
| `Session.ResetPasswordEmail` | src/routes/auth.py:83-92 | a registered email gets exactly one reset mail and "Check your email…"; an unknown one gets "User with email doesn't exist" and nothing changes |
| `Session.ConfirmResetPassword` | src/routes/auth.py:98-108 | an invalid form gives 422, an undecodable token is rejected, and an unknown user gives 400; different passwords give 401 with the hash unchanged; succeeds exactly when the two passwords are equal, and then only `password2` verifies against the stored hash |
| `Session.ResetReplyRevealsRegistration` | src/routes/auth.py:88-92 | two emails get the same reset reply only when both or neither are registered |
| `Session.RequestEmailFixAgrees` | src/routes/auth.py:75-81 | on registered emails the corrected and the written `request_email` coincide |
| `Session.RequestEmailFixKeepsState` | src/routes/auth.py:75-81 | the corrected and the written `request_email` reach the same state for every input, and give the same reply whenever the written one does not crash, so the trace theorems over the corrected route hold for the written one's states |
| `Session.RequestEmailUnknownCrashes` | src/routes/auth.py:77-79 | for every unregistered email the written route crashes, while the corrected one answers 200 and changes nothing |
| `AuthRoutes.AuthRouter.constructor` | src/routes/auth.py:12 | the router starts with empty state that satisfies the invariant |
| `AuthRoutes.AuthRouter.Signup` | src/routes/auth.py:16-26 | the state change and the response are those of `Session.Signup`, and the invariant is kept |
| `AuthRoutes.AuthRouter.Login` | src/routes/auth.py:29-42 | the state change and the response are those of `Session.Login`, and the invariant is kept |
| `AuthRoutes.AuthRouter.RefreshToken` | src/routes/auth.py:45-59 | the state change and the response are those of `Session.Refresh`, and the invariant is kept |
| `AuthRoutes.AuthRouter.ConfirmedEmail` | src/routes/auth.py:61-70 | the state change and the response are those of `Session.ConfirmEmail`, and the invariant is kept |
| `AuthRoutes.AuthRouter.RequestEmail` | src/routes/auth.py:72-81 | the state change and the response are those of `Session.RequestEmailAsWritten`, and the invariant is kept |
| `AuthRoutes.AuthRouter.ResetPasswordEmail` | src/routes/auth.py:83-92 | the state change and the response are those of `Session.ResetPasswordEmail`, and the invariant is kept |
| `AuthRoutes.AuthRouter.ConfirmedResetPassword` | src/routes/auth.py:98-108 | the state change and the response are those of `Session.ConfirmResetPassword`, and the invariant is kept |
| `SessionTraces.SignupPreservesValid` | src/routes/auth.py:21-25 | signup keeps the invariant: rows under their own email, distinct ids, stored tokens owned, cache keys registered |
| `SessionTraces.LoginPreservesValid` | src/routes/auth.py:39-41 | login keeps the invariant |
| `SessionTraces.RefreshPreservesValid` | src/routes/auth.py:52-58 | refresh keeps the invariant |
| `SessionTraces.ConfirmPreservesValid` | src/routes/auth.py:69 | email confirmation keeps the invariant |
| `SessionTraces.ResendPreservesValid` | src/routes/auth.py:79-80 | a confirmation resend keeps the invariant |
| `SessionTraces.ResendAsWrittenPreservesValid` | src/routes/auth.py:75-81 | the written resend keeps the invariant on every path |
| `SessionTraces.ResetPreservesValid` | src/routes/auth.py:88-89 | a reset request keeps the invariant |
| `SessionTraces.ResetFormPreservesValid` | src/routes/auth.py:107 | a password reset keeps the invariant |
| `SessionTraces.HandlePreservesValid` | src/routes/auth.py:16-108 | every auth route keeps the invariant |
| `SessionTraces.RefreshNeedsIssuedToken` | src/routes/auth.py:49-59 | under the invariant, a refresh succeeds only with the refresh token the service issued to that user before the request, which is the one stored for them |
| `SessionTraces.RunPreservesValid` | src/routes/auth.py:16-108 | every sequence of auth requests keeps the invariant |
| `SessionTraces.HandleEvolves` | src/routes/auth.py:16-108 | no route removes a user, changes an id, username or role, or unconfirms a user |
| `SessionTraces.RunEvolves` | src/routes/auth.py:69 | over any sequence of requests, users stay, roles never change and confirmation is monotonic |
| `SessionTraces.HandleKeepsLockout` | src/routes/auth.py:52-54 | any request but a login for that user leaves a cleared refresh token cleared, and a refresh for that user gets 401 |
| `SessionTraces.LockedOutUntilLogin` | src/routes/auth.py:52-54 | after the stored token is cleared, every refresh for that user in any sequence without a login for them fails with 401 "Invalid refresh token" |
| `SessionTraces.SignupConfirmLogin` | src/routes/auth.py:16-42 | after signup, login fails with "Email not confirmed"; confirmation succeeds; the same credentials then log in |
| `SessionTraces.SupersededRefreshLocksOut` | src/routes/auth.py:39-59 | after two logins the first login's refresh token gives 401 and clears the stored token, so the second login's token gives 401 too |
| `SessionTraces.RefreshRotates` | src/routes/auth.py:56-59 | refreshing with the token just issued gives a new, different pair, and the old token is then refused |
| `ContactRepository.Lower` | src/repository/contacts.py:29 | upper-case ASCII letters map to their lower-case letter, everything else to itself |
| `ContactRepository.LowerAll` | src/repository/contacts.py:29 | lower-casing keeps length and acts letter by letter |
| `ContactRepository.ILikeIgnoresCase` | src/repository/contacts.py:29 | `ilike` without wildcards holds exactly for same-length strings equal up to letter case |
| `ContactRepository.Select` | src/repository/contacts.py:13 | the selection holds exactly the rows that match the query |
| `ContactRepository.SelectAppend` | src/repository/contacts.py:13 | selection keeps table order: selecting from `a + b` is selecting from `a` then from `b` |
| `ContactRepository.SelectUnique` | src/repository/contacts.py:24-26 | under the table's constraints, a lookup by id or by email finds at most one row |
| `ContactRepository.Window` | src/repository/contacts.py:13 | skips `offset` rows and returns at most `limit`, position by position, with the exact length |
| `ContactRepository.OneOrNone` | src/repository/contacts.py:26 | `None` exactly for an empty result, otherwise its single row |
| `ContactRepository.GetContacts` | src/repository/contacts.py:12-15 | exactly `min(limit, n - offset)` contacts, where `n` is the number of the user's contacts (none when `offset >= n`), being the user's contacts from position `offset` on, in table order |
| `ContactRepository.GetAllContacts` | src/repository/contacts.py:17-20 | exactly `min(limit, n - offset)` rows of the whole table of `n` rows (none when `offset >= n`), from position `offset` on, with no owner filter |
| `ContactRepository.GetContact` | src/repository/contacts.py:23-26 | the user's contact with this id, or `None` exactly when the user has none; never another user's |
| `ContactRepository.GetContactByEmail` | src/repository/contacts.py:40-43 | the user's contact with this email, or `None` exactly when the user has none; never another user's |
| `ContactRepository.GetContactsByName` | src/repository/contacts.py:28-32 | a list, possibly empty, of exactly the user's contacts whose name matches ignoring case |
| `ContactRepository.GetContactsBySurname` | src/repository/contacts.py:34-38 | a list, possibly empty, of exactly the user's contacts whose surname matches ignoring case |
| `ContactRepository.GetContactByBirthday` | src/repository/contacts.py:45-50 | exactly the user's contacts with a birthday whose day number lies in `[birthday, birthday + n]` |
| `ContactRepository.NegativeWindowIsEmpty` | src/repository/contacts.py:47-48 | a negative `n` gives an empty range and so no contact |
| `ContactRepository.BirthdayWindowExample` | src/repository/contacts.py:45-50 | a birthday on day 10 is found from day 8 with `n = 5` and not from day 11 |
| `ContactRepository.FindIndex` | src/repository/contacts.py:61-63 | the position of the user's contact with this id, or `None` exactly when there is none |
| `ContactRepository.InsertRow` | src/repository/contacts.py:52-57 | an email already in the table makes the insert fail with the rows unchanged, though the id sequence value it drew stays used; otherwise exactly one contact is appended, carrying the body's fields, the user as owner and the next sequence value as id |
| `ContactRepository.Overwritten` | src/repository/contacts.py:65-71 | the updated contact carries the body's fields and the new `created_at`, and keeps its id, owner and `b_date` |
| `ContactRepository.UpdateRow` | src/repository/contacts.py:60-74 | no match exactly when the user has no contact with this id; an email clash exactly when another row holds the body's email; in both cases nothing changes; otherwise the update succeeds, and only that one contact is overwritten in place |
| `ContactRepository.RemoveRow` | src/repository/contacts.py:77-84 | `None` exactly when the user has no contact with this id, and then nothing changes; otherwise the matched contact is returned and removed, and the table loses exactly that element |
| `ContactRepository.InsertPreservesValid` | src/repository/contacts.py:52-57 | an insert keeps ids and emails distinct and grows the table by exactly one on success |
| `ContactRepository.UpdatePreservesValid` | src/repository/contacts.py:60-74 | an update keeps ids and emails distinct |
| `ContactRepository.DeletePreservesValid` | src/repository/contacts.py:77-84 | a delete keeps ids and emails distinct |
| `ContactRepository.DeleteRemovesExactlyMatch` | src/repository/contacts.py:77-84 | after a delete the table holds exactly the contacts that do not match the id and owner |
| `ContactRepository.ContactTable.constructor` | src/repository/contacts.py:8 | an empty table that satisfies the constraints |
| `ContactRepository.ContactTable.Create` | src/repository/contacts.py:52-57 | keeps the constraints; the new rows and the result are those of `InsertRow` |
| `ContactRepository.ContactTable.Update` | src/repository/contacts.py:60-74 | keeps the constraints; the new rows and the result are those of `UpdateRow` |
| `ContactRepository.ContactTable.Delete` | src/repository/contacts.py:77-84 | keeps the constraints; the new rows and the result are those of `RemoveRow` |
| `ContactRoutes.RoleAccess` | src/routes/contacts.py:18 | the role guard admits a request exactly when the user's role is one of the listed roles |
| `ContactRoutes.RolesForAllAdmits` | src/routes/contacts.py:18 | the `/all` guard admits exactly admin and moderator |
| `ContactRoutes.Paging` | src/routes/contacts.py:23 | accepted exactly when `10 <= limit <= 500` and `offset >= 0`, with defaults 10 and 0 |
| `ContactRoutes.ListContacts` | src/routes/contacts.py:21-29 | 422 exactly outside the bounds; otherwise 200 with the `get_contacts` page for that `limit` and `offset` |
| `ContactRoutes.ListAllContacts` | src/routes/contacts.py:31-35 | 403 exactly for roles other than admin and moderator; otherwise 422 outside the bounds or 200 with the `get_all_contacts` page for that `limit` and `offset` |
| `ContactRoutes.SearchByName` | src/routes/contacts.py:37-43 | always 200, never 404, with exactly the user's contacts whose name matches ignoring case |
| `ContactRoutes.SearchBySurname` | src/routes/contacts.py:45-52 | always 200, never 404, with exactly the user's contacts whose surname matches ignoring case |
| `ContactRoutes.SearchByEmail` | src/routes/contacts.py:54-60 | 404 "NOT FOUND" exactly when the user has no contact with that email; otherwise 200 with it |
| `ContactRoutes.BirthdayReply` | src/routes/contacts.py:67-70 | 404 exactly when the birthday search is empty; otherwise 200 with exactly the matching contacts |
| `ContactRoutes.SearchByBirthdayAsWritten` | src/routes/contacts.py:63-70 | an omitted birthday means the day the module was loaded, and `n` defaults to 7 |
| `ContactRoutes.SearchByBirthday` | src/routes/contacts.py:63-70 | 200 exactly when some contact of the user falls in the window, and the body is exactly those contacts; with no parameters, the window is the request day through 7 days on |
| `ContactRoutes.BirthdayDefaultIsLoadDay` | src/routes/contacts.py:64 | with the load day 8 days back, a birthday on the request day is missed by the written route and found by the corrected one |
| `ContactRoutes.GetContactRoute` | src/routes/contacts.py:73-78 | 422 for ids below 1; 404 "NOT FOUND" exactly when the user has no contact with that id; otherwise 200 with it |
| `ContactRoutes.CreateContactRoute` | src/routes/contacts.py:81-92 | 409 "Email not unique" exactly when the email is taken, with the rows unchanged and one sequence value used; otherwise 201 with the new contact appended, its id the next sequence value, carrying the body's fields, `created_at` and `b_date` |
| `ContactRoutes.UpdateContactRouteAsWritten` | src/routes/contacts.py:94-106 | for every valid id the answer is 409 and the table is unchanged |
| `ContactRoutes.UpdateAsWrittenNever404` | src/routes/contacts.py:100-105 | an id that matches nothing still gets no 404 |
| `ContactRoutes.UpdateContactRoute` | src/routes/contacts.py:94-106 | 404 exactly when the user has no contact with that id; 409 exactly when that contact exists and another row holds the body's email; otherwise 200, with that contact overwritten in place and every other row unchanged |
| `ContactRoutes.DeleteContactRouteAsWritten` | src/routes/contacts.py:109-113 | for every valid id the route crashes and the table is unchanged |
| `ContactRoutes.DeleteContactRoute` | src/routes/contacts.py:109-113 | 204; `None` and no change exactly when the user has no contact with that id; otherwise that one contact is cut out of the table at its position, the others keep their order, and the table constraints still hold |
| `ContactRoutes.DeleteAsWrittenRemovesNothing` | src/routes/contacts.py:112 | an existing contact survives the written delete and is gone after the corrected one |

## Findings

| source | as written | input that shows it | evidently intended | confidence | as-written member | corrected member |
|---|---|---|---|---|---|---|
| src/routes/contacts.py:101 | `update_contact(contact_id, body, db)` passes 3 arguments to a 4-parameter function; the `TypeError` is caught by the bare `except` (which would also catch the 404 raised at line 103) | `PUT /contacts/1` with any body: 409 "Email not unique", nothing updated, also when contact 1 does not exist | pass `user`; 404 when the user has no such contact; 409 only for a failed commit | high, not executed | `ContactRoutes.UpdateContactRouteAsWritten`, `ContactRoutes.UpdateAsWrittenNever404` | `ContactRoutes.UpdateContactRoute` |
| src/routes/contacts.py:112 | `delete_contact(contact_id, db)` omits `user`; the `TypeError` is uncaught | `DELETE /contacts/1` for a contact the user owns: 500, contact still present | pass `user`; remove the matched contact | high, not executed | `ContactRoutes.DeleteContactRouteAsWritten`, `ContactRoutes.DeleteAsWrittenRemovesNothing` | `ContactRoutes.DeleteContactRoute` |
| src/routes/auth.py:77 | `user.confirmed` is read before the `if user:` test at line 79 | `POST /api/auth/request_email` with an unregistered email: `AttributeError`, 500 | test for `None` first; answer as for an unconfirmed user and queue nothing | high, not executed | `Session.RequestEmailAsWritten`, `Session.RequestEmailUnknownCrashes` | `Session.RequestEmail` |
| src/routes/contacts.py:64 | `Query(date.today())` evaluates `date.today()` once, when the module is imported | `GET /search/birthday` with no `birthday`, on a day after the server started: the window starts at the start day | default to the day of the request | medium, not executed | `ContactRoutes.SearchByBirthdayAsWritten`, `ContactRoutes.BirthdayDefaultIsLoadDay` | `ContactRoutes.SearchByBirthday` |

`SessionTraces.Handle` uses the corrected `Session.RequestEmail`. `AuthRoutes.AuthRouter.RequestEmail` models the route as written. `Session.RequestEmailFixAgrees` shows the two agree wherever the written one does not crash.

## Left out

- JWT signing, expiry and the clock: a signed token is `Signed(purpose, subject, serial)`, and anything else is `Garbled`. The serial is the token service's mint counter and stands for the issue instant. This makes every minted token distinct. Real JWTs minted for the same email within the same second can be byte-identical; the model does not capture that.
- The token service (`src/services/auth.py`) is not part of this model. The status and detail its decoders raise are not modelled; the model answers `TokenRejected`. Its `get_current_user` (a cache-first lookup of the bearer's user) is not modelled either, so the contact routes take the user's id and role as parameters.
- bcrypt: `Hash` is an injective datatype constructor, so it is neither one-way nor salted. The routes rely only on `Verify(p, Hash(q)) <==> p == q`, which is proved.
- Redis TTL expiry and pickling: the cache records the snapshot with TTL 300 and has no notion of elapsed time. Only signup writes it. Later changes to a user leave the snapshot stale, as in the source.
- Mail delivery: `send_email` and `send_reset_passw_email` are entries in an outbox sequence. The email token they mint inside `src/services/email.py` is not modelled; `Codec.MintEmail` is used only in lemmas.
- The rate limiter, `EmailStr` validation, and `ilike` wildcards: patterns are taken to contain no `%`, no `_` and no `\`, which PostgreSQL's `ILIKE` treats as its escape character. Case folding covers ASCII letters only.
- `HTTPBearer` (src/routes/auth.py:13) answers 403 when the `Authorization` header is missing; `Session.Refresh` takes a token, so that case has no input in the model.
- `src/repository/users.py` is not part of this model: the model assumes that `create_user` assigns a fresh id and the default role `user`. User ids are natural numbers, not UUIDs.
- `src/models/models.py` is not part of this model. `b_date` is an opaque day number on each contact: `create_contact` receives it as a parameter and `update_contact` leaves it unchanged. Email uniqueness across the table is inferred from the 409 "Email not unique" of the create route. A commit that fails on a taken email is modelled as a check made after the id is drawn: no row is added, and the id sequence value stays used, as PostgreSQL does not roll sequences back.
- Result order: the queries have no `ORDER BY`, and the model returns table order.
- `ContactBody` has the fields `update_contact` assigns. `exclude_unset` defaults of `create_contact` are not modelled, and `created_at` is a parameter `now`.
- `birthday + timedelta(days=n)` overflowing the date range is not modelled.
- `recieve_conf_reset_passw` (`GET /form_reset_password/{token}`) returns a fixed message and touches no state, so it is not modelled.
- `src/database/db.py` (session lifecycle, rollback and print on error), concurrency and async suspension are not modelled. Its `session()` context (lines 24-26) catches every exception without re-raising, so on FastAPI 0.106 and later a handler's `HTTPException` can reach the client as a 500; the model gives each route the status its handler raises. Each request is one atomic step, so the concurrent-refresh race is not captured.
