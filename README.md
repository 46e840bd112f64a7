# Virtual event management: the store and its guards, in Dafny

This project models the core of a small event-management REST API. The core is the
in-memory database (a `users` array and an `events` array that every request handler
changes in place) and the rules that guard each change:

- **event handlers**: list, create, update, delete, and register as a participant;
- **account handlers**: register and log in;
- **request-body validators**: ordered checks where the first failing one wins, built on three
  regular expressions (email, `YYYY-MM-DD` date, `H:MM`/`HH:MM` time);
- **authentication middleware**: turns the `authorization` header into the acting identity.

Modules, one per file:

- `Js` (`js.dfy`) holds the JavaScript built-ins the handlers rely on. These are request
  fields and their truthiness, `findIndex`/`find`, `splice(i, 1)` and `split`.
- `Http` (`http.dfy`) holds the reply: status, message and payload.
- `Data` (`data.dfy`) holds the records and the `Store` class, whose two fields are the
  two shared arrays.
- `Validation` (`validation.dfy`) holds the validators.
- `EventController` (`event_controller.dfy`) holds the event handlers.
- `AuthController` (`auth_controller.dfy`) holds the account handlers.
- `AuthMiddleware` (`auth_middleware.dfy`) holds the middleware.

The handlers that change the arrays are methods that take the `Store`. Each one states its whole new
state for every branch, and each keeps the store invariant `Store.Valid()`:

- emails are unique;
- no participant list has a duplicate;
- no event's creator is among its participants.

Each handler's failures (404, then 403, then 400) leave the arrays as they were. `login`
and `authenticate` only read the store, so they are functions returning a reply or an
outcome.

The acting identity (`req.user`) is an explicit parameter. The same goes for the things the
code gets from libraries, the clock or randomness:

- fresh ids;
- the current timestamp;
- the past-time comparison `isPast(date, time)`;
- bcrypt's `hash` and `compare`;
- JWT's `sign` and `verify`;
- the confirmation email `notify`, which reports success or failure.

In these places the code does something a reader might not expect, and the model follows the code:

- `createEvent` reads the role from the stored user (`isOrganizer`), not from the caller's
  claims.
- JavaScript's destructuring default replaces only a missing role. So a registration with
  role `""` passes validation and is stored with role `""`, outside the two named roles
  (`AuthController.RegisteredRole`).
- The date check is a digit-shape check only. `2024-13-45` passes it
  (`Validation.DateFormatExact`).
- A token that fails verification gets 403. A missing or malformed header, or an unknown
  user, gets 401.

## Model

| member | source | states |
|---|---|---|
| `Js.Truthy` | src/controllers/eventController.js:92-95 | `if (field)` on a request-body string: false for a missing field and for the empty string, true otherwise; `EventController.Patched` and the validators use it for every presence test |
| `Js.FindIndex` | src/controllers/eventController.js:7 | the index of the first element satisfying the predicate, and -1 exactly when none does |
| `Js.IndexOf` | src/middlewares/authMiddleware.js:14 | the first position of the character, and -1 exactly when it does not occur |
| `Js.RemoveAt` | src/controllers/eventController.js:129 | `splice(i, 1)`: one element shorter; every other element keeps its relative order; the multiset loses exactly `s[i]` |
| `Js.Split` | src/middlewares/authMiddleware.js:14 | `split(" ")` yields at least one piece, and no piece contains the separator |
| `Js.JoinSplit` | src/middlewares/authMiddleware.js:14 | joining the pieces of a split gives back the original string |
| `Js.SplitJoin` | src/middlewares/authMiddleware.js:14 | splitting the join of separator-free pieces gives back exactly those pieces |
| `Data.UserIndexById` | src/controllers/eventController.js:7 | `users.find` by id: the first user with that id, or none exactly when no user has it |
| `Data.UserIndexByEmail` | src/controllers/authController.js:18 | `users.find` by email: the first user with that email, or none exactly when no user has it |
| `Data.EventIndex` | src/controllers/eventController.js:113 | `events.findIndex` by id: the first event with that id, or -1 exactly when none has it |
| `Validation.ValidateEmail` | src/utils/validation.js:3-6 | `validateEmail`: the anchored pattern `[^\s@]+@[^\s@]+\.[^\s@]+` read left to right, with JavaScript's full `\s` set; `Validation.EmailShape` states which strings it accepts |
| `Validation.ValidDate` | src/utils/validation.js:55 | the date pattern `\d{4}-\d{2}-\d{2}`, anchored: ten characters, ASCII digits with `-` at positions 4 and 7; `Validation.DateFormatExact` states which strings it accepts |
| `Validation.ValidTime` | src/utils/validation.js:63 | the anchored time pattern: an hour that is `[01]?[0-9]` or `2[0-3]`, then `:[0-5][0-9]`; so a one- or two-character hour, `:`, and a two-digit minute; `Validation.TimeFormatExact` states which strings it accepts |
| `Validation.EmailShape` | src/utils/validation.js:3-6 | the email pattern accepts exactly the strings with no white space, one `@` not in front, and a `.` after the `@` that neither touches it nor ends the string |
| `Validation.DateFormatExact` | src/utils/validation.js:54-59 | the date pattern accepts exactly the zero-padded renderings of year < 10000, month < 100 and day < 100, so no calendar check |
| `Validation.TimeFormatExact` | src/utils/validation.js:61-67 | the time pattern accepts exactly an hour 0..23 in one or two digits, a colon, and a two-digit minute 0..59 |
| `Validation.ValidateRegistration` | src/utils/validation.js:8-28 | for each error message, exactly the inputs that get it, in the order missing fields, email, password under 6, role; no error exactly when all pass; an absent or empty role passes |
| `Validation.ValidateLogin` | src/utils/validation.js:30-42 | missing fields first, then the email pattern; accepted exactly when both are present and the email matches, with no password-length check |
| `Validation.ValidateEventData` | src/utils/validation.js:44-78 | the required-fields check happens only on creation; the date and time patterns apply only to provided fields; the past check happens only when both are provided and both formats pass; for each message, exactly the inputs that get it |
| `Validation.PastCheckNeedsDateAndTime` | src/utils/validation.js:69-75 | without both date and time the clock is never consulted and the past error never arises |
| `EventController.IsOrganizer` | src/controllers/eventController.js:6-9 | `isOrganizer(id)`: the first stored user with that id exists and has the organizer role; `EventController.IsOrganizerMeans` states what that means when ids are unique |
| `EventController.IsOrganizerMeans` | src/controllers/eventController.js:6-9 | passing `isOrganizer` needs a stored user with that id and the organizer role (an unknown id is refused); with unique ids, any stored organizer passes |
| `EventController.Patched` | src/controllers/eventController.js:91-96 | only provided, non-empty fields are overwritten; `updatedAt` is refreshed; id, creator, participants and `createdAt` stay the same |
| `EventController.PatchedIdempotent` | src/controllers/eventController.js:91-96 | an update applied twice equals it applied once; an empty update only refreshes the timestamp |
| `EventController.JoinKeepsParticipantsOk` | src/controllers/eventController.js:152-167 | appending an id that is neither registered nor the creator keeps the participant invariant and registers the id exactly once |
| `EventController.DeleteRemovesId` | src/controllers/eventController.js:113-129 | with unique ids, after the splice no event has the deleted id and ids stay unique |
| `EventController.GetEvents` | src/controllers/eventController.js:12-14 | replies 200 with the whole events array; it changes nothing |
| `EventController.CreateEvent` | src/controllers/eventController.js:24-59 | 403 with events unchanged unless the stored user is an organizer, checked before validation; 400 with the validator's message and events unchanged; otherwise 201 and exactly one event appended, with the given fields, the actor as creator, no participants, and `createdAt = updatedAt = now`; the invariant is kept |
| `EventController.UpdateEvent` | src/controllers/eventController.js:69-101 | 404, then 403 for a non-creator, then 400 for the update validation, each with events unchanged; otherwise 200, and only the found event is replaced by its patched version |
| `EventController.DeleteEvent` | src/controllers/eventController.js:111-131 | 404, then 403 for a non-creator, each with events unchanged; otherwise 200 and exactly the found event is spliced out |
| `EventController.RegisterForEvent` | src/controllers/eventController.js:141-185 | 404, then 400 if already registered, then 400 for the creator, each with events unchanged; otherwise 200 with the summary, and the actor appended to that event alone; a missing user or a failed email still gives 200 |
| `EventController.RegisterForEventTwice` | src/controllers/eventController.js:152-157 | after a successful registration, the same actor's second one is refused as already registered |
| `AuthController.RoleOrDefault` | src/controllers/authController.js:9 | the destructuring default `role = "attendee"`: a missing role becomes `attendee`, and a sent role, the empty string included, is kept; `AuthController.RegisteredRole` states which roles are stored |
| `AuthController.RegisteredRole` | src/controllers/authController.js:9 | after validation the stored role is `attendee` when omitted, and otherwise `attendee`, `organizer` or the empty string |
| `AuthController.Register` | src/controllers/authController.js:7-36 | 400 with the validator's message, then 400 "Email already exists", each with users unchanged; otherwise 201 and one user appended, holding the hash of the password and the defaulted role; email uniqueness is kept |
| `AuthController.RegisterTwice` | src/controllers/authController.js:17-20 | after a successful registration, a second one with the same body is refused as a duplicate email |
| `AuthController.Login` | src/controllers/authController.js:46-83 | 400 exactly on validation failure; 404 exactly when no user has the email; 401 on a password mismatch; on 200, a token that `sign` makes from `{id, role}` of a user with that email and a password-free user record; with unique emails, 200 exactly when that user's password matches |
| `AuthMiddleware.TokenOf` | src/middlewares/authMiddleware.js:14 | the text after the first space up to the next space or the end; missing exactly when the header has no space |
| `AuthMiddleware.BearerToken` | src/middlewares/authMiddleware.js:14-20 | a header `scheme token` with no other space yields exactly the token; a header without a space yields none |
| `AuthMiddleware.Authenticate` | src/middlewares/authMiddleware.js:4-41 | 401 "No token provided" exactly when the header is missing or empty; 401 "Invalid token format" exactly when the second word is missing or empty; 403 exactly when verification fails; 401 "User not found" exactly when no stored user has the token's id; otherwise `next` with `req.user` set to the decoded claims. Every path gives one reply or one `next`, never both |
| `AuthMiddleware.LoginThenAuthenticate` | src/middlewares/authMiddleware.js:22-35 | a token from a successful login, sent as `Bearer <token>`, is let through with the claims `{id, role}` it was signed over, given that `verify` gives back what `sign` was given |

## Left out

- HTTP wiring is not modelled: Express routing, `server.js`, the health endpoint and the
  generic 500 handler. The `try/catch` blocks that turn an unexpected exception into a 500
  reply are not modelled either, because no modelled operation can throw.
- The event routes mount a stub middleware instead of `authenticate`. That stub fixes the
  actor to id `temp-user` with role `organizer` (src/routes/eventRoutes.js:12-15). The model
  takes the actor as a parameter. By `EventController.IsOrganizerMeans`, that stub actor can
  create events only if a stored user with id `temp-user` has the organizer role.
- Email delivery is the parameter `notify`. Its transport, environment branches and logging
  (src/utils/sendEmail.js) are not modelled.
- bcrypt and JWT are parameters: `hash`, `compare`, `sign`, `verify`. Salting, the signing
  secret and the 24-hour expiry are not modelled. `verify` returning nothing stands for every
  way `jwt.verify` throws.
- AuthMiddleware.LoginThenAuthenticate: the payload `jwt.verify` decodes also carries the
  `iat` and `exp` timestamps that `jwt.sign` adds (src/controllers/authController.js:69-73),
  and src/middlewares/authMiddleware.js:34 stores that whole payload in `req.user`. `Claims`
  holds only `id` and `role`, so the model's actor leaves those two timestamps out, and the
  requirement that `verify` undoes `sign` is stated on `{id, role}` alone.
- Ids from `Date.now()` and `Math.random()`, and ISO timestamps, are parameters. Nothing
  assumes the ids are unique, so lookups take the first match. Id uniqueness is kept only
  under the stated conditions.
- `createEvent` reads the clock twice for `createdAt` and `updatedAt`. The model uses a single
  `now` for both.
- The past-time test `new Date(date + "T" + time) < new Date()` is the parameter `isPast`.
  JavaScript date parsing, including Invalid Date for impossible dates, is not modelled.
- The `data` module that holds the two arrays is not part of this model. `Store` starts with
  both arrays empty.
- The model handles one request at a time. `register` awaits the hash between its duplicate
  check and its push. Two interleaved registrations with the same email could therefore both
  succeed. The sequential model does not capture that.
- Events are values in a sequence. The handlers write the changed event back at the index
  that `find` returned. JavaScript's aliasing is not modelled: a JSON reply holds a live
  reference to the stored object.
- Request-body fields are optional strings. JSON numbers, arrays, objects and `null` in those
  fields are not modelled. A `null` role counts as a missing one, although JavaScript stores
  `null` rather than the default.
- String lengths count Unicode scalar values. JavaScript's `length` counts UTF-16 code units,
  which differs for characters outside the Basic Multilingual Plane.
- Replies without a `message` field (the event list and the login success) carry the empty
  string as their message. The `error` debug field of 500 replies is not modelled.
