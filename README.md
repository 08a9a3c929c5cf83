# SkillmatePlatform server core in Dafny

This project models the server side of SkillmatePlatform, a small learning
site where a signed-in learner keeps short notes. It covers:

- the in-memory store `MemStorage`: users and notes in two maps keyed by
  integer id, and two id counters that start at 1;
- the decision logic of the HTTP handlers: register, login, Google sign-in,
  `/me`, logout, and listing, creating and deleting notes;
- the WebSocket connection registry, and the broadcast that pushes
  `note_created` and `note_deleted` events to every open socket.

Files:

- `js_runtime.dfy` (module `JsRuntime`): the JavaScript behaviour the
  handlers rely on. This is optional values, JSON values and their
  truthiness, `String.prototype.trim`, and `parseInt` with no radix
  (ECMAScript 2024, sections 7.1.2, 22.1.3.32 and 19.2.5).
- `storage.dfy` (module `Storage`): the store as a class with its maps and
  counters. The read-only `find`/`filter`/`sort` chains are pure functions
  over the maps.
- `realtime.dfy` (module `Realtime`): the connection registry as a class.
  It holds an insertion-ordered list of (socket, info) entries, which is
  what a JavaScript `Map` is. `Broadcast` is a loop over that list.
- `routes.dfy` (module `Routes`): one method per handler on an `App`
  class that owns the store and the registry. The caller's session is a
  `Session` object.
- `scenarios.dfy` (module `Scenarios`): two scenarios proved from the
  handler contracts alone. One shows a first note reaching another open
  socket. The other shows a duplicate registration being refused.

Modelling choices:

- **Iteration order.** A JavaScript `Map` iterates in insertion order.
  Ids are handed out in increasing order and never reused. `set` on a
  present key keeps its place, and `delete` removes the key. So
  `Array.from(users.values())` and `Array.from(notes.values())` visit
  entries in ascending id order, and the scans walk ids from 1 up to the
  counter.
- **Sorting.** `Array.prototype.sort` is stable, so sorting by
  `b.createdAt - a.createdAt` lists notes newest first. Notes with equal
  timestamps stay in insertion order. The model uses an insertion sort
  that gives the same result.
- **Inputs passed in.** Clock readings (`new Date()`) are parameters. A
  handler that reads the clock once gets one value. A broadcast reads it
  once per OPEN socket, so it gets a function from the reading's index to
  a time: delivery k carries reading k. `encodeURIComponent` is a
  parameter too. Each schema check (`insertUserSchema`,
  `loginSchema`, `insertNoteSchema`) is a parameter `check` that returns
  `None` when the value passes and the first error message otherwise.
- **Sessions.** A session counts as signed out when `userId` is missing or
  0, which is what `!userId` tests.
- **Note ids from the path.** The id in `DELETE /api/notes/:id` goes
  through `parseInt`. A result of NaN finds no note.
- **Broadcasts.** A broadcast is returned as a list of (socket, envelope)
  deliveries in registry order. It is not sent. Which sockets are OPEN is a
  given set.
- **Email uniqueness.** The store does not check emails. Register and
  Google sign-in check for a known email before they create a user. The
  `App` invariant `UniqueEmails` states the result: no two users share an
  email. Every handler preserves it.

Two behaviours of the code worth knowing:

- Only `/api/auth/me` checks that the session's user still exists
  (server/routes.ts:124-127). The notes routes test only `!userId`, so a
  session whose user is gone can still list, create and delete notes.
  `App.ListNotes`, `App.PostNote` and `App.DeleteNote` state exactly this.
- `updateNote` overwrites every supplied field, `userId` included
  (server/storage.ts:86-90), so an update can move a note to another
  owner. It always refreshes `updatedAt`. No route calls `updateNote`.

## Model

| member | source | states |
|---|---|---|
| `JsRuntime.Truthy` | server/routes.ts:229 | a value is falsy exactly when it is `undefined`, `null`, `false`, `0` or `""`, which is what `data.userId` and `!userId` test |
| `JsRuntime.TrimStart` | server/routes.ts:55 | drops exactly the leading whitespace: the dropped prefix is all whitespace and the result is empty or starts with a non-whitespace character |
| `JsRuntime.TrimEnd` | server/routes.ts:55 | drops exactly the trailing whitespace: the dropped suffix is all whitespace and the result is empty or ends with a non-whitespace character |
| `JsRuntime.Trim` | server/routes.ts:55 | `trim()` is no longer than its input, and its result neither starts nor ends with whitespace |
| `JsRuntime.TrimCutsOuterWhitespace` | server/routes.ts:55 | `trim()` cuts its input into a whitespace prefix, the result and a whitespace suffix: the result is the input's characters from some position on, and everything before and after it is whitespace |
| `JsRuntime.TrimEmptyIffBlank` | server/routes.ts:55 | `name.trim() === ""` holds exactly when the name is made of whitespace only, which is the login's blank-name test |
| `JsRuntime.DigitPrefix` | server/routes.ts:196 | `parseInt` reads the longest run of digits of the radix: it is a prefix of the input, every character is a digit, and the next character is not |
| `JsRuntime.DecimalString` | client/src/hooks/use-notes.ts:22 | the id below 10^21 that the client writes into `/api/notes/${id}` is a non-empty run of decimal digits with no leading zero, and denotes the id |
| `JsRuntime.ParseIntDecimal` | server/routes.ts:196 | for every id below 10^21 (beyond that `String` switches to exponent notation), `parseInt` gives back exactly the id the client wrote into the path |
| `JsRuntime.ParseInt` | server/routes.ts:196 | `parseInt` answers a number only for text that is not all whitespace; a negative result needs a `-` after the whitespace, and without a `-` the result is never negative |
| `JsRuntime.ParseIntNaN` | server/routes.ts:196-200 | any path id that, after whitespace and one optional sign, does not start with a decimal digit parses to NaN, so the delete finds no note |
| `JsRuntime.DigitPrefixStops` | server/routes.ts:196 | a run of digits followed by a non-digit (or nothing) reads as exactly that run: whatever follows is ignored |
| `JsRuntime.UnsignedStopsAtNonDigit` | server/routes.ts:196 | the digits of `String(n)` followed by any text that does not go on with a digit read back as `n`, except that `0` followed by `x` selects hexadecimal |
| `JsRuntime.ParseIntOfDigits` | server/routes.ts:196 | text that starts with a decimal digit has no whitespace or sign to skip: `parseInt` reads its digits directly |
| `JsRuntime.ParseIntStopsAtNonDigit` | server/routes.ts:196 | for every id `n` below 10^21 and every `rest` that does not start with a digit (nor with `x`/`X` after `0`), `parseInt(String(n) + rest)` is `n`: digits are read up to the first non-digit |
| `Storage.ScanByEmail` | server/storage.ts:33-37 | the scan returns a user with the queried email that is stored under its id, and no user with a smaller id has that email; it returns nothing exactly when no user in range has that email |
| `Storage.OwnedBy` | server/storage.ts:54-55 | the filter keeps every stored note of the user and no other note, with each note as stored and ids ascending |
| `Storage.InsertNewestFirst` | server/storage.ts:56 | one insertion step adds exactly the new note: the result is the input multiset plus that note |
| `Storage.InsertKeepsNewestFirst` | server/storage.ts:56 | one insertion step keeps a newest-first list newest first |
| `Storage.SortNewestFirst` | server/storage.ts:56 | the sort is a permutation of its input, and `createdAt` never increases along the result |
| `Storage.InsertKeepsListingOrder` | server/storage.ts:56 | inserting a note inserted before all others keeps the list in listing order: newer first, equal timestamps in insertion order |
| `Storage.SortGivesListingOrder` | server/storage.ts:53-57 | sorting the id-ordered filter result gives the listing order, so the sort is stable on equal timestamps |
| `Storage.ListingOrderHasNoDuplicates` | server/storage.ts:53-57 | a list in listing order holds no note twice |
| `Storage.MemStorage.constructor` | server/storage.ts:22-27 | the store starts with no users and no notes, and both counters at 1 |
| `Storage.MemStorage.GetUser` | server/storage.ts:29-31 | a user is found exactly for ids 1 up to the counter, since users are never deleted, and the user found carries that id |
| `Storage.MemStorage.GetUserByEmail` | server/storage.ts:33-37 | returns a stored user with that email, the earliest inserted one; returns nothing exactly when no user has that email; reads the store without changing it |
| `Storage.MemStorage.GetNotesByUserId` | server/storage.ts:53-57 | returns exactly the stored notes of that user, newest first, equal timestamps in insertion order, none listed twice |
| `Storage.MemStorage.CreateUser` | server/storage.ts:39-51 | the new user gets the current counter as a fresh id and the counter advances by one; a missing avatar and provider id stay null, a missing provider becomes "email", and supplied values are kept; it is stored under its id, nothing else changes, and `getUser` then finds it |
| `Storage.MemStorage.CreateNote` | server/storage.ts:59-70 | the new note gets the current counter as its id, an id never handed out before, even if its note was since deleted; the counter advances by one and `createdAt == updatedAt == now`; it is stored under its id and every other note is unchanged |
| `Storage.MemStorage.DeleteNote` | server/storage.ts:72-78 | answers true exactly when the note exists and belongs to the caller, and then removes only that entry; otherwise answers false and the notes are unchanged |
| `Storage.MemStorage.UpdateNote` | server/storage.ts:80-94 | uses the same ownership guard and answers nothing with no change when it fails; otherwise it overwrites only the supplied fields, keeps `id` and `createdAt`, sets `updatedAt` to now and leaves every other note untouched |
| `Realtime.Get` | server/routes.ts:230 | a socket's info is found exactly when the socket is registered, and it is the info stored with it |
| `Realtime.Put` | server/routes.ts:222 | after `set`, the socket maps to the new info and every other socket keeps its info; a registered socket keeps its place and a new one is appended |
| `Realtime.Remove` | server/routes.ts:243 | after `delete`, exactly the entries of the other sockets stay; the registry is unchanged when the socket was not registered |
| `Realtime.RemoveKeepsOthers` | server/routes.ts:243 | after `delete`, `get` misses the removed socket and answers as before for every other socket |
| `Realtime.RemoveKeepsDistinct` | server/routes.ts:243 | after `delete`, no socket is registered twice if none was before |
| `Realtime.OpenTargetsAreOpenSockets` | server/routes.ts:249-251 | the broadcast targets are exactly the registered sockets that are OPEN, whatever user they claim, each listed once |
| `Realtime.Registry.constructor` | server/routes.ts:218 | the registry starts empty |
| `Realtime.Registry.OnConnection` | server/routes.ts:220-222 | a new connection is registered with no user id and every other entry is unchanged |
| `Realtime.Registry.OnMessage` | server/routes.ts:224-239 | an `auth` message with a truthy `userId` from a registered socket sets that connection's user id and nothing else; any other frame, an unparsable one included, leaves the registry unchanged |
| `Realtime.Registry.OnClose` | server/routes.ts:241-244 | closing removes the socket's entry and keeps every other entry |
| `Realtime.Registry.Broadcast` | server/routes.ts:248-258 | yields one delivery per OPEN registered socket, in registry order; every delivery carries the same type and data, and delivery k carries the k-th clock reading, since `new Date()` is evaluated once per OPEN socket |
| `Realtime.BroadcastReachesEachOpenSocketOnce` | server/routes.ts:248-258 | every open registered socket receives the event exactly once, and no other socket receives it |
| `Routes.SignedIn` | server/routes.ts:120 | the session counts as signed in exactly when its `userId` is present and truthy, which is the `!userId` test of every protected route (also lines 156, 170 and 192) |
| `Routes.PublicHidesInternals` | server/routes.ts:26-33 | a response's user object does not depend on the account's `provider`, `providerId` or `createdAt`: changing any of them leaves it the same, so they never leak (the same shape at lines 62-68, 103-109 and 129-135) |
| `Routes.Present` | server/routes.ts:83 | a Google profile field counts as given exactly when it is present and truthy, which is the `!name \|\| !email` test and the `avatar \|\|` fallback |
| `Routes.App.constructor` | server/storage.ts:97 | the server starts with an empty store, both counters at 1, and an empty registry |
| `Routes.App.Register` | server/routes.ts:11-40 | a failed schema check gives 400 with its message; a known email gives 400 "User already exists"; neither changes the store, the user counter or the session; otherwise exactly one user is created under the counter's id, the counter advances past it, the session gets its id, and the response holds only id, name, email and avatar; emails stay unique |
| `Routes.App.Login` | server/routes.ts:42-76 | the password is never consulted; an unknown email gives 401 and a blank or whitespace-only name gives 401, both with the session unchanged; otherwise the session gets the found user's id and nothing is created |
| `Routes.App.GoogleSignIn` | server/routes.ts:78-115 | a missing or empty name or email gives 400 with no change; a known email creates nothing, leaves the user counter alone and signs in as that user; otherwise exactly one user is created under the counter's id, the counter advances past it, and the user has provider "google", provider id = email and, when none is given, the avatar `https://ui-avatars.com/api/?name=` + the encoded name + `&background=10b981&color=ffffff`; emails stay unique |
| `Routes.App.Me` | server/routes.ts:117-141 | 401 when signed out, 401 when the session's user no longer exists, otherwise that user's public fields |
| `Routes.App.Logout` | server/routes.ts:143-150 | a failed `destroy` gives 500 and keeps the session; otherwise the session is cleared |
| `Routes.App.ListNotes` | server/routes.ts:153-165 | 401 when signed out; otherwise exactly the caller's notes in listing order |
| `Routes.App.PostNote` | server/routes.ts:167-187 | 401 or a schema 400 leaves the store untouched and broadcasts nothing; otherwise the note is stored under the session's user id, overriding any `userId` in the body, with a fresh id, the counter advances past it, and the set of ids ever handed out grows by exactly that id; `note_created` carrying the stored note goes to exactly the open sockets, delivery k stamped with clock reading k |
| `Routes.App.DeleteNote` | server/routes.ts:189-210 | 401 when signed out; 404 with no change and no broadcast when the id is NaN, missing or another user's note; otherwise only that note is removed and `note_deleted` with `{id, userId}` goes to exactly the open sockets, delivery k stamped with clock reading k |

## Left out

- The client (pages, components, hooks) and the static marketing data: presentation only.
- Express routing, JSON body parsing, the session cookie, and the async/Promise wrappers. Each handler runs as one atomic method, matching the single-threaded event loop.
- The handlers' `catch` branches that answer 500: nothing in the model throws, so these branches never run.
- The zod schemas of `@shared/schema` are not part of this model. Each schema is an abstract `check` parameter.
- `req.session.destroy` belongs to the session store. Its outcome is the parameter `destroyFails`.
- `encodeURIComponent` is a parameter of `GoogleSignIn`. Its percent-encoding is not modelled.
- `ws.send`, `JSON.stringify` of the envelope, ISO-8601 formatting of the timestamp, and socket `readyState` changes: network I/O. The OPEN sockets are a given set.
- `console.log` and `console.error` calls.
- JavaScript numbers are modelled as integers. Fractions, NaN as a stored value, `-0` and loss of precision beyond 2^53 (also in `parseInt`) are not modelled.
- Google sign-in fields are modelled as optional strings. A JSON number or object in `name` or `email` is not modelled.
- `Storage.MemStorage.UpdateNote`: a patch field is either absent or a value. A key that is present with the value `undefined` overwrites the field with `undefined` in the source (the spread at server/storage.ts:88). The model keeps the field instead, because a note's fields are never undefined here.
- `Routes.App.GoogleSignIn`: `encodeURIComponent` is a total parameter. In JavaScript it throws a `URIError` on a name with a lone surrogate, and the handler then answers 500 without creating a user (server/routes.ts:94, 111-113). That branch is not modelled.
- `Realtime.Remove`: states which entries remain, not that they keep their relative order. The definition does keep it.

