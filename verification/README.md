# chatchat-server message core in Dafny

This project models the server side of the chatchat real-time chat. It is a Node.js
server. Clients connect over a live Socket.IO channel or over HTTP. The channel and the
message and profile routes are authenticated by identity-provider (Firebase) ID tokens;
the room query is not. The server keeps chat messages in a document store. At the core is the message store with its ownership-guarded, soft-delete
mutations:

- `message:send` creates a text or an inline-image message and broadcasts it;
- `message:edit`, `message:delete` and their HTTP twins PUT/DELETE `/messages/:id` change
  a record through one conditional update whose filter is
  `{ _id, userId: requester, isDeleted: false }`;
- GET `/messages` reads back the global history.

Around the core sit:

- the image data-URL validator;
- the two authentication gates (the socket handshake and the HTTP Bearer middleware);
- the configuration string functions (the CORS origin list, credential-source
  precedence, private-key normalisation);
- the room-scoped history query;
- the profile presence map written by `/me` and `/logout`.

Everything is pure. The store is a `map<Id, Message>` and each handler is a function from
the store and its input to the new store and the emitted events. Some things the server
gets from outside, and these are parameters:

- the requester's identity;
- the clock;
- the key the store assigns;
- whether the store fails;
- the token verifier's verdict;
- the base64 decoder's length.

JavaScript's dynamic payload values are a `JsValue` datatype with JavaScript truthiness.
A `TypeError` the code would throw inside a `try` is modelled as that `catch` block's
outcome (for example `trim` on a numeric `text`).

Modules, in dependency order:

- `Options`: `Option` and `Result`.
- `Strings`: `trim`, and `split` with a one-character separator.
- `Js`: dynamic values and truthiness.
- `Origins`: the CORS origin list.
- `FirebaseAdmin`: credential precedence, key normalisation and guarded initialisation.
- `Auth`: the handshake and the HTTP gate.
- `ImageCodec`: the data-URL check.
- `Messages`: records, events, the store invariant and the evolution relation.
- `Mutations`: the conditional update and the socket handlers.
- `MessageRoutes`: PUT and DELETE.
- `Queries`: the history and room queries.
- `Profiles`: `/me` and `/logout`.
- `Engine`: runs of many requests.

## Model

| member | source | states |
|---|---|---|
| Strings.Trim | server.js:21 | `trim` yields a string with no white space at either end; it is empty exactly when the input is all white space, and it leaves a trimmed string unchanged |
| Strings.TrimIsInfix | server.js:21 | `trim` only removes leading and trailing white space: the result is the infix between them and adds no character |
| Strings.Split | server.js:20 | `split(',')` gives at least one field, no field holds the separator, and joining the fields with it restores the input |
| Strings.SplitJoin | server.js:20 | splitting undoes joining separator-free fields |
| Strings.SplitConcat | server.js:20 | splitting at a separator splits the two sides independently: the fields of the left side, then those of the right |
| Origins.KeepNonBlank | server.js:21-22 | trim-and-filter keeps only non-empty trimmed entries, keeps every non-blank field, and every kept entry is the trim of some field |
| Origins.KeepNonBlankSingle | server.js:21-22 | one field contributes its trimmed text, or nothing when that is empty |
| Origins.KeepNonBlankConcat | server.js:21-22 | trim-and-filter works field by field, in order: the result for `a + b` is the result for `a` followed by the result for `b`; with the single-field case this fixes the order and multiplicity of the result |
| Origins.AllowedOrigins | server.js:13-25 | the list always starts with the two defaults in order; every added origin is non-empty, trimmed and comma-free; every non-blank field of the variable is added, trimmed, and every added origin is the trimmed text of a field, so nothing else gets in; an absent or empty variable leaves exactly the defaults |
| Origins.AllowedOriginsAppend | server.js:13-25 | setting the variable to `a,b` gives the origins of `a` followed by the extra origins of `b`: nothing is lost, reordered or added at the comma |
| Origins.KeepNonBlankKeepsAll | server.js:21-22 | already clean entries pass the trim-and-filter step unchanged |
| Origins.OriginsFromList | server.js:13-25 | setting the variable to a comma-joined list of clean origins yields the defaults followed by exactly that list |
| FirebaseAdmin.Unquote | services/firebaseAdmin.js:43-45 | the key changes only when its first and last characters are the same quote character, and it never grows; a lone quote character becomes the empty string |
| FirebaseAdmin.UnquoteWrapped | services/firebaseAdmin.js:43-45 | matching surrounding quotes are removed whatever lies between them |
| FirebaseAdmin.ExpandNewlines | services/firebaseAdmin.js:46 | after the replacement no backslash-`n` pair remains, so a second replacement changes nothing; a key without pairs is unchanged; the result is never longer |
| FirebaseAdmin.ExpandAroundNewline | services/firebaseAdmin.js:46 | a raw newline is kept and the text on either side of it is expanded on its own; with `ExpandEscape` this fixes the result for every key, so nothing but the backslash-`n` pairs changes |
| FirebaseAdmin.ExpandEscape | services/firebaseAdmin.js:46 | expanding restores a key whose newlines were written as backslash-`n` |
| FirebaseAdmin.NormalizePrivateKey | services/firebaseAdmin.js:41-46 | the normalised key holds no backslash-`n` pair and is never longer; a key neither quoted nor escaped passes unchanged |
| FirebaseAdmin.QuotedKeyRoundTrip | services/firebaseAdmin.js:41-46 | a multi-line key stored on one line inside double quotes, newlines escaped, is restored exactly |
| FirebaseAdmin.SelectSource | services/firebaseAdmin.js:10-55 | the file source is chosen exactly when a file is configured; base64 exactly when no file but a blob is configured; the split variables exactly when neither is set and all three are non-empty, with the key normalised; the file source carries the configured path and the base64 source the configured blob; otherwise the missing-credentials error |
| FirebaseAdmin.FileTakesPrecedence | services/firebaseAdmin.js:20-29 | with a file configured, no other variable affects the choice |
| FirebaseAdmin.Base64TakesPrecedence | services/firebaseAdmin.js:32-36 | without a file, a base64 blob makes the split variables irrelevant |
| FirebaseAdmin.BuildCredential | services/firebaseAdmin.js:10-55 | no source means the missing-credentials error; whenever a source is selected, the outcome, success or failure, is exactly what loading it gives, so a configured file is loaded from its path and, without one, a configured blob is decoded |
| FirebaseAdmin.InitAdmin | services/firebaseAdmin.js:57-65 | existing apps are left alone; with none, an app exists afterwards exactly when the build succeeded, and a failed build leaves none |
| FirebaseAdmin.InitAdminIdempotent | services/firebaseAdmin.js:57-65 | running the initialisation a second time with the same environment changes nothing |
| FirebaseAdmin.InitAdminIgnoresEnv | services/firebaseAdmin.js:57 | once an app exists, neither the environment nor the loader is consulted |
| Auth.Handshake | server.js:37-48 | a connection is authenticated exactly when a truthy string token is present, the admin app is configured and the verifier accepts it, and then it carries the verified identity; a missing token is refused first, then a missing configuration, and any other refusal is "Invalid Firebase token" |
| Auth.HandshakeMissingTokenFirst | server.js:39-40 | a missing token is refused the same way whatever the configuration and verifier |
| Auth.BearerToken | middleware/firebaseAuth.js:7-8 | a token is extracted exactly when the header starts with the case-sensitive `Bearer ` prefix, and the header is that prefix followed by the token |
| Auth.BearerTokenRoundTrip | middleware/firebaseAuth.js:8 | `Bearer <t>` hands the verifier exactly `t` |
| Auth.FirebaseAuth | middleware/firebaseAuth.js:3-21 | OPTIONS passes with no identity; otherwise the request passes exactly when a non-empty bearer token is present, the app is configured and the verifier accepts, with the decoded identity attached; a missing token is 401, no configuration is 500, a rejection is 401 "Invalid token" with the verifier's reason as detail |
| Auth.PreflightPasses | middleware/firebaseAuth.js:5 | a preflight passes whatever its header, the configuration and the verifier |
| Auth.MissingTokenIgnoresVerifier | middleware/firebaseAuth.js:9 | without a usable token the answer is 401 whatever the configuration and verifier |
| Auth.UnconfiguredIgnoresVerifier | middleware/firebaseAuth.js:11-13 | with no admin app the answer is 500 whatever the verifier |
| ImageCodec.Parse | server.js:253-262 | whatever the pattern accepts is a well-formed media type and payload that reassemble into the input |
| ImageCodec.ParseFormat | server.js:253 | a string parses to a data URL exactly when that data URL is well formed and the string is its formatting |
| ImageCodec.CheckImage | server.js:253-276 | the format is checked first, then the size supplied by the caller, then the media type against the five-entry allow-list; an accepted image is its parse, with an allowed type |
| ImageCodec.CheckImageAccepts | server.js:265-276 | a well-formed image is accepted exactly when its type is allowed and no oversized size is supplied; without a supplied size any payload length passes |
| ImageCodec.ErrorMessage | server.js:256-274 | every rejection tells the sender a non-empty reason |
| ImageCodec.ErrorMessageDistinct | server.js:256-274 | the three rejections have three different messages |
| ImageCodec.Subtype | server.js:285 | the subtype never holds a slash, and a type without a slash gives `undefined` |
| ImageCodec.DefaultFileName | server.js:285 | the default name is `image.` followed by a slash-free extension, and `image.undefined` for a type without a slash |
| ImageCodec.DefaultFileNameOf | server.js:285 | the default file name of `image/<sub>` is `image.<sub>` |
| Mutations.FindOneAndUpdate | server.js:163-170 | a document comes back exactly when the record exists, belongs to the requester and is not deleted; then only that record changes, as the update says; otherwise nothing changes |
| Mutations.UpdateKeepsValid | server.js:163-170 | the conditional update with trimmed non-empty text, or a delete, keeps the store invariant |
| Mutations.DeletedIsFinal | server.js:208-215 | after a delete, a further edit or delete of the record matches nothing and changes nothing |
| Mutations.OthersCannotChange | server.js:366-373 | the update is a no-op for anyone but the author |
| Mutations.DisplayName | server.js:281 | the display name is never empty; it is the name when that is non-empty, otherwise the email when that is non-empty, otherwise `User` |
| Mutations.Caption | server.js:282 | the image caption exists unless the text is a truthy non-string; it is non-empty and trimmed; it is the trimmed text when that is not blank, and otherwise the camera placeholder |
| Mutations.StoredSize | server.js:286 | a supplied non-zero size always wins; the stored size differs from the decoded length only when such a size was supplied |
| Mutations.StoredSizeIgnoresPayload | server.js:286 | with a non-zero size supplied, the decoded payload has no influence on the stored size |
| Mutations.AcceptedSuppliedSizeWithinLimit | server.js:265-286 | an accepted image stores a supplied size within the 5 MiB limit |
| Mutations.Create | server.js:279-291 | the store changes exactly when it neither fails nor already holds the key; then the record is added under the new key and broadcast; otherwise only the sender is told |
| Mutations.SendText | server.js:329-350 | a non-string or blank text is dropped silently; otherwise the trimmed text is stored as a new, unedited, undeleted text record of the author in the default room, and broadcast |
| Mutations.SendImage | server.js:248-356 | a non-string or rejected image sends exactly one error event to the sender and changes nothing; an accepted image that is not stored (store failure or a throwing caption) is answered with "Failed to send message"; an accepted image is stored with the original data URL verbatim, the parsed type, the supplied or default file name and the supplied or decoded size |
| Mutations.Send | server.js:241-357 | with no user nothing happens; at most one event; the store changes exactly when one `message:new` is broadcast, by one valid record under a fresh key; records only evolve; deleted records are never mentioned; the invariant is kept |
| Mutations.SendDispatch | server.js:248-327 | for a signed-in user, a falsy image takes the text branch and a truthy one the image branch |
| Mutations.SendTextBroadcasts | server.js:329-350 | non-blank text with no image is stored and broadcast once to everyone, with the trimmed text, the author and the display name |
| Mutations.SendImageVerbatim | server.js:279-307 | a well-formed image of an allowed type is broadcast with the sender's data URL unchanged |
| Mutations.Key | server.js:364-367 | only a non-empty string id reaches the query, unchanged; anything else matches nothing |
| Mutations.SocketEdit | server.js:361-391 | an edit broadcasts exactly when there is a user, an id, non-blank string text, no store failure and the author's own undeleted record; then that record gets the trimmed text and the edit mark, and the broadcast carries it; otherwise nothing changes |
| Mutations.SocketDelete | server.js:394-419 | a delete broadcasts exactly when the author's own undeleted record matches; then the record is marked deleted at `now` and the broadcast carries only id, author and time; otherwise nothing changes |
| Mutations.NonAuthorEditIsSilent | server.js:364-376 | a non-author's edit changes nothing and broadcasts nothing |
| Mutations.SecondDeleteIsSilent | server.js:397-408 | a second delete of the same record changes nothing and emits nothing |
| MessageRoutes.EditMessage | server.js:153-200 | a refused gate answers for the route; text is checked before the store (400 for falsy or blank text, 500 for a non-string); success exactly for the author's own undeleted record, where the answer and the broadcast carry the same edited record; 500 "Failed to edit message" on a store failure; 404 when nothing matches; every failure leaves the store unchanged and broadcasts nothing |
| MessageRoutes.DeleteMessage | server.js:203-232 | success exactly for the author's own undeleted record, answered with `success` and the deletion time and broadcast without the body; 404 on no match; 500 on a store failure; failures change nothing |
| MessageRoutes.EditRoutesAgree | server.js:163-186 | the HTTP edit succeeds exactly when the socket edit broadcasts, and the two leave the same store and events |
| MessageRoutes.DeleteRoutesAgree | server.js:208-226 | the HTTP delete succeeds exactly when the socket delete broadcasts, and the two leave the same store and events |
| Queries.OldestFirst | server.js:113-116 | the query returns the `limit` oldest matching records (all of them when fewer), each once, in ascending creation order, none younger than a matching record left out |
| Queries.HistoryView | server.js:119-140 | a history entry shows the record under its key, with its author, display name, text, creation time and edit mark, as not deleted; each image field is the stored value, or null when absent or falsy; image data and image URL are equal and present exactly for an image message with data |
| Queries.History | server.js:111-150 | behind the gate, the 200 oldest undeleted records in ascending creation order, each through its history view; 500 on a store failure |
| Queries.RoomMessages | controllers/chatController.js:4-19 | an empty room is 400 before any query; a store failure is 500 with its message; otherwise the 100 oldest records of exactly that room in ascending order, deleted ones included |
| Profiles.Me | routes/auth.js:8-29 | behind the gate, the caller's profile is created or overwritten under their uid, online, last seen now, with missing claims as null, and returned; other uids are untouched; 500 on a store failure |
| Profiles.Logout | routes/auth.js:33-41 | behind the gate, an existing profile of the caller goes offline with its claims kept; no profile is ever created; other uids are untouched; `success` is answered |
| Profiles.MeThenLogout | routes/auth.js:12-36 | signing in then out leaves the caller's profile present, offline, last seen at logout, with the claims stored at sign-in |
| Engine.Step | server.js:241-419 | every write handler lets records only evolve, never mentions a deleted record and keeps the store invariant |
| Engine.RunEvolves | server.js:153-419 | over any run of handlers that keep the per-call guarantees of `Engine.Step`, no record disappears and each changes only as allowed: authorship, creation data and image fixed, edit mark kept, deleted records frozen |
| Engine.RunKeepsValid | server.js:241-419 | every run of such handlers from a valid store ends in a valid store |
| Engine.RunQuiet | server.js:241-419 | no event of a run of such handlers mentions a record already deleted when it started |
| Engine.DeletedStaysSilent | server.js:397-415 | with the server's own handlers, a deleted record comes out of any later run unchanged and unmentioned, and a valid store stays valid |
| Engine.SentImageReadsBack | server.js:279-290 | an accepted image is stored live, and its history entry carries the sender's data URL exactly |

## Left out

- Socket.IO and Express plumbing, the CORS middleware, `mongoose.connect`, `server.listen`
  and the root, health and debug endpoints (server.js, lines 50-107): transport and
  bootstrap with fixed answers.
- `verifyIdToken`, `admin.credential.cert`, file existence and reads, `JSON.parse`,
  `path.join`: foreign calls. The verifier is a parameter of type `string -> Verdict` and
  credential loading is a `load` parameter.
- Node's `Buffer` base64 decoder: the decoded length is an uninterpreted `decodedLength`
  parameter.
- Mongoose semantics: schema strict mode (models/Message.js declares none of the image or
  soft-delete fields), ObjectId cast errors, the `lowercase` setter on profile email, and
  automatic `createdAt`/`updatedAt` timestamps. The store keeps the fields server.js
  writes, plus the edit and soft-delete flags described in the next line. Ids are opaque strings, so a malformed id reads as "no match", not as a
  cast error.
- Mutations.SendText / Mutations.SendImage: a created record is taken to carry
  `isEdited: false` and `isDeleted: false` (with no edit or deletion time), although the
  create calls at server.js, lines 279-290 and 332-338, write neither flag and
  models/Message.js gives neither a default. In a document store the filter
  `{ isDeleted: false }` does not match a document without that field, so as written the
  history query (server.js, line 113) and the edit and delete filters (lines 164, 209, 367
  and 400) would match no created message; the model assumes the flags are present.
- `Date` and `toISOString`: times are abstract integers passed in as `now`.
- Console logging and the post-create check that only logs (server.js, lines 310-324).
- Interleaving of concurrent handlers and event order across connections: runs in
  `Engine` are sequential.
- Non-integer, `NaN` and non-number `imageSize` values, and JavaScript's coercion of them
  in `>`: `imageSize` is an optional integer. Likewise a truthy non-string
  `imageFileName` (a number, say), which `imageFileName || ...` would store as given:
  `imageFileName` is an optional string.
- Queries.OldestFirst: ties in `createdAt` come back in an arbitrary order, because the
  store specifies none.
- A `message:send` payload that is null or absent, whose destructuring throws inside the
  `try` and ends in the "Failed to send message" error event (server.js, lines 243 and
  353-356): `SendRequest` always has its four fields.
- A null or absent payload of `message:edit` or `message:delete`: both handlers unpack it
  in their parameter list (server.js, lines 361 and 394), outside the `try`, so the
  handler's promise is rejected unhandled. `SocketEdit` and `SocketDelete` take
  `messageId` and `text` directly.
- Mutations.Key: reads every non-string `messageId` as matching nothing. Mongoose's query
  casting turns an array into `$in` and passes `$` operators through, so such an id could
  match one of the requester's own undeleted records (server.js, lines 366-367 and
  399-400). The ownership results do not depend on this, because the `userId` filter comes
  from the server.
- Auth.FirebaseAuth: the error detail of a rejection is the verifier's reason string,
  standing for `err.message`; an exception raised elsewhere inside the middleware's `try`
  is not modelled.

Four behaviours of the code are worth noting:

- The size derived from the decoded payload is stored but never checked against the
  5 MiB limit. Only a caller-supplied, non-zero `imageSize` is checked.
- The room query filters on the room alone, so it also returns soft-deleted records and
  their text.
- GET `/api/chat/messages/:room` is mounted without the authentication middleware
  (routes/chat.js, line 7), so anyone can read a room, soft-deleted text included.
- The live channel has no rooms: every broadcast goes to every client, and every created
  message gets the schema's default room `general`.
