# Messaging back end: message archive and user directory

This project models the HTTP back end of a one-to-one messaging service in
Dafny:

- the message archive (`src/controllers/messageController.js` over the
  `Message` records of `src/models/Message.js`): creating a message, the
  paged history with one user (which marks the incoming messages as read),
  the conversation list, and editing, soft-deleting and marking a message as
  read;
- the user directory (`src/controllers/authController.js` over the `User`
  records of `src/models/User.js`): registration, login, logout and the
  current user's profile, with the schema's setters, validators, password
  hook and public profile;
- the authentication gate (`src/middleware/auth.js`) that turns the
  `Authorization` header into an authenticated request or one error
  response.

Each collection is a sequence of records, a record's id is its position, and
timestamps are natural numbers supplied by the caller. Every request is a
pure *step* function from the collection before it to the collection after it
together with the reply (status code and body, or status code and error
text). The classes `MessageController.Archive`,
`UserDirectory.Directory` and `AuthGate.Request` hold the state; their methods
update it in place with the controller's early returns, and each one's
postcondition ties the new state and the reply to the step function. The
lemmas state the properties of the steps.

Files and modules:

| file | module | models |
|---|---|---|
| `common.dfy` | `Common` | `Option`, replies and status codes, lookup of the first matching record, a stable descending sort standing for `sort({ createdAt: -1 })` |
| `message.dfy` | `MessageModel` | the Message record, schema defaults and validators, timestamps on save, `toJSON` |
| `queries.dfy` | `MessageQueries` | the read halves of `getMessagesWith` and `getConversations` |
| `controller.dfy` | `MessageController` | the message requests and the `Archive` class |
| `user.dfy` | `UserModel` | the User record, `trim`/`lowercase` setters, the e-mail validator, the password hook, `toPublicJSON` |
| `directory.dfy` | `UserDirectory` | the authentication requests and the `Directory` class |
| `gate.dfy` | `AuthGate` | `authMiddleware` and the `Request` class |

Choices in modelling:

- **Timestamps.** Both record kinds use `timestamps: true`. A new record gets
  `createdAt == updatedAt == now`. A save of an existing record moves
  `updatedAt` only if an assignment actually changed a value (Mongoose does
  not mark a path modified when it is set to its current value).
  `updateMany` moves `updatedAt` of each message it changes.
- **Validation at save.**
  - `updateMessage` does not check the new content's length itself. The
    schema's `maxlength` fails the save, so more than 5000 characters gives
    500 "Erreur serveur" and the store is unchanged.
  - The same holds for the e-mail pattern and the username `minlength` in
    `register` (500 "Erreur serveur lors de l'inscription").
  - A save of an existing user validates every path again, so `login` and
    `logout` also have their 500 branch.
  - Validation runs before the `pre('save')` hook, which hashes the
    password. So it is the plain password that is checked at registration
    and the stored hash that is checked on later saves.
- **Normalised lookups.** `User.findOne({ email })` and
  `User.findOne({ username })` compare the stored value with the query value
  after the path's setters: lower-case then trim for e-mail, trim for
  username. Mongoose casts query filters through the schema's setters.
- **Conversation list vs history.** `getConversations` returns aggregation
  results, which are plain objects, so `toJSON` is not applied to
  `lastMessage`. The history returns documents, whose JSON is `toJSON`.
  Deleting a message overwrites its stored content with the placeholder, so
  both views agree after a delete. `EditAfterDelete` shows that the sender
  may still edit a deleted message: the history goes on showing the
  placeholder, while the conversation list shows the new stored content.
- **Query parameters.** `page` and `limit` are `Option<nat>`. `None`
  stands for an absent or non-numeric value, and `None` or `0` falls back
  to 1 and 30 (`parseInt(...) || d`).
- **Foreign code as parameters.**
  - bcrypt is `hash: string -> string` and `matches: (string, string) -> bool`.
  - `generateToken` is `sign: UserId -> string`.
  - `jwt.verify` is `verify: string -> Verdict`. A `Verdict` is a decoded
    user id (possibly absent) or the name of the thrown error.

## Model

| member | source | states |
|---|---|---|
| Common.FindIndex | src/controllers/messageController.js:196 | `findById`/`findOne`: the index found is the first record matching the filter; none is found only if no record matches |
| Common.SortDesc | src/controllers/messageController.js:79 | `sort({ createdAt: -1 })`: the result is ordered by the key, largest first, and is a permutation of the input |
| Common.InsertSorted | src/controllers/messageController.js:79 | inserting one element into a descending sequence keeps it descending |
| Common.SortDescOfSorted | src/controllers/messageController.js:154-156 | sorting a sequence that is already in descending order returns it unchanged |
| MessageModel.Rank | src/models/Message.js:24-28 | the status enum is ordered sent, received, read: `sent` alone has rank 0, `read` alone rank 2, so `received` has rank 1 |
| MessageModel.ContentValid | src/models/Message.js:19-23 | the `content` path's validators: `required` (not empty) and `maxlength` 5000 |
| MessageModel.Build | src/models/Message.js:9-36 | a new message is stored exactly when sender, recipient and content are present and the content is 1..5000 characters; it carries the given fields, status `sent`, `edited` and `deleted` false, and both timestamps at the save |
| MessageModel.Saved | src/models/Message.js:38-40 | a save copies the assigned fields; `updatedAt` moves to the save's time when something changed, and a save that changes nothing leaves the record as it was |
| MessageModel.ToJson | src/models/Message.js:53-59 | the content is the placeholder exactly when the message is deleted, otherwise the stored content; every other field is the stored one |
| MessageModel.ToJsonIdempotent | src/models/Message.js:53-59 | rendering is idempotent, and a rendered deleted message reads as the placeholder |
| MessageModel.PlaceholderIsValidContent | src/controllers/messageController.js:252-254 | the placeholder passes the content validators, so the save in a soft delete cannot fail |
| MessageQueries.PairMessages | src/controllers/messageController.js:71-76 | the `$or` filter: a message is kept exactly when it goes from one of the two users to the other |
| MessageQueries.QueryParam | src/controllers/messageController.js:66-67 | an absent, non-numeric or zero parameter falls back to the default, and any other value is kept |
| MessageQueries.CeilDiv | src/controllers/messageController.js:106 | `Math.ceil(total / limit)`: the fewest pages of `limit` messages that hold `total`, and 0 exactly when there are none |
| MessageQueries.PageOf | src/controllers/messageController.js:68 | with `skip = (page - 1) * limit`, the page whose window `skip .. skip + limit` holds position k exists and is at least 1 |
| MessageQueries.NewestFirst | src/controllers/messageController.js:71-79 | the pair's messages, newest first, with exactly the same members |
| MessageQueries.Window | src/controllers/messageController.js:80-81 | `skip(skip).limit(limit)` then `reverse()`: its length is what remains after `skip`, capped at `limit`, and position i holds the rendering of newest-first element `skip + len - 1 - i` |
| MessageQueries.History | src/controllers/messageController.js:63-108 | the reply's pagination: the requested page and limit, `total` equal to the pair's message count, and `pages` equal to ceil(total / limit) |
| MessageQueries.HistoryOnlyPair | src/controllers/messageController.js:71-81 | every returned message is the rendering of a stored message between the two users |
| MessageQueries.HistoryOldestFirst | src/controllers/messageController.js:101 | the returned page is ordered oldest first |
| MessageQueries.HistoryHas | src/controllers/messageController.js:68-81 | on any page whose window holds position k of the newest-first list, the reply contains the rendering of that message |
| MessageQueries.HistoryPageOf | src/controllers/messageController.js:68-81 | with `skip = (page - 1) * limit`, the k-th newest message of the pair is on page k / limit + 1, so paging hands out every message |
| MessageQueries.Involving | src/controllers/messageController.js:127-131 | the `$match` stage: exactly the messages the user sent or received |
| MessageQueries.CountUnread | src/controllers/messageController.js:141-151 | the `$sum` of the unread flag: the number of messages from the peer to the user that are not read, at most one per message |
| MessageQueries.CountUnreadWithoutPeer | src/controllers/messageController.js:136-151 | removing another peer's messages does not change a peer's unread count |
| MessageQueries.CountUnreadSort | src/controllers/messageController.js:133-151 | sorting does not change a peer's unread count |
| MessageQueries.CountUnreadInvolving | src/controllers/messageController.js:127-151 | the `$match` stage does not change a peer's unread count |
| MessageQueries.Group | src/controllers/messageController.js:136-152 | the `$group` stage: at most one entry per message, and no entry exactly when there are no messages |
| MessageQueries.GroupBacked | src/controllers/messageController.js:136-140 | each group's `lastMessage` is one of the grouped messages and has the group's peer |
| MessageQueries.GroupDistinct | src/controllers/messageController.js:136-139 | no two groups share a peer |
| MessageQueries.GroupCovers | src/controllers/messageController.js:136-139 | every grouped message's peer has a group |
| MessageQueries.GroupUnread | src/controllers/messageController.js:141-151 | each group counts exactly the unread messages of its peer |
| MessageQueries.GroupNewest | src/controllers/messageController.js:133-140 | over a newest-first input, `$first` is the newest message of its peer |
| MessageQueries.GroupSorted | src/controllers/messageController.js:133-156 | over a newest-first input, the groups come out newest first |
| MessageQueries.Conversations | src/controllers/messageController.js:126-157 | the conversation list is ordered by its last message's `createdAt`, newest first |
| MessageQueries.ConversationsAreGroups | src/controllers/messageController.js:154-156 | the final sort finds the groups already in order, so the list is the grouping of the newest-first messages |
| MessageQueries.PeersDistinct | src/controllers/messageController.js:136-139 | no two entries share a peer |
| MessageQueries.PeersBacked | src/controllers/messageController.js:136-139 | every entry's peer is the other participant of one of the user's messages |
| MessageQueries.PeersCovered | src/controllers/messageController.js:136-139 | every message of the user has its other participant listed |
| MessageQueries.OnePerPeer | src/controllers/messageController.js:126-152 | exactly one entry per distinct other participant |
| MessageQueries.LastMessageIsNewest | src/controllers/messageController.js:133-140 | each entry's `lastMessage` is a stored message between the user and that peer, with the greatest `createdAt` of all of them |
| MessageQueries.UnreadCountIsExact | src/controllers/messageController.js:141-151 | each entry's `unreadCount` is the number of stored messages from that peer to the user whose status is not `read` |
| MessageController.FindMessageByPosition | src/controllers/messageController.js:196 | in a valid store the message with a given id is found at that position, and an id beyond the store is not found |
| MessageController.CreateStep | src/controllers/messageController.js:14-50 | checks in order: missing recipient or empty content gives 400, more than 5000 characters gives 400 (5000 is accepted), unknown recipient gives 404, each leaving the store as it was; success appends exactly one message from the requester with the given recipient and verbatim content, status `sent`, not edited, not deleted, returned with 201; it keeps the store valid and loses nothing |
| MessageController.MarkIncomingRead | src/controllers/messageController.js:91-98 | every message from the other user to the requester is read afterwards, and those that were not read get `updatedAt` at the request's time; messages in the other direction, of other pairs, or already read are untouched; only status and `updatedAt` ever change |
| MessageController.HistoryStep | src/controllers/messageController.js:63-108 | the reply is 200 with the page computed from the store as it was before the request (statuses before the update); the store afterwards is the bulk update; it keeps the store valid and regresses no status |
| MessageController.HistoryRepeatChangesNothing | src/controllers/messageController.js:91-98 | a second history request with the same user, at any later time and for any page, leaves the store exactly as the first one left it, `updatedAt` included, because the bulk update only matches unread messages |
| MessageController.UpdateStep | src/controllers/messageController.js:190-226 | checks in order: empty content gives 400, unknown id gives 404, a requester other than the sender gives 403, an over-long content fails the save with 500 "Erreur serveur", each leaving the store as it was; success changes only that message's content (to the new one) and `edited` (to true), moves `updatedAt` to the save's time unless the message already had that content and was already edited, and returns its rendering |
| MessageController.DeleteStep | src/controllers/messageController.js:237-264 | unknown id gives 404 and a requester other than the sender gives 403, both leaving the store as it was; success sets `deleted` and replaces the content by the placeholder, changing nothing else; `updatedAt` moves to the save's time unless the message was already deleted with the placeholder |
| MessageController.MarkAsReadStep | src/controllers/messageController.js:275-302 | unknown id gives 404 and a requester other than the recipient (the sender included) gives 403, both with the status unchanged; success sets status `read` and changes nothing else, with `updatedAt` at the save's time, and nothing at all on an already read message |
| MessageController.MarkAsReadIdempotent | src/controllers/messageController.js:275-296 | marking as read a second time, at any later time, gives the same reply and the same store |
| MessageController.EditAfterDelete | src/controllers/messageController.js:196-219 | after a soft delete the sender can still edit the message: the new content is stored and the message stays deleted, so the reply shows the placeholder |
| MessageController.Archive.CreateMessage | src/controllers/messageController.js:9-57 | the store afterwards and the reply are those of `CreateStep`, and the store stays valid |
| MessageController.Archive.GetMessagesWith | src/controllers/messageController.js:63-115 | the store afterwards and the reply are those of `HistoryStep`, and the store stays valid |
| MessageController.Archive.GetConversations | src/controllers/messageController.js:121-172 | changes nothing; the result is sorted newest first, has one entry per distinct peer, covers every message of the user, and gives each peer its newest message and its exact unread count |
| MessageController.Archive.UpdateMessage | src/controllers/messageController.js:185-227 | the store afterwards and the reply are those of `UpdateStep`, and the store stays valid |
| MessageController.Archive.DeleteMessage | src/controllers/messageController.js:233-265 | the store afterwards and the reply are those of `DeleteStep`, and the store stays valid |
| MessageController.Archive.MarkAsRead | src/controllers/messageController.js:271-303 | the store afterwards and the reply are those of `MarkAsReadStep`, and the store stays valid |
| UserModel.TrimStart | src/models/User.js:15 | the leading part of `trim`: what is removed is all whitespace, and what remains is a suffix that does not start with whitespace |
| UserModel.TrimEnd | src/models/User.js:15 | the trailing part of `trim`: what is removed is all whitespace, and what remains is a prefix that does not end with whitespace |
| UserModel.Trim | src/models/User.js:27 | the result is no longer than the input and neither starts nor ends with whitespace |
| UserModel.TrimStripsPadding | src/models/User.js:27 | a string that neither starts nor ends with whitespace, padded with whitespace on both sides, trims back to itself |
| UserModel.ToLower | src/models/User.js:14 | the `lowercase` setter keeps the length and lower-cases each character |
| UserModel.NormalizeEmail | src/models/User.js:14-15 | the stored form of an e-mail address is no longer than the input, has no surrounding whitespace and no ASCII upper-case letter (A–Z) |
| UserModel.NormalizeEmailIdempotent | src/models/User.js:14-15 | normalising the stored form again gives it back |
| UserModel.ValidEmail | src/models/User.js:16-21 | the e-mail validator as conditions: no whitespace, exactly one `@`, something before it, and a `.` strictly inside the part after it |
| UserModel.ValidEmailHasPattern | src/models/User.js:16-19 | a string with no whitespace, exactly one `@`, something before it and a `.` inside the part after it matches the e-mail pattern |
| UserModel.PatternIsValidEmail | src/models/User.js:16-19 | a string matching the e-mail pattern satisfies those conditions |
| UserModel.EmailValidatorMatchesPattern | src/models/User.js:16-19 | the e-mail validator accepts a string exactly when the regular expression matches it |
| UserModel.NewUser | src/models/User.js:8-56 | a new user has the lower-cased and trimmed e-mail, the trimmed username, the given password and avatar, status `offline`, no last connection, no socket id, and both timestamps at the save |
| UserModel.Validates | src/models/User.js:10-34 | the validators a save runs: the e-mail pattern, `minlength` 3 for the username and 6 for the password |
| UserModel.NewUserValidates | src/models/User.js:10-34 | a new record passes the validators exactly when its e-mail is accepted in stored form, its trimmed username has at least 3 characters and its password at least 6 |
| UserModel.PreSave | src/models/User.js:62-74 | the password is replaced by its hash exactly when the password was modified; no other field changes |
| UserModel.SavedUser | src/models/User.js:53-74 | a save of assignments to a stored user: the password is the hash of the assigned one exactly when its value changed, every other field is the assigned one, `updatedAt` moves to the save's time when something changed, and a save that changes nothing leaves the record as it was |
| UserModel.ToPublicJson | src/models/User.js:89-99 | the public profile carries exactly id, e-mail, username, avatar, status, last connection and creation time of the user |
| UserModel.PublicProfileHidesSecrets | src/models/User.js:89-99 | the public profile does not depend on the password, the socket id or `updatedAt` |
| UserDirectory.AppendKeepsValid | src/models/User.js:13-26 | appending a user with a fresh id and a free e-mail and username keeps the unique indexes |
| UserDirectory.ReplaceKeepsValid | src/models/User.js:13-26 | replacing a user by one with the same id, e-mail and username keeps the unique indexes |
| UserDirectory.RegisterStep | src/controllers/authController.js:8-65 | checks in order: a missing email, username or password gives 400, a password under 6 characters gives 400, a taken e-mail gives 409 before a taken username gives 409, each adding no user; once these pass, a new record that fails the validators gives 500 "Erreur serveur lors de l'inscription" and adds no user, and one that passes them is registered, so registration succeeds exactly when the checks pass and the record validates; a registered user's e-mail is valid and its username has at least 3 characters; success adds exactly one user, with the normalised e-mail, the trimmed username, the hashed password, a null avatar when none is given, status `offline`, and replies 201 with a token for its id and its public profile; the unique indexes are kept |
| UserDirectory.Resave | src/models/User.js:62-65 | re-saving a user succeeds exactly when the record validates; the password is re-hashed only if its value changed, and the timestamps follow the save rule |
| UserDirectory.LoginStep | src/controllers/authController.js:71-117 | missing fields give 400; an unknown e-mail and a wrong password give the same 401 "Identifiants invalides", changing nothing; a known e-mail with a matching password logs in when the stored record validates and gives 500 "Erreur serveur lors de la connexion" otherwise; success sets status `online` and `lastConnection` to the login time, changes no other field of that user and no other user, the saved record being the user save of those assignments (so `updatedAt` moves to the login time when a value changed), and replies 200 with a token and the updated public profile |
| UserDirectory.LogoutStep | src/controllers/authController.js:123-148 | an unknown user gives 404 and changes nothing; a known user is logged out when the stored record validates and gets 500 "Erreur serveur lors de la déconnexion" otherwise; success sets status `offline`, clears the socket id and sets `lastConnection`, changing no other field; the saved record is the user save of those assignments, so `updatedAt` moves to the logout time when a value changed |
| UserDirectory.Me | src/controllers/authController.js:154-173 | 404 exactly when the user is unknown, otherwise 200 with that user's public profile |
| UserDirectory.RegisterThenLogin | src/controllers/authController.js:42-101 | a user who has just registered can log in with the same e-mail and password, and ends up online |
| UserDirectory.RegisterRefusesTakenEmail | src/controllers/authController.js:26-31 | with the fields present and the password long enough, an e-mail whose stored form is taken gives 409 "Email déjà utilisé" and adds nobody |
| UserDirectory.RegisterRefusesTakenUsername | src/controllers/authController.js:34-39 | with a free e-mail, a username whose trimmed form is taken gives 409 "Nom d'utilisateur déjà pris" and adds nobody |
| UserDirectory.EmailTakenAfterRegister | src/controllers/authController.js:26-31 | once an e-mail is registered, registering any spelling of it with the same normalised form gives 409 "Email déjà utilisé" and adds nobody |
| UserDirectory.UsernamePaddingCollides | src/controllers/authController.js:34-39 | a username padded with whitespace collides with the same name already registered |
| UserDirectory.Directory.Register | src/controllers/authController.js:8-65 | the directory afterwards and the reply are those of `RegisterStep`, and the unique indexes stay intact |
| UserDirectory.Directory.Login | src/controllers/authController.js:71-117 | the directory afterwards and the reply are those of `LoginStep`, and the unique indexes stay intact |
| UserDirectory.Directory.Logout | src/controllers/authController.js:123-148 | the directory afterwards and the reply are those of `LogoutStep`, and the unique indexes stay intact |
| AuthGate.WithoutPassword | src/middleware/auth.js:25 | the attached user carries every field of the stored record except the password |
| AuthGate.PrincipalHidesPassword | src/middleware/auth.js:25 | the attached user does not depend on the stored password |
| AuthGate.ExtractToken | src/middleware/auth.js:13-19 | a token is extracted exactly when the header is present and starts with `"Bearer "`, and the header is then the prefix followed by the token |
| AuthGate.ExtractBearer | src/middleware/auth.js:19 | extracting from `"Bearer " + t` gives `t` |
| AuthGate.Classify | src/middleware/auth.js:38-51 | `JsonWebTokenError` gives 401 "Token invalide", `TokenExpiredError` gives 401 "Token expiré", any other error 500; 401 exactly for the two token errors |
| AuthGate.Gate | src/middleware/auth.js:8-53 | a missing or malformed header gives 401 "Token manquant ou format invalide"; a verification error is classified; a decoded id without a user gives 401 "Utilisateur non trouvé"; the request is admitted exactly when the token decodes to the id of a stored user, which is then attached without its password |
| AuthGate.BearerOfKnownUserAdmitted | src/middleware/auth.js:19-37 | a bearer header whose token decodes to the id of a stored user is admitted with that user |
| AuthGate.Request.Authenticate | src/middleware/auth.js:8-53 | on admission `req.user` and `req.userId` are set and `next` is called once with no response; otherwise exactly one response is sent and nothing is attached; in every case exactly one of the two happens |

## Left out

- Real-time socket handlers (presence registry, live delivery, typing relay): `src/socket/handlers` is not part of this model.
- `populate` of sender, recipient and conversation peers is treated as an identity join; the populated user objects are not modelled.
- ObjectId casting: an id that is not a valid ObjectId makes the database throw, which gives 500 "Erreur serveur"; ids here are naturals and always well formed.
- Errors of the database itself (connection loss, the unique index rejecting a racing insert) and the 500 replies they produce are not modelled, except for the validation failures described above.
- Concurrency: requests are sequential steps, so two registrations racing past the uniqueness checks are out of scope.
- bcrypt salting, hashing and comparison and JWT signing and verification are opaque function parameters; token expiry is whatever `verify` reports.
- A failure of `User.findById` inside the gate also lands in its `catch`; the model only classifies errors reported by `verify`.
- Ties in `createdAt`: `sort({ createdAt: -1 })` and `$first` leave the order of messages with equal `createdAt` to the database. `Common.SortDesc` is a stable insertion sort, so such ties keep store order. Which of several tied messages sits at position k of `MessageQueries.NewestFirst` (and so for `MessageQueries.HistoryHas` and `MessageQueries.HistoryPageOf`), and which one becomes a conversation's `lastMessage`, is this model's choice, not the database's. Likewise neither `$group` nor the final `$sort` fixes the order of two conversations whose last messages have equal `createdAt`; `MessageQueries.Group` lists them in order of first appearance, and `MessageQueries.ConversationsAreGroups` holds for that grouping only.
- UserModel.ToLower: lower-cases ASCII letters only, because full Unicode case mapping is not modelled.
- Lengths are counted in Dafny characters, whereas JavaScript counts UTF-16 code units; the two differ only outside the Basic Multilingual Plane.
- MessageQueries.QueryParam: negative page or limit values are not modelled (they would give a negative `skip`).
- The response bodies' `message` fields ("Message créé", "Connexion réussie", ...) are not modelled; replies carry the status, the `error` text or the data.
- The `socketId` field is only ever cleared here (by `logout`); what sets it lives in the socket handlers.
- Wall-clock time: `new Date()` and the automatic timestamps are natural numbers supplied by the caller.
