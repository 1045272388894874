# A real-time chat service, modelled in Dafny

The system is a one-to-one chat application. An Express/Mongo backend keeps users and messages. A
Redis cache holds user lists and conversation threads. A socket.io server keeps a presence
registry (user id to socket id) and routes typing, new-message, deleted and seen events. A React
client keeps its state in a chat store whose reducers react to those events.

This project models the core of that system:

- the presence registry and the socket event handlers (`Socket`, class `SocketServer`);
- the message schema and the stored collection's invariant: unique ids, `seenAt` set when `seen`
  is, `deletedAt` set when `isDeleted` is (`MessageModel`);
- the message controller (`MessageController`, class `MessageController`):
  - the user list and the conversation thread, each behind a write-invalidate cache;
  - the bulk "seen" update and its notice;
  - delete-for-everyone with its one-hour window;
  - sending a message;
- the user schema and the plain-object projections of a user document (`UserModel`);
- the account rules (`AuthController`, class `AuthController`):
  - the failed-attempt counter and the lock after five failures;
  - login, signup and the profile-picture update;
  - `sanitizeUserData`;
- the guard chain of the authentication middleware (`AuthMiddleware`);
- the standalone signup validator (`SignupSample`) and the e-mail pattern both validators use
  (`EmailFormat`);
- the client chat-store reducers and the async actions' state sequences (`ChatStore`);
- the relative-time bucketing of the client helpers and the backend helper (`ClientMessageTime`,
  `ServerMessageTime`).

`Common` holds ids, `Option` and `Result`. `Strings` holds JavaScript's default string order and
`split`/`join`. `Events` holds the socket.io payloads, emitted as data appended to an outbox.

Modelling conventions:

- A JavaScript value that is absent, `undefined` or the empty string is falsy. It appears as `""`
  or `None`.
- An invalid `Date`, whose arithmetic gives `NaN`, is a `None` timestamp.
- The current time, `new Date()` and the calendar year are parameters.
- External services are function parameters:
  - bcrypt's `compare` and `hash`;
  - the image host's `upload`, whose `None` is a thrown upload;
  - `jwt.verify`, a `VerifyResult`.
- Each handler is modelled as one atomic step.
- Mongo collections are sequences in natural order (`findOne`/`findById` return the first match).
- The Redis cache is a map from key to entry.
- A response is a status and a body.

The model follows the code, also where the code does less than its own comments describe:

- An already deleted message can be deleted again, and `deletedAt` is overwritten: the guards of
  `deleteMessageForEveryone` (backend/src/controllers/message.controller.js:170-192) never test
  `isDeleted` (`CheckDelete`).
- The comment at backend/src/middlewares/auth.middleware.js:70 announces a 404 for a missing
  user, but line 64 reads `user.accountLocked` before line 71 tests `user` for null. A token for
  an unknown user therefore ends in the catch block's 500, and the 404 reply is unreachable
  (`NeverNotFound`, `MissingUserIsServerError`).
- The thread fetch's seen notice (backend/src/controllers/message.controller.js:132-135) carries
  `receiverId` and `seenAt` but no `seenMessages` list, which is all the client's handler reads
  (frontend/src/store/UseChatStore.js:197-207), so that notice changes nothing on the client
  (`ChatStore.OnMessageSeen`).
- The socket's mark-seen loop stamps each message with its own `new Date()`
  (backend/src/config/socket.js:50). The model takes a clock indexed by loop turn (`clock(k)`),
  whereas the bulk update of the thread fetch uses one time for all (`SocketMarkAgrees`).
- The self-send guard of `sendMessage` compares a string with an ObjectId by `===` and never
  fires; see "## Findings".

## Model

| member | source | states |
|---|---|---|
| Socket.UnseenIndices | backend/src/config/socket.js:41-45 | every position returned holds an unseen message from the sender to the receiver |
| Socket.UnseenIndicesIncreasing | backend/src/config/socket.js:41-45 | the query returns the unseen messages in collection order, each once |
| Socket.UnseenIndicesComplete | backend/src/config/socket.js:41-45 | no unseen message from the sender to the receiver is missed |
| Socket.StampSeen | backend/src/config/socket.js:48-51 | marking keeps the collection's length |
| Socket.SeenList | backend/src/config/socket.js:47-53 | after n turns the list holds n entries, the k-th naming the k-th marked message with the stamp `clock(k)` |
| Socket.StampSeenKeeps | backend/src/config/socket.js:49-51 | a mark changes only `seen` and `seenAt` |
| Socket.StampSeenAt | backend/src/config/socket.js:48-53 | the k-th listed message is seen with stamp `clock(k)`, every unlisted message is unchanged |
| Socket.StampAll | backend/src/config/socket.js:47-53 | the loop returns exactly the marked collection and the seen list of all turns |
| Socket.MarkSeen | backend/src/config/socket.js:38-53 | the handler's collection keeps its length |
| Socket.MarkSeenUpdates | backend/src/config/socket.js:41-53 | exactly the unseen messages from the sender to the viewer change, each only to seen with a stamp |
| Socket.MarkSeenAllSeen | backend/src/config/socket.js:41-53 | afterwards every message from the sender to the viewer is seen |
| Socket.MarkSeenKeepsValid | backend/src/config/socket.js:48-51 | marking keeps ids unique and every stamp with its flag |
| Socket.SeenReportIsMarked | backend/src/config/socket.js:52 | every reported entry names a message that was unseen and now carries the reported stamp |
| Socket.SeenReportComplete | backend/src/config/socket.js:47-53 | every message that was unseen is reported |
| Socket.SeenReportNonEmpty | backend/src/config/socket.js:55 | the seen notice goes out exactly when something was unseen |
| Socket.SocketServer.constructor | backend/src/config/socket.js:22 | nobody is online and nothing has been emitted |
| Socket.SocketServer.GetReceiverSocketId | backend/src/config/socket.js:17-19 | a socket is returned exactly for a bound user, and it is the bound one |
| Socket.SocketServer.OnConnection | backend/src/config/socket.js:25-33 | a connection with a user id binds it, replacing an earlier socket; an anonymous one binds nothing; every other binding stays; the online list is broadcast |
| Socket.SocketServer.OnDisconnect | backend/src/config/socket.js:85-89 | the user's binding is removed whatever socket it holds, and the new online list is broadcast |
| Socket.SocketServer.OnMarkMessagesSeen | backend/src/config/socket.js:38-63 | the collection becomes `MarkSeen`, the notice is the seen report, and it goes to the sender only when the report is non-empty and the sender is online |
| Socket.SocketServer.OnTyping | backend/src/config/socket.js:70-75 | `typing` goes to the receiver's socket if bound; nothing else changes |
| Socket.SocketServer.OnStopTyping | backend/src/config/socket.js:77-82 | `stop-typing` goes to the receiver's socket if bound; nothing else changes |
| Events.EmitIfBound | backend/src/config/socket.js:71-74 | one event to the bound socket, none for an offline user |
| MessageModel.NewMessage | backend/src/models/message.model.js:4-43 | creation fails exactly when a party is missing, and names the missing paths; a created message is unseen, not deleted, with the given fields and no stamps |
| MessageModel.FindById | backend/src/models/message.model.js:46 | `findById` finds the message with that id, or reports that none has it |
| MessageController.ConversationKeySymmetric | backend/src/controllers/message.controller.js:79-81 | both participants compute the same cache key |
| MessageController.ConversationKeyInjective | backend/src/controllers/message.controller.js:79-81 | for ids without ':', equal keys mean the same unordered pair |
| MessageController.UsersKeyIsNotConversationKey | backend/src/controllers/message.controller.js:21 | a user-list key is never a thread key |
| MessageController.Others | backend/src/controllers/message.controller.js:33 | the query returns exactly the users whose id differs from the requester's |
| MessageController.OthersView | backend/src/controllers/message.controller.js:33-35 | one document per other user, in order, each the `PublicView` of that user |
| MessageController.OthersViewEmpty | backend/src/controllers/message.controller.js:39-41 | the list is empty exactly when nobody but the requester is registered |
| MessageController.Conversation | backend/src/controllers/message.controller.js:94-101 | exactly the messages between the two users, in either direction |
| MessageController.ConversationSymmetric | backend/src/controllers/message.controller.js:98-101 | swapping the participants selects the same messages |
| MessageController.InsertByCreatedAt | backend/src/controllers/message.controller.js:102 | insertion adds exactly the one message |
| MessageController.InsertKeepsSorted | backend/src/controllers/message.controller.js:102 | insertion keeps the order by `createdAt` |
| MessageController.SortByCreatedAt | backend/src/controllers/message.controller.js:102 | the result is a permutation of the input, ordered by `createdAt` ascending |
| MessageController.ThreadContents | backend/src/controllers/message.controller.js:94-102 | the thread holds every message between the pair and no other, is oldest first, and is the same for both participants |
| MessageController.CountUnseen | backend/src/controllers/message.controller.js:110-115 | `modifiedCount` is positive exactly when an unseen message from the partner to the viewer exists |
| MessageController.MarkThreadSeen | backend/src/controllers/message.controller.js:110-122 | the update keeps the collection's length |
| MessageController.MarkThreadSeenEffect | backend/src/controllers/message.controller.js:110-122 | each matched message becomes seen with the one shared stamp and nothing else about it changes; afterwards nothing from the partner to the viewer is unseen, the other messages are unchanged and the store stays well formed |
| MessageController.MarkThreadSeenChanges | backend/src/controllers/message.controller.js:110-126 | the collection changes exactly when the update matched something |
| MessageController.MarkThreadSeenIdempotent | backend/src/controllers/message.controller.js:110-122 | a second fetch marks nothing more |
| MessageController.SocketMarkAgrees | backend/src/controllers/message.controller.js:110-122 | with one time for all, the socket handler and the thread fetch mark the same messages the same way |
| MessageController.CheckDelete | backend/src/controllers/message.controller.js:170-192 | an unknown id is 400 "Message not found" and another user's message 403; the requester's message past the one-hour window is 400 "Messages older than 1 hour cannot be deleted for everyone"; otherwise the requester's message is accepted, each case if and only if |
| MessageController.DeleteWindowBoundary | backend/src/controllers/message.controller.js:185-188 | exactly one hour old may be deleted; one millisecond more may not |
| MessageController.MarkDeleted | backend/src/controllers/message.controller.js:195-197 | the update keeps the collection's length |
| MessageController.MarkDeletedEffect | backend/src/controllers/message.controller.js:195-200 | only the target changes, and only in `isDeleted` and `deletedAt` (set to true and `now`), so its text, image, parties and seen state are kept; the store stays well formed |
| MessageController.MessageController.constructor | backend/src/controllers/message.controller.js:1-6 | the cache starts empty over the given socket server |
| MessageController.MessageController.GetAllUsers | backend/src/controllers/message.controller.js:17-52 | a cached list is returned unchanged; otherwise no other user is 404 with nothing cached, and a non-empty list is returned and cached for 300 s |
| MessageController.MessageController.GetConversationMessages | backend/src/controllers/message.controller.js:64-144 | a missing partner is 400; a hit returns the cached thread; a miss returns the sorted thread read before the update and marks it seen; the cache is dropped and the seen notice emitted exactly when something was marked |
| MessageController.MessageController.DeleteMessageForEveryone | backend/src/controllers/message.controller.js:160-241 | a rejected request changes nothing; an accepted one marks the message, drops its thread's cache entry and notifies the online receiver, then the sender |
| MessageController.MessageController.StoreAndNotify | backend/src/controllers/message.controller.js:272-329 | a failed upload is 500 with no effect; otherwise the message is stored unseen and its thread's cache entry dropped; an unreadable sender record then ends in 500 with nothing emitted, else the payload with the sender's name and picture goes to the online sender, then the online receiver, and 201 is returned |
| MessageController.MessageController.SendMessage | backend/src/controllers/message.controller.js:256-334 | with the guard as intended: sending to oneself is 400 with no effect; any other request behaves as `StoreAndNotify` |
| MessageController.MessageController.SendMessageAsWritten | backend/src/controllers/message.controller.js:263-270 | with the guard as written: a request addressed to the sender is stored, and an online sender receives the payload twice, with 201 |
| MessageController.StrictEquals | backend/src/controllers/message.controller.js:266 | `===` holds exactly between two strings with equal text |
| MessageController.SelfSendGuardNeverFires | backend/src/controllers/message.controller.js:263-266 | the route string never strictly equals the requester's ObjectId, even when it names the requester |
| UserModel.ToDocument | backend/src/models/user.model.js:4-37 | the plain object has every schema field, and `lastLoginAt` only when set |
| UserModel.Exclude | backend/src/controllers/auth.controller.js:325-333 | exactly the named fields are removed, and every other keeps its value |
| UserModel.FindByEmail | backend/src/controllers/auth.controller.js:188 | `findOne({ email })` finds a user with that e-mail, or reports that none has it |
| UserModel.FindUserById | backend/src/middlewares/auth.middleware.js:59-61 | `findById` finds the user with that id, or reports that none has it |
| UserModel.NewUser | backend/src/models/user.model.js:4-37 | creation fails for a missing required field, a password under 6 characters or a taken e-mail; otherwise it gives the defaults: empty picture, no failures, unlocked |
| UserModel.NewUserKeepsValid | backend/src/models/user.model.js:10-14 | a created user keeps e-mails and ids unique |
| AuthController.FailedAttempt | backend/src/controllers/auth.controller.js:303-312 | the counter grows by one, the lock is set once it reaches five, nothing else changes |
| AuthController.FailuresCount | backend/src/controllers/auth.controller.js:303-312 | after k failures the counter grew by k, the lock is never cleared and is set from five on |
| AuthController.WrongPasswordReply | backend/src/controllers/auth.controller.js:206-219 | 401 with the matching warning at counts 3 and 4, 400 "Invalid credentials" otherwise |
| AuthController.LockoutSequence | backend/src/controllers/auth.controller.js:203-219 | five wrong passwords from a fresh account get 400, 400, two warnings and 400, and only the fifth locks |
| AuthController.Sanitize | backend/src/controllers/auth.controller.js:325-333 | the copy lacks `password` and `accountLocked` and keeps every other field |
| AuthController.ProfileView | backend/src/controllers/auth.controller.js:66-73 | the projection drops the password, the counter, the lock and `__v` and keeps every other field |
| AuthController.SanitizeKeepsPublicFields | backend/src/controllers/auth.controller.js:325-333 | a sanitised user still shows its id, e-mail, name, picture and counter |
| AuthController.SignupInputError | backend/src/controllers/auth.controller.js:103-120 | the input passes exactly when the name is present, the e-mail matches the pattern and the password has 6 characters; a missing field gives "All fields are required" |
| AuthController.SignupAgreesWithSample | backend/sample.js:1-26 | the controller's guards accept what the standalone validator accepts, with the same messages |
| AuthController.TooLargeIff | backend/src/controllers/auth.controller.js:49-52 | the real-valued size estimate is the integer test `3 * length > 4 * 5242880` |
| AuthController.TooLargeBoundary | backend/src/controllers/auth.controller.js:49-52 | 6,990,506 characters are accepted and 6,990,507 rejected |
| AuthController.AuthController.constructor | backend/src/controllers/auth.controller.js:1 | the controller starts over a well-formed user collection |
| AuthController.AuthController.HandleFailedLoginAttempt | backend/src/controllers/auth.controller.js:303-312 | only the one user changes, by `FailedAttempt` |
| AuthController.AuthController.Login | backend/src/controllers/auth.controller.js:177-253 | missing fields, an unknown e-mail and a locked account are rejected with no change; a wrong password counts a failure and gets the reply for the new count; a right one resets the counter, stamps `lastLoginAt` and returns the sanitised user |
| AuthController.AuthController.Signup | backend/src/controllers/auth.controller.js:99-159 | bad input and a taken e-mail are 400 with no change; otherwise the user is stored with the hashed password and returned sanitised with 201 |
| AuthController.AuthController.UpdateProfile | backend/src/controllers/auth.controller.js:36-83 | a missing or oversized picture is 400 and a failed upload 500, each with no change; otherwise only the user's picture becomes the uploaded URL, returned in the projected view |
| AuthMiddleware.ExtractToken | backend/src/middlewares/auth.middleware.js:36-37 | a non-empty cookie wins; the token found is never empty; with neither source there is none |
| AuthMiddleware.BearerHeader | backend/src/middlewares/auth.middleware.js:36-37 | a `Bearer <token>` header yields the token |
| AuthMiddleware.HeaderWithoutSpace | backend/src/middlewares/auth.middleware.js:36-37 | a header without a space yields no token |
| UserModel.PublicView | backend/src/middlewares/auth.middleware.js:59-61 | the projection `-password -failedLoginAttempts -__v` (also backend/src/controllers/message.controller.js:33-35) drops those fields and keeps every other |
| AuthMiddleware.IsAuthenticated | backend/src/middlewares/auth.middleware.js:33-84 | no token is 401 and a blacklisted one 401; a throwing verifier is 500, a falsy result 401 "Invalid authentication token", an unknown user 500 and a locked one 403 "Account is locked"; the request proceeds exactly when the token decodes to a stored unlocked user, with that user's `PublicView` attached |
| AuthMiddleware.NeverNotFound | backend/src/middlewares/auth.middleware.js:64-73 | every rejection is 401, 403 or 500, never 404 |
| AuthMiddleware.MissingUserIsServerError | backend/src/middlewares/auth.middleware.js:59-83 | a token for an unknown user ends in 500 |
| AuthMiddleware.BlacklistBeforeVerify | backend/src/middlewares/auth.middleware.js:44-52 | a blacklisted token gets the same reply whatever the verifier and the users |
| AuthMiddleware.NoTokenNoLookup | backend/src/middlewares/auth.middleware.js:39-44 | without a token the answer does not depend on the blacklist, the verifier or the users |
| EmailFormat.IsValidEmailIffRegex | backend/sample.js:11-12 | the direct check accepts exactly the strings of the form `A@B.C` with non-empty runs of `[^\s@]` |
| EmailFormat.ExampleAccepted | backend/sample.js:11-12 | a plain address is accepted |
| EmailFormat.ExampleRejected | backend/sample.js:11-12 | addresses with no top-level part, no local part or two `@` are rejected |
| SignupSample.ValidateSignupInput | backend/sample.js:1-26 | each failure object is unsuccessful: a missing field, then a bad e-mail, then a short password, each with its message, and `undefined` exactly when all pass |
| ChatStore.Initial | frontend/src/store/UseChatStore.js:15-28 | empty lists and maps, nobody selected, every status idle |
| ChatStore.MarkMessageAsDeleted | frontend/src/store/UseChatStore.js:138-144 | messages with the id become deleted at the given time and every other field of the store is kept |
| ChatStore.SetTypingStatus | frontend/src/store/UseChatStore.js:147-150 | only that user's typing flag is set |
| ChatStore.SetUnreadMessage | frontend/src/store/UseChatStore.js:152-155 | only that user's unread flag is set |
| ChatStore.SetSelectedUser | frontend/src/store/UseChatStore.js:282-287 | the user becomes selected and their unread flag is cleared |
| ChatStore.OnNewMessage | frontend/src/store/UseChatStore.js:164-188 | a message of the open chat is appended, any other left out; a sender other than the open chat is flagged unread; a message from the open chat is answered with `mark-messages-seen` |
| ChatStore.FindSeenEntry | frontend/src/store/UseChatStore.js:200 | the first entry naming the id, or none when no entry does |
| ChatStore.OnMessageSeen | frontend/src/store/UseChatStore.js:197-207 | each message with a reported entry becomes seen with that entry's stamp, every other stays; a notice without a list changes nothing |
| ChatStore.GetUsers | frontend/src/store/UseChatStore.js:32-71 | pending, then the list with success or the old list with error, then idle |
| ChatStore.GetMessages | frontend/src/store/UseChatStore.js:74-110 | pending, then the thread with success or the old thread with error, then idle |
| ChatStore.RevertDeleted | frontend/src/store/UseChatStore.js:253-258 | messages with the id become not deleted with no deletion time and keep every other field; every other message stays |
| ChatStore.DeleteMessage | frontend/src/store/UseChatStore.js:228-277 | pending, then success or the revert with error, then idle |
| ChatStore.StatusesEndIdle | frontend/src/store/UseChatStore.js:63-70 | each awaited action ends with its status idle and the other statuses as before |
| ChatStore.RevertUndoesMark | frontend/src/store/UseChatStore.js:250-263 | a failed delete undoes the local mark of a message that was not deleted before |
| ChatStore.MarkDeletedTwice | frontend/src/store/UseChatStore.js:191-194 | a repeated deletion notice counts as one with the later time |
| ChatStore.DeletionConverges | frontend/src/store/UseChatStore.js:191-194 | a client holding the server's collection ends with the server's deleted collection |
| ChatStore.UnreportedIsUnchanged | frontend/src/store/UseChatStore.js:197-207 | a message the report does not name is one the server left alone |
| ChatStore.ReportedIsStamped | frontend/src/store/UseChatStore.js:197-207 | with unique ids, the entry the client finds for a message is the stamp the server gave it |
| ChatStore.SeenConverges | frontend/src/store/UseChatStore.js:197-207 | a client holding the server's collection ends with the server's marked collection |
| ChatStore.NewMessageFromSelected | frontend/src/store/UseChatStore.js:164-188 | a message from the open chat is shown, not flagged, and answered; one from elsewhere is flagged and not answered |
| ChatStore.SelectClearsUnread | frontend/src/store/UseChatStore.js:282-287 | opening a chat clears exactly that user's unread flag |
| ClientMessageTime.FloorIsDivision | frontend/src/utils/formateMessageTime.js:4 | the floor of the real quotient is the integer division |
| ClientMessageTime.MinutesIsDivision | frontend/src/utils/formateMessageTime.js:4 | whole minutes are the millisecond difference divided by 60000 |
| ClientMessageTime.HoursIsDivision | frontend/src/utils/formateMessageTime.js:5 | whole hours are the whole minutes divided by 60 |
| ClientMessageTime.FormatMessageTime | frontend/src/utils/formateMessageTime.js:1-45 | just now under a minute, 1-59 minutes, 1-23 hours, then the date (with the year exactly for an earlier year); the time of day exactly for an invalid date |
| ClientMessageTime.FormatMessageTimeForSeen | frontend/src/utils/formateMessageTime.js:48-92 | a day or more, and an invalid date, give `at <time>` |
| ClientMessageTime.SeenAgreesWithMessageTime | frontend/src/utils/formateMessageTime.js:48-67 | under a day the seen label is the message label |
| ServerMessageTime.OlderThanADayIff | backend/utils/formateMessageTime.js:5-8 | the real-valued hour test is the integer test against 86,400,000 ms |
| ServerMessageTime.FormatMessageTime | backend/utils/formateMessageTime.js:2-30 | more than 24 hours gives a date, with the year exactly for an earlier year; exactly 24 hours, a future time and an invalid date give the time of day |

## Left out

- HTTP, Express routing, cookies and the JSON encoding of responses are not modelled. A handler
  is a method from request fields to a status and a body.
- Mongo and Redis internals are not modelled: indexes, queries beyond those named above, TTL
  expiry of cache entries, and errors of `redisClient.get`. A cached value is returned as stored;
  the type change of `JSON.stringify`/`JSON.parse` is not modelled.
- Cloudinary, bcrypt and the JWT library are function parameters. Salt generation, `generateAccessToken`
  and the cookie it sets are not modelled.
- Failures of Mongo and Redis writes are not modelled. In the source, a rejected `save`,
  `updateMany` or `findById`, or a rejected Redis `set` or `del`, ends in the handler's catch
  block with 500, sometimes after partial effects. Two examples: `sendMessage` has already stored
  the message when `redisClient.del` fails (backend/src/controllers/message.controller.js:296-302),
  and the socket's mark-seen loop stops partway when a `save` fails (backend/src/config/socket.js:48-51).
  In the model every such call succeeds.
- Concurrency is not modelled. Each handler runs as one atomic step, and the per-message awaited
  saves of the socket loop do not interleave with other requests.
- The locale strings themselves are not modelled (`toLocaleDateString`, `toLocaleTimeString`).
  The time helpers return the bucket, with the number of minutes or hours where the text has one.
- Console logging and the `Date.now()` timings around cache hits are not modelled.
- `Object.keys(userSocketMap)` is modelled as a set: the order of the online list is not modelled.
- An anonymous connection's disconnect deletes the key `undefined`, which is the empty string here.
- The `timestamps: true` fields are modelled only as far as the handlers read them: a message's
  `createdAt` is kept, its `updatedAt` is not, and neither of a user's timestamps is. The `__v`
  version key is not modelled; the projections drop `__v` as an absent key.
- JavaScript's double-precision arithmetic on milliseconds is modelled on integers and exact
  reals: the divisions and `Math.floor` of the time helpers and the `0.75` size estimate are
  exact, so rounding and values beyond 2^53 are not modelled.
- Lengths are counted in characters, not in UTF-16 code units.
- `logout`, the blacklist write and `checkAuth` are not modelled. The middleware reads the
  blacklist as a given set.
- The `JWT_SECRET` fallback is not modelled (it assigns a function rather than a secret).
- The client's toasts, `ShowMessageNotification`, `subscribeToMessages`/`unsubscribeFromMessages`
  wiring and the client `sendMessage` action (which only posts) are not modelled.
- MessageController.SortByCreatedAt: the order among messages with equal `createdAt` is not
  modelled; the contract states a sorted permutation only.
- MessageController.MessageController.SendMessage: the self-send guard is the intended id
  equality; the guard as written is `SendMessageAsWritten` (see "## Findings").
- A malformed id, which makes Mongo throw a CastError and the handler answer 500, is modelled as
  an id that matches nothing.
- AuthController.AuthController.Login: `updateLastLogin` is not awaited in the source; the model
  applies its write within the same step.
- ClientMessageTime.FormatMessageTimeForSeen: its contract states only the `at <time>` cases; the
  cases under a day are stated by `SeenAgreesWithMessageTime`.

## Findings

| source | as written | input that shows it | evidently intended | confidence | as-written member | corrected member |
|---|---|---|---|---|---|---|
| backend/src/controllers/message.controller.js:266 | `userToChatWithId === loggedInUserId` compares the route parameter, a string, with `req.user._id`, an ObjectId of the document the middleware attached (backend/src/middlewares/auth.middleware.js:59-61, 76), so the guard never holds | user `u`, online, posts to `/messages/send/u`: the message from `u` to `u` is stored, `new-message` goes twice to `u`'s socket, and the answer is 201 | a message to oneself is refused with 400 and changes nothing | not executed | MessageController.MessageController.SendMessageAsWritten, MessageController.SelfSendGuardNeverFires | MessageController.MessageController.SendMessage |
