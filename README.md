# Chat relay backend: a Dafny model

This project models the core of a one-on-one chat backend written for Node.js with Express,
Socket.IO and MySQL, and proves properties of that model. It covers three layers:

- **Realtime relay** (`relay.dfy`, module `Realtime`), from `socket/socketHandler.js`. It is a
  `Relay` class holding:
  - the sockets' authenticated users;
  - the `userSockets` presence map;
  - room membership;
  - an append-only log of every emission, kept as (target, event) pairs.

  Each inbound socket event is one method: the handshake with connect, disconnect, joining and
  leaving a conversation room, `msg:send`, `msg:delivered`, `msg:seen`, the typing events, and
  the four WebRTC signalling relays. Token verification is a function value given to the relay.
- **Tables** (`messages.dfy`, `users.dfy`, `conversations.dfy`, `calls.dfy`, `otp.dfy`), from
  `models/*.js`. Each table is a class whose rows are a sequence in insertion order, with an
  auto-increment counter for ids; the OTP sessions are a map keyed by phone number. Updates
  are methods. Queries (pagination, lookups, participants, unread count, last message, call
  history) are functions, and the properties are lemmas about those functions. Timestamps are
  an integer clock passed in.
- **Controllers** (`chat_controller.dfy`, `auth_controller.dfy`). Each status-code decision is
  a function returning `Json(body)` or `Fail(code, error)`. Each handler is a method that
  updates the tables and, when a relay is attached, emits through it.

`common.dfy` holds the shared pieces: `Option`, `Reply`, the WHERE filter, "first matching
row", and reversal and prefix for `ORDER BY ... DESC LIMIT n` followed by `reverse()`.

A database failure is a boolean or `SendFault` parameter wherever the code's behaviour
depends on it:
- the insert and the participant query of a send;
- the conversation transaction;
- the receipt updates.

## Where the model follows the code rather than the obvious design

- Disconnect deletes the user's `userSockets` entry whichever socket it names
  (`Realtime.Relay.Disconnect`). If a user connects twice and the older socket disconnects,
  the user is no longer registered, although the newer socket is still connected.
  `Realtime.StaleDisconnect` plays this out, and a call to that user is then dropped.
- `updateStatus` has no monotonic guard: `delivered` overwrites `read`
  (`Messages.DeliveredOverwritesRead`).
- The HTTP send emits a `new_message_notification` to every connected socket before the
  per-participant notifications (`ChatController.SendMessage`).
- OTP verification computes expiry and then ignores it: a matching expired code is accepted
  (`Otp.ExpiredCodeAccepted`).
- Any connected socket may join any conversation room; the join checks no participant rows
  (`Realtime.Relay.JoinConversation`).
- `deleteConversation` and `clearConversationMessages` check no authorisation.
- `sendOtp` returns the code it issued in its reply (`OtpSent.devOtp`).

## Model

| member | source | states |
|---|---|---|
| `Realtime.Authenticate` | socket/socketHandler.js:9-21 | a session exists exactly when a non-empty token is present and verifies, and its user is the token's claims |
| `Realtime.Join` | socket/socketHandler.js:39-42 | joining adds the socket to that room and leaves every other room as it was |
| `Realtime.Leave` | socket/socketHandler.js:44-46 | leaving removes the socket from that room and leaves every other room as it was |
| `Realtime.DropSocket` | socket/socketHandler.js:175-177 | a disconnected socket is in no room, and every other socket stays where it was |
| `Realtime.Audience` | socket/socketHandler.js:66-81 | an emission reaches only connected sockets; `socket.to(room)` never reaches the emitting socket; `socket.emit` reaches just that socket |
| `Realtime.Notifications` | socket/socketHandler.js:78-83 | every notification is a `new_message_notification` carrying the message, addressed to `user:<p>` for a participant p who is not the sender |
| `Realtime.NotificationFanout` | socket/socketHandler.js:79-83 | for any list of user ids, the sender is notified zero times and every other user as many times as it occurs in the list |
| `Realtime.ParticipantFanout` | socket/socketHandler.js:78-83 | after `getParticipants`, the sender is notified zero times and every other user once per participant row it has in the conversation |
| `Realtime.CallTypeOrDefault` | socket/socketHandler.js:149 | a missing or empty call type becomes `video`; any other is kept |
| `Realtime.Relay.Connect` | socket/socketHandler.js:9-35 | a refused handshake changes nothing. Otherwise the user maps to this socket (replacing an earlier one), everyone gets `online` with no last-seen time, the socket joins `user:<id>` and gets the registered users, which include its own |
| `Realtime.Relay.Disconnect` | socket/socketHandler.js:175-185 | the user's entry is deleted unconditionally, the socket leaves every room, and everyone gets `offline` with the disconnect time |
| `Realtime.Relay.JoinConversation` | socket/socketHandler.js:39-50 | after `conv:join` or `join_conversation` the socket receives that conversation's room emissions |
| `Realtime.Relay.LeaveConversation` | socket/socketHandler.js:44-46 | after `conv:leave` the socket no longer receives that room's emissions |
| `Realtime.Relay.NotifyParticipants` | socket/socketHandler.js:78-83 | the loop appends exactly the fan-out of the participant rows |
| `Realtime.Relay.SendMessage` | socket/socketHandler.js:55-89 | a failed insert emits only `msg:error` with the client's temporary id. Otherwise the row is stored with the socket's user as sender, then `msg:sent` (temporary id, new id, status sent) goes to the sender and `new_message` to the room without the sender. Then come the participant notifications, or `msg:error` if the participant query fails |
| `Realtime.Relay.AnnounceSent` | socket/socketHandler.js:66-88 | the emits of a stored message, in order |
| `Realtime.Relay.MarkDelivered` | socket/socketHandler.js:92-106 | the message becomes delivered and the whole room, sender included, gets the status update; a failed update emits nothing |
| `Realtime.Relay.MarkSeen` | socket/socketHandler.js:109-124 | the conversation is marked read with the socket's own user as reader, and the room gets that reader id |
| `Realtime.Relay.Typing` | socket/socketHandler.js:128-140 | typing start and stop go to the room, and the typist's own socket is not among the recipients |
| `Realtime.Relay.RelayToUser` | socket/socketHandler.js:143-173 | exactly one emission, to the registered socket of the target user, or none when the user is not registered |
| `Realtime.Relay.CallUser` | socket/socketHandler.js:143-152 | `call_incoming` with signal, caller and defaulted call type to the callee's socket, or nothing |
| `Realtime.Relay.AnswerCall` | socket/socketHandler.js:154-159 | `call_answered` to the caller's socket, or nothing |
| `Realtime.Relay.RelayIceCandidate` | socket/socketHandler.js:161-166 | `ice_candidate` to the target's socket, or nothing |
| `Realtime.Relay.EndCall` | socket/socketHandler.js:168-173 | `call_ended` to the peer's socket, or nothing |
| `Realtime.StaleDisconnect` | socket/socketHandler.js:175-185 | after connect, reconnect and disconnect of the older socket, the newer socket is connected as the user yet the user is unregistered, so a call to them emits nothing |
| `Messages.FindById` | models/Message.js:62-68 | a found row has that id; nothing is found exactly when no row has it |
| `Messages.Page` | models/Message.js:20-39 | at most `limit` rows, all of the conversation, and all below a truthy cursor |
| `Messages.PageIsSuffix` | models/Message.js:35-38 | descending order, limit, then reverse gives the last min(limit, n) candidates |
| `Messages.PageIsNewestSuffix` | models/Message.js:29-39 | on an id-ordered table the page holds exactly the newest min(limit, n) qualifying rows in ascending id order, and every qualifying row left out is older than all returned |
| `Messages.StatusUpdated` | models/Message.js:42-52 | the status is set whatever it was. `delivered` sets the delivery time to now and `read` sets the read time to now and the read flag; otherwise those are kept, and so are all other columns |
| `Messages.DeliveredOverwritesRead` | models/Message.js:42-51 | a read message that gets a delivery receipt becomes delivered again |
| `Messages.MarkAllRead` | models/Message.js:54-60 | length kept, and only status, read flag and read time ever change. Every message of the conversation not by the reader ends up read, and one not yet read gets the flag and read time now. Rows already read, the reader's own rows and other conversations' rows are unchanged |
| `Messages.AllOthersReadAfterMark` | models/Message.js:54-60 | afterwards every such message has status read and the read flag, and read still implies flagged |
| `Messages.MarkAllReadIdempotent` | models/Message.js:58 | already-read rows are not rewritten, so a second mark, even later, changes nothing |
| `Messages.WithoutMessage` | models/Message.js:70-72 | exactly the rows with another id remain |
| `Messages.WithoutConversation` | models/Message.js:74-76 | exactly the rows of other conversations remain |
| `Messages.MessageTable.Create` | models/Message.js:4-19 | one row is appended, with status sent, not read, type defaulting to text, the given file URL, and an id above every existing id; the row is returned |
| `Messages.MessageTable.UpdateStatus` | models/Message.js:42-52 | only the row with that id changes, as `StatusUpdated` says |
| `Messages.MessageTable.MarkAsRead` | models/Message.js:54-60 | the table becomes `MarkAllRead` of the old table, keeping the table invariant |
| `Messages.MessageTable.Delete` | models/Message.js:70-72 | only the row with that id is removed; id order is kept |
| `Messages.MessageTable.DeleteByConversation` | models/Message.js:74-76 | exactly that conversation's rows are removed |
| `Users.FindByPhone` | models/User.js:4-7 | a found row has that phone number; nothing is found exactly when no row has it |
| `Users.FindById` | models/User.js:14-17 | a found row has that id; nothing is found exactly when no row has it |
| `Users.UniqueIds` | models/User.js:14-17 | on an id-ordered table two rows with the same id are the same row |
| `Users.CreatedUserIsFound` | models/User.js:9-17 | the appended row is what `findById` returns for the new id |
| `Users.ProfileUpdated` | models/User.js:19-21 | only rows with that id get the new username and picture; everything else is unchanged |
| `Users.ProfileUpdateIsVisible` | models/User.js:19-21 | looking the user up after the update gives the same id and phone number with the new username and picture |
| `Users.UserTable.Create` | models/User.js:9-12 | a row with the phone number, no username and no picture is appended under a fresh id, which is returned and found |
| `Users.UserTable.UpdateProfile` | models/User.js:19-21 | the table becomes `ProfileUpdated` of the old one and stays id-ordered |
| `Conversations.Existing` | models/Conversation.js:6-18 | a found conversation is individual with participant rows for both users; nothing is found exactly when no such conversation exists |
| `Conversations.ExistingSymmetric` | models/Conversation.js:6-14 | the lookup does not depend on the order of the two users |
| `Conversations.FindOrCreateOutcome` | models/Conversation.js:4-41 | an existing pair returns its id and adds nothing; a failed participant insert adds no rows but uses up the next id, as an InnoDB rollback does; otherwise exactly one individual conversation with exactly the rows (user1, user2) is added under a fresh id, which is returned |
| `Conversations.FindOrCreateIdempotent` | models/Conversation.js:6-18 | once an id is returned, calling again with the users in either order returns the same id and changes nothing |
| `Conversations.ConversationTable.FindOrCreateOneOnOne` | models/Conversation.js:4-41 | the method computes exactly `FindOrCreate`, including the rollback after a failed participant insert, which keeps the counter advanced |
| `Conversations.ConversationTable.Delete` | models/Conversation.js:62-64 | exactly the conversation rows with another id remain |
| `Conversations.ParticipantsOf` | models/Conversation.js:66-69 | each user is listed exactly as many times as it has participant rows in that conversation, so it is listed exactly when it has one |
| `Conversations.UnreadCount` | models/Conversation.js:48 | the count is zero exactly when every message of the conversation written by someone else has the read flag |
| `Conversations.UnreadCountAppend` | models/Conversation.js:48 | the count is the number of qualifying rows: zero for an empty table, and one more row adds one exactly when it is an unread message of the conversation from someone else |
| `Conversations.SeenClearsUnread` | models/Conversation.js:48 | after the user marks the conversation read, its unread count for that user is zero |
| `Conversations.LastMessage` | models/Conversation.js:53-55 | the last message belongs to the conversation; there is none exactly when the conversation has no messages |
| `Conversations.LastMessageHasMaxId` | models/Conversation.js:53-55 | on an id-ordered table the last message has the largest id of the conversation |
| `Calls.CallStatusUpdated` | models/Call.js:12-20 | the status is set whatever it was; the end time is stamped for ended or missed and kept otherwise; the other columns are kept |
| `Calls.Insert` | models/Call.js:31 | inserting into a newest-first list keeps it newest-first and adds exactly that call |
| `Calls.SortNewestFirst` | models/Call.js:31 | the result is ordered by start time, descending, and is a permutation of the input |
| `Calls.History` | models/Call.js:22-34 | exactly the user's calls as caller or receiver, each as often as stored, newest first |
| `Calls.CallTable.Create` | models/Call.js:4-10 | one initiated call is appended under a fresh id, which is returned |
| `Calls.CallTable.UpdateStatus` | models/Call.js:12-20 | only the row with that id changes, as `CallStatusUpdated` says |
| `Otp.Step` | models/Otp.js:4-50 | an issue stores the code for five minutes under the phone number. A check succeeds exactly when the code matches and then removes the session; a failed check changes nothing |
| `Otp.SingleUse` | models/Otp.js:46-49 | a code that verified does not verify again |
| `Otp.ReissueInvalidatesEarlierCode` | models/Otp.js:10-11 | after a new code is issued, a different earlier code fails |
| `Otp.ExpiredCodeAccepted` | models/Otp.js:35-44 | a matching code past its expiry is still accepted |
| `Otp.AtMostOneLoginPerIssue` | models/Otp.js:17-50 | over any sequence of issues and checks, a phone number verifies at most once per code issued (plus one for a session pending at the start) |
| `Otp.OtpTable.CreateOrUpdate` | models/Otp.js:4-15 | both the update and the insert branch leave exactly one session for the phone, holding the code with expiry `now + 300000` |
| `Otp.OtpTable.Verify` | models/Otp.js:17-50 | the method computes exactly `Step` of a check: false without a session or on a mismatch; otherwise the session is deleted and true is returned |
| `ChatController.ChatPartner` | controllers/chatController.js:19-26 | 404 exactly when no user has the phone number, 400 exactly when it is the requester's own; otherwise a user with that phone who is someone else |
| `ChatController.StartConversation` | controllers/chatController.js:15-34 | a failed check changes nothing; otherwise find-or-create runs with (requester, other), and a failed transaction answers 500 |
| `ChatController.PageSize` | controllers/chatController.js:43 | an absent, unparsable or zero limit gives 30; any other is kept |
| `ChatController.GetMessages` | controllers/chatController.js:36-51 | 500 exactly for a negative limit; otherwise at most that many rows, all of the conversation and below a truthy cursor |
| `ChatController.DefaultPageIsNewestThirty` | controllers/chatController.js:41-45 | with no parameters the reply is the newest 30 messages of the conversation (all when fewer), oldest first |
| `ChatController.SplitByKind` | controllers/chatController.js:65-72 | the sent content goes unchanged into exactly one column and the other is NULL (both NULL when nothing was sent). It goes to the file URL only for image, video, file or audio, and to the content only for other types |
| `ChatController.SendMessage` | controllers/chatController.js:53-106 | a failed insert answers 500 and emits nothing. Otherwise the split row is stored and returned, and `new_message` goes to the whole room. Unless the participant query fails (swallowed), there follow one global notification and one per participant other than the requester |
| `ChatController.AnnounceNewMessage` | controllers/chatController.js:78-99 | the emits of the HTTP send, in order |
| `ChatController.DeletableMessage` | controllers/chatController.js:113-122 | 404 exactly for an unknown message, 403 exactly when the requester is not its sender |
| `ChatController.OnlySenderDeletes` | controllers/chatController.js:119-122 | on an id-ordered table, nobody can delete another user's message |
| `ChatController.DeleteMessage` | controllers/chatController.js:109-137 | a refusal deletes and emits nothing; otherwise exactly that row is removed and one `message_deleted` goes to the message's own conversation room |
| `ChatController.DeleteConversation` | controllers/chatController.js:140-157 | for any requester the conversation row is removed and the room gets `conversation_removed` |
| `ChatController.ClearConversationMessages` | controllers/chatController.js:160-176 | for any requester the conversation's messages are removed and the room gets `conversation_cleared` |
| `ChatController.UploadFile` | controllers/chatController.js:180-192 | 400 exactly when no file came; otherwise a URL under `/uploads/` from which the stored file name is recovered, with the name, type and size |
| `AuthController.TrimStart` | controllers/authController.js:29 | a suffix whose cut-off part is all white space and which does not start with white space |
| `AuthController.TrimEnd` | controllers/authController.js:29 | a prefix whose cut-off part is all white space and which does not end with white space |
| `AuthController.Trim` | controllers/authController.js:29 | the result has no white space at either end |
| `AuthController.TrimPadded` | controllers/authController.js:29 | trimming any white space padding gives back the unpadded text, so trimming is idempotent |
| `AuthController.CleanOtp` | controllers/authController.js:29 | a missing code stays missing; a present one is trimmed |
| `AuthController.PaddedCodeAccepted` | controllers/authController.js:29-34 | a correct code sent with white space around it verifies |
| `AuthController.SendOtp` | controllers/authController.js:5-23 | a missing or empty phone number answers 400 and stores nothing; otherwise the code is stored for five minutes and returned |
| `AuthController.VerifyOtp` | controllers/authController.js:25-55 | a rejected code answers 400 and changes neither sessions nor users. An accepted one consumes the session and reuses the user with that phone, or creates exactly one. The token carries exactly that user's id and phone number |
| `AuthController.UpdateProfile` | controllers/authController.js:66-85 | 404 for an unknown requester; otherwise the username is replaced, the picture kept, and the updated row returned |

## Left out

- Token signing and verification are a foreign library. Verification is a function value
  given to the relay; a login's token is modelled as its payload. The seven-day expiry is
  not modelled.
- OTP generation uses `Math.random` (floating point), so the issued code is a parameter of
  `AuthController.SendOtp`.
- Clocks (`Date.now`, `new Date()`, `CURRENT_TIMESTAMP`) are an integer parameter. The
  disconnect time is that integer rather than an ISO string.
- SQL text, and the user columns joined into query results (sender name and avatar, caller and
  receiver names), are not modelled. Referential integrity between tables is a schema matter,
  and so are cascading deletes: `Conversations.ConversationTable.Delete` removes only the
  conversation row.
- Where SQL gives no order (the first row of a lookup without `ORDER BY`), the model takes the
  first row in insertion order.
- Database failures are modelled only where the code's behaviour depends on them:
  - the message insert and the participant query of both send paths;
  - the conversation transaction;
  - the delivery and read receipts.

  Every other handler answers 500 on any failure; that path is not modelled.
- Only the participant insert of find-or-create can fail in the model. A failure of the
  conversation insert itself, which also answers 500, is not modelled.
- A negative `limit` is taken to make the query fail, answering 500.
- Client payload values are modelled as numbers where the code uses them as ids. A client that
  sends an id as a string would miss `userSockets.get`, which compares keys strictly; this is
  not modelled.
- Socket.IO internals are out of scope: the automatic room of each socket id, the removal of
  empty rooms, and transport. Concurrent handlers are out of scope too: each handler is one
  atomic step, while the code interleaves them at every `await`.
- The `online_users` list is an array in insertion order; the model sends the set of its
  elements.
- `Message.create` re-reads the inserted row; the model returns the row it inserted.
- `Common.Reverse` carries no postcondition of its own; what is proved about it is in
  `Common.ReverseMembers` and `Common.ReverseTakeReverse`.
- Handlers outside this model:
  - `getConversations`, `getMe` and the rest of `getUserConversations` (its joins and
    ordering; the unread-count and last-message rules are modelled);
  - the call controller (a pass-through to the call table);
  - the upload middleware, routes, server wiring and database scripts;
  - console logging.
