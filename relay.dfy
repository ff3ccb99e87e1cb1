/** The realtime relay of `socket/socketHandler.js`: the handshake guard, the user-to-socket
    presence map, room membership, and every event the server emits, appended to a log
    in the order the handlers emit them. Each inbound socket event is one atomic method. */
module Realtime {
  import opened Common
  import Users
  import Messages
  import Conversations

  /** Socket ids the transport hands out. */
  type SocketId = nat

  /** A value the client sends and the server only passes on (temporary ids, WebRTC signals,
      candidates, the `fromUser` blob, the last seen message id of a read receipt). */
  type ClientData = string

  /** `user:<id>` and `conversation:<id>`. */
  datatype Room = UserRoom(userId: Id) | ConversationRoom(conversationId: Id)

  /** Who an emit is addressed to: `io.emit`, `io.to(room)`, `socket.to(room)` (the room
      without the emitting socket), and `socket.emit` / `io.to(socketId)`. */
  datatype Target =
    | Everyone
    | ToRoom(room: Room)
    | ToRoomExcept(room: Room, excluded: SocketId)
    | ToSocket(socket: SocketId)

  /** The events the server emits, with their payloads. */
  datatype Event =
    | UserStatus(userId: Id, online: bool, lastSeen: Option<int>)
    | OnlineUsers(users: set<Id>)
    | MsgSent(tempId: ClientData, messageId: Id, message: Messages.Message, status: Messages.Status)
    | MsgError(tempId: ClientData, error: string)
    | NewMessage(message: Messages.Message)
    | NewMessageNotification(message: Messages.Message)
    | MsgStatusUpdate(messageId: Id, status: Messages.Status, conversationId: Id)
    | MsgSeenUpdate(conversationId: Id, readerId: Id, lastSeenMessageId: ClientData)
    | TypingStart(userId: Id, conversationId: Id)
    | TypingStop(userId: Id, conversationId: Id)
    | CallIncoming(signal: ClientData, from: ClientData, callType: string)
    | CallAnswered(signal: ClientData)
    | IceCandidate(candidate: ClientData)
    | CallEnded
    | MessageDeleted(messageId: Id)
    | ConversationRemoved(conversationId: Id)
    | ConversationCleared

  datatype Emission = Emission(target: Target, event: Event)

  /** Where `msg:send` can fail: the insert, or the participant query after it. */
  datatype SendFault = NoFault | CreateFails | ParticipantsFail

  const SendFailed: string := "Failed to send"

  // ---------------------------------------------------------------------------
  // Handshake

  /** The handshake guard: a missing or empty token is refused; otherwise the token's
      verification decides, and its claims become the socket's user. */
  function Authenticate(token: Option<string>, verify: string -> Option<Users.Claims>): (r: Option<Users.Claims>)
    ensures r.Some? <==> token.Some? && token.value != "" && verify(token.value).Some?
    ensures r.Some? ==> r == verify(token.value)
  {
    if token.None? || token.value == "" then None else verify(token.value)
  }

  // ---------------------------------------------------------------------------
  // Rooms

  /** The sockets in a room; a room nobody joined is empty. */
  function Members(rooms: map<Room, set<SocketId>>, room: Room): set<SocketId>
  {
    if room in rooms then rooms[room] else {}
  }

  /** `socket.join(room)`: the socket is added to that room and no other room changes. */
  function Join(rooms: map<Room, set<SocketId>>, room: Room, sid: SocketId): (r: map<Room, set<SocketId>>)
    ensures forall x :: Members(r, x) == if x == room then Members(rooms, x) + {sid} else Members(rooms, x)
    ensures r.Keys == rooms.Keys + {room}
  {
    rooms[room := Members(rooms, room) + {sid}]
  }

  /** `socket.leave(room)`: the socket is removed from that room and no other room changes. */
  function Leave(rooms: map<Room, set<SocketId>>, room: Room, sid: SocketId): (r: map<Room, set<SocketId>>)
    ensures forall x :: Members(r, x) == if x == room then Members(rooms, x) - {sid} else Members(rooms, x)
  {
    if room in rooms then rooms[room := rooms[room] - {sid}] else rooms
  }

  /** What a disconnect does to the rooms: the socket leaves every room. */
  function DropSocket(rooms: map<Room, set<SocketId>>, sid: SocketId): (r: map<Room, set<SocketId>>)
    ensures forall x :: Members(r, x) == Members(rooms, x) - {sid}
  {
    map x | x in rooms :: rooms[x] - {sid}
  }

  /** The connected sockets an emission to `target` reaches. */
  function Audience(sessions: map<SocketId, Users.Claims>, rooms: map<Room, set<SocketId>>, target: Target): (r: set<SocketId>)
    ensures r <= sessions.Keys
    ensures target.Everyone? ==> r == sessions.Keys
    ensures target.ToRoom? ==> forall s :: s in r <==> s in sessions && s in Members(rooms, target.room)
    ensures target.ToRoomExcept? ==>
              forall s :: s in r <==> s in sessions && s in Members(rooms, target.room) && s != target.excluded
    ensures target.ToSocket? ==> r == if target.socket in sessions then {target.socket} else {}
  {
    match target
    case Everyone => sessions.Keys
    case ToRoom(room) => Members(rooms, room) * sessions.Keys
    case ToRoomExcept(room, excluded) => (Members(rooms, room) - {excluded}) * sessions.Keys
    case ToSocket(s) => {s} * sessions.Keys
  }

  // ---------------------------------------------------------------------------
  // Notification fan-out

  /** The `participants.forEach` loop: one `new_message_notification` to `user:<p>` for each
      participant row p, in row order, skipping rows of the sender. */
  function Notifications(users: seq<Id>, senderId: Id, m: Messages.Message): (r: seq<Emission>)
    ensures |r| <= |users|
    ensures forall e :: e in r ==>
              && e.event == NewMessageNotification(m)
              && e.target.ToRoom? && e.target.room.UserRoom?
              && e.target.room.userId in users && e.target.room.userId != senderId
  {
    if users == [] then []
    else
      var init := users[..|users| - 1];
      var last := users[|users| - 1];
      var r := Notifications(init, senderId, m);
      assert forall u :: u in init ==> u in users;
      if last != senderId then r + [Emission(ToRoom(UserRoom(last)), NewMessageNotification(m))] else r
  }

  /** How many emissions in `es` are addressed to `user:<u>`. */
  function NotifiedTimes(es: seq<Emission>, u: Id): nat
  {
    if es == [] then 0
    else NotifiedTimes(es[..|es| - 1], u) + (if es[|es| - 1].target == ToRoom(UserRoom(u)) then 1 else 0)
  }

  /** The fan-out over a list of user ids reaches each user other than the sender once per
      occurrence in the list, and never the sender. */
  lemma {:induction false} NotificationFanout(users: seq<Id>, senderId: Id, m: Messages.Message, u: Id)
    ensures NotifiedTimes(Notifications(users, senderId, m), u) == if u == senderId then 0 else multiset(users)[u]
  {
    if users != [] {
      var init := users[..|users| - 1];
      var last := users[|users| - 1];
      NotificationFanout(init, senderId, m, u);
      CountLast(users, u);
      NotifiedLast(users, senderId, m, u);
    }
  }

  /** A user's multiplicity in a list is its multiplicity before the last entry, plus one when
      the last entry is that user. */
  lemma CountLast(users: seq<Id>, u: Id)
    requires users != []
    ensures multiset(users)[u] == multiset(users[..|users| - 1])[u] + (if users[|users| - 1] == u then 1 else 0)
  {
    assert users == users[..|users| - 1] + [users[|users| - 1]];
  }

  /** The last user id of the list adds one notification to its own room, unless it is the sender. */
  lemma NotifiedLast(users: seq<Id>, senderId: Id, m: Messages.Message, u: Id)
    requires users != []
    ensures NotifiedTimes(Notifications(users, senderId, m), u)
              == NotifiedTimes(Notifications(users[..|users| - 1], senderId, m), u)
                 + (if users[|users| - 1] == u && u != senderId then 1 else 0)
  {
    var last := users[|users| - 1];
    var r := Notifications(users[..|users| - 1], senderId, m);
    if last != senderId {
      NotifiedTimesAppend(r, Emission(ToRoom(UserRoom(last)), NewMessageNotification(m)), u);
    }
  }

  /** The fan-out after `getParticipants` reaches each user other than the sender once per
      participant row it has in the conversation, and never the sender. */
  lemma ParticipantFanout(participants: seq<Conversations.Participant>, conversationId: Id, senderId: Id,
                          m: Messages.Message, u: Id)
    ensures NotifiedTimes(Notifications(Conversations.ParticipantsOf(participants, conversationId), senderId, m), u)
              == if u == senderId then 0 else multiset(participants)[Conversations.Participant(conversationId, u)]
  {
    NotificationFanout(Conversations.ParticipantsOf(participants, conversationId), senderId, m, u);
  }

  lemma NotifiedTimesAppend(es: seq<Emission>, e: Emission, u: Id)
    ensures NotifiedTimes(es + [e], u) == NotifiedTimes(es, u) + (if e.target == ToRoom(UserRoom(u)) then 1 else 0)
  {
    assert (es + [e])[..|es + [e]| - 1] == es;
  }

  /** `callType || 'video'`: a missing or empty call type becomes video. */
  function CallTypeOrDefault(callType: Option<string>): (r: string)
    ensures r != ""
    ensures callType.None? || callType.value == "" ==> r == "video"
    ensures callType.Some? && callType.value != "" ==> r == callType.value
  {
    if callType.None? || callType.value == "" then "video" else callType.value
  }

  // ---------------------------------------------------------------------------
  // The relay

  class Relay {
    /** Token verification; a token that fails verification gives None. */
    const verify: string -> Option<Users.Claims>
    /** The user attached to each connected socket. */
    var sessions: map<SocketId, Users.Claims>
    /** `userSockets`: the socket last registered for each user. */
    var userSockets: map<Id, SocketId>
    var rooms: map<Room, set<SocketId>>
    /** Everything emitted so far, oldest first. */
    var log: seq<Emission>

    /** Each registered socket is connected and belongs to its user; rooms hold connected sockets. */
    ghost predicate Valid()
      reads this
    {
      && (forall u :: u in userSockets ==> userSockets[u] in sessions && sessions[userSockets[u]].id == u)
      && (forall x :: x in rooms ==> rooms[x] <= sessions.Keys)
    }

    constructor (verify: string -> Option<Users.Claims>)
      ensures Valid() && this.verify == verify
      ensures sessions == map[] && userSockets == map[] && rooms == map[] && log == []
    {
      this.verify := verify;
      sessions := map[];
      userSockets := map[];
      rooms := map[];
      log := [];
    }

    /** The sockets an emission to `target` reaches now. */
    function Recipients(target: Target): set<SocketId>
      reads this
    {
      Audience(sessions, rooms, target)
    }

    method Emit(target: Target, event: Event)
      modifies this`log
      ensures log == old(log) + [Emission(target, event)]
    {
      log := log + [Emission(target, event)];
    }

    /** The handshake and the `connection` handler. A refused handshake changes nothing.
        Otherwise the user is registered under this socket (replacing any earlier socket of
        the user), everyone is told the user is online, the socket joins `user:<id>`, and the
        socket is sent the set of registered users, which includes its own user. */
    method Connect(sid: SocketId, token: Option<string>) returns (accepted: bool)
      requires Valid() && sid !in sessions
      modifies this
      ensures Valid()
      ensures accepted <==> Authenticate(token, verify).Some?
      ensures !accepted ==>
                sessions == old(sessions) && userSockets == old(userSockets) && rooms == old(rooms) && log == old(log)
      ensures accepted ==>
                var user := Authenticate(token, verify).value;
                && sessions == old(sessions)[sid := user]
                && userSockets == old(userSockets)[user.id := sid]
                && rooms == Join(old(rooms), UserRoom(user.id), sid)
                && user.id in userSockets.Keys
                && log == old(log) + [Emission(Everyone, UserStatus(user.id, true, None)),
                                      Emission(ToSocket(sid), OnlineUsers(userSockets.Keys))]
    {
      var claims := Authenticate(token, verify);
      if claims.None? {
        return false;
      }
      var user := claims.value;
      sessions := sessions[sid := user];
      userSockets := userSockets[user.id := sid];
      Emit(Everyone, UserStatus(user.id, true, None));
      rooms := Join(rooms, UserRoom(user.id), sid);
      Emit(ToSocket(sid), OnlineUsers(userSockets.Keys));
      accepted := true;
    }

    /** `disconnect`: the user's entry is deleted whichever socket it names, the socket leaves
        every room, and everyone else is told the user went offline at `now`. */
    method Disconnect(sid: SocketId, now: int)
      requires Valid() && sid in sessions
      modifies this
      ensures Valid()
      ensures var user := old(sessions)[sid];
              && sessions == old(sessions) - {sid}
              && userSockets == old(userSockets) - {user.id}
              && rooms == DropSocket(old(rooms), sid)
              && log == old(log) + [Emission(Everyone, UserStatus(user.id, false, Some(now)))]
    {
      var user := sessions[sid];
      userSockets := userSockets - {user.id};
      sessions := sessions - {sid};
      rooms := DropSocket(rooms, sid);
      Emit(Everyone, UserStatus(user.id, false, Some(now)));
    }

    /** `conv:join`, and the legacy `join_conversation`: any connected socket may join any
        conversation room; no participant check is made. */
    method JoinConversation(sid: SocketId, conversationId: Id)
      requires Valid() && sid in sessions
      modifies this`rooms
      ensures Valid()
      ensures rooms == Join(old(rooms), ConversationRoom(conversationId), sid)
      ensures sid in Recipients(ToRoom(ConversationRoom(conversationId)))
    {
      rooms := Join(rooms, ConversationRoom(conversationId), sid);
    }

    /** `conv:leave`. */
    method LeaveConversation(sid: SocketId, conversationId: Id)
      requires Valid() && sid in sessions
      modifies this`rooms
      ensures Valid()
      ensures rooms == Leave(old(rooms), ConversationRoom(conversationId), sid)
      ensures sid !in Recipients(ToRoom(ConversationRoom(conversationId)))
    {
      rooms := Leave(rooms, ConversationRoom(conversationId), sid);
    }

    /** The `participants.forEach` loop of a send: one notification per participant row
        that is not the sender. */
    method NotifyParticipants(users: seq<Id>, senderId: Id, m: Messages.Message)
      modifies this`log
      ensures log == old(log) + Notifications(users, senderId, m)
    {
      var i := 0;
      while i < |users|
        invariant 0 <= i <= |users|
        invariant log == old(log) + Notifications(users[..i], senderId, m)
      {
        assert users[..i + 1][..i] == users[..i];
        if users[i] != senderId {
          Emit(ToRoom(UserRoom(users[i])), NewMessageNotification(m));
        }
        i := i + 1;
      }
      assert users[..i] == users;
    }

    /** `msg:send`. A failed insert emits only `msg:error` to the sender. Otherwise the
        message is stored with the socket's user as sender, the sender gets `msg:sent` with
        its temporary id, the new id and status `sent`, the rest of the conversation room
        gets `new_message`, and then each other participant gets a notification, or, when
        the participant query fails, the sender gets `msg:error` after all. */
    method SendMessage(sid: SocketId, messages: Messages.MessageTable, conversations: Conversations.ConversationTable,
                       conversationId: Id, tempId: ClientData, content: Option<string>, kind: Option<string>,
                       fileUrl: Option<string>, now: int, fault: SendFault)
      requires Valid() && sid in sessions && messages.Valid()
      modifies this`log, messages
      ensures Valid() && messages.Valid()
      ensures fault == CreateFails ==>
                && messages.rows == old(messages.rows) && messages.nextId == old(messages.nextId)
                && log == old(log) + [Emission(ToSocket(sid), MsgError(tempId, SendFailed))]
      ensures fault != CreateFails ==>
                var m := Messages.NewRow(old(messages.nextId), conversationId, sessions[sid].id, content, kind, fileUrl, now);
                && messages.rows == old(messages.rows) + [m]
                && log == old(log)
                          + [Emission(ToSocket(sid), MsgSent(tempId, m.id, m, Messages.Sent)),
                             Emission(ToRoomExcept(ConversationRoom(conversationId), sid), NewMessage(m))]
                          + (if fault == ParticipantsFail then [Emission(ToSocket(sid), MsgError(tempId, SendFailed))]
                             else Notifications(Conversations.ParticipantsOf(conversations.participants, conversationId), sessions[sid].id, m))
    {
      if fault == CreateFails {
        Emit(ToSocket(sid), MsgError(tempId, SendFailed));
        return;
      }
      var senderId := sessions[sid].id;
      var m := messages.Create(conversationId, senderId, content, kind, fileUrl, now);
      var participants := Conversations.ParticipantsOf(conversations.participants, conversationId);
      AnnounceSent(sid, conversationId, tempId, m, participants, senderId, fault == ParticipantsFail);
    }

    /** The emits of a stored `msg:send`: the acknowledgement, the room broadcast, and the
        participant notifications or, when the participant query failed, `msg:error`. */
    method AnnounceSent(sid: SocketId, conversationId: Id, tempId: ClientData, m: Messages.Message,
                        participants: seq<Id>, senderId: Id, participantsFail: bool)
      modifies this`log
      ensures log == old(log)
                     + [Emission(ToSocket(sid), MsgSent(tempId, m.id, m, Messages.Sent)),
                        Emission(ToRoomExcept(ConversationRoom(conversationId), sid), NewMessage(m))]
                     + (if participantsFail then [Emission(ToSocket(sid), MsgError(tempId, SendFailed))]
                        else Notifications(participants, senderId, m))
    {
      Emit(ToSocket(sid), MsgSent(tempId, m.id, m, Messages.Sent));
      Emit(ToRoomExcept(ConversationRoom(conversationId), sid), NewMessage(m));
      if participantsFail {
        Emit(ToSocket(sid), MsgError(tempId, SendFailed));
      } else {
        NotifyParticipants(participants, senderId, m);
      }
    }

    /** `msg:delivered`: the message is marked delivered and the whole conversation room,
        the sender's sockets included, gets the status update. A failed update emits nothing. */
    method MarkDelivered(sid: SocketId, messages: Messages.MessageTable, messageId: Id, conversationId: Id,
                         now: int, updateFails: bool)
      requires Valid() && sid in sessions && messages.Valid()
      modifies this`log, messages`rows
      ensures Valid() && messages.Valid()
      ensures updateFails ==> messages.rows == old(messages.rows) && log == old(log)
      ensures !updateFails ==>
                && |messages.rows| == |old(messages.rows)|
                && (forall i :: 0 <= i < |messages.rows| ==>
                      messages.rows[i] == if old(messages.rows)[i].id == messageId
                                          then Messages.StatusUpdated(old(messages.rows)[i], Messages.Delivered, now)
                                          else old(messages.rows)[i])
                && log == old(log) + [Emission(ToRoom(ConversationRoom(conversationId)),
                                               MsgStatusUpdate(messageId, Messages.Delivered, conversationId))]
    {
      if updateFails {
        return;
      }
      messages.UpdateStatus(messageId, Messages.Delivered, now);
      Emit(ToRoom(ConversationRoom(conversationId)), MsgStatusUpdate(messageId, Messages.Delivered, conversationId));
    }

    /** `msg:seen`: the conversation is marked read for the socket's own user (whatever the
        client claims), and the whole room gets the read receipt. A failed update emits nothing. */
    method MarkSeen(sid: SocketId, messages: Messages.MessageTable, conversationId: Id,
                    lastSeenMessageId: ClientData, now: int, updateFails: bool)
      requires Valid() && sid in sessions && messages.Valid()
      modifies this`log, messages`rows
      ensures Valid() && messages.Valid()
      ensures updateFails ==> messages.rows == old(messages.rows) && log == old(log)
      ensures !updateFails ==>
                && messages.rows == Messages.MarkAllRead(old(messages.rows), conversationId, sessions[sid].id, now)
                && log == old(log) + [Emission(ToRoom(ConversationRoom(conversationId)),
                                               MsgSeenUpdate(conversationId, sessions[sid].id, lastSeenMessageId))]
    {
      if updateFails {
        return;
      }
      var readerId := sessions[sid].id;
      messages.MarkAsRead(conversationId, readerId, now);
      Emit(ToRoom(ConversationRoom(conversationId)), MsgSeenUpdate(conversationId, readerId, lastSeenMessageId));
    }

    /** `typing:start` and `typing:stop`: relayed to the conversation room without the typist's socket. */
    method Typing(sid: SocketId, conversationId: Id, start: bool)
      requires Valid() && sid in sessions
      modifies this`log
      ensures Valid()
      ensures var user := sessions[sid].id;
              log == old(log) + [Emission(ToRoomExcept(ConversationRoom(conversationId), sid),
                                          if start then TypingStart(user, conversationId) else TypingStop(user, conversationId))]
      ensures sid !in Recipients(log[|log| - 1].target)
    {
      var user := sessions[sid].id;
      if start {
        Emit(ToRoomExcept(ConversationRoom(conversationId), sid), TypingStart(user, conversationId));
      } else {
        Emit(ToRoomExcept(ConversationRoom(conversationId), sid), TypingStop(user, conversationId));
      }
    }

    /** Shared shape of the four signalling relays: exactly one emission to the target user's
        registered socket when there is one, nothing otherwise. */
    method RelayToUser(userId: Id, event: Event)
      requires Valid()
      modifies this`log
      ensures Valid()
      ensures log == old(log) + if userId in userSockets then [Emission(ToSocket(userSockets[userId]), event)] else []
      ensures userId in userSockets ==> Recipients(log[|log| - 1].target) == {userSockets[userId]}
    {
      if userId in userSockets {
        Emit(ToSocket(userSockets[userId]), event);
      }
    }

    /** `call_user`: the call type defaults to video. */
    method CallUser(userToCallId: Id, signal: ClientData, fromUser: ClientData, callType: Option<string>)
      requires Valid()
      modifies this`log
      ensures Valid()
      ensures log == old(log) + if userToCallId in userSockets
                                then [Emission(ToSocket(userSockets[userToCallId]), CallIncoming(signal, fromUser, CallTypeOrDefault(callType)))]
                                else []
    {
      RelayToUser(userToCallId, CallIncoming(signal, fromUser, CallTypeOrDefault(callType)));
    }

    /** `answer_call`. */
    method AnswerCall(to: Id, signal: ClientData)
      requires Valid()
      modifies this`log
      ensures Valid()
      ensures log == old(log) + if to in userSockets then [Emission(ToSocket(userSockets[to]), CallAnswered(signal))] else []
    {
      RelayToUser(to, CallAnswered(signal));
    }

    /** `ice_candidate`. */
    method RelayIceCandidate(target: Id, candidate: ClientData)
      requires Valid()
      modifies this`log
      ensures Valid()
      ensures log == old(log) + if target in userSockets then [Emission(ToSocket(userSockets[target]), IceCandidate(candidate))] else []
    {
      RelayToUser(target, IceCandidate(candidate));
    }

    /** `end_call`. */
    method EndCall(to: Id)
      requires Valid()
      modifies this`log
      ensures Valid()
      ensures log == old(log) + if to in userSockets then [Emission(ToSocket(userSockets[to]), CallEnded)] else []
    {
      RelayToUser(to, CallEnded);
    }
  }

  /** The unconditional delete on disconnect, played out: a user connects on `first`, connects
      again on `second`, and then `first` disconnects. The user is no longer registered,
      although `second` is still connected as that user, so calls to the user are dropped. */
  method StaleDisconnect(verify: string -> Option<Users.Claims>, token: string, first: SocketId, second: SocketId,
                         now: int, signal: ClientData, fromUser: ClientData)
      returns (relay: Relay, user: Users.Claims)
    requires token != "" && verify(token).Some? && first != second
    ensures relay.Valid()
    ensures user == verify(token).value
    ensures second in relay.sessions && relay.sessions[second] == user
    ensures user.id !in relay.userSockets
    ensures |relay.log| == 5 && relay.log[4] == Emission(Everyone, UserStatus(user.id, false, Some(now)))
  {
    relay := new Relay(verify);
    var ok := relay.Connect(first, Some(token));
    ok := relay.Connect(second, Some(token));
    relay.Disconnect(first, now);
    user := verify(token).value;
    relay.CallUser(user.id, signal, fromUser, None);
  }
}
