/** The HTTP chat handlers of `controllers/chatController.js`: their status-code decisions as
    functions, and the handlers themselves as methods that update the tables and, when the
    realtime relay is attached, emit through it. */
module ChatController {
  import opened Common
  import Users
  import Messages
  import Conversations
  import Realtime

  const ServerError: string := "Server error"

  /** The default page size of `getMessages`. */
  const DefaultPageSize: int := 30

  const UploadsPrefix: string := "/uploads/"

  // ---------------------------------------------------------------------------
  // startConversation

  /** The checks before find-or-create: 404 when no user has that phone number (or none
      was given), 400 when it is the requester's own number; otherwise the other user. */
  function ChatPartner(users: seq<Users.User>, requesterId: Id, phoneNumber: Option<string>): (r: Reply<Users.User>)
    ensures r == Fail(404, "User not found") <==>
              phoneNumber.None? || Users.FindByPhone(users, phoneNumber.value).None?
    ensures r == Fail(400, "Cannot chat with yourself") <==>
              phoneNumber.Some? && Users.FindByPhone(users, phoneNumber.value).Some?
              && Users.FindByPhone(users, phoneNumber.value).value.id == requesterId
    ensures r.Fail? ==> r.code == 404 || r.code == 400
    ensures r.Json? ==> r.body in users && r.body.phoneNumber == phoneNumber.value && r.body.id != requesterId
  {
    if phoneNumber.None? then Fail(404, "User not found")
    else
      match Users.FindByPhone(users, phoneNumber.value)
      case None => Fail(404, "User not found")
      case Some(other) =>
        if other.id == requesterId then Fail(400, "Cannot chat with yourself") else Json(other)
  }

  /** `startConversation`: only when the partner checks pass is find-or-create run; a failed
      transaction answers 500. */
  method StartConversation(users: seq<Users.User>, conversations: Conversations.ConversationTable,
                           requesterId: Id, phoneNumber: Option<string>, insertFails: bool)
      returns (r: Reply<Id>)
    requires conversations.Valid()
    modifies conversations
    ensures conversations.Valid()
    ensures var partner := ChatPartner(users, requesterId, phoneNumber);
            && (partner.Fail? ==>
                  r == Fail(partner.code, partner.error) && conversations.Snapshot() == old(conversations.Snapshot()))
            && (partner.Json? ==>
                  var (id, after) := Conversations.FindOrCreate(old(conversations.Snapshot()), requesterId, partner.body.id, insertFails);
                  && conversations.Snapshot() == after
                  && r == if id.Some? then Json(id.value) else Fail(500, ServerError))
  {
    var partner := ChatPartner(users, requesterId, phoneNumber);
    if partner.Fail? {
      return Fail(partner.code, partner.error);
    }
    var id := conversations.FindOrCreateOneOnOne(requesterId, partner.body.id, insertFails);
    if id.None? {
      return Fail(500, ServerError);
    }
    r := Json(id.value);
  }

  // ---------------------------------------------------------------------------
  // getMessages

  /** `parseInt(limit) || 30`: an absent or unparsable limit (None) and a limit of 0 fall
      back to 30; any other number, negative ones included, is kept. */
  function PageSize(limit: Option<int>): (n: int)
    ensures n != 0
    ensures limit.None? || limit == Some(0) ==> n == DefaultPageSize
    ensures limit.Some? && limit.value != 0 ==> n == limit.value
  {
    if limit.None? || limit.value == 0 then DefaultPageSize else limit.value
  }

  /** `getMessages`: a page of the conversation, or 500 when the limit is negative (the
      database rejects a negative LIMIT). The cursor is passed on as parsed, None when the
      query has none. */
  function GetMessages(rows: seq<Messages.Message>, conversationId: Id, limit: Option<int>, cursor: Option<int>)
    : (r: Reply<seq<Messages.Message>>)
    ensures r.Fail? <==> PageSize(limit) < 0
    ensures r.Fail? ==> r == Fail(500, ServerError)
    ensures r.Json? ==> |r.body| <= PageSize(limit)
    ensures r.Json? ==> forall m :: m in r.body ==> m in rows && m.conversationId == conversationId
    ensures r.Json? && Messages.CursorSet(cursor) ==> forall m :: m in r.body ==> m.id < cursor.value
  {
    var n := PageSize(limit);
    if n < 0 then Fail(500, ServerError) else Json(Messages.Page(rows, conversationId, n, cursor))
  }

  /** With no query parameters, the reply is the newest 30 messages of the conversation (all
      of them when it has fewer), oldest first. Without a cursor the candidates are exactly
      the conversation's messages. */
  lemma DefaultPageIsNewestThirty(rows: seq<Messages.Message>, conversationId: Id)
    requires Increasing(rows, Messages.IdOf)
    ensures var all := Messages.Candidates(rows, conversationId, None);
            var r := GetMessages(rows, conversationId, None, None);
            && r.Json?
            && |r.body| == (if |all| <= DefaultPageSize then |all| else DefaultPageSize)
            && r.body == all[|all| - |r.body|..]
            && Increasing(r.body, Messages.IdOf)
  {
    Messages.PageIsNewestSuffix(rows, conversationId, DefaultPageSize, None);
  }

  // ---------------------------------------------------------------------------
  // sendMessage

  /** `['image', 'video', 'file', 'audio'].includes(type)`. */
  predicate IsFileKind(kind: Option<string>)
  {
    kind.Some? && kind.value in ["image", "video", "file", "audio"]
  }

  /** The `content` and `file_url` columns `sendMessage` stores. */
  datatype StoredFields = StoredFields(content: Option<string>, fileUrl: Option<string>)

  /** For a file kind the client's content is the file's URL and goes to `file_url`, leaving
      `content` NULL; for every other kind (none included) it stays in `content` and `file_url`
      is NULL. So at most one column is set, and exactly one when content was sent. */
  function SplitByKind(kind: Option<string>, content: Option<string>): (r: StoredFields)
    ensures r.content.None? || r.fileUrl.None?
    ensures content.Some? ==> r.content.Some? != r.fileUrl.Some?
    ensures (r.content == content && r.fileUrl.None?) || (r.fileUrl == content && r.content.None?)
    ensures r.fileUrl.Some? ==> IsFileKind(kind)
    ensures r.content.Some? ==> !IsFileKind(kind)
  {
    if IsFileKind(kind) then StoredFields(None, content) else StoredFields(content, None)
  }

  /** `sendMessage`: the message is stored with the split columns and the requester as
      sender, and returned. With the relay attached, the whole conversation room gets
      `new_message`; then, unless the participant query fails (which is swallowed), every
      connected socket gets a `new_message_notification`, followed by one per participant
      row other than the requester. A failed insert answers 500 and emits nothing. */
  method SendMessage(io: Realtime.Relay?, messages: Messages.MessageTable, conversations: Conversations.ConversationTable,
                     requesterId: Id, conversationId: Id, content: Option<string>, kind: Option<string>,
                     now: int, createFails: bool, participantsFail: bool)
      returns (r: Reply<Messages.Message>)
    requires messages.Valid()
    modifies messages, io
    ensures messages.Valid()
    ensures io != null ==> io.sessions == old(io.sessions) && io.userSockets == old(io.userSockets) && io.rooms == old(io.rooms)
    ensures createFails ==>
              && r == Fail(500, ServerError)
              && messages.rows == old(messages.rows)
              && (io != null ==> io.log == old(io.log))
    ensures !createFails ==>
              var stored := SplitByKind(kind, content);
              var m := Messages.NewRow(old(messages.nextId), conversationId, requesterId, stored.content, kind, stored.fileUrl, now);
              && r == Json(m)
              && messages.rows == old(messages.rows) + [m]
              && (io != null ==>
                    io.log == old(io.log)
                              + [Realtime.Emission(Realtime.ToRoom(Realtime.ConversationRoom(conversationId)), Realtime.NewMessage(m))]
                              + (if participantsFail then []
                                 else [Realtime.Emission(Realtime.Everyone, Realtime.NewMessageNotification(m))]
                                      + Realtime.Notifications(Conversations.ParticipantsOf(conversations.participants, conversationId), requesterId, m)))
  {
    if createFails {
      return Fail(500, ServerError);
    }
    var stored := SplitByKind(kind, content);
    var m := messages.Create(conversationId, requesterId, stored.content, kind, stored.fileUrl, now);
    if io != null {
      var participants := Conversations.ParticipantsOf(conversations.participants, conversationId);
      AnnounceNewMessage(io, conversationId, m, participants, requesterId, participantsFail);
    }
    r := Json(m);
  }

  /** The emits of `sendMessage`: `new_message` to the room, then, when the participant
      query succeeded, the global notification and the per-participant ones. */
  method AnnounceNewMessage(io: Realtime.Relay, conversationId: Id, m: Messages.Message, participants: seq<Id>,
                            requesterId: Id, participantsFail: bool)
    modifies io`log
    ensures io.log == old(io.log)
                      + [Realtime.Emission(Realtime.ToRoom(Realtime.ConversationRoom(conversationId)), Realtime.NewMessage(m))]
                      + (if participantsFail then []
                         else [Realtime.Emission(Realtime.Everyone, Realtime.NewMessageNotification(m))]
                              + Realtime.Notifications(participants, requesterId, m))
  {
    io.Emit(Realtime.ToRoom(Realtime.ConversationRoom(conversationId)), Realtime.NewMessage(m));
    if !participantsFail {
      io.Emit(Realtime.Everyone, Realtime.NewMessageNotification(m));
      io.NotifyParticipants(participants, requesterId, m);
    }
  }

  // ---------------------------------------------------------------------------
  // deleteMessage

  /** The checks of `deleteMessage`: 404 for an unknown message, 403 when the requester is
      not its sender; otherwise the message to delete. */
  function DeletableMessage(rows: seq<Messages.Message>, requesterId: Id, messageId: Id): (r: Reply<Messages.Message>)
    ensures r == Fail(404, "Message not found") <==> Messages.FindById(rows, messageId).None?
    ensures r == Fail(403, "Unauthorized") <==>
              Messages.FindById(rows, messageId).Some? && Messages.FindById(rows, messageId).value.senderId != requesterId
    ensures r.Json? ==> r.body in rows && r.body.id == messageId && r.body.senderId == requesterId
  {
    match Messages.FindById(rows, messageId)
    case None => Fail(404, "Message not found")
    case Some(m) => if m.senderId != requesterId then Fail(403, "Unauthorized") else Json(m)
  }

  /** A user can never delete someone else's message. */
  lemma OnlySenderDeletes(rows: seq<Messages.Message>, requesterId: Id, m: Messages.Message)
    requires Increasing(rows, Messages.IdOf)
    requires m in rows && m.senderId != requesterId
    ensures DeletableMessage(rows, requesterId, m.id).Fail?
  {
    var found := Messages.FindById(rows, m.id);
    var i :| 0 <= i < |rows| && rows[i] == m;
    var j :| 0 <= j < |rows| && rows[j] == found.value;
    assert Messages.IdOf(rows[i]) == Messages.IdOf(rows[j]);
  }

  /** `deleteMessage`: a refused request deletes and emits nothing; otherwise the row is
      deleted and exactly one `message_deleted` goes to the message's conversation room. */
  method DeleteMessage(io: Realtime.Relay?, messages: Messages.MessageTable, requesterId: Id, messageId: Id)
      returns (r: Reply<bool>)
    requires messages.Valid()
    modifies messages`rows, io
    ensures messages.Valid()
    ensures io != null ==> io.sessions == old(io.sessions) && io.userSockets == old(io.userSockets) && io.rooms == old(io.rooms)
    ensures var decision := DeletableMessage(old(messages.rows), requesterId, messageId);
            && (decision.Fail? ==>
                  && r == Fail(decision.code, decision.error)
                  && messages.rows == old(messages.rows)
                  && (io != null ==> io.log == old(io.log)))
            && (decision.Json? ==>
                  && r == Json(true)
                  && messages.rows == Messages.WithoutMessage(old(messages.rows), messageId)
                  && (io != null ==>
                        io.log == old(io.log) + [Realtime.Emission(Realtime.ToRoom(Realtime.ConversationRoom(decision.body.conversationId)),
                                                                   Realtime.MessageDeleted(messageId))]))
  {
    var decision := DeletableMessage(messages.rows, requesterId, messageId);
    if decision.Fail? {
      return Fail(decision.code, decision.error);
    }
    messages.Delete(messageId);
    if io != null {
      io.Emit(Realtime.ToRoom(Realtime.ConversationRoom(decision.body.conversationId)), Realtime.MessageDeleted(messageId));
    }
    r := Json(true);
  }

  // ---------------------------------------------------------------------------
  // deleteConversation, clearConversationMessages

  /** `deleteConversation`: whoever asks, the conversation row is deleted and the room is
      told `conversation_removed`. */
  method DeleteConversation(io: Realtime.Relay?, conversations: Conversations.ConversationTable, conversationId: Id)
      returns (r: Reply<bool>)
    requires conversations.Valid()
    modifies conversations`conversations, io
    ensures conversations.Valid()
    ensures r == Json(true)
    ensures forall c :: c in conversations.conversations <==> c in old(conversations.conversations) && c.id != conversationId
    ensures io != null ==> io.sessions == old(io.sessions) && io.userSockets == old(io.userSockets) && io.rooms == old(io.rooms)
    ensures io != null ==>
              io.log == old(io.log) + [Realtime.Emission(Realtime.ToRoom(Realtime.ConversationRoom(conversationId)),
                                                         Realtime.ConversationRemoved(conversationId))]
  {
    conversations.Delete(conversationId);
    if io != null {
      io.Emit(Realtime.ToRoom(Realtime.ConversationRoom(conversationId)), Realtime.ConversationRemoved(conversationId));
    }
    r := Json(true);
  }

  /** `clearConversationMessages`: whoever asks, every message of the conversation is
      deleted and the room is told `conversation_cleared`. */
  method ClearConversationMessages(io: Realtime.Relay?, messages: Messages.MessageTable, conversationId: Id)
      returns (r: Reply<bool>)
    requires messages.Valid()
    modifies messages`rows, io
    ensures messages.Valid()
    ensures r == Json(true)
    ensures messages.rows == Messages.WithoutConversation(old(messages.rows), conversationId)
    ensures io != null ==> io.sessions == old(io.sessions) && io.userSockets == old(io.userSockets) && io.rooms == old(io.rooms)
    ensures io != null ==>
              io.log == old(io.log) + [Realtime.Emission(Realtime.ToRoom(Realtime.ConversationRoom(conversationId)),
                                                         Realtime.ConversationCleared)]
  {
    messages.DeleteByConversation(conversationId);
    if io != null {
      io.Emit(Realtime.ToRoom(Realtime.ConversationRoom(conversationId)), Realtime.ConversationCleared);
    }
    r := Json(true);
  }

  // ---------------------------------------------------------------------------
  // uploadFile

  /** What the upload middleware leaves on the request. */
  datatype UploadedFile = UploadedFile(filename: string, originalName: string, mimeType: string, size: nat)

  /** The reply body of `uploadFile`. */
  datatype UploadInfo = UploadInfo(url: string, name: string, mimeType: string, size: nat)

  /** `uploadFile`: 400 without a file; otherwise a URL under `/uploads/` from which the
      stored file name is recovered, with the original name, type and size. */
  function UploadFile(file: Option<UploadedFile>): (r: Reply<UploadInfo>)
    ensures r.Fail? <==> file.None?
    ensures r.Fail? ==> r == Fail(400, "No file uploaded")
    ensures r.Json? ==>
              && UploadsPrefix <= r.body.url
              && r.body.url[|UploadsPrefix|..] == file.value.filename
              && r.body.name == file.value.originalName
              && r.body.mimeType == file.value.mimeType
              && r.body.size == file.value.size
  {
    match file
    case None => Fail(400, "No file uploaded")
    case Some(f) => Json(UploadInfo(UploadsPrefix + f.filename, f.originalName, f.mimeType, f.size))
  }
}
