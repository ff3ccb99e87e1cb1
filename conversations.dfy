/** The `conversations` and `conversation_participants` tables: find-or-create of a
    one-on-one conversation inside a transaction, participant lookup, deletion, and the
    unread-count and last-message rules of the conversation list. */
module Conversations {
  import opened Common
  import Messages

  datatype ConversationType = Individual | Group

  datatype Conversation = Conversation(id: Id, kind: ConversationType)

  datatype Participant = Participant(conversationId: Id, userId: Id)

  /** The two tables and the conversations' auto-increment counter. */
  datatype Tables = Tables(conversations: seq<Conversation>, participants: seq<Participant>, nextId: Id)

  /** Every conversation id, and every conversation a participant row points to, is below the counter. */
  ghost predicate BelowCounter(t: Tables)
  {
    && (forall c :: c in t.conversations ==> c.id < t.nextId)
    && (forall p :: p in t.participants ==> p.conversationId < t.nextId)
  }

  /** The join of the existence query: an individual conversation with a participant row
      for `user1` and one for `user2`. */
  predicate Pairs(c: Conversation, participants: seq<Participant>, user1: Id, user2: Id)
  {
    c.kind == Individual
    && Participant(c.id, user1) in participants
    && Participant(c.id, user2) in participants
  }

  /** The existence query of `findOrCreateOneOnOne`: its first row, or nothing. */
  function Existing(t: Tables, user1: Id, user2: Id): (r: Option<Conversation>)
    ensures r.Some? ==> r.value in t.conversations && Pairs(r.value, t.participants, user1, user2)
    ensures r.None? <==> forall c :: c in t.conversations ==> !Pairs(c, t.participants, user1, user2)
  {
    FindFirst(t.conversations, (c: Conversation) => Pairs(c, t.participants, user1, user2))
  }

  /** The existence query does not depend on the order of the two users. */
  lemma ExistingSymmetric(t: Tables, user1: Id, user2: Id)
    ensures Existing(t, user1, user2) == Existing(t, user2, user1)
  {
    FilterCongruent(t.conversations,
                    (c: Conversation) => Pairs(c, t.participants, user1, user2),
                    (c: Conversation) => Pairs(c, t.participants, user2, user1));
  }

  /** The tables once the transaction commits: one new individual conversation and its two
      participant rows (user1 first), all under the next id. */
  function Created(t: Tables, user1: Id, user2: Id): Tables
  {
    Tables(t.conversations + [Conversation(t.nextId, Individual)],
           t.participants + [Participant(t.nextId, user1), Participant(t.nextId, user2)],
           t.nextId + 1)
  }

  /** `findOrCreateOneOnOne` as a function of the tables: the id it returns (None when the
      participant insert failed and the transaction was rolled back) and the tables afterwards.
      A rollback takes back the rows but not the auto-increment value the conversation insert
      used, as InnoDB does. */
  function FindOrCreate(t: Tables, user1: Id, user2: Id, insertFails: bool): (Option<Id>, Tables)
  {
    match Existing(t, user1, user2)
    case Some(c) => (Some(c.id), t)
    case None =>
      if insertFails then (None, t.(nextId := t.nextId + 1)) else (Some(t.nextId), Created(t, user1, user2))
  }

  /** What find-or-create does to the tables: an existing pair returns its id and adds
      nothing; a failed participant insert adds no rows but uses up an id; otherwise exactly one individual conversation
      with exactly the two participant rows is added under the fresh id. The counter
      invariant is kept in every case. */
  lemma FindOrCreateOutcome(t: Tables, user1: Id, user2: Id, insertFails: bool)
    requires BelowCounter(t)
    ensures var (r, after) := FindOrCreate(t, user1, user2, insertFails);
            && BelowCounter(after)
            && (Existing(t, user1, user2).Some? ==> r == Some(Existing(t, user1, user2).value.id) && after == t)
            && (Existing(t, user1, user2).None? && insertFails ==>
                  r.None? && after == t.(nextId := t.nextId + 1))
            && (Existing(t, user1, user2).None? && !insertFails ==>
                  && r == Some(t.nextId)
                  && (forall c :: c in t.conversations ==> c.id != t.nextId)
                  && after.conversations == t.conversations + [Conversation(t.nextId, Individual)]
                  && after.participants == t.participants + [Participant(t.nextId, user1), Participant(t.nextId, user2)])
  {
  }

  /** Once find-or-create has returned an id, calling it again, with the users in either
      order and whether or not an insert would fail, returns the same id and changes nothing. */
  lemma {:induction false} FindOrCreateIdempotent(t: Tables, user1: Id, user2: Id, insertFails: bool, againFails: bool)
    requires BelowCounter(t)
    ensures var (r, after) := FindOrCreate(t, user1, user2, insertFails);
            r.Some? ==>
              && FindOrCreate(after, user1, user2, againFails) == (r, after)
              && FindOrCreate(after, user2, user1, againFails) == (r, after)
  {
    var (r, after) := FindOrCreate(t, user1, user2, insertFails);
    if r.Some? {
      if Existing(t, user1, user2).None? {
        var added := Conversation(t.nextId, Individual);
        assert after == Created(t, user1, user2);
        forall c | c in after.conversations
          ensures Pairs(c, after.participants, user1, user2) <==> c == added
        {
          if c != added {
            assert c in t.conversations;
            assert !Pairs(c, t.participants, user1, user2);
            assert c.id < t.nextId;
          }
        }
        assert added in after.conversations;
        assert Existing(after, user1, user2) == Some(added);
      }
      ExistingSymmetric(after, user1, user2);
    }
  }

  /** `getParticipants`: the user ids of the participant rows of that conversation, in row
      order, one entry per row: a user is listed exactly as often as it has a row there. */
  function ParticipantsOf(participants: seq<Participant>, conversationId: Id): (users: seq<Id>)
    ensures forall u :: multiset(users)[u] == multiset(participants)[Participant(conversationId, u)]
    ensures forall u :: u in users <==> Participant(conversationId, u) in participants
  {
    if participants == [] then []
    else
      var p := participants[0];
      var rest := ParticipantsOf(participants[1..], conversationId);
      assert participants == [p] + participants[1..];
      if p.conversationId == conversationId then [p.userId] + rest else rest
  }

  /** The unread-count rule of the conversation list: messages of the conversation that are
      not read and were not written by the user. */
  function UnreadCount(rows: seq<Messages.Message>, conversationId: Id, userId: Id): (n: nat)
    ensures n <= |rows|
    ensures n == 0 <==>
              forall m :: m in rows && m.conversationId == conversationId && m.senderId != userId ==> m.isRead
  {
    var unread := Filter(rows, (m: Messages.Message) => m.conversationId == conversationId && !m.isRead && m.senderId != userId);
    assert unread != [] ==> unread[0] in unread;
    |unread|
  }

  /** The count is the number of qualifying rows: an empty table counts none, and one more
      row adds one exactly when it is an unread message of the conversation from someone else. */
  lemma UnreadCountAppend(rows: seq<Messages.Message>, m: Messages.Message, conversationId: Id, userId: Id)
    ensures UnreadCount([], conversationId, userId) == 0
    ensures UnreadCount(rows + [m], conversationId, userId)
              == UnreadCount(rows, conversationId, userId)
                 + (if m.conversationId == conversationId && !m.isRead && m.senderId != userId then 1 else 0)
  {
    FilterAppend(rows, m, (m: Messages.Message) => m.conversationId == conversationId && !m.isRead && m.senderId != userId);
  }

  /** Once a user has seen a conversation, its unread count for that user is zero. */
  lemma SeenClearsUnread(rows: seq<Messages.Message>, conversationId: Id, readerId: Id, now: int)
    requires Messages.ReadIsFlagged(rows)
    ensures UnreadCount(Messages.MarkAllRead(rows, conversationId, readerId, now), conversationId, readerId) == 0
  {
    Messages.AllOthersReadAfterMark(rows, conversationId, readerId, now);
  }

  /** The last-message rule of the conversation list: the message of the conversation
      that comes last in the table, or nothing when it has none. */
  function LastMessage(rows: seq<Messages.Message>, conversationId: Id): (r: Option<Messages.Message>)
    ensures r.Some? ==> r.value in rows && r.value.conversationId == conversationId
    ensures r.None? <==> forall m :: m in rows ==> m.conversationId != conversationId
  {
    var mine := Filter(rows, (m: Messages.Message) => m.conversationId == conversationId);
    assert mine != [] ==> mine[0] in mine && mine[|mine| - 1] in mine;
    if mine == [] then None else Some(mine[|mine| - 1])
  }

  /** On a table in id order, the last message is the conversation's message with the largest id. */
  lemma LastMessageHasMaxId(rows: seq<Messages.Message>, conversationId: Id)
    requires Increasing(rows, Messages.IdOf)
    ensures LastMessage(rows, conversationId).Some? ==>
              forall m :: m in rows && m.conversationId == conversationId ==> m.id <= LastMessage(rows, conversationId).value.id
  {
    var keep := (m: Messages.Message) => m.conversationId == conversationId;
    var mine := Filter(rows, keep);
    FilterKeepsIncreasing(rows, keep, Messages.IdOf);
    forall m | m in rows && m.conversationId == conversationId
      ensures m.id <= mine[|mine| - 1].id
    {
      assert m in mine;
      var i :| 0 <= i < |mine| && mine[i] == m;
      if i < |mine| - 1 {
        assert Messages.IdOf(mine[i]) < Messages.IdOf(mine[|mine| - 1]);
      }
    }
  }

  class ConversationTable {
    var conversations: seq<Conversation>
    var participants: seq<Participant>
    var nextId: Id

    function Snapshot(): Tables
      reads this
    {
      Tables(conversations, participants, nextId)
    }

    ghost predicate Valid()
      reads this
    {
      BelowCounter(Snapshot())
    }

    constructor ()
      ensures Valid() && conversations == [] && participants == [] && nextId == 1
    {
      conversations := [];
      participants := [];
      nextId := 1;
    }

    /** `findOrCreateOneOnOne`: return an existing individual conversation of the two users,
        or create one in a transaction that is rolled back when the participant insert fails. */
    method FindOrCreateOneOnOne(user1: Id, user2: Id, insertFails: bool) returns (r: Option<Id>)
      requires Valid()
      modifies this
      ensures Valid()
      ensures (r, Snapshot()) == FindOrCreate(old(Snapshot()), user1, user2, insertFails)
    {
      FindOrCreateOutcome(Snapshot(), user1, user2, insertFails);
      var found := Existing(Snapshot(), user1, user2);
      if found.Some? {
        return Some(found.value.id);
      }
      var saved := Snapshot();
      var conversationId := nextId;
      conversations := conversations + [Conversation(conversationId, Individual)];
      nextId := nextId + 1;
      if insertFails {
        // rollback: the rows go, the auto-increment value stays used
        conversations, participants := saved.conversations, saved.participants;
        return None;
      }
      participants := participants + [Participant(conversationId, user1), Participant(conversationId, user2)];
      r := Some(conversationId);
    }

    /** `delete`: remove the conversation row with that id; participant rows are left as they are. */
    method Delete(conversationId: Id)
      requires Valid()
      modifies this`conversations
      ensures Valid()
      ensures forall c :: c in conversations <==> c in old(conversations) && c.id != conversationId
    {
      conversations := Filter(conversations, (c: Conversation) => c.id != conversationId);
    }
  }
}
