/** The `messages` table: insertion with status `sent`, cursor pagination,
    single-row status updates, the bulk read-marking of a conversation, and deletion. */
module Messages {
  import opened Common

  /** Delivery state of a message (the column's ENUM). */
  datatype Status = Sent | Delivered | Read

  /** One row of `messages`. `kind` is the `type` column; a missing value is None (SQL NULL). */
  datatype Message = Message(
    id: Id,
    conversationId: Id,
    senderId: Id,
    content: Option<string>,
    kind: string,
    fileUrl: Option<string>,
    status: Status,
    isRead: bool,
    createdAt: int,
    deliveredAt: Option<int>,
    readAt: Option<int>)

  function IdOf(m: Message): int { m.id }

  /** `type` when the caller gives none: the default parameter `type = 'text'`. */
  function KindOrDefault(kind: Option<string>): string
  {
    if kind.Some? then kind.value else "text"
  }

  /** The row `create` inserts under id `id` at time `now`. */
  function NewRow(id: Id, conversationId: Id, senderId: Id, content: Option<string>,
                  kind: Option<string>, fileUrl: Option<string>, now: int): Message
  {
    Message(id, conversationId, senderId, content, KindOrDefault(kind), fileUrl,
            Sent, false, now, None, None)
  }

  /** A row whose status is `read` has its read flag set. */
  ghost predicate ReadIsFlagged(rows: seq<Message>)
  {
    forall m :: m in rows && m.status == Read ==> m.isRead
  }

  // ---------------------------------------------------------------------------
  // Queries

  /** `findById`: the row with that id, or nothing. */
  function FindById(rows: seq<Message>, messageId: Id): (r: Option<Message>)
    ensures r.Some? ==> r.value in rows && r.value.id == messageId
    ensures r.None? <==> forall m :: m in rows ==> m.id != messageId
  {
    FindFirst(rows, (m: Message) => m.id == messageId)
  }

  /** A cursor bounds the page only when it is truthy: null, 0 and NaN (None) do not. */
  predicate CursorSet(cursor: Option<int>)
  {
    cursor.Some? && cursor.value != 0
  }

  predicate Qualifies(m: Message, conversationId: Id, cursor: Option<int>)
  {
    m.conversationId == conversationId && (CursorSet(cursor) ==> m.id < cursor.value)
  }

  /** The WHERE clause of `getByConversationId` as a row predicate. */
  function WhereClause(conversationId: Id, cursor: Option<int>): Message -> bool
  {
    (m: Message) => Qualifies(m, conversationId, cursor)
  }

  /** The rows of the WHERE clause of `getByConversationId`, in table (id) order. */
  function Candidates(rows: seq<Message>, conversationId: Id, cursor: Option<int>): seq<Message>
  {
    Filter(rows, WhereClause(conversationId, cursor))
  }

  /** `getByConversationId`: ORDER BY id DESC LIMIT `limit`, then reversed to chronological order. */
  function Page(rows: seq<Message>, conversationId: Id, limit: nat, cursor: Option<int>): (r: seq<Message>)
    ensures |r| <= limit
    ensures forall m :: m in r ==> m in rows && m.conversationId == conversationId
    ensures CursorSet(cursor) ==> forall m :: m in r ==> m.id < cursor.value
  {
    var newestFirst := Reverse(Candidates(rows, conversationId, cursor));
    var taken := Take(newestFirst, limit);
    assert forall m :: m in taken ==> m in newestFirst by {
      forall m | m in taken ensures m in newestFirst {
        var k :| 0 <= k < |taken| && taken[k] == m;
        assert newestFirst[k] == m;
      }
    }
    ReverseMembers(Candidates(rows, conversationId, cursor));
    ReverseMembers(taken);
    Reverse(taken)
  }

  /** On a table in id order, a page is the newest `limit` qualifying rows, oldest first:
      exactly the last min(limit, n) of the n candidates, in ascending id order, and every
      candidate left out is older than every row returned. */
  lemma {:induction false} PageIsNewestSuffix(rows: seq<Message>, conversationId: Id, limit: nat, cursor: Option<int>)
    requires Increasing(rows, IdOf)
    ensures var q := Candidates(rows, conversationId, cursor);
            var r := Page(rows, conversationId, limit, cursor);
            && |r| == (if |q| <= limit then |q| else limit)
            && r == q[|q| - |r|..]
            && Increasing(r, IdOf)
            && forall m, p :: m in q && m !in r && p in r ==> m.id < p.id
  {
    var q := Candidates(rows, conversationId, cursor);
    var k := if |q| <= limit then |q| else limit;
    PageIsSuffix(rows, conversationId, limit, cursor);
    FilterKeepsIncreasing(rows, WhereClause(conversationId, cursor), IdOf);
    SuffixIsNewest(q, |q| - k);
  }

  /** A page is the last min(limit, n) of the n candidates. */
  lemma PageIsSuffix(rows: seq<Message>, conversationId: Id, limit: nat, cursor: Option<int>)
    ensures var q := Candidates(rows, conversationId, cursor);
            var k := if |q| <= limit then |q| else limit;
            Page(rows, conversationId, limit, cursor) == q[|q| - k..]
  {
    ReverseTakeReverse(Candidates(rows, conversationId, cursor), limit);
  }

  /** A suffix of an id-ordered sequence is id-ordered, and holds the largest ids. */
  lemma SuffixIsNewest(q: seq<Message>, start: nat)
    requires Increasing(q, IdOf) && start <= |q|
    ensures Increasing(q[start..], IdOf)
    ensures forall m, p :: m in q && m !in q[start..] && p in q[start..] ==> m.id < p.id
  {
    var r := q[start..];
    forall i, j | 0 <= i < j < |r| ensures IdOf(r[i]) < IdOf(r[j]) {
      assert r[i] == q[start + i] && r[j] == q[start + j];
    }
    forall m, p | m in q && m !in r && p in r ensures m.id < p.id {
      var a :| 0 <= a < |q| && q[a] == m;
      var b :| 0 <= b < |r| && r[b] == p;
      assert p == q[start + b];
    }
  }

  /** The row after `updateStatus(_, status)` at time `now`: the status is overwritten with no
      check of the previous one; only `delivered` stamps `delivered_at`; only `read` stamps
      `read_at` and sets `is_read`; every other column is kept. */
  function StatusUpdated(m: Message, status: Status, now: int): (r: Message)
    ensures r.status == status
    ensures r.id == m.id && r.conversationId == m.conversationId && r.senderId == m.senderId
    ensures r.content == m.content && r.kind == m.kind && r.fileUrl == m.fileUrl && r.createdAt == m.createdAt
    ensures r.deliveredAt == if status == Delivered then Some(now) else m.deliveredAt
    ensures r.readAt == if status == Read then Some(now) else m.readAt
    ensures r.isRead == (status == Read || m.isRead)
  {
    match status
    case Delivered => m.(status := Delivered, deliveredAt := Some(now))
    case Read => m.(status := Read, readAt := Some(now), isRead := true)
    case Sent => m.(status := Sent)
  }

  /** No monotonic guard: a `delivered` receipt for a message already `read` moves it back. */
  lemma DeliveredOverwritesRead(m: Message, now: int)
    requires m.status == Read
    ensures StatusUpdated(m, Delivered, now).status == Delivered
    ensures StatusUpdated(m, Delivered, now).isRead == m.isRead
  {
  }

  /** One row after `markAsRead(conversationId, readerId)`: an unread-status row of that
      conversation written by someone else becomes `read`; any other row is untouched. */
  function MarkedRead(m: Message, conversationId: Id, readerId: Id, now: int): Message
  {
    if m.conversationId == conversationId && m.senderId != readerId && m.status != Read
    then m.(isRead := true, status := Read, readAt := Some(now))
    else m
  }

  /** The table after `markAsRead`: ids and order kept; every message of the conversation
      not written by the reader is `read`, and one not yet `read` gets the flag and the read
      time; rows already `read` and every other row are unchanged; only the status, the flag
      and the read time ever change. */
  function MarkAllRead(rows: seq<Message>, conversationId: Id, readerId: Id, now: int): (r: seq<Message>)
    ensures |r| == |rows|
    ensures forall i :: 0 <= i < |rows| ==> r[i].(status := rows[i].status, isRead := rows[i].isRead, readAt := rows[i].readAt) == rows[i]
    ensures forall i :: 0 <= i < |rows| && rows[i].status == Read ==> r[i] == rows[i]
    ensures forall i ::
              (0 <= i < |rows| && rows[i].conversationId == conversationId && rows[i].senderId != readerId && rows[i].status != Read)
              ==> r[i].isRead && r[i].readAt == Some(now)
    ensures forall i ::
              (0 <= i < |rows| && rows[i].conversationId == conversationId && rows[i].senderId != readerId)
              ==> r[i].status == Read
    ensures forall i ::
              (0 <= i < |rows| && (rows[i].conversationId != conversationId || rows[i].senderId == readerId))
              ==> r[i] == rows[i]
  {
    seq(|rows|, i requires 0 <= i < |rows| => MarkedRead(rows[i], conversationId, readerId, now))
  }

  /** After `markAsRead(c, r)` on a table where `read` implies the flag, every message of c
      that r did not write is `read` with `is_read` set, and the invariant still holds. */
  lemma AllOthersReadAfterMark(rows: seq<Message>, conversationId: Id, readerId: Id, now: int)
    requires ReadIsFlagged(rows)
    ensures var after := MarkAllRead(rows, conversationId, readerId, now);
            && ReadIsFlagged(after)
            && forall m ::
                 (m in after && m.conversationId == conversationId && m.senderId != readerId)
                 ==> m.status == Read && m.isRead
  {
    var after := MarkAllRead(rows, conversationId, readerId, now);
    forall m | m in after ensures m.status == Read ==> m.isRead {
      var i :| 0 <= i < |after| && after[i] == m;
      assert after[i] == MarkedRead(rows[i], conversationId, readerId, now);
      assert rows[i] in rows;
    }
  }

  /** `markAsRead` is idempotent: rows already `read` are not rewritten, so a second call,
      even at a later time, changes nothing. */
  lemma MarkAllReadIdempotent(rows: seq<Message>, conversationId: Id, readerId: Id, now: int, later: int)
    ensures var once := MarkAllRead(rows, conversationId, readerId, now);
            MarkAllRead(once, conversationId, readerId, later) == once
  {
    var once := MarkAllRead(rows, conversationId, readerId, now);
    var twice := MarkAllRead(once, conversationId, readerId, later);
    forall i | 0 <= i < |rows| ensures twice[i] == once[i] {
      assert once[i] == MarkedRead(rows[i], conversationId, readerId, now);
      assert twice[i] == MarkedRead(once[i], conversationId, readerId, later);
    }
  }

  /** `delete`: the table without the row of that id. */
  function WithoutMessage(rows: seq<Message>, messageId: Id): (r: seq<Message>)
    ensures forall m :: m in r <==> m in rows && m.id != messageId
  {
    Filter(rows, (m: Message) => m.id != messageId)
  }

  /** `deleteByConversation`: the table without the rows of that conversation. */
  function WithoutConversation(rows: seq<Message>, conversationId: Id): (r: seq<Message>)
    ensures forall m :: m in r <==> m in rows && m.conversationId != conversationId
  {
    Filter(rows, (m: Message) => m.conversationId != conversationId)
  }

  // ---------------------------------------------------------------------------
  // The table

  class MessageTable {
    var rows: seq<Message>
    var nextId: Id

    /** Rows are in id order (auto-increment), every id is below the counter,
        and `read` rows carry the read flag. */
    ghost predicate Valid()
      reads this
    {
      && Increasing(rows, IdOf)
      && (forall m :: m in rows ==> m.id < nextId)
      && ReadIsFlagged(rows)
    }

    constructor ()
      ensures Valid() && rows == [] && nextId == 1
    {
      rows := [];
      nextId := 1;
    }

    /** `create`: insert one row with status `sent` under a fresh id and return it. */
    method Create(conversationId: Id, senderId: Id, content: Option<string>, kind: Option<string>,
                  fileUrl: Option<string>, now: int) returns (m: Message)
      requires Valid()
      modifies this
      ensures Valid()
      ensures m == NewRow(old(nextId), conversationId, senderId, content, kind, fileUrl, now)
      ensures m.status == Sent && !m.isRead && m.kind == KindOrDefault(kind) && m.fileUrl == fileUrl
      ensures forall old_m :: old_m in old(rows) ==> old_m.id < m.id
      ensures rows == old(rows) + [m] && nextId == old(nextId) + 1
    {
      m := NewRow(nextId, conversationId, senderId, content, kind, fileUrl, now);
      rows := rows + [m];
      nextId := nextId + 1;
    }

    /** `updateStatus`: rewrite the status of the row with that id; every other row is unchanged. */
    method UpdateStatus(messageId: Id, status: Status, now: int)
      requires Valid()
      modifies this`rows
      ensures Valid()
      ensures |rows| == |old(rows)|
      ensures forall i :: 0 <= i < |rows| ==>
                rows[i] == if old(rows)[i].id == messageId then StatusUpdated(old(rows)[i], status, now) else old(rows)[i]
    {
      var before := rows;
      rows := seq(|before|, i requires 0 <= i < |before| =>
                if before[i].id == messageId then StatusUpdated(before[i], status, now) else before[i]);
      forall m | m in rows ensures m.id < nextId && (m.status == Read ==> m.isRead) {
        var i :| 0 <= i < |rows| && rows[i] == m;
        assert old(rows)[i] in old(rows);
      }
    }

    /** `markAsRead`: the bulk update of one conversation for one reader. */
    method MarkAsRead(conversationId: Id, readerId: Id, now: int)
      requires Valid()
      modifies this`rows
      ensures Valid()
      ensures rows == MarkAllRead(old(rows), conversationId, readerId, now)
    {
      AllOthersReadAfterMark(rows, conversationId, readerId, now);
      rows := MarkAllRead(rows, conversationId, readerId, now);
      forall m | m in rows ensures m.id < nextId {
        var i :| 0 <= i < |rows| && rows[i] == m;
        assert old(rows)[i] in old(rows);
      }
    }

    /** `delete`: remove the row with that id. */
    method Delete(messageId: Id)
      requires Valid()
      modifies this`rows
      ensures Valid()
      ensures rows == WithoutMessage(old(rows), messageId)
    {
      FilterKeepsIncreasing(rows, (m: Message) => m.id != messageId, IdOf);
      rows := WithoutMessage(rows, messageId);
    }

    /** `deleteByConversation`: remove every row of that conversation. */
    method DeleteByConversation(conversationId: Id)
      requires Valid()
      modifies this`rows
      ensures Valid()
      ensures rows == WithoutConversation(old(rows), conversationId)
    {
      FilterKeepsIncreasing(rows, (m: Message) => m.conversationId != conversationId, IdOf);
      rows := WithoutConversation(rows, conversationId);
    }
  }
}
