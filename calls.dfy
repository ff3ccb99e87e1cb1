/** The `calls` table: a call record is created as `initiated`, its status is overwritten on
    request, and the history of a user lists that user's calls, newest start first. */
module Calls {
  import opened Common

  /** The status column; `updateStatus` accepts any of them in any order. */
  datatype CallStatus = Initiated | Ongoing | Ended | Missed

  datatype Call = Call(id: Id, callerId: Id, receiverId: Id, status: CallStatus, startTime: int, endTime: Option<int>)

  /** The row after `updateStatus(_, status)` at time `now`: only `ended` and `missed`
      stamp the end time; every other status leaves it as it was. */
  function CallStatusUpdated(c: Call, status: CallStatus, now: int): (r: Call)
    ensures r.status == status
    ensures r.id == c.id && r.callerId == c.callerId && r.receiverId == c.receiverId && r.startTime == c.startTime
    ensures r.endTime == if status == Ended || status == Missed then Some(now) else c.endTime
  {
    if status == Ended || status == Missed then c.(status := status, endTime := Some(now))
    else c.(status := status)
  }

  predicate Involves(c: Call, userId: Id)
  {
    c.callerId == userId || c.receiverId == userId
  }

  /** Start times never increase along `s`. */
  ghost predicate NewestFirst(s: seq<Call>)
  {
    forall i, j :: 0 <= i < j < |s| ==> s[i].startTime >= s[j].startTime
  }

  /** A call no older than every call of a newest-first sequence can lead it. */
  lemma PrependNewest(c: Call, s: seq<Call>)
    requires NewestFirst(s)
    requires forall x :: x in s ==> x.startTime <= c.startTime
    ensures NewestFirst([c] + s)
  {
    var r := [c] + s;
    forall i, j | 0 <= i < j < |r| ensures r[i].startTime >= r[j].startTime {
      assert r[j] == s[j - 1];
      if i > 0 {
        assert r[i] == s[i - 1];
      } else {
        assert s[j - 1] in s;
      }
    }
  }

  /** The tail of a newest-first sequence is newest-first, and its head is the newest. */
  lemma TailNewest(s: seq<Call>)
    requires NewestFirst(s)
    ensures s != [] ==> NewestFirst(s[1..])
    ensures s != [] ==> forall x :: x in s ==> x.startTime <= s[0].startTime
  {
    if s != [] {
      forall i, j | 0 <= i < j < |s[1..]| ensures s[1..][i].startTime >= s[1..][j].startTime {
        assert s[1..][i] == s[i + 1] && s[1..][j] == s[j + 1];
      }
      forall x | x in s ensures x.startTime <= s[0].startTime {
        var k :| 0 <= k < |s| && s[k] == x;
      }
    }
  }

  /** Place `c` into a newest-first sequence, before the first call that started no later. */
  function Insert(c: Call, s: seq<Call>): (r: seq<Call>)
    requires NewestFirst(s)
    ensures NewestFirst(r)
    ensures multiset(r) == multiset(s) + multiset{c}
  {
    if s == [] || c.startTime >= s[0].startTime then
      TailNewest(s);
      PrependNewest(c, s);
      [c] + s
    else
      TailNewest(s);
      var rest := Insert(c, s[1..]);
      assert s == [s[0]] + s[1..];
      assert forall x :: x in rest ==> x.startTime <= s[0].startTime by {
        forall x | x in rest ensures x.startTime <= s[0].startTime {
          assert x in multiset(rest);
        }
      }
      PrependNewest(s[0], rest);
      [s[0]] + rest
  }

  /** ORDER BY start_time DESC, as an insertion sort: newest first, same calls. */
  function SortNewestFirst(s: seq<Call>): (r: seq<Call>)
    ensures NewestFirst(r)
    ensures multiset(r) == multiset(s)
  {
    if s == [] then []
    else
      assert s == [s[0]] + s[1..];
      Insert(s[0], SortNewestFirst(s[1..]))
  }

  /** `getHistory(userId)`: exactly the calls in which the user is caller or receiver
      (as many times as the table holds them), ordered by start time, newest first. */
  function History(rows: seq<Call>, userId: Id): (r: seq<Call>)
    ensures NewestFirst(r)
    ensures forall c :: c in r <==> c in rows && Involves(c, userId)
    ensures multiset(r) == multiset(Filter(rows, (c: Call) => Involves(c, userId)))
  {
    var mine := Filter(rows, (c: Call) => Involves(c, userId));
    var r := SortNewestFirst(mine);
    assert forall c :: c in r <==> c in multiset(mine);
    r
  }

  class CallTable {
    var rows: seq<Call>
    var nextId: Id

    ghost predicate Valid()
      reads this
    {
      forall c :: c in rows ==> c.id < nextId
    }

    constructor ()
      ensures Valid() && rows == [] && nextId == 1
    {
      rows := [];
      nextId := 1;
    }

    /** `create`: insert an `initiated` call started at `now`; return its fresh id. */
    method Create(callerId: Id, receiverId: Id, now: int) returns (id: Id)
      requires Valid()
      modifies this
      ensures Valid()
      ensures id == old(nextId) && nextId == old(nextId) + 1
      ensures forall c :: c in old(rows) ==> c.id != id
      ensures rows == old(rows) + [Call(id, callerId, receiverId, Initiated, now, None)]
    {
      id := nextId;
      rows := rows + [Call(id, callerId, receiverId, Initiated, now, None)];
      nextId := nextId + 1;
    }

    /** `updateStatus`: overwrite the status of the call with that id, whatever it was;
        every other row is unchanged. */
    method UpdateStatus(callId: Id, status: CallStatus, now: int)
      requires Valid()
      modifies this`rows
      ensures Valid()
      ensures |rows| == |old(rows)|
      ensures forall i :: 0 <= i < |rows| ==>
                rows[i] == if old(rows)[i].id == callId then CallStatusUpdated(old(rows)[i], status, now) else old(rows)[i]
    {
      var before := rows;
      if status == Ended || status == Missed {
        rows := seq(|before|, i requires 0 <= i < |before| =>
                  if before[i].id == callId then before[i].(status := status, endTime := Some(now)) else before[i]);
      } else {
        rows := seq(|before|, i requires 0 <= i < |before| =>
                  if before[i].id == callId then before[i].(status := status) else before[i]);
      }
      forall c | c in rows ensures c.id < nextId {
        var i :| 0 <= i < |rows| && rows[i] == c;
        assert before[i] in before;
      }
    }
  }
}
