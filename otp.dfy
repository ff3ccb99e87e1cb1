/** The `otp_sessions` table: one pending one-time code per phone number, overwritten on
    every issue, and consumed by the first successful verification. */
module Otp {
  import opened Common

  /** How long an issued code is meant to live: five minutes, in milliseconds. */
  const Lifetime: int := 5 * 60 * 1000

  datatype Session = Session(otp: string, expiresAt: int)

  type Sessions = map<string, Session>

  /** The session's expiry has passed. Verification computes this and then ignores it. */
  predicate Expired(s: Session, now: int)
  {
    now > s.expiresAt
  }

  /** What `verify` accepts: a session exists for the phone number and the submitted code
      is exactly its code. Expiry plays no part. */
  predicate Accepts(sessions: Sessions, phoneNumber: string, otp: Option<string>)
  {
    phoneNumber in sessions && otp == Some(sessions[phoneNumber].otp)
  }

  /** The two operations on the table. */
  datatype OtpOp =
    | Issue(phoneNumber: string, otp: string, now: int)
    | Check(phoneNumber: string, submitted: Option<string>, now: int)

  /** One operation: the table afterwards and, for a check, whether it succeeded. */
  function Step(sessions: Sessions, op: OtpOp): (r: (Sessions, bool))
    ensures op.Issue? ==> !r.1 && r.0.Keys == sessions.Keys + {op.phoneNumber}
    ensures op.Issue? ==> r.0[op.phoneNumber] == Session(op.otp, op.now + Lifetime)
    ensures op.Check? ==> r.1 == Accepts(sessions, op.phoneNumber, op.submitted)
    ensures op.Check? && r.1 ==> r.0 == sessions - {op.phoneNumber}
    ensures op.Check? && !r.1 ==> r.0 == sessions
  {
    match op
    case Issue(p, otp, now) => (sessions[p := Session(otp, now + Lifetime)], false)
    case Check(p, submitted, _) =>
      if Accepts(sessions, p, submitted) then (sessions - {p}, true) else (sessions, false)
  }

  /** A successful verification consumes the session: the same code cannot verify twice. */
  lemma SingleUse(sessions: Sessions, phoneNumber: string, otp: Option<string>, now: int, later: int)
    requires Accepts(sessions, phoneNumber, otp)
    ensures var (after, ok) := Step(sessions, Check(phoneNumber, otp, now));
            ok && !Step(after, Check(phoneNumber, otp, later)).1
  {
  }

  /** Issuing a new code for a phone number makes an earlier, different code fail. */
  lemma ReissueInvalidatesEarlierCode(sessions: Sessions, phoneNumber: string, earlier: string, newer: string, now: int, later: int)
    requires earlier != newer
    ensures var (after, _) := Step(sessions, Issue(phoneNumber, newer, now));
            !Step(after, Check(phoneNumber, Some(earlier), later)).1
  {
  }

  /** An expired code that matches is still accepted. */
  lemma ExpiredCodeAccepted(phoneNumber: string, otp: string, issuedAt: int, later: int)
    requires later > issuedAt + Lifetime
    ensures var (after, _) := Step(map[], Issue(phoneNumber, otp, issuedAt));
            Expired(after[phoneNumber], later) && Step(after, Check(phoneNumber, Some(otp), later)).1
  {
  }

  /** How many checks for `phoneNumber` in `ops`, run from `sessions`, succeed. */
  function Successes(sessions: Sessions, ops: seq<OtpOp>, phoneNumber: string): nat
    decreases |ops|
  {
    if ops == [] then 0
    else
      var (after, ok) := Step(sessions, ops[0]);
      (if ok && ops[0].phoneNumber == phoneNumber then 1 else 0) + Successes(after, ops[1..], phoneNumber)
  }

  /** How many codes `ops` issues for `phoneNumber`. */
  function Issues(ops: seq<OtpOp>, phoneNumber: string): nat
  {
    if ops == [] then 0
    else (if ops[0].Issue? && ops[0].phoneNumber == phoneNumber then 1 else 0) + Issues(ops[1..], phoneNumber)
  }

  /** Single use over any history: a phone number verifies successfully at most once per code
      issued for it (plus once for a session already pending at the start). */
  lemma {:induction false} AtMostOneLoginPerIssue(sessions: Sessions, ops: seq<OtpOp>, phoneNumber: string)
    ensures Successes(sessions, ops, phoneNumber)
              <= Issues(ops, phoneNumber) + (if phoneNumber in sessions then 1 else 0)
    decreases |ops|
  {
    if ops != [] {
      var (after, ok) := Step(sessions, ops[0]);
      AtMostOneLoginPerIssue(after, ops[1..], phoneNumber);
    }
  }

  class OtpTable {
    var sessions: Sessions

    constructor ()
      ensures sessions == map[]
    {
      sessions := map[];
    }

    /** `createOrUpdate`: store `otp` for the phone number, expiring five minutes after `now`,
        replacing any earlier session. */
    method CreateOrUpdate(phoneNumber: string, otp: string, now: int)
      modifies this
      ensures (sessions, false) == Step(old(sessions), Issue(phoneNumber, otp, now))
      ensures sessions == old(sessions)[phoneNumber := Session(otp, now + Lifetime)]
    {
      var expiresAt := now + Lifetime;
      if phoneNumber in sessions {
        sessions := sessions[phoneNumber := sessions[phoneNumber].(otp := otp, expiresAt := expiresAt)];
      } else {
        sessions := sessions[phoneNumber := Session(otp, expiresAt)];
      }
    }

    /** `verify`: false when there is no session or the code differs (the session stays);
        otherwise the session is deleted and the answer is true, expired or not. */
    method Verify(phoneNumber: string, otp: Option<string>, now: int) returns (ok: bool)
      modifies this
      ensures (sessions, ok) == Step(old(sessions), Check(phoneNumber, otp, now))
      ensures ok <==> Accepts(old(sessions), phoneNumber, otp)
    {
      if phoneNumber !in sessions {
        return false;
      }
      var session := sessions[phoneNumber];
      if otp != Some(session.otp) {
        return false;
      }
      if Expired(session, now) {
        // the rejection of expired codes is disabled: fall through and accept
      }
      sessions := sessions - {phoneNumber};
      return true;
    }
  }
}
