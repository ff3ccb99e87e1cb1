/** The login handlers of `controllers/authController.js`: issuing a one-time code, verifying
    it and finding or creating the user, and the profile update. */
module AuthController {
  import opened Common
  import Users
  import Otp

  const InvalidOtp: string := "Invalid or expired OTP"

  // ---------------------------------------------------------------------------
  // String.prototype.trim

  /** The characters JavaScript's `trim` removes: the white space and line terminator
      characters of ECMAScript. */
  predicate IsJsWhitespace(c: char)
  {
    || c == '\t' || c == '\n' || c == '\U{000B}' || c == '\U{000C}' || c == '\r' || c == ' '
    || c == '\U{00A0}' || c == '\U{1680}' || ('\U{2000}' <= c <= '\U{200A}')
    || c == '\U{2028}' || c == '\U{2029}' || c == '\U{202F}' || c == '\U{205F}'
    || c == '\U{3000}' || c == '\U{FEFF}'
  }

  predicate AllWhitespace(s: string)
  {
    forall i :: 0 <= i < |s| ==> IsJsWhitespace(s[i])
  }

  /** Neither end of `s` is white space. */
  predicate Unpadded(s: string)
  {
    s != [] ==> !IsJsWhitespace(s[0]) && !IsJsWhitespace(s[|s| - 1])
  }

  /** `s` without its leading white space. */
  function TrimStart(s: string): (r: string)
    ensures |r| <= |s| && r == s[|s| - |r|..]
    ensures AllWhitespace(s[..|s| - |r|])
    ensures r != [] ==> !IsJsWhitespace(r[0])
  {
    if s != [] && IsJsWhitespace(s[0]) then
      var r := TrimStart(s[1..]);
      assert s[..|s| - |r|] == [s[0]] + s[1..][..|s| - 1 - |r|];
      r
    else s
  }

  /** `s` without its trailing white space. */
  function TrimEnd(s: string): (r: string)
    ensures |r| <= |s| && r == s[..|r|]
    ensures AllWhitespace(s[|r|..])
    ensures r != [] ==> !IsJsWhitespace(r[|r| - 1])
  {
    if s != [] && IsJsWhitespace(s[|s| - 1]) then
      var r := TrimEnd(s[..|s| - 1]);
      assert s[|r|..] == s[..|s| - 1][|r|..] + [s[|s| - 1]];
      r
    else s
  }

  /** `trim`: a piece of `s` with no white space at either end, with only white space
      cut away around it. */
  function Trim(s: string): (r: string)
    ensures Unpadded(r)
    ensures |r| <= |s|
  {
    var t := TrimStart(s);
    var r := TrimEnd(t);
    assert r != [] ==> r[0] == t[0];
    r
  }

  lemma {:induction false} TrimStartPadded(pad: string, rest: string)
    requires AllWhitespace(pad)
    requires rest != [] ==> !IsJsWhitespace(rest[0])
    ensures TrimStart(pad + rest) == rest
    decreases |pad|
  {
    if pad != [] {
      assert (pad + rest)[1..] == pad[1..] + rest;
      TrimStartPadded(pad[1..], rest);
    }
  }

  lemma {:induction false} TrimEndPadded(rest: string, pad: string)
    requires AllWhitespace(pad)
    requires rest != [] ==> !IsJsWhitespace(rest[|rest| - 1])
    ensures TrimEnd(rest + pad) == rest
    decreases |pad|
  {
    if pad != [] {
      assert (rest + pad)[..|rest + pad| - 1] == rest + pad[..|pad| - 1];
      TrimEndPadded(rest, pad[..|pad| - 1]);
    }
  }

  /** `trim` gives back exactly the unpadded text between any white space padding; so
      trimming twice is trimming once. */
  lemma TrimPadded(before: string, core: string, after: string)
    requires AllWhitespace(before) && AllWhitespace(after) && Unpadded(core)
    ensures Trim(before + core + after) == core
    ensures Trim(core) == core
  {
    if core == [] {
      assert before + core + after == (before + after) + [];
      TrimStartPadded(before + after, []);
    } else {
      assert before + core + after == before + (core + after);
      TrimStartPadded(before, core + after);
      TrimEndPadded(core, after);
    }
    TrimStartPadded([], core);
    TrimEndPadded(core, []);
    assert core + [] == core;
  }

  /** `otp?.toString().trim()`: a missing code stays missing. */
  function CleanOtp(otp: Option<string>): (r: Option<string>)
    ensures r.None? <==> otp.None?
    ensures r.Some? ==> Unpadded(r.value)
  {
    if otp.None? then None else Some(Trim(otp.value))
  }

  /** A code submitted with white space around it verifies as the code itself. */
  lemma PaddedCodeAccepted(sessions: Otp.Sessions, phoneNumber: string, before: string, code: string, after: string)
    requires Otp.Accepts(sessions, phoneNumber, Some(code)) && Unpadded(code)
    requires AllWhitespace(before) && AllWhitespace(after)
    ensures Otp.Accepts(sessions, phoneNumber, CleanOtp(Some(before + code + after)))
  {
    TrimPadded(before, code, after);
  }

  // ---------------------------------------------------------------------------
  // sendOtp

  /** `!phoneNumber`: an absent or empty phone number is refused. */
  predicate PhoneMissing(phoneNumber: Option<string>)
  {
    phoneNumber.None? || phoneNumber.value == ""
  }

  /** The reply body of `sendOtp`; it carries the code itself. */
  datatype OtpSent = OtpSent(message: string, devOtp: string)

  /** `sendOtp`, given the code it generated: 400 with no session for a missing phone number;
      otherwise the code is stored for five minutes, replacing any earlier one, and returned. */
  method SendOtp(otps: Otp.OtpTable, phoneNumber: Option<string>, code: string, now: int) returns (r: Reply<OtpSent>)
    modifies otps
    ensures PhoneMissing(phoneNumber) ==>
              r == Fail(400, "Phone number is required") && otps.sessions == old(otps.sessions)
    ensures !PhoneMissing(phoneNumber) ==>
              && r == Json(OtpSent("OTP sent successfully", code))
              && otps.sessions == old(otps.sessions)[phoneNumber.value := Otp.Session(code, now + Otp.Lifetime)]
  {
    if PhoneMissing(phoneNumber) {
      return Fail(400, "Phone number is required");
    }
    otps.CreateOrUpdate(phoneNumber.value, code, now);
    r := Json(OtpSent("OTP sent successfully", code));
  }

  // ---------------------------------------------------------------------------
  // verifyOtp

  /** The reply of a successful login: the signed token's payload and the user row. */
  datatype Login = Login(token: Users.Claims, user: Users.User)

  /** Whether `verifyOtp` accepts: the trimmed code matches the phone number's session. */
  predicate LoginAccepted(sessions: Otp.Sessions, phoneNumber: Option<string>, otp: Option<string>)
  {
    phoneNumber.Some? && Otp.Accepts(sessions, phoneNumber.value, CleanOtp(otp))
  }

  /** `verifyOtp`. A rejected code answers 400 and changes nothing. An accepted code consumes
      the session; the user with that phone number is reused, or else exactly one user is
      created for it; the token carries exactly that user's id and phone number. */
  method VerifyOtp(otps: Otp.OtpTable, users: Users.UserTable, phoneNumber: Option<string>, otp: Option<string>, now: int)
      returns (r: Reply<Login>)
    requires users.Valid()
    modifies otps, users
    ensures users.Valid()
    ensures !LoginAccepted(old(otps.sessions), phoneNumber, otp) ==>
              && r == Fail(400, InvalidOtp)
              && otps.sessions == old(otps.sessions)
              && users.rows == old(users.rows) && users.nextId == old(users.nextId)
    ensures LoginAccepted(old(otps.sessions), phoneNumber, otp) ==>
              var existing := Users.FindByPhone(old(users.rows), phoneNumber.value);
              && otps.sessions == old(otps.sessions) - {phoneNumber.value}
              && r.Json?
              && r.body.token == Users.Claims(r.body.user.id, r.body.user.phoneNumber)
              && r.body.user.phoneNumber == phoneNumber.value
              && r.body.user in users.rows
              && (existing.Some? ==>
                    r.body.user == existing.value && users.rows == old(users.rows) && users.nextId == old(users.nextId))
              && (existing.None? ==>
                    && r.body.user == Users.User(old(users.nextId), phoneNumber.value, None, None)
                    && users.rows == old(users.rows) + [r.body.user])
  {
    if phoneNumber.None? {
      return Fail(400, InvalidOtp);
    }
    var phone := phoneNumber.value;
    var cleanOtp := CleanOtp(otp);
    var isValid := otps.Verify(phone, cleanOtp, now);
    if !isValid {
      return Fail(400, InvalidOtp);
    }
    var user := Users.FindByPhone(users.rows, phone);
    if user.None? {
      var userId := users.Create(phone);
      user := Users.FindById(users.rows, userId);
    }
    r := Json(Login(Users.Claims(user.value.id, user.value.phoneNumber), user.value));
  }

  // ---------------------------------------------------------------------------
  // updateProfile

  /** `updateProfile`: 404 for a requester with no row; otherwise the username is replaced,
      the profile picture is written back as it was, and the updated row is returned. */
  method UpdateProfile(users: Users.UserTable, requesterId: Id, username: Option<string>) returns (r: Reply<Users.User>)
    requires users.Valid()
    modifies users`rows
    ensures users.Valid()
    ensures Users.FindById(old(users.rows), requesterId).None? ==>
              r == Fail(404, "User not found") && users.rows == old(users.rows)
    ensures Users.FindById(old(users.rows), requesterId).Some? ==>
              var before := Users.FindById(old(users.rows), requesterId).value;
              && users.rows == Users.ProfileUpdated(old(users.rows), requesterId, username, before.profilePicture)
              && r == Json(before.(username := username))
  {
    var current := Users.FindById(users.rows, requesterId);
    if current.None? {
      return Fail(404, "User not found");
    }
    Users.ProfileUpdateIsVisible(users.rows, requesterId, username, current.value.profilePicture);
    users.UpdateProfile(requesterId, username, current.value.profilePicture);
    var updated := Users.FindById(users.rows, requesterId);
    r := Json(updated.value);
  }
}
