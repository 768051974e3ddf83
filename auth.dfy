/** The request gate of middleware/auth.js. `protect` reads a bearer token,
    has it verified, loads the user and refuses a missing, banned or
    deactivated user and a session from another device; on success it
    records the user on the request and passes it on. `authorize` lets a
    request through only for the listed roles. Token verification
    (`verifyAccessToken`) and the user lookup are inputs. */
module Auth {
  import opened Common
  import opened Strings
  import opened ErrorHandler

  datatype Role = Student | Admin

  function RoleName(r: Role): string {
    match r
    case Student => "student"
    case Admin => "admin"
  }

  /** The fields of a user record the gate reads. */
  datatype User = User(id: Id, role: Role, isActive: bool, isBanned: bool, currentDevice: Option<string>)

  /** What `verifyAccessToken(token)` returns or throws: the payload, a
      `TokenExpiredError`, or any other error. */
  datatype Verified = Decoded(userId: Id, deviceId: Option<string>) | Expired | Invalid

  /** The outcome of `protect`: the request goes on with this user, or is
      answered with this reply. */
  datatype Gate = Pass(user: User) | Deny(reply: Reply)

  const NoToken := Reply(401, "Not authorized. No token.", None)
  const NoUser := Reply(401, "User no longer exists.", None)
  const Blocked := Reply(403, "Account is banned or deactivated.", None)
  const DeviceConflict := Reply(401, "Session expired. Logged in from another device.", Some("DEVICE_CONFLICT"))

  /** A JavaScript string that is present and not empty. */
  predicate Truthy(s: Option<string>) {
    s.Some? && s.value != ""
  }

  /** The token of an `Authorization` header: only after `'Bearer '`, the
      second space-separated piece, and only when it is not empty. */
  function BearerToken(header: Option<string>): (t: Option<string>)
    ensures t.Some? ==> header.Some? && StartsWith(header.value, "Bearer ")
    ensures t.Some? ==> t.value != "" && ' ' !in t.value
  {
    if header.Some? && StartsWith(header.value, "Bearer ") then
      var parts := Split(header.value, ' ');
      if |parts| > 1 && parts[1] != "" then Some(parts[1]) else None
    else None
  }

  /** `Bearer <token>` gives back the token. */
  lemma BearerRoundTrip(t: string)
    requires t != "" && ' ' !in t
    ensures BearerToken(Some("Bearer " + t)) == Some(t)
  {
    var parts := ["Bearer", t];
    assert parts[1..] == [t];
    assert Join(parts, " ") == "Bearer " + t;
    TokenOfPieces(parts);
  }

  /** A header joined from space-free pieces `Bearer`, a token and any
      further pieces carries that token: text after it does not change it. */
  lemma TokenOfPieces(parts: seq<string>)
    requires |parts| >= 2 && parts[0] == "Bearer" && parts[1] != ""
    requires forall k :: 0 <= k < |parts| ==> ' ' !in parts[k]
    ensures BearerToken(Some(Join(parts, " "))) == Some(parts[1])
  {
    var h := Join(parts, " ");
    assert h == "Bearer" + " " + Join(parts[1..], " ");
    assert StartsWith(h, "Bearer ") by {
      assert h[..7] == "Bearer ";
    }
    SplitJoin(parts, ' ');
    assert Split(h, ' ') == parts;
  }

  /** A header with any other scheme carries no token. */
  lemma OtherSchemeNoToken(h: string)
    requires !StartsWith(h, "Bearer ")
    ensures BearerToken(Some(h)) == None
  {
  }

  /** `decoded.deviceId && user.currentDevice && user.currentDevice !== decoded.deviceId`. */
  predicate OtherDevice(tokenDevice: Option<string>, user: User) {
    Truthy(tokenDevice) && Truthy(user.currentDevice) && user.currentDevice.value != tokenDevice.value
  }

  /** The reply for an error thrown while verifying. */
  function ThrownReply(v: Verified): (r: Reply)
    requires !v.Decoded?
    ensures r.status == 401
    ensures r == ExpiredToken <==> v == Expired
  {
    if v == Expired then ExpiredToken else BadToken
  }

  /** `protect`'s decision. `verify` stands for `verifyAccessToken` and
      `users` for the user collection. */
  function Protect(header: Option<string>, verify: string -> Verified, users: map<Id, User>): (g: Gate)
    ensures g.Pass? <==>
              BearerToken(header).Some? && verify(BearerToken(header).value).Decoded? &&
              var d := verify(BearerToken(header).value);
              d.userId in users && users[d.userId].isActive && !users[d.userId].isBanned &&
              !OtherDevice(d.deviceId, users[d.userId])
    ensures g.Pass? ==> g.user == users[verify(BearerToken(header).value).userId]
    ensures g.Deny? ==> g.reply.status == 401 || g.reply == Blocked
    ensures BearerToken(header).None? ==> g == Deny(NoToken)
    ensures BearerToken(header).Some? && !verify(BearerToken(header).value).Decoded? ==>
              g == Deny(ThrownReply(verify(BearerToken(header).value)))
    ensures BearerToken(header).Some? && verify(BearerToken(header).value).Decoded? ==>
              var d := verify(BearerToken(header).value);
              (d.userId !in users ==> g == Deny(NoUser))
              && (d.userId in users && (!users[d.userId].isActive || users[d.userId].isBanned) ==>
                    g == Deny(Blocked))
              && ((d.userId in users && users[d.userId].isActive && !users[d.userId].isBanned
                   && OtherDevice(d.deviceId, users[d.userId])) ==> g == Deny(DeviceConflict))
  {
    match BearerToken(header)
    case None => Deny(NoToken)
    case Some(token) =>
      match verify(token)
      case Decoded(id, device) =>
        if id !in users then Deny(NoUser)
        else
          var user := users[id];
          if !user.isActive || user.isBanned then Deny(Blocked)
          else if OtherDevice(device, user) then Deny(DeviceConflict)
          else Pass(user)
      case _ => Deny(ThrownReply(verify(token)))
  }

  /** Without a token the verifier is never consulted: the answer is the
      same 401 whatever it would have said. */
  lemma NoTokenNoVerify(header: Option<string>, v1: string -> Verified, v2: string -> Verified,
                        users: map<Id, User>)
    requires BearerToken(header).None?
    ensures Protect(header, v1, users) == Protect(header, v2, users) == Deny(NoToken)
  {
  }

  /** The checks run in order: a banned user is refused with 403 even when
      the session also comes from another device. */
  lemma BanCheckedBeforeDevice(header: Option<string>, verify: string -> Verified, users: map<Id, User>)
    requires BearerToken(header).Some? && verify(BearerToken(header).value).Decoded?
    requires verify(BearerToken(header).value).userId in users
    requires users[verify(BearerToken(header).value).userId].isBanned
    ensures Protect(header, verify, users) == Deny(Blocked)
  {
  }

  /** The device check only refuses when both the token and the user name
      a device, and they differ; a token without a device always passes it. */
  lemma DeviceConflictOnlyOnMismatch(header: Option<string>, verify: string -> Verified, users: map<Id, User>)
    requires BearerToken(header).Some?
    ensures Protect(header, verify, users) == Deny(DeviceConflict) <==>
              verify(BearerToken(header).value).Decoded? &&
              var d := verify(BearerToken(header).value);
              d.userId in users && users[d.userId].isActive && !users[d.userId].isBanned &&
              Truthy(d.deviceId) && Truthy(users[d.userId].currentDevice) &&
              users[d.userId].currentDevice.value != d.deviceId.value
  {
  }

  /** The gate's replies for a thrown verification error are the error
      handler's replies for the same error names. */
  lemma ThrownRepliesAgree(v: Verified, err: AppError)
    requires !v.Decoded? && !IsDuplicateKey(err)
    requires err.name == (if v == Expired then "TokenExpiredError" else "JsonWebTokenError")
    ensures ThrownReply(v) == Handle(err)
  {
  }

  /** The request as the gate sees it: the header it reads, the user and
      user id it records, how often `next` ran and the reply sent, if any. */
  class Request {
    const authorization: Option<string>
    var user: Option<User>
    var userId: Option<Id>
    var nextCalls: nat
    var reply: Option<Reply>

    constructor (authorization: Option<string>)
      ensures this.authorization == authorization
      ensures user == None && userId == None && nextCalls == 0 && reply == None
    {
      this.authorization := authorization;
      user := None;
      userId := None;
      nextCalls := 0;
      reply := None;
    }

    /** `protect(req, res, next)`: on a pass, `req.user` and `req.userId`
        are set and `next` runs once; otherwise the reply is sent and
        nothing else changes. */
    method ProtectRequest(verify: string -> Verified, users: map<Id, User>)
      modifies this
      ensures match Protect(authorization, verify, users)
              case Pass(u) =>
                user == Some(u) && userId == Some(u.id) && nextCalls == old(nextCalls) + 1 && reply == old(reply)
              case Deny(r) =>
                reply == Some(r) && user == old(user) && userId == old(userId) && nextCalls == old(nextCalls)
    {
      var token := BearerToken(authorization);
      if token.None? {
        reply := Some(NoToken);
        return;
      }
      var decoded := verify(token.value);
      if !decoded.Decoded? {
        reply := Some(ThrownReply(decoded));
        return;
      }
      if decoded.userId !in users {
        reply := Some(NoUser);
        return;
      }
      var found := users[decoded.userId];
      if !found.isActive || found.isBanned {
        reply := Some(Blocked);
        return;
      }
      if OtherDevice(decoded.deviceId, found) {
        reply := Some(DeviceConflict);
        return;
      }
      user := Some(found);
      userId := Some(found.id);
      nextCalls := nextCalls + 1;
    }

    /** `authorize(...roles)(req, res, next)`; it runs after `protect`, so
        a user is recorded. */
    method AuthorizeRequest(roles: seq<Role>)
      requires user.Some?
      modifies this
      ensures match Authorization(roles, old(user).value.role)
              case None => nextCalls == old(nextCalls) + 1 && reply == old(reply)
              case Some(r) => reply == Some(r) && nextCalls == old(nextCalls)
      ensures user == old(user) && userId == old(userId)
    {
      var refusal := Authorization(roles, user.value.role);
      if refusal.Some? {
        reply := refusal;
        return;
      }
      nextCalls := nextCalls + 1;
    }
  }

  /** `authorize`'s decision: no reply when the role is listed, otherwise
      a 403 naming the role. */
  function Authorization(roles: seq<Role>, role: Role): (r: Option<Reply>)
    ensures r.None? <==> role in roles
    ensures r.Some? ==> r.value.status == 403 && r.value.code.None?
    ensures r.Some? ==> |r.value.message| > 6 + |RoleName(role)| &&
                        r.value.message[6..6 + |RoleName(role)|] == RoleName(role)
  {
    if role in roles then None
    else
      var m := "Role '" + RoleName(role) + "' is not authorized for this action.";
      assert m[6..6 + |RoleName(role)|] == RoleName(role);
      Some(Reply(403, m, None))
  }

  const AdminOnly: seq<Role> := [Admin]
  const StudentOnly: seq<Role> := [Student]

  /** `adminOnly` lets only admins through and `studentOnly` only students;
      each other role is refused. */
  lemma OnlyGates(role: Role)
    ensures Authorization(AdminOnly, role).None? <==> role == Admin
    ensures Authorization(StudentOnly, role).None? <==> role == Student
  {
  }
}
