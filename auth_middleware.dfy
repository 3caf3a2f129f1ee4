/**
 * The request guards of server/middleware/auth.js: `loginCheck` (bearer header, token
 * verification, user lookup, error-to-status mapping), `isAuth` and `isAdmin`.
 * Token verification and the user lookup are parameters: `verify` tells what
 * `jwt.verify` returns or throws for a token, `wellFormed` tells which ids the
 * store can cast to an ObjectId (any other id makes the lookup throw a CastError).
 */
module AuthMiddleware {
  import opened Wrappers
  import opened Strings

  type UserId = string

  /** A user document as the guards see it (`req.user`). */
  datatype User = User(id: UserId, name: string, email: string, userRole: string)

  /** A guard either lets the request through (`next()`) or answers it with a status. */
  datatype Guard = Next | Deny(code: int, message: string)

  /** `loginCheck` either sets `req.user` and continues, or answers with a status. */
  datatype Login = LoggedIn(user: User) | Denied(code: int, message: string)

  /** What `jwt.verify` does with a token: the decoded payload's `_id`, or the name of what it throws. */
  datatype Verification = Decoded(userId: UserId) | Threw(errorName: string)

  const NoToken := "Access denied. No token provided."
  const UserNotFound := "Invalid token. User not found."
  const BearerPrefix := "Bearer "
  const InvalidToken := "Invalid token"
  const TokenExpired := "Token expired"
  const InternalError := "Internal server error"

  /**
   * `authHeader.split(" ")[1]` once the header is known to start with "Bearer ": the
   * longest space-free prefix of what follows "Bearer ".
   */
  function BearerToken(header: Option<string>): (r: Option<string>)
    ensures r.Some? <==> header.Some? && StartsWith(header.value, BearerPrefix)
    ensures r.Some? ==>
              var rest := header.value[|BearerPrefix|..];
              StartsWith(rest, r.value) && ' ' !in r.value &&
              (|r.value| < |rest| ==> rest[|r.value|] == ' ')
  {
    if header.None? || !StartsWith(header.value, BearerPrefix) then None
    else
      var h := header.value;
      var fields := Split(h, ' ');
      assert h[..7] == BearerPrefix;
      assert h[6] == ' ';
      assert |fields[0]| == 6;
      SplitTail(h, ' ');
      assert fields[1] == Split(h[7..], ' ')[0];
      Some(fields[1])
  }

  /** An empty token is exactly "Bearer " alone or "Bearer " followed by another space. */
  lemma EmptyBearerToken(h: string)
    requires StartsWith(h, BearerPrefix)
    ensures BearerToken(Some(h)) == Some("") <==> |h| == |BearerPrefix| || h[|BearerPrefix|] == ' '
  {
  }

  /** The answer to a thrown error, by the error's name. */
  function ErrorReply(errorName: string): (r: Login)
    ensures r.Denied?
    ensures r.code == 401 <==> errorName == "JsonWebTokenError" || errorName == "TokenExpiredError"
    ensures r.code != 401 ==> r.code == 500
    ensures errorName == "JsonWebTokenError" ==> r.message == InvalidToken
    ensures errorName == "TokenExpiredError" ==> r.message == TokenExpired
    ensures r.code == 500 ==> r.message == InternalError
    ensures r.message == InvalidToken || r.message == TokenExpired || r.message == InternalError
  {
    if errorName == "JsonWebTokenError" then Denied(401, InvalidToken)
    else if errorName == "TokenExpiredError" then Denied(401, TokenExpired)
    else Denied(500, InternalError)
  }

  /** `loginCheck`: the header guard, then token verification, then the user lookup. */
  function LoginCheck(header: Option<string>, verify: string -> Verification,
                      users: map<UserId, User>, wellFormed: UserId -> bool): (r: Login)
    ensures BearerToken(header).None? ==> r == Denied(401, NoToken)
    ensures BearerToken(header) == Some("") ==> r == Denied(401, NoToken)
    ensures r.LoggedIn? <==>
              && BearerToken(header).Some? && BearerToken(header).value != ""
              && verify(BearerToken(header).value).Decoded?
              && var uid := verify(BearerToken(header).value).userId;
                 wellFormed(uid) && uid in users
    ensures r.LoggedIn? ==> r.user == users[verify(BearerToken(header).value).userId]
    ensures r.Denied? ==> r.code == 401 || r.code == 500
    ensures var t := BearerToken(header);
            t.Some? && t.value != "" && verify(t.value).Threw? ==> r == ErrorReply(verify(t.value).errorName)
    ensures var t := BearerToken(header);
            t.Some? && t.value != "" && verify(t.value).Decoded? && !wellFormed(verify(t.value).userId) ==>
              r == Denied(500, InternalError)
    ensures r == Denied(401, UserNotFound) <==>
              && BearerToken(header).Some? && BearerToken(header).value != ""
              && verify(BearerToken(header).value).Decoded?
              && var uid := verify(BearerToken(header).value).userId;
                 wellFormed(uid) && uid !in users
  {
    match BearerToken(header)
    case None => Denied(401, NoToken)
    case Some(token) =>
      if token == "" then Denied(401, NoToken)
      else
        match verify(token)
        case Threw(name) => ErrorReply(name)
        case Decoded(uid) =>
          if !wellFormed(uid) then ErrorReply("CastError")
          else if uid !in users then Denied(401, UserNotFound)
          else LoggedIn(users[uid])
  }

  /** `isAuth`: the body's `loggedInUserId` must be the logged-in user's id. */
  function IsAuth(loggedInUserId: Option<string>, user: User): (r: Guard)
    ensures r == Next <==> loggedInUserId == Some(user.id) && user.id != ""
    ensures r != Next ==> r == Deny(403, "You are not authenticated")
  {
    if loggedInUserId.None? || loggedInUserId.value == "" || user.id == "" || loggedInUserId.value != user.id
    then Deny(403, "You are not authenticated")
    else Next
  }

  /** `isAdmin`: the user named by the body's `loggedInUserId` must exist and have role "admin". */
  function IsAdmin(loggedInUserId: Option<string>, users: map<UserId, User>, wellFormed: UserId -> bool): (r: Guard)
    ensures r == Next <==>
              loggedInUserId.Some? && wellFormed(loggedInUserId.value) &&
              loggedInUserId.value in users && users[loggedInUserId.value].userRole == "admin"
    ensures r.Deny? && r.code == 500 <==> loggedInUserId.Some? && !wellFormed(loggedInUserId.value)
    ensures r.Deny? ==> r.code == 403 || r.code == 500
  {
    if loggedInUserId.Some? && !wellFormed(loggedInUserId.value) then
      Deny(500, "Failed to verify admin access")
    else if loggedInUserId.None? || loggedInUserId.value !in users
            || users[loggedInUserId.value].userRole != "admin" then
      Deny(403, "Access denied: Admins only")
    else Next
  }
}
