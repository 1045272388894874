/** The guard chain of `isAuthenticated` (backend/src/middlewares/auth.middleware.js). The cookie
    and the Authorization header are optional strings, the Redis blacklist is the set of
    blacklisted tokens, and `jwt.verify` is a parameter that throws, returns a falsy value or
    decodes an id. Every exception ends in the catch block's 500. */
module AuthMiddleware {
  import opened Common
  import opened Strings
  import opened UserModel

  /** What `jwt.verify(token, secret)` does with a token. */
  datatype VerifyResult = Throws | Falsy | Decoded(id: UserId)

  /** `Next(user)` is the single write `req.user = user` followed by `next()`; `Reply` is an
      early response. */
  datatype Outcome = Next(user: Document) | Reply(status: nat, message: string)

  /** `req.cookies.accessToken || req.headers.authorization?.split(" ")[1]`; `None` is a falsy
      token (absent, or the empty string). */
  function ExtractToken(cookie: Option<string>, authorization: Option<string>): (t: Option<string>)
    ensures cookie.Some? && cookie.value != "" ==> t == cookie
    ensures t.Some? ==> t.value != ""
    ensures (cookie.None? || cookie.value == "") && authorization.None? ==> t.None?
  {
    if cookie.Some? && cookie.value != "" then cookie
    else if authorization.None? then None
    else
      var parts := Split(authorization.value, ' ');
      if |parts| >= 2 && parts[1] != "" then Some(parts[1]) else None
  }

  /** A `Bearer <token>` header yields the token when there is no cookie. */
  lemma BearerHeader(token: string)
    requires token != "" && ' ' !in token
    ensures ExtractToken(None, Some("Bearer " + token)) == Some(token)
  {
    assert "Bearer " + token == "Bearer" + [' '] + token;
    SplitAtFirst("Bearer", ' ', token);
    SplitWithout(token, ' ');
  }

  /** A header without a space carries no token. */
  lemma HeaderWithoutSpace(header: string)
    requires ' ' !in header
    ensures ExtractToken(None, Some(header)).None?
  {
    SplitWithout(header, ' ');
  }

  /** The guards in the order of the source. The lock is read before the null check, so a
      missing user makes `user.accountLocked` throw and the request ends in 500. */
  function IsAuthenticated(cookie: Option<string>, authorization: Option<string>, blacklist: set<string>,
                           verify: string -> VerifyResult, users: seq<User>): (r: Outcome)
    ensures ExtractToken(cookie, authorization).None? ==> r == Reply(401, "Authentication required")
    ensures ExtractToken(cookie, authorization).Some? && ExtractToken(cookie, authorization).value in blacklist ==>
      r == Reply(401, "Token is blacklisted. Please log in again.")
    ensures var t := ExtractToken(cookie, authorization);
      t.Some? && t.value !in blacklist && verify(t.value).Throws? ==> r == Reply(500, "Authentication service error")
    ensures var t := ExtractToken(cookie, authorization);
      t.Some? && t.value !in blacklist && verify(t.value).Falsy? ==> r == Reply(401, "Invalid authentication token")
    ensures var t := ExtractToken(cookie, authorization);
      t.Some? && t.value !in blacklist && verify(t.value).Decoded? && FindUserById(users, verify(t.value).id).None?
      ==> r == Reply(500, "Authentication service error")
    ensures var t := ExtractToken(cookie, authorization);
      t.Some? && t.value !in blacklist && verify(t.value).Decoded? && FindUserById(users, verify(t.value).id).Some?
      && users[FindUserById(users, verify(t.value).id).value].accountLocked
      ==> r == Reply(403, "Account is locked")
    ensures r.Next? <==>
      && ExtractToken(cookie, authorization).Some?
      && ExtractToken(cookie, authorization).value !in blacklist
      && verify(ExtractToken(cookie, authorization).value).Decoded?
      && FindUserById(users, verify(ExtractToken(cookie, authorization).value).id).Some?
      && !users[FindUserById(users, verify(ExtractToken(cookie, authorization).value).id).value].accountLocked
    ensures r.Next? ==>
      r.user == PublicView(users[FindUserById(users, verify(ExtractToken(cookie, authorization).value).id).value])
  {
    match ExtractToken(cookie, authorization)
    case None => Reply(401, "Authentication required")
    case Some(token) =>
      if token in blacklist then Reply(401, "Token is blacklisted. Please log in again.")
      else match verify(token)
        case Throws => Reply(500, "Authentication service error")
        case Falsy => Reply(401, "Invalid authentication token")
        case Decoded(id) =>
          match FindUserById(users, id)
          case None => Reply(500, "Authentication service error")
          case Some(i) =>
            if users[i].accountLocked then Reply(403, "Account is locked")
            else Next(PublicView(users[i]))
  }

  /** The "User not found or deactivated" reply is never sent: no request gets a 404. */
  lemma NeverNotFound(cookie: Option<string>, authorization: Option<string>, blacklist: set<string>,
                      verify: string -> VerifyResult, users: seq<User>)
    ensures IsAuthenticated(cookie, authorization, blacklist, verify, users).Reply? ==>
      IsAuthenticated(cookie, authorization, blacklist, verify, users).status in {401, 403, 500}
  {
  }

  /** A token that decodes to no stored user ends in 500. */
  lemma MissingUserIsServerError(token: string, blacklist: set<string>, verify: string -> VerifyResult, users: seq<User>)
    requires token != "" && token !in blacklist
    requires verify(token).Decoded? && FindUserById(users, verify(token).id).None?
    ensures IsAuthenticated(Some(token), None, blacklist, verify, users) == Reply(500, "Authentication service error")
  {
  }

  /** The blacklist is consulted before the token is verified: a blacklisted token gets the same
      reply whatever the verifier would say, and without any user lookup. */
  lemma BlacklistBeforeVerify(cookie: Option<string>, authorization: Option<string>, blacklist: set<string>,
                              verify1: string -> VerifyResult, verify2: string -> VerifyResult,
                              users1: seq<User>, users2: seq<User>)
    requires ExtractToken(cookie, authorization).Some? && ExtractToken(cookie, authorization).value in blacklist
    ensures IsAuthenticated(cookie, authorization, blacklist, verify1, users1)
         == IsAuthenticated(cookie, authorization, blacklist, verify2, users2)
  {
  }

  /** Without a token neither the blacklist, the verifier nor the users are consulted. */
  lemma NoTokenNoLookup(cookie: Option<string>, authorization: Option<string>,
                        blacklist1: set<string>, blacklist2: set<string>,
                        verify1: string -> VerifyResult, verify2: string -> VerifyResult,
                        users1: seq<User>, users2: seq<User>)
    requires ExtractToken(cookie, authorization).None?
    ensures IsAuthenticated(cookie, authorization, blacklist1, verify1, users1)
         == IsAuthenticated(cookie, authorization, blacklist2, verify2, users2)
  {
  }
}
