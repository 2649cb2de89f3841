/**
 * The authentication gate in front of the protected routes: it reads the
 * `Authorization` header, verifies the bearer token, looks the user up and
 * either attaches the user to the request and passes it on, or answers with
 * one error response.
 *
 * `jwt.verify` is a parameter returning a `Verdict`: the decoded payload's
 * user id, or the name of the error it threw.
 */
module AuthGate {
  import opened Common
  import opened UserModel

  const BearerPrefix := "Bearer "

  /** What `jwt.verify` does with a token: decode it, or throw an error with a name. */
  datatype Verdict = Decoded(userId: Option<UserId>) | Thrown(name: string)

  /** The user attached to the request: the record read with `select('-password')`. */
  datatype Principal = Principal(
    id: UserId,
    email: string,
    username: string,
    avatar: Option<string>,
    status: Presence,
    lastConnection: Option<nat>,
    socketId: Option<string>,
    createdAt: nat,
    updatedAt: nat)

  /** An error response: its status and the `error` field of its body. */
  datatype Response = Response(code: int, error: string)

  /** The gate's decision: pass the request on with a user, or answer it. */
  datatype Outcome = Admit(user: Principal) | Reject(response: Response)

  function WithoutPassword(u: User): (p: Principal)
    ensures p.id == u.id && p.email == u.email && p.username == u.username && p.avatar == u.avatar
    ensures p.status == u.status && p.lastConnection == u.lastConnection && p.socketId == u.socketId
    ensures p.createdAt == u.createdAt && p.updatedAt == u.updatedAt
  {
    Principal(u.id, u.email, u.username, u.avatar, u.status, u.lastConnection, u.socketId,
              u.createdAt, u.updatedAt)
  }

  /** The principal does not depend on the stored password. */
  lemma PrincipalHidesPassword(u: User, password: string)
    ensures WithoutPassword(u.(password := password)) == WithoutPassword(u)
  {
  }

  /**
   * The token of a header that is present and starts with `"Bearer "`: what
   * follows the seven characters of the prefix.
   */
  function ExtractToken(header: Option<string>): (r: Option<string>)
    ensures r.Some? <==>
      header.Some? && |header.value| >= |BearerPrefix| && header.value[..|BearerPrefix|] == BearerPrefix
    ensures r.Some? ==> header.value == BearerPrefix + r.value
  {
    if header.None? || |header.value| < |BearerPrefix| || header.value[..|BearerPrefix|] != BearerPrefix then None
    else
      var h := header.value;
      assert h == h[..|BearerPrefix|] + h[|BearerPrefix|..];
      Some(h[|BearerPrefix|..])
  }

  /** Extracting from `"Bearer " + t` gives back `t`, whatever `t` is. */
  lemma ExtractBearer(t: string)
    ensures ExtractToken(Some(BearerPrefix + t)) == Some(t)
  {
    var h := BearerPrefix + t;
    assert h[..|BearerPrefix|] == BearerPrefix;
    assert h[|BearerPrefix|..] == t;
  }

  /** The `catch` block: the response for an error named `name`. */
  function Classify(name: string): (r: Response)
    ensures name == "JsonWebTokenError" ==> r == Response(StatusUnauthorized, "Token invalide")
    ensures name == "TokenExpiredError" ==> r == Response(StatusUnauthorized, "Token expiré")
    ensures name != "JsonWebTokenError" && name != "TokenExpiredError" ==>
      r == Response(StatusServerError, "Erreur serveur lors de l'authentification")
    ensures r.code == StatusUnauthorized <==> name == "JsonWebTokenError" || name == "TokenExpiredError"
  {
    if name == "JsonWebTokenError" then Response(StatusUnauthorized, "Token invalide")
    else if name == "TokenExpiredError" then Response(StatusUnauthorized, "Token expiré")
    else Response(StatusServerError, "Erreur serveur lors de l'authentification")
  }

  /**
   * `authMiddleware`: a missing or malformed header, a token that does not
   * verify and a user that does not exist are each answered with their own
   * error; otherwise the request goes on with the user found.
   */
  function Gate(header: Option<string>, verify: string -> Verdict, users: seq<User>): (r: Outcome)
    ensures ExtractToken(header).None? ==>
      r == Reject(Response(StatusUnauthorized, "Token manquant ou format invalide"))
    ensures ExtractToken(header).Some? && verify(ExtractToken(header).value).Thrown? ==>
      r == Reject(Classify(verify(ExtractToken(header).value).name))
    ensures (ExtractToken(header).Some? && verify(ExtractToken(header).value).Decoded? &&
             (verify(ExtractToken(header).value).userId.None? ||
              FindUser(users, verify(ExtractToken(header).value).userId.value).None?)) ==>
      r == Reject(Response(StatusUnauthorized, "Utilisateur non trouvé"))
    ensures r.Admit? <==>
      && ExtractToken(header).Some?
      && verify(ExtractToken(header).value).Decoded?
      && verify(ExtractToken(header).value).userId.Some?
      && FindUser(users, verify(ExtractToken(header).value).userId.value).Some?
    ensures r.Admit? ==>
      var id := verify(ExtractToken(header).value).userId.value;
      r.user == WithoutPassword(users[FindUser(users, id).value]) && r.user.id == id
  {
    match ExtractToken(header)
    case None => Reject(Response(StatusUnauthorized, "Token manquant ou format invalide"))
    case Some(token) =>
      match verify(token)
      case Thrown(name) => Reject(Classify(name))
      case Decoded(None) => Reject(Response(StatusUnauthorized, "Utilisateur non trouvé"))
      case Decoded(Some(id)) =>
        match FindUser(users, id)
        case None => Reject(Response(StatusUnauthorized, "Utilisateur non trouvé"))
        case Some(i) => Admit(WithoutPassword(users[i]))
  }

  /** A well-formed header carrying a token that decodes to a registered user always gets through. */
  lemma BearerOfKnownUserAdmitted(t: string, verify: string -> Verdict, users: seq<User>, k: nat)
    requires k < |users| && verify(t) == Decoded(Some(users[k].id))
    ensures Gate(Some(BearerPrefix + t), verify, users).Admit?
    ensures Gate(Some(BearerPrefix + t), verify, users).user.id == users[k].id
  {
    ExtractBearer(t);
    assert FindUser(users, users[k].id).Some?;
  }

  /** A request as the gate sees it: its header, what it attaches, and what was done with it. */
  class Request {
    const authorization: Option<string>
    var user: Option<Principal>
    var userId: Option<UserId>
    /** How many times `next` was called. */
    var nextCalls: nat
    /** The responses sent, in order. */
    var responses: seq<Response>

    constructor(authorization: Option<string>)
      ensures this.authorization == authorization
      ensures user == None && userId == None && nextCalls == 0 && responses == []
    {
      this.authorization := authorization;
      user := None;
      userId := None;
      nextCalls := 0;
      responses := [];
    }

    /**
     * Runs the gate on this request: on success `req.user` and `req.userId`
     * are set and `next` is called once; on failure one response is sent and
     * nothing is attached. Never both.
     */
    method Authenticate(verify: string -> Verdict, users: seq<User>)
      modifies this
      ensures match Gate(authorization, verify, users)
        case Admit(p) =>
          && user == Some(p) && userId == Some(p.id)
          && nextCalls == old(nextCalls) + 1 && responses == old(responses)
        case Reject(resp) =>
          && user == old(user) && userId == old(userId)
          && nextCalls == old(nextCalls) && responses == old(responses) + [resp]
      ensures (nextCalls - old(nextCalls)) + (|responses| - |old(responses)|) == 1
    {
      var token := ExtractToken(authorization);
      if token.None? {
        responses := responses + [Response(StatusUnauthorized, "Token manquant ou format invalide")];
        return;
      }
      var decoded := verify(token.value);
      if decoded.Thrown? {
        responses := responses + [Classify(decoded.name)];
        return;
      }
      var found := if decoded.userId.None? then None else FindUser(users, decoded.userId.value);
      if found.None? {
        responses := responses + [Response(StatusUnauthorized, "Utilisateur non trouvé")];
        return;
      }
      var p := WithoutPassword(users[found.value]);
      user := Some(p);
      userId := Some(p.id);
      nextCalls := nextCalls + 1;
    }
  }
}
