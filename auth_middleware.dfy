/** The `protect` middleware: it takes the token from an `Authorization:
    Bearer <token>` header, verifies it, attaches the user it names (without
    the password) and passes the request on; otherwise it answers 401. */
module AuthMiddleware {
  import opened Wrappers
  import opened Identifiers
  import opened Tokens
  import opened UserModel
  import Text

  datatype Response = Response(status: nat, message: string)

  const TokenFailed: Response := Response(401, "Not authorized, token failed")
  const NoToken: Response := Response(401, "Not authorized, no token")

  /** The user as `findById(id).select('-password')` returns it. */
  datatype UserView = UserView(id: ObjectId, email: Option<string>, googleId: Option<string>, createdAt: nat)

  function View(u: User): (v: UserView)
    ensures v.id == u.id && v.email == u.email && v.googleId == u.googleId && v.createdAt == u.createdAt
  {
    UserView(u.id, u.email, u.googleId, u.createdAt)
  }

  /** The view drops the password and nothing else: two users have the same
      view exactly when they differ at most in their passwords. */
  lemma ViewOmitsOnlyPassword(a: User, b: User)
    ensures View(a) == View(b) <==> a.(password := b.password) == b
  {
  }

  /** What the middleware did: the `res.status(401).json(...)` calls it made,
      in order, whether it called `next`, and the user it attached (`None`
      for a null user). Only the first call of a request reaches the client;
      Express refuses a second one, after the headers are sent, with an error
      that the async middleware leaves unhandled. */
  datatype Outcome = Outcome(jsonCalls: seq<Response>, nextCalled: bool, user: Option<UserView>)

  /** A header the middleware reads a token from: present, non-empty and
      starting with 'Bearer'. */
  predicate Bearer(header: Option<string>) {
    Text.Truthy(header) && Text.StartsWith(header.value, "Bearer")
  }

  /** `header.split(' ')[1]`; `None` stands for `undefined`. */
  function BearerToken(header: string): (t: Option<string>)
    ensures t.Some? ==> ' ' !in t.value
  {
    var parts := Text.Split(header, ' ');
    Text.SplitFreeOfSeparator(header, ' ');
    if |parts| >= 2 then Some(parts[1]) else None
  }

  /** The token is the piece after the first space and before the next one. */
  lemma BearerTokenOf(scheme: string, t: string, rest: string)
    requires ' ' !in scheme && ' ' !in t
    ensures BearerToken(scheme + " " + t) == Some(t)
    ensures BearerToken(scheme + " " + t + " " + rest) == Some(t)
  {
    Text.SplitAfterPiece(scheme, ' ', t);
    Text.SplitWithoutSeparator(t, ' ');
    Text.SplitAfterPiece(scheme, ' ', t + " " + rest);
    Text.SplitAfterPiece(t, ' ', rest);
    assert scheme + " " + t + " " + rest == scheme + [' '] + (t + [' '] + rest);
  }

  /** The user lookup of a verified token, as attached to the request. */
  function Attached(users: seq<User>, id: ObjectId): (v: Option<UserView>)
    ensures v.Some? <==> exists k :: 0 <= k < |users| && users[k].id == id
    ensures v.Some? ==> v.value.id == id
  {
    match FindOne(users, ById(id))
    case Some(u) => Some(View(u))
    case None => None
  }

  /** `protect`, as written. A verified token calls `next`, even when its user
      no longer exists. A failed verification answers 'token failed'; and
      because the later 'no token' check looks only at the token variable, a
      'Bearer' header with no token part, or an empty one, makes a second
      `json` call after the first 401 has gone out. The middleware is not
      exported, so no route reaches it. */
  function Protect(users: seq<User>, signed: map<string, Token>, header: Option<string>, now: nat): (o: Outcome)
    ensures !Bearer(header) ==> o == Outcome([NoToken], false, None)
    ensures o.nextCalled <==> Bearer(header) && Verify(signed, BearerToken(header.value), now).Valid?
    ensures o.nextCalled ==>
      o.jsonCalls == [] && o.user == Attached(users, Verify(signed, BearerToken(header.value), now).token.id)
    ensures Bearer(header) && !o.nextCalled ==>
      && o.user.None?
      && o.jsonCalls == (if Text.Truthy(BearerToken(header.value)) then [TokenFailed] else [TokenFailed, NoToken])
  {
    var token := if Bearer(header) then BearerToken(header.value) else None;
    var tried :=
      if Bearer(header) then
        match Verify(signed, token, now)
        case Valid(payload) => Outcome([], true, Attached(users, payload.id))
        case _ => Outcome([TokenFailed], false, None)
      else Outcome([], false, None);
    if !Text.Truthy(token) then tried.(jsonCalls := tried.jsonCalls + [NoToken]) else tried
  }

  /** The header 'Bearer' alone makes `protect` call `res.status(401).json`
      twice: 'token failed', then 'no token' on a response already sent. */
  lemma ProtectBareBearerCallsJsonTwice(users: seq<User>, signed: map<string, Token>, now: nat)
    ensures Protect(users, signed, Some("Bearer"), now).jsonCalls == [TokenFailed, NoToken]
  {
    Text.SplitWithoutSeparator("Bearer", ' ');
    assert Text.StartsWith("Bearer", "Bearer");
  }

  /** `protect` as evidently intended: a missing token part is answered
      'no token' and nothing else, so every request gets exactly one `json`
      call or is passed on, never both. */
  function ProtectIntended(users: seq<User>, signed: map<string, Token>, header: Option<string>, now: nat): (o: Outcome)
    ensures |o.jsonCalls| + (if o.nextCalled then 1 else 0) == 1
    ensures o.nextCalled <==> Bearer(header) && Verify(signed, BearerToken(header.value), now).Valid?
    ensures o.nextCalled ==> o.user == Attached(users, Verify(signed, BearerToken(header.value), now).token.id)
    ensures o.jsonCalls == [NoToken] <==> !Bearer(header) || !Text.Truthy(BearerToken(header.value))
  {
    var token := if Bearer(header) then BearerToken(header.value) else None;
    if !Text.Truthy(token) then Outcome([NoToken], false, None)
    else
      match Verify(signed, token, now)
      case Valid(payload) => Outcome([], true, Attached(users, payload.id))
      case _ => Outcome([TokenFailed], false, None)
  }

  /** The corrected middleware differs from the written one only on a
      'Bearer' header without a usable token part. */
  lemma ProtectIntendedAgrees(users: seq<User>, signed: map<string, Token>, header: Option<string>, now: nat)
    ensures !Bearer(header) || Text.Truthy(BearerToken(header.value)) ==>
      ProtectIntended(users, signed, header, now) == Protect(users, signed, header, now)
    ensures Bearer(header) && !Text.Truthy(BearerToken(header.value)) ==>
      ProtectIntended(users, signed, header, now).jsonCalls == [NoToken] &&
      Protect(users, signed, header, now).jsonCalls == [TokenFailed, NoToken]
  {
  }

  /** A well-formed header with a token issued for a stored user passes the
      request on with that user, password omitted, until the token expires. */
  lemma ProtectAcceptsIssuedToken(users: seq<User>, signed: map<string, Token>, t: string, k: nat, issued: nat, now: nat)
    requires WellFormed(users) && k < |users|
    requires t != "" && ' ' !in t && t in signed && signed[t] == GenerateToken(users[k].id, issued)
    requires now < issued + Lifetime
    ensures Protect(users, signed, Some("Bearer " + t), now) == Outcome([], true, Some(View(users[k])))
  {
    BearerTokenOf("Bearer", t, "");
    assert "Bearer " + t == "Bearer" + " " + t;
    assert Text.StartsWith("Bearer " + t, "Bearer");
    FindOneUnique(users, ById(users[k].id), k);
  }
}
