/** The authentication routes: `/register` (creates a local user and issues
    a token), `/login` (checks the credentials and issues a token) and
    `/user` (the id and email of the user a token names). */
module AuthRoutes {
  import opened Wrappers
  import opened Identifiers
  import opened Tokens
  import opened UserModel
  import Passport
  import Text

  const AllFieldsMessage: string := "Please enter all fields"
  const UserExistsMessage: string := "User already exists"
  const RegisteredMessage: string := "User registered successfully"
  const RegisterErrorMessage: string := "Server error during registration"
  const LoggedInMessage: string := "Logged in successfully"

  /** The `email` and `password` fields of a request body; `None` when absent. */
  datatype Credentials = Credentials(email: Option<string>, password: Option<string>)

  /** The user as the routes return it: `{id, email}` and nothing else. */
  datatype PublicUser = PublicUser(id: ObjectId, email: Option<string>)

  datatype AuthReply =
    | Issued(status: nat, message: string, token: Token, user: PublicUser)
    | Rejected(status: nat, message: string)

  function Public(u: User): PublicUser {
    PublicUser(u.id, u.email)
  }

  /** Both fields present and non-empty. */
  predicate Complete(body: Credentials) {
    Text.Truthy(body.email) && Text.Truthy(body.password)
  }

  /** The user `/register` stores for a complete body: the normalised email,
      the hash of the password, no Google id. */
  function RegisteredUser(body: Credentials, newId: ObjectId, now: nat): (u: User)
    requires Complete(body)
    ensures u.id == newId && u.googleId.None? && u.createdAt == now
    ensures u.email == Some(NormalizeEmail(body.email.value))
    ensures u.password == Some(Hash(body.password.value))
  {
    PreSave(User(newId, Some(NormalizeEmail(body.email.value)), body.password, None, now), true)
  }

  // ------------------------------------------------------------- register

  /** `/register`: an incomplete body and a known email are refused with 400
      and change nothing; otherwise the new user is saved (a failed save is a
      500) and a token for its id is issued with 201. */
  function RegisterStep(users: seq<User>, body: Credentials, newId: ObjectId, now: nat): (r: (AuthReply, seq<User>))
    ensures r.0.Rejected? ==> r.1 == users
    ensures !Complete(body) ==> r.0 == Rejected(400, AllFieldsMessage)
    ensures r.0 == Rejected(400, UserExistsMessage) <==> Complete(body) && FindOne(users, ByEmail(body.email.value)).Some?
    ensures r.0.Issued? ==> && Complete(body)
                            && r.0.status == 201
                            && r.1 == users + [RegisteredUser(body, newId, now)]
                            && r.0.token == GenerateToken(newId, now)
                            && r.0.user == Public(RegisteredUser(body, newId, now))
  {
    if !Complete(body) then (Rejected(400, AllFieldsMessage), users)
    else if FindOne(users, ByEmail(body.email.value)).Some? then (Rejected(400, UserExistsMessage), users)
    else
      var doc := User(newId, Some(NormalizeEmail(body.email.value)), body.password, None, now);
      var saved := SaveUser(users, doc, true, true);
      if saved.0.Success? then
        var u := saved.0.value;
        (Issued(201, RegisteredMessage, GenerateToken(u.id, now), Public(u)), saved.1)
      else
        (Rejected(500, RegisterErrorMessage), users)
  }

  /** Registering keeps the collection well formed. */
  lemma RegisterKeepsWellFormed(users: seq<User>, body: Credentials, newId: ObjectId, now: nat)
    requires WellFormed(users)
    ensures WellFormed(RegisterStep(users, body, newId, now).1)
  {
    if Complete(body) && FindOne(users, ByEmail(body.email.value)).None? {
      var doc := User(newId, Some(NormalizeEmail(body.email.value)), body.password, None, now);
      NormalizeEmailIsNormal(body.email.value);
      assert DocumentOk(doc, true);
      assert WellFormed(SaveUser(users, doc, true, true).1);
    }
  }

  /** A complete body with a valid email that no user has, and an id no user
      has, registers: exactly one user is added. */
  lemma RegisterSucceeds(users: seq<User>, body: Credentials, newId: ObjectId, now: nat)
    requires WellFormed(users)
    requires forall k :: 0 <= k < |users| ==> users[k].id != newId
    requires Complete(body) && FindOne(users, ByEmail(body.email.value)).None?
    requires ValidEmail(Some(NormalizeEmail(body.email.value)))
    ensures RegisterStep(users, body, newId, now).0.Issued?
    ensures |RegisterStep(users, body, newId, now).1| == |users| + 1
  {
    var u := RegisteredUser(body, newId, now);
    assert !ClashesWithOther(users, u, -1) by {
      forall k | 0 <= k < |users| ensures !Clash(u, users[k]) {
        assert !Matches(users[k], ByEmail(body.email.value));
      }
    }
  }

  /** `/register` on the live collection, through a `User` document. */
  method Register(store: UserStore, body: Credentials, newId: ObjectId, now: nat) returns (reply: AuthReply)
    requires store.Valid()
    modifies store
    ensures store.Valid()
    ensures (reply, store.users) == RegisterStep(old(store.users), body, newId, now)
  {
    if !Text.Truthy(body.email) || !Text.Truthy(body.password) {
      return Rejected(400, AllFieldsMessage);
    }
    var existing := FindOne(store.users, ByEmail(body.email.value));
    if existing.Some? {
      return Rejected(400, UserExistsMessage);
    }
    var doc := new UserDoc.Create(newId, body.email, body.password, None, now);
    var saved := store.Save(doc);
    if saved.Failure? {
      return Rejected(500, RegisterErrorMessage);
    }
    reply := Issued(201, RegisteredMessage, GenerateToken(doc.id, now), PublicUser(doc.id, doc.email));
  }

  // ---------------------------------------------------------------- login

  /** `/login`. An unknown email and a wrong password get the same 400
      'Invalid credentials'; a user without a password gets the Google
      message whatever password was entered; only the right password issues a
      token, with 200. */
  function Login(users: seq<User>, body: Credentials, now: nat): (r: AuthReply)
    ensures !Complete(body) ==> r == Rejected(400, AllFieldsMessage)
    ensures r == Rejected(400, Passport.InvalidCredentials) <==>
      && Complete(body)
      && (|| FindOne(users, ByEmail(body.email.value)).None?
          || (Text.Truthy(FindOne(users, ByEmail(body.email.value)).value.password)
              && !MatchPassword(FindOne(users, ByEmail(body.email.value)).value, body.password.value)))
    ensures r == Rejected(400, Passport.GoogleOnlyMessage) <==>
      && Complete(body)
      && FindOne(users, ByEmail(body.email.value)).Some?
      && !Text.Truthy(FindOne(users, ByEmail(body.email.value)).value.password)
    ensures r.Issued? ==> && Complete(body)
                          && r.status == 200
                          && FindOne(users, ByEmail(body.email.value)).Some?
                          && MatchPassword(FindOne(users, ByEmail(body.email.value)).value, body.password.value)
                          && r.user == Public(FindOne(users, ByEmail(body.email.value)).value)
                          && r.token == GenerateToken(r.user.id, now)
  {
    if !Complete(body) then Rejected(400, AllFieldsMessage)
    else
      match FindOne(users, ByEmail(body.email.value))
      case None => Rejected(400, Passport.InvalidCredentials)
      case Some(u) =>
        if !Text.Truthy(u.password) then Rejected(400, Passport.GoogleOnlyMessage)
        else if !MatchPassword(u, body.password.value) then Rejected(400, Passport.InvalidCredentials)
        else Issued(200, LoggedInMessage, GenerateToken(u.id, now), Public(u))
  }

  /** `/login` and the local strategy accept the same credentials and yield
      the same user; they differ only in the message for an unknown email. */
  lemma LoginAgreesWithLocalStrategy(users: seq<User>, body: Credentials, now: nat)
    requires Complete(body)
    ensures Login(users, body, now).Issued? <==> Passport.LocalStrategy(users, body.email.value, body.password.value).Grant?
    ensures Login(users, body, now).Issued? ==>
      Login(users, body, now).user == Public(Passport.LocalStrategy(users, body.email.value, body.password.value).user)
  {
  }

  /** A user who has just registered can log in with the same body, and the
      login names the registered user. */
  lemma RegisterThenLogin(users: seq<User>, body: Credentials, newId: ObjectId, now: nat, later: nat)
    requires WellFormed(users)
    requires RegisterStep(users, body, newId, now).0.Issued?
    ensures var after := RegisterStep(users, body, newId, now).1;
      && Login(after, body, later).Issued?
      && Login(after, body, later).user == RegisterStep(users, body, newId, now).0.user
      && Login(after, body, later).user.id == newId
  {
    var after := RegisterStep(users, body, newId, now).1;
    var u := RegisteredUser(body, newId, now);
    RegisterKeepsWellFormed(users, body, newId, now);
    assert after[|users|] == u;
    FindOneUnique(after, ByEmail(body.email.value), |users|);
    MatchesSavedPassword(User(newId, Some(NormalizeEmail(body.email.value)), body.password, None, now),
                         body.password.value, body.password.value);
  }

  // ----------------------------------------------------------------- user

  datatype UserReply = Profile(user: PublicUser) | Unauthorized

  /** `/user` behind the JWT strategy: a token that does not verify, or whose
      user no longer exists, is refused with 401; otherwise the reply is that
      user's id and email only. */
  function CurrentUser(users: seq<User>, signed: map<string, Token>, token: Option<string>, now: nat): (r: UserReply)
    ensures r.Profile? <==> Verify(signed, token, now).Valid? && Passport.JwtStrategy(users, Verify(signed, token, now).token).Some?
    ensures r.Profile? ==> r.user.id == Verify(signed, token, now).token.id
    ensures r.Profile? ==> exists k :: 0 <= k < |users| && users[k].id == r.user.id && r.user == Public(users[k])
  {
    match Verify(signed, token, now)
    case Valid(payload) =>
      (match Passport.JwtStrategy(users, payload)
       case Some(u) => Profile(Public(u))
       case None => Unauthorized)
    case _ => Unauthorized
  }

  /** A token issued by `/register` or `/login` names its user at `/user`
      until it expires. */
  lemma IssuedTokenNamesUser(users: seq<User>, signed: map<string, Token>, text: string, k: nat, issued: nat, now: nat)
    requires WellFormed(users) && k < |users|
    requires text != "" && text in signed && signed[text] == GenerateToken(users[k].id, issued)
    requires now < issued + Lifetime
    ensures CurrentUser(users, signed, Some(text), now) == Profile(Public(users[k]))
  {
    FindOneUnique(users, ById(users[k].id), k);
  }
}
