/** The Passport strategies: the local strategy (email and password), the
    Google strategy (find by Google id, else link by email, else create), the
    JWT strategy (payload to user) and the session's serialisation of a user
    to its id and back. */
module Passport {
  import opened Wrappers
  import opened Identifiers
  import opened Tokens
  import opened UserModel
  import Text

  const IncorrectMessage: string := "Incorrect email or password."
  const GoogleOnlyMessage: string := "This email is registered via Google. Please use Google login."
  const InvalidCredentials: string := "Invalid credentials"

  /** What a strategy passes to `done`: a user, `false` with a message, or an
      error. */
  datatype Verdict = Grant(user: User) | Deny(message: string) | Fail

  // ---------------------------------------------------------------- local

  /** The local strategy: no user with that email, a user without a password,
      and a wrong password are refused with three different messages; only
      the right password yields the user. */
  function LocalStrategy(users: seq<User>, email: string, password: string): (v: Verdict)
    ensures v == Deny(IncorrectMessage) <==> FindOne(users, ByEmail(email)).None?
    ensures v == Deny(GoogleOnlyMessage) <==>
      FindOne(users, ByEmail(email)).Some? && !Text.Truthy(FindOne(users, ByEmail(email)).value.password)
    ensures v == Deny(InvalidCredentials) <==>
      && FindOne(users, ByEmail(email)).Some?
      && Text.Truthy(FindOne(users, ByEmail(email)).value.password)
      && !MatchPassword(FindOne(users, ByEmail(email)).value, password)
    ensures v.Grant? <==>
      FindOne(users, ByEmail(email)).Some? && MatchPassword(FindOne(users, ByEmail(email)).value, password)
    ensures v.Grant? ==> v.user == FindOne(users, ByEmail(email)).value
    ensures !v.Fail?
  {
    match FindOne(users, ByEmail(email))
    case None => Deny(IncorrectMessage)
    case Some(u) =>
      if !Text.Truthy(u.password) then Deny(GoogleOnlyMessage)
      else if !MatchPassword(u, password) then Deny(InvalidCredentials)
      else Grant(u)
  }

  // --------------------------------------------------------------- Google

  /** The part of a Google profile the strategy reads. */
  datatype GoogleProfile = GoogleProfile(id: string, emails: seq<string>)

  /** The profile's first email, or null when it has none. */
  function ProfileEmail(p: GoogleProfile): (e: Option<string>)
    ensures e.Some? <==> |p.emails| > 0
    ensures e.Some? ==> e.value == p.emails[0]
  {
    if |p.emails| > 0 then Some(p.emails[0]) else None
  }

  /** The document `new User({googleId, email})` builds for a profile. */
  function NewGoogleUser(p: GoogleProfile, newId: ObjectId, now: nat): (u: User)
    ensures u.id == newId && u.password.None? && u.googleId == Some(p.id) && u.createdAt == now
    ensures u.email == (if |p.emails| > 0 then Some(NormalizeEmail(p.emails[0])) else None)
  {
    var e := ProfileEmail(p);
    User(newId, if e.Some? then Some(NormalizeEmail(e.value)) else None, None, Some(p.id), now)
  }

  /** Linking a user to a Google id: `googleId` is set and the document saved
      without touching its password. */
  function LinkGoogleId(users: seq<User>, u: User, googleId: string): (r: (Verdict, seq<User>))
    ensures r.0.Fail? ==> r.1 == users
    ensures r.0.Grant? ==> r.0.user == u.(googleId := Some(googleId)) && r.0.user in r.1 && |r.1| == |users|
    ensures WellFormed(users) && StoredUser(u) ==> WellFormed(r.1)
    ensures !r.0.Deny?
  {
    var saved := SaveUser(users, u.(googleId := Some(googleId)), false, false);
    if saved.0.Success? then (Grant(saved.0.value), saved.1) else (Fail, users)
  }

  /** Creating the user for a profile: a new document with the profile's
      Google id and email and no password, saved. */
  function CreateGoogleUser(users: seq<User>, p: GoogleProfile, newId: ObjectId, now: nat): (r: (Verdict, seq<User>))
    ensures r.0.Fail? ==> r.1 == users
    ensures r.0.Grant? ==> r.0.user == NewGoogleUser(p, newId, now) && r.1 == users + [r.0.user]
    ensures WellFormed(users) ==> WellFormed(r.1)
    ensures !r.0.Deny?
  {
    var nu := NewGoogleUser(p, newId, now);
    NormalizeEmailIsNormal(if ProfileEmail(p).Some? then ProfileEmail(p).value else "");
    var saved := SaveUser(users, nu, true, false);
    if saved.0.Success? then (Grant(saved.0.value), saved.1) else (Fail, users)
  }

  /** The Google strategy on the users collection: a user with the profile's
      Google id is returned as it is; otherwise a user with the profile's
      email is returned, after being linked to the Google id when it has none;
      otherwise a new user is created. A failed save is an error and changes
      nothing. `newId` is the id the new document would get. */
  function GoogleStep(users: seq<User>, p: GoogleProfile, newId: ObjectId, now: nat): (r: (Verdict, seq<User>))
    ensures !r.0.Deny?
    ensures r.0.Fail? ==> r.1 == users
    ensures FindOne(users, ByGoogleId(p.id)).Some? ==> r == (Grant(FindOne(users, ByGoogleId(p.id)).value), users)
    ensures r.0.Grant? ==> r.0.user in r.1
    ensures r.1 == users || |r.1| == |users| || r.1 == users + [NewGoogleUser(p, newId, now)]
  {
    match FindOne(users, ByGoogleId(p.id))
    case Some(u) => (Grant(u), users)
    case None =>
      var email := ProfileEmail(p);
      var byEmail := if Text.Truthy(email) then FindOne(users, ByEmail(email.value)) else None;
      if byEmail.Some? then
        if !Text.Truthy(byEmail.value.googleId) then LinkGoogleId(users, byEmail.value, p.id)
        else (Grant(byEmail.value), users)
      else
        CreateGoogleUser(users, p, newId, now)
  }

  /** A user found in a well-formed collection satisfies the stored-user rules. */
  lemma FoundUserStored(users: seq<User>, f: Filter)
    requires WellFormed(users) && FindOne(users, f).Some?
    ensures StoredUser(FindOne(users, f).value)
    ensures IndexOf(users, f).Some? && users[IndexOf(users, f).value] == FindOne(users, f).value
  {
  }

  /** A user matched by email that has no Google id gets the profile's Google
      id; its email, password and every other user stay as they were, and no
      user is added. */
  lemma GoogleLinksByEmail(users: seq<User>, p: GoogleProfile, newId: ObjectId, now: nat, u: User)
    requires WellFormed(users)
    requires FindOne(users, ByGoogleId(p.id)).None?
    requires Text.Truthy(ProfileEmail(p)) && FindOne(users, ByEmail(ProfileEmail(p).value)) == Some(u)
    requires !Text.Truthy(u.googleId)
    ensures exists i :: (0 <= i < |users| && users[i] == u
      && GoogleStep(users, p, newId, now) == (Grant(u.(googleId := Some(p.id))), users[i := u.(googleId := Some(p.id))]))
  {
    var f := ByEmail(ProfileEmail(p).value);
    FoundUserStored(users, f);
    var i := IndexOf(users, f).value;
    LinkedNoClash(users, i, p.id);
    SaveReplacesAt(users, u.(googleId := Some(p.id)), i);
    assert GoogleStep(users, p, newId, now) == LinkGoogleId(users, u, p.id);
  }

  /** Giving a stored user a Google id no user has yet clashes with no other user. */
  lemma LinkedNoClash(users: seq<User>, i: nat, googleId: string)
    requires WellFormed(users) && i < |users|
    requires FindOne(users, ByGoogleId(googleId)).None?
    ensures !ClashesWithOther(users, users[i].(googleId := Some(googleId)), i)
  {
    var linked := users[i].(googleId := Some(googleId));
    forall k | 0 <= k < |users| && k != i ensures !Clash(linked, users[k]) {
      assert !Clash(users[i], users[k]) by {
        if k < i { assert !Clash(users[k], users[i]); }
      }
      assert !Matches(users[k], ByGoogleId(googleId));
    }
  }

  /** A user matched by email that already has a Google id is returned
      unchanged, whatever Google id the profile carries. */
  lemma GoogleKeepsLinkedUser(users: seq<User>, p: GoogleProfile, newId: ObjectId, now: nat, u: User)
    requires FindOne(users, ByGoogleId(p.id)).None?
    requires Text.Truthy(ProfileEmail(p)) && FindOne(users, ByEmail(ProfileEmail(p).value)) == Some(u)
    requires Text.Truthy(u.googleId)
    ensures GoogleStep(users, p, newId, now) == (Grant(u), users)
  {
  }

  /** With no user matched by Google id or email, exactly one user is added:
      the profile's Google id and email, no password. */
  lemma GoogleCreatesUser(users: seq<User>, p: GoogleProfile, newId: ObjectId, now: nat)
    requires WellFormed(users)
    requires forall k :: 0 <= k < |users| ==> users[k].id != newId
    requires FindOne(users, ByGoogleId(p.id)).None?
    requires Text.Truthy(ProfileEmail(p)) && FindOne(users, ByEmail(ProfileEmail(p).value)).None?
    requires ValidEmail(NewGoogleUser(p, newId, now).email)
    ensures GoogleStep(users, p, newId, now) == (Grant(NewGoogleUser(p, newId, now)), users + [NewGoogleUser(p, newId, now)])
  {
    var nu := NewGoogleUser(p, newId, now);
    assert !ClashesWithOther(users, nu, -1) by {
      forall k | 0 <= k < |users| ensures !Clash(nu, users[k]) {
        assert !Matches(users[k], ByGoogleId(p.id));
        assert !Matches(users[k], ByEmail(ProfileEmail(p).value));
      }
    }
    SaveAppends(users, nu);
    assert CreateGoogleUser(users, p, newId, now) == (Grant(nu), users + [nu]);
  }

  /** A profile without an email (none, or an empty one) that no user is
      linked to cannot sign in: the new document fails the email's `required`
      validator. */
  lemma GoogleWithoutEmailFails(users: seq<User>, p: GoogleProfile, newId: ObjectId, now: nat)
    requires FindOne(users, ByGoogleId(p.id)).None?
    requires !Text.Truthy(ProfileEmail(p))
    ensures GoogleStep(users, p, newId, now) == (Fail, users)
  {
    var e := ProfileEmail(p);
    if e.Some? {
      assert e.value == [];
      assert NormalizeEmail(e.value) == [];
    }
  }

  /** The Google strategy keeps the collection well formed. */
  lemma GoogleStepKeepsWellFormed(users: seq<User>, p: GoogleProfile, newId: ObjectId, now: nat)
    requires WellFormed(users)
    ensures WellFormed(GoogleStep(users, p, newId, now).1)
  {
    var email := ProfileEmail(p);
    if FindOne(users, ByGoogleId(p.id)).None? && Text.Truthy(email) && FindOne(users, ByEmail(email.value)).Some? {
      FoundUserStored(users, ByEmail(email.value));
    }
  }

  /** Signing in again with the same profile gives the same user and leaves
      the collection as the first sign-in left it. */
  lemma GoogleIdempotent(users: seq<User>, p: GoogleProfile, newId: ObjectId, now: nat, newId2: ObjectId, now2: nat)
    requires WellFormed(users)
    requires GoogleStep(users, p, newId, now).0.Grant?
    ensures var r := GoogleStep(users, p, newId, now);
      GoogleStep(r.1, p, newId2, now2) == r
  {
    var r := GoogleStep(users, p, newId, now);
    GoogleStepKeepsWellFormed(users, p, newId, now);
    if FindOne(users, ByGoogleId(p.id)).None? {
      var email := ProfileEmail(p);
      var byEmail := if Text.Truthy(email) then FindOne(users, ByEmail(email.value)) else None;
      if byEmail.Some? {
        var u := byEmail.value;
        if !Text.Truthy(u.googleId) {
          GoogleLinksByEmail(users, p, newId, now, u);
          var i :| 0 <= i < |users| && users[i] == u && r == (Grant(u.(googleId := Some(p.id))), users[i := u.(googleId := Some(p.id))]);
          FindOneUnique(r.1, ByGoogleId(p.id), i);
        }
      } else {
        FindOneUnique(r.1, ByGoogleId(p.id), |users|);
      }
    }
  }

  /** The Google strategy callback on the live collection: the found user is
      loaded, linked and saved, or a new document is created and saved. */
  method GoogleStrategy(store: UserStore, p: GoogleProfile, newId: ObjectId, now: nat) returns (v: Verdict)
    requires store.Valid()
    modifies store
    ensures store.Valid()
    ensures (v, store.users) == GoogleStep(old(store.users), p, newId, now)
  {
    var current := FindOne(store.users, ByGoogleId(p.id));
    if current.Some? {
      return Grant(current.value);
    }
    var email := ProfileEmail(p);
    if Text.Truthy(email) {
      var existing := FindOne(store.users, ByEmail(email.value));
      if existing.Some? {
        if !Text.Truthy(existing.value.googleId) {
          FoundUserStored(store.users, ByEmail(email.value));
          v := LinkByEmail(store, existing.value, p.id);
          return;
        }
        return Grant(existing.value);
      }
    }
    v := CreateByProfile(store, p, newId, now);
  }

  /** The linking branch: set the Google id on the loaded document and save it. */
  method LinkByEmail(store: UserStore, u: User, googleId: string) returns (v: Verdict)
    requires store.Valid() && StoredUser(u)
    modifies store
    ensures store.Valid()
    ensures (v, store.users) == LinkGoogleId(old(store.users), u, googleId)
  {
    var doc := new UserDoc.Load(u);
    doc.googleId := Some(googleId);
    var saved := store.Save(doc);
    if saved.Failure? {
      return Fail;
    }
    return Grant(saved.value);
  }

  /** The creating branch: build the new document for the profile and save it. */
  method CreateByProfile(store: UserStore, p: GoogleProfile, newId: ObjectId, now: nat) returns (v: Verdict)
    requires store.Valid()
    modifies store
    ensures store.Valid()
    ensures (v, store.users) == CreateGoogleUser(old(store.users), p, newId, now)
  {
    var doc := new UserDoc.Create(newId, ProfileEmail(p), None, Some(p.id), now);
    var saved := store.Save(doc);
    if saved.Failure? {
      return Fail;
    }
    return Grant(saved.value);
  }

  // ------------------------------------------------------------------ JWT

  /** The JWT strategy: the user whose id is the payload's id, or `false`. */
  function JwtStrategy(users: seq<User>, payload: Token): (r: Option<User>)
    ensures r.Some? ==> r.value in users && r.value.id == payload.id
    ensures r.None? <==> forall k :: 0 <= k < |users| ==> users[k].id != payload.id
  {
    FindOne(users, ById(payload.id))
  }

  // -------------------------------------------------------------- session

  /** `serializeUser`: a user is kept in the session as its id. */
  function SerializeUser(u: User): (id: ObjectId)
    ensures id == u.id
  {
    u.id
  }

  /** `deserializeUser`: the id is turned back into a user by lookup. */
  function DeserializeUser(users: seq<User>, id: ObjectId): (r: Option<User>)
    ensures r.Some? ==> r.value in users && r.value.id == id
    ensures r.None? <==> forall k :: 0 <= k < |users| ==> users[k].id != id
  {
    FindOne(users, ById(id))
  }

  /** Deserialising a stored user's serialised form gives back that user. */
  lemma SessionRoundTrip(users: seq<User>, k: nat)
    requires WellFormed(users) && k < |users|
    ensures DeserializeUser(users, SerializeUser(users[k])) == Some(users[k])
  {
    FindOneUnique(users, ById(users[k].id), k);
  }
}
