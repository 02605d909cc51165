/** The User model: the schema's field rules, the pre-save hook that hashes a
    newly set password, `matchPassword`, the unique indexes, and the users
    collection with `findOne` and `save`.

    Password hashing is abstract: `Hash` is an injective tagging of the plain
    text and `Check` (the stand-in for `bcrypt.compare`) accepts exactly the
    password a hash was made from. */
module UserModel {
  import opened Wrappers
  import opened Identifiers
  import Text

  // ---------------------------------------------------------------- hashing

  /** bcrypt's version tag and the cost `genSalt(10)` asks for. */
  const HashPrefix: string := "$2a$10$"

  predicate IsHash(h: string) {
    |HashPrefix| <= |h| && h[..|HashPrefix|] == HashPrefix
  }

  function Hash(plain: string): (h: string)
    ensures IsHash(h) && |h| > |plain|
  {
    HashPrefix + plain
  }

  predicate Check(plain: string, hash: string) {
    hash == Hash(plain)
  }

  /** A hash accepts the password it was made from and no other. */
  lemma CheckAcceptsOnlyOriginal(original: string, entered: string)
    ensures Check(entered, Hash(original)) <==> entered == original
  {
    if Check(entered, Hash(original)) {
      assert entered == Hash(entered)[|HashPrefix|..];
      assert original == Hash(original)[|HashPrefix|..];
    }
  }

  // ------------------------------------------------------------------ email

  /** The `lowercase` and `trim` setters of the email path. */
  function NormalizeEmail(raw: string): (e: string)
    ensures |e| <= |raw|
    ensures Text.Trimmed(e)
  {
    Text.Trim(Text.ToLower(raw))
  }

  /** What the setters leave: no upper-case ASCII letter and no white space
      at either end. */
  predicate IsNormalEmail(e: string) {
    Text.NoUpper(e) && Text.Trimmed(e)
  }

  /** The setters produce a normal email, and leave a normal email as it is. */
  lemma NormalizeEmailIsNormal(raw: string)
    ensures IsNormalEmail(NormalizeEmail(raw))
  {
    Text.ToLowerNoUpper(raw);
    Text.TrimNoUpper(Text.ToLower(raw));
  }

  lemma NormalEmailUnchanged(e: string)
    requires IsNormalEmail(e)
    ensures NormalizeEmail(e) == e
  {
    Text.ToLowerChars(e);
    assert Text.ToLower(e) == e;
    if e != [] {
      assert Text.TrimStart(e) == e;
      assert Text.TrimEnd(e) == e;
    }
  }

  /** The characters a regular expression `.` does not match. */
  predicate IsLineTerminator(c: char) {
    c == '\n' || c == '\r' || c == '\U{2028}' || c == '\U{2029}'
  }

  /** No character of `s` in positions `lo` up to `hi` is a line terminator. */
  predicate NoLineTerminatorIn(s: string, lo: int, hi: int) {
    forall k | lo <= k < hi && 0 <= k < |s| :: !IsLineTerminator(s[k])
  }

  /** The pattern below matched with its '@' at `at` and its '.' at `dot`. */
  predicate MatchesAt(s: string, at: int, dot: int) {
    && 1 <= at && at + 1 < dot && dot + 1 < |s|
    && s[at] == '@' && s[dot] == '.'
    && !IsLineTerminator(s[at - 1]) && !IsLineTerminator(s[dot + 1])
    && NoLineTerminatorIn(s, at + 1, dot)
  }

  /** `/.+@.+\..+/`, unanchored: somewhere in `s` there is a character, an '@',
      one or more characters, a '.', and a character, none of them a line
      terminator. */
  predicate MatchesEmailPattern(s: string)
    ensures MatchesEmailPattern(s) ==> |s| >= 5 && '@' in s && '.' in s
  {
    exists at, dot | 0 <= at < dot < |s| :: MatchesAt(s, at, dot)
  }

  /** The email path's validators: `required` (present and non-empty) and `match`. */
  predicate ValidEmail(email: Option<string>) {
    email.Some? && email.value != "" && MatchesEmailPattern(email.value)
  }

  lemma PatternExamples()
    ensures MatchesEmailPattern("a@b.com")
    ensures !MatchesEmailPattern("a@b")
    ensures !MatchesEmailPattern("@b.com")
    ensures MatchesEmailPattern("x y@z.w")
  {
    assert MatchesAt("a@b.com", 1, 3);
    assert MatchesAt("x y@z.w", 3, 5);
  }

  /** A string of the form: any text, a character, '@', one or more
      characters, '.', a character, any text (the three matched runs free of
      line terminators) matches the pattern. */
  lemma PatternOfParts(pre: string, x: char, mid: string, z: char, post: string)
    requires !IsLineTerminator(x) && !IsLineTerminator(z) && mid != []
    requires forall k :: 0 <= k < |mid| ==> !IsLineTerminator(mid[k])
    ensures MatchesEmailPattern(pre + [x, '@'] + mid + ['.', z] + post)
  {
    var s := pre + [x, '@'] + mid + ['.', z] + post;
    var at := |pre| + 1;
    var dot := at + 1 + |mid|;
    assert s[at - 1] == x && s[at] == '@' && s[dot] == '.' && s[dot + 1] == z;
    assert forall k :: at + 1 <= k < dot ==> s[k] == mid[k - at - 1];
    assert MatchesAt(s, at, dot);
  }

  /** Conversely, every matching string has that form. */
  lemma PartsOfPattern(s: string) returns (pre: string, x: char, mid: string, z: char, post: string)
    requires MatchesEmailPattern(s)
    ensures s == pre + [x, '@'] + mid + ['.', z] + post
    ensures !IsLineTerminator(x) && !IsLineTerminator(z) && mid != []
    ensures forall k :: 0 <= k < |mid| ==> !IsLineTerminator(mid[k])
  {
    var at, dot :| 0 <= at < dot < |s| && MatchesAt(s, at, dot);
    pre, x, mid, z, post := s[..at - 1], s[at - 1], s[at + 1..dot], s[dot + 1], s[dot + 2..];
    assert s == s[..at - 1] + [s[at - 1], s[at]] + s[at + 1..dot] + [s[dot], s[dot + 1]] + s[dot + 2..];
  }

  /** The pattern is unanchored: text around a match still matches. */
  lemma PatternInContext(before: string, s: string, after: string)
    requires MatchesEmailPattern(s)
    ensures MatchesEmailPattern(before + s + after)
  {
    var pre, x, mid, z, post := PartsOfPattern(s);
    assert before + s + after == (before + pre) + [x, '@'] + mid + ['.', z] + (post + after);
    PatternOfParts(before + pre, x, mid, z, post + after);
  }

  // ---------------------------------------------------------------- records

  datatype User = User(
    id: ObjectId,
    email: Option<string>,
    password: Option<string>,
    googleId: Option<string>,
    createdAt: nat)

  /** The pre-save hook: the password is replaced by its hash when it was
      modified and is non-empty; nothing else changes. */
  function PreSave(u: User, passwordModified: bool): (r: User)
    ensures r.(password := u.password) == u
    ensures r != u <==> passwordModified && Text.Truthy(u.password)
    ensures r != u ==> r.password == Some(Hash(u.password.value))
  {
    if passwordModified && Text.Truthy(u.password) then u.(password := Some(Hash(u.password.value))) else u
  }

  /** `matchPassword`: false without a password, otherwise the hash check. */
  function MatchPassword(u: User, entered: string): (b: bool)
    ensures !Text.Truthy(u.password) ==> !b
  {
    Text.Truthy(u.password) && Check(entered, u.password.value)
  }

  /** A user saved with a newly set non-empty password matches exactly that
      password afterwards. */
  lemma MatchesSavedPassword(u: User, plain: string, entered: string)
    requires plain != ""
    ensures MatchPassword(PreSave(u.(password := Some(plain)), true), entered) <==> entered == plain
  {
    CheckAcceptsOnlyOriginal(plain, entered);
  }

  /** Saving without modifying the password keeps the stored hash. */
  lemma UnmodifiedPasswordKept(u: User, entered: string)
    ensures PreSave(u, false) == u
    ensures MatchPassword(PreSave(u, false), entered) == MatchPassword(u, entered)
  {
  }

  // ------------------------------------------------------------- collection

  /** The filters `findOne` and `findById` are called with. Query values pass
      through the schema's setters, so an email filter is normalised. */
  datatype Filter = ById(id: ObjectId) | ByEmail(email: string) | ByGoogleId(googleId: string)

  predicate Matches(u: User, f: Filter) {
    match f
    case ById(id) => u.id == id
    case ByEmail(e) => u.email == Some(NormalizeEmail(e))
    case ByGoogleId(g) => u.googleId == Some(g)
  }

  /** The position of the first user at or after `from`, in insertion order,
      that matches `f`. */
  function IndexFrom(users: seq<User>, f: Filter, from: nat): (r: Option<nat>)
    ensures r.Some? ==> from <= r.value < |users| && Matches(users[r.value], f)
    ensures r.Some? ==> forall k :: from <= k < r.value ==> !Matches(users[k], f)
    ensures r.None? ==> forall k :: from <= k < |users| ==> !Matches(users[k], f)
    decreases |users| - from
  {
    if from >= |users| then None
    else if Matches(users[from], f) then Some(from)
    else IndexFrom(users, f, from + 1)
  }

  function IndexOf(users: seq<User>, f: Filter): Option<nat> {
    IndexFrom(users, f, 0)
  }

  /** `findOne(filter)`: the first matching user in insertion order, if any. */
  function FindOne(users: seq<User>, f: Filter): (r: Option<User>)
    ensures r.Some? ==> r.value in users && Matches(r.value, f)
    ensures r.None? <==> forall k :: 0 <= k < |users| ==> !Matches(users[k], f)
  {
    match IndexOf(users, f)
    case None => None
    case Some(i) => Some(users[i])
  }

  /** What every stored user satisfies: a valid, normalised email and a
      password that, when present, is a hash. */
  predicate StoredUser(u: User) {
    && ValidEmail(u.email)
    && IsNormalEmail(u.email.value)
    && (Text.Truthy(u.password) ==> IsHash(u.password.value))
  }

  /** Two users that the unique indexes on `_id`, `email` and the sparse
      `googleId` refuse to store together. */
  predicate Clash(u: User, v: User) {
    u.id == v.id || u.email == v.email || (u.googleId.Some? && u.googleId == v.googleId)
  }

  /** Some user other than the one at position `except` clashes with `u`. */
  predicate ClashesWithOther(users: seq<User>, u: User, except: int) {
    exists k :: 0 <= k < |users| && k != except && Clash(u, users[k])
  }

  predicate WellFormed(users: seq<User>) {
    && (forall k :: 0 <= k < |users| ==> StoredUser(users[k]))
    && (forall j, k :: 0 <= j < k < |users| ==> !Clash(users[j], users[k]))
  }

  /** In a well-formed collection at most one user matches an id, an email or
      a Google id, so `findOne` finds it wherever it is. */
  lemma FindOneUnique(users: seq<User>, f: Filter, k: nat)
    requires WellFormed(users) && k < |users| && Matches(users[k], f)
    ensures FindOne(users, f) == Some(users[k])
  {
    var i := IndexOf(users, f).value;
    if i < k {
      assert Clash(users[i], users[k]);
    }
  }

  /** A stored user's position is the first one with its id. */
  lemma IndexOfStored(users: seq<User>, i: nat)
    requires WellFormed(users) && i < |users|
    ensures IndexOf(users, ById(users[i].id)) == Some(i)
  {
    var j := IndexOf(users, ById(users[i].id)).value;
    if j < i {
      assert Clash(users[j], users[i]);
    }
  }

  /** A document as the hook and the validators see it: the setters have
      normalised its email, and an unmodified password is one read from the
      collection, hence a hash. */
  predicate DocumentOk(u: User, passwordModified: bool) {
    && (u.email.Some? ==> IsNormalEmail(u.email.value))
    && (!passwordModified && Text.Truthy(u.password) ==> IsHash(u.password.value))
  }

  datatype SaveError = ValidationError | DuplicateKey | DocumentNotFound

  /** `document.save()`: validation (which the pre-save hook follows), then an
      insert of a new document or a replacement of the stored one with the same
      id, refused when a unique index would be violated. */
  function SaveUser(users: seq<User>, doc: User, isNew: bool, passwordModified: bool): (r: (Result<User, SaveError>, seq<User>))
    ensures r.0.Failure? ==> r.1 == users
    ensures r.0 == Failure(ValidationError) <==> !ValidEmail(doc.email)
    ensures r.0.Success? ==> r.0.value == PreSave(doc, passwordModified) && r.0.value in r.1
    ensures r.0.Success? && isNew ==> r.1 == users + [r.0.value]
    ensures r.0.Success? && !isNew ==>
      exists i :: 0 <= i < |users| && users[i].id == doc.id && r.1 == users[i := r.0.value]
    ensures WellFormed(users) && DocumentOk(doc, passwordModified) ==> WellFormed(r.1)
  {
    if !ValidEmail(doc.email) then (Failure(ValidationError), users)
    else
      var u := PreSave(doc, passwordModified);
      if isNew then
        if ClashesWithOther(users, u, -1) then (Failure(DuplicateKey), users)
        else
          assert (users + [u])[|users|] == u;
          (Success(u), users + [u])
      else
        match IndexOf(users, ById(u.id))
        case None => (Failure(DocumentNotFound), users)
        case Some(i) =>
          if ClashesWithOther(users, u, i) then (Failure(DuplicateKey), users)
          else
            assert users[i := u][i] == u;
            (Success(u), users[i := u])
  }

  /** Saving a changed copy of the user at position `i`, with a valid email,
      an unmodified password and no clash with any other user, replaces
      exactly that user. */
  lemma SaveReplacesAt(users: seq<User>, doc: User, i: nat)
    requires WellFormed(users) && i < |users| && users[i].id == doc.id
    requires ValidEmail(doc.email) && !ClashesWithOther(users, doc, i)
    ensures SaveUser(users, doc, false, false) == (Success(doc), users[i := doc])
  {
    IndexOfStored(users, i);
  }

  /** Saving a new document with a valid email, no password to hash and no
      clash with any stored user appends exactly that document. */
  lemma SaveAppends(users: seq<User>, doc: User)
    requires ValidEmail(doc.email) && !ClashesWithOther(users, doc, -1)
    ensures SaveUser(users, doc, true, false) == (Success(doc), users + [doc])
  {
  }

  // ---------------------------------------------------------- mutable state

  /** A user document in memory, as `new User({...})` or a query creates it. */
  class UserDoc {
    var id: ObjectId
    var email: Option<string>
    var password: Option<string>
    var googleId: Option<string>
    var createdAt: nat
    var isNew: bool
    var passwordModified: bool

    function Snapshot(): User
      reads this
    {
      User(id, email, password, googleId, createdAt)
    }

    ghost predicate Valid()
      reads this
    {
      DocumentOk(Snapshot(), passwordModified)
    }

    /** `new User({...})`: the email setters run on assignment, `createdAt`
        defaults to now, and a password given here counts as modified. */
    constructor Create(id: ObjectId, email: Option<string>, password: Option<string>, googleId: Option<string>, now: nat)
      ensures Valid() && isNew && passwordModified == password.Some?
      ensures Snapshot() == User(id, if email.Some? then Some(NormalizeEmail(email.value)) else None, password, googleId, now)
    {
      this.id := id;
      if email.Some? {
        NormalizeEmailIsNormal(email.value);
        this.email := Some(NormalizeEmail(email.value));
      } else {
        this.email := None;
      }
      this.password := password;
      this.googleId := googleId;
      this.createdAt := now;
      this.isNew := true;
      this.passwordModified := password.Some?;
    }

    /** The document a query returns for a stored user. */
    constructor Load(u: User)
      requires StoredUser(u)
      ensures Valid() && !isNew && !passwordModified && Snapshot() == u
    {
      id, email, password, googleId, createdAt := u.id, u.email, u.password, u.googleId, u.createdAt;
      isNew, passwordModified := false, false;
    }

    /** The pre-save hook, hashing the password in place. */
    method HashPasswordIfModified()
      modifies this`password
      ensures Snapshot() == PreSave(old(Snapshot()), passwordModified)
    {
      if passwordModified && Text.Truthy(password) {
        password := Some(Hash(password.value));
      }
    }
  }

  /** The users collection, in insertion order. */
  class UserStore {
    var users: seq<User>

    ghost predicate Valid()
      reads this
    {
      WellFormed(users)
    }

    constructor ()
      ensures Valid() && users == []
    {
      users := [];
    }

    /** `doc.save()`. On success the document holds what was stored and is no
        longer new or modified. A save refused after validation has already
        run the hook: the document keeps its hashed password and stays marked
        modified, so saving it again would hash the hash. */
    method Save(doc: UserDoc) returns (r: Result<User, SaveError>)
      requires Valid() && doc.Valid()
      modifies this, doc
      ensures Valid() && doc.Valid()
      ensures (r, users) == SaveUser(old(users), old(doc.Snapshot()), old(doc.isNew), old(doc.passwordModified))
      ensures r.Success? ==> doc.Snapshot() == r.value && !doc.isNew && !doc.passwordModified
      ensures r == Failure(ValidationError) ==> doc.Snapshot() == old(doc.Snapshot())
      ensures r.Failure? && r != Failure(ValidationError) ==>
        doc.Snapshot() == PreSave(old(doc.Snapshot()), old(doc.passwordModified))
      ensures r.Failure? ==> doc.isNew == old(doc.isNew) && doc.passwordModified == old(doc.passwordModified)
    {
      ghost var spec := SaveUser(users, doc.Snapshot(), doc.isNew, doc.passwordModified);
      if !ValidEmail(doc.email) {
        return Failure(ValidationError);
      }
      doc.HashPasswordIfModified();
      var u := doc.Snapshot();
      assert spec.0.Success? ==> spec.0.value == u;
      if doc.isNew {
        if ClashesWithOther(users, u, -1) {
          r := Failure(DuplicateKey);
          return;
        }
        users := users + [u];
      } else {
        var found := IndexOf(users, ById(u.id));
        if found.None? {
          r := Failure(DocumentNotFound);
          return;
        }
        var i := found.value;
        if ClashesWithOther(users, u, i) {
          r := Failure(DuplicateKey);
          return;
        }
        users := users[i := u];
      }
      assert users == spec.1;
      doc.isNew, doc.passwordModified := false, false;
      r := Success(u);
    }
  }
}
