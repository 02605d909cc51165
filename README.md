# Event Organizer: a verified model of the server's decision logic

Event Organizer is a small web application. Users register with an email and
password, or sign in with Google, and then manage their own events. The
server is Express with Passport and Mongoose. This project models, in Dafny,
the decisions that server makes:

- **The two Mongoose models.**
  - `User`: the email's `lowercase` and `trim` setters, `required`, the
    unanchored pattern `.+@.+\..+`, and the unique index.
  - The sparse unique `googleId`.
  - The pre-save hook, which hashes a password only when it was modified and
    is non-empty.
  - `matchPassword`.
  - `Event`: its required paths, the trimmed paths, and the category
    enumeration with its default `'other'`.
- **The users collection.** It keeps insertion order, so `findOne` returns
  the first match. `save()` validates, runs the hook, and then inserts or
  replaces, refusing a duplicate key.
- **The Passport strategies.**
  - Local: email and password.
  - Google: find by Google id, else by email with linking, else create.
  - JWT: payload to user.
  - Session serialisation.
- **The auth routes.** `/register`, `/login`, `/user`, and the token they
  issue: payload `{id}`, expiring one hour after it is issued.
- **The unused `protect` middleware.**
- **The event routes.** Create, list, read, update and delete, over the
  events collection. Every route checks that the event exists (404), then
  that the caller owns it (403).

Stateful parts are classes:

- `UserModel.UserDoc` is a document, whose pre-save hook rewrites its
  password in place.
- `UserModel.UserStore` is the users collection.
- `EventRoutes.EventTable` is the events collection.

Each of their methods except `EventTable.List` is proved equal to a pure
step function, such as `SaveUser`, `RegisterStep`, `GoogleStep`,
`CreateStep`, `UpdateStep` or `DeleteStep`. `EventTable.List` is proved
against the relational specification `ListsOwned`. The properties the application promises are proved about those
functions as lemmas:

- every step keeps the collections well formed, with unique keys and
  normalised, valid stored values;
- register then login succeeds;
- signing in with Google twice changes nothing the second time;
- an update changes only the fields given;
- a deleted event is then not found.

Modules follow the source files:

| module | models |
|---|---|
| `Text` | the JavaScript string operations the code relies on |
| `Identifiers` | ObjectId casting |
| `Tokens` | `jsonwebtoken` |
| `UserModel` | `models/User.js` |
| `EventModel` | `models/Event.js` |
| `Passport` | `config/passport-setup.js` |
| `AuthRoutes` | `routes/authRoutes.js` |
| `AuthMiddleware` | `middleware/authMiddleware.js` |
| `EventRoutes` | `routes/eventRoutes.js` |

`Wrappers` holds `Option` and `Result`.

The database, bcrypt and JWT signing are abstract:

- **Hashing.** `Hash` is an injective tagging of the plain text with bcrypt's
  `$2a$10$` prefix. `Check`, which stands for `bcrypt.compare`, accepts
  exactly the password a hash was made from.
- **Tokens.** A token is its payload `Token(id, iat, exp)`. The texts the
  server's secret authenticates are a map from text to payload, passed as a
  parameter.
- **Clock and new ids.** The clock (`now`, in seconds) and the id a new
  document receives (`newId`) are parameters.

Where the application's own written description and its code disagree, the
model follows the code:

- **Invalid category.** A category outside the enumeration is not replaced by
  `'other'`. The enum validator rejects it, so creating such an event, or
  updating one to it, answers 500.
- **Google profile without an email.** If no user has the profile's Google
  id, the profile cannot sign in. The new document fails the email's
  `required` validator, so the strategy reports an error. It does not store
  the user with a null email.
- **Blank name or location.** A name or location of white space only passes
  the route's own 400 check, because it is a truthy string. Trimming then
  empties it and `required` fails, so the answer is 500, not 400.

## Model

| member | source | states |
|---|---|---|
| Text.Trim | server/models/Event.js:10 | the trimmed string is no longer than the input and has no white space at either end |
| Text.TrimShape | server/models/Event.js:10 | the trim is a run `s[i..j]` of the input with only white space before `i` and after `j`; with `Trim`'s own contract, exactly the leading and the trailing white space is cut |
| Text.TrimmedFixed | server/models/Event.js:10 | a string without white space at its ends is its own trim |
| Text.TrimIdempotent | server/models/Event.js:10 | trimming twice is trimming once, so re-saving a stored event does not change its trimmed paths |
| Text.TrimEmptyIffBlank | server/models/Event.js:7-11 | the trim is empty exactly when the input is all white space (both directions) |
| Text.ToLowerChars | server/models/User.js:12 | lower-casing maps each character on its own: the i-th character of the result is the lower case of the i-th character of the input |
| Text.ToLowerIdempotent | server/models/User.js:12 | lower-casing twice is lower-casing once |
| Text.LowerTrimCommute | server/models/User.js:12-13 | lower-casing and trimming commute, so the order of the two setters does not matter |
| Text.SplitFreeOfSeparator | server/middleware/authMiddleware.js:18 | no piece of `split(sep)` contains the separator |
| Text.JoinSplit | server/middleware/authMiddleware.js:18 | joining the pieces of a split with the separator gives back the string |
| Text.SplitJoin | server/middleware/authMiddleware.js:18 | splitting a join of separator-free pieces gives back the pieces |
| Text.StrLeTotal | server/routes/eventRoutes.js:47 | the string order used to sort by `time` relates every pair of strings |
| Text.StrLeTransitive | server/routes/eventRoutes.js:47 | the string order is transitive |
| Text.StrLeAntisymmetric | server/routes/eventRoutes.js:47 | strings ordered both ways are equal |
| Identifiers.CastObjectId | server/routes/eventRoutes.js:60 | casting succeeds exactly for 24 hexadecimal digits, and the id is their lower-case spelling |
| Identifiers.CastOwnText | server/routes/eventRoutes.js:60 | an id's own text casts back to that id |
| Identifiers.CastIgnoresCase | server/routes/eventRoutes.js:60 | ids differing only in the case of their hex digits cast alike |
| Tokens.Verify | server/middleware/authMiddleware.js:21 | a token text verifies iff it is present, non-empty, authentic and not yet at its `exp`; it is expired iff authentic and `exp <= now`; every other text fails |
| Tokens.GenerateToken | server/routes/authRoutes.js:12-16 | the payload names the given id, is issued now and expires exactly one hour (3600 seconds) after it is issued |
| Tokens.IssuedTokenLifetime | server/routes/authRoutes.js:12-16 | a token issued for an id verifies with payload `{id, iat, iat + 3600}` before one hour has passed and is expired from then on |
| UserModel.Hash | server/models/User.js:36 | a hash carries bcrypt's prefix and is longer than the password |
| UserModel.CheckAcceptsOnlyOriginal | server/models/User.js:44 | the hash check accepts the password a hash was made from and no other password |
| UserModel.NormalizeEmail | server/models/User.js:12-13 | the `lowercase` and `trim` setters leave no white space at either end and never lengthen the email |
| UserModel.NormalizeEmailIsNormal | server/models/User.js:12-13 | the setters leave no upper-case letter and no white space at either end |
| UserModel.NormalEmailUnchanged | server/models/User.js:12-13 | an email already normal is left unchanged by the setters, so the setters are idempotent on stored emails |
| UserModel.PatternExamples | server/models/User.js:14 | the email pattern accepts `a@b.com` and `x y@z.w` and refuses `a@b` and `@b.com` |
| UserModel.MatchesEmailPattern | server/models/User.js:14 | a matching email has at least five characters, among them an '@' and a '.' |
| UserModel.PatternOfParts | server/models/User.js:14 | any text, a character, '@', one or more characters, '.', a character and any text, the three matched runs free of line terminators, matches the pattern |
| UserModel.PartsOfPattern | server/models/User.js:14 | conversely, every matching string can be cut into exactly that form |
| UserModel.PatternInContext | server/models/User.js:14 | the pattern is unanchored: text before and after a matching string keeps it matching |
| UserModel.PreSave | server/models/User.js:33-39 | the hook changes the user iff the password was modified and is non-empty, and then only the password, to its hash |
| UserModel.MatchPassword | server/models/User.js:42-45 | a user without a password matches no password |
| UserModel.MatchesSavedPassword | server/models/User.js:33-45 | after saving a newly set non-empty password, `matchPassword` is true exactly for that password |
| UserModel.UnmodifiedPasswordKept | server/models/User.js:34 | saving with the password unmodified keeps the stored hash and what it matches |
| UserModel.IndexFrom | server/config/passport-setup.js:24 | the position found matches the filter and no earlier position does; none is found only when no user matches |
| UserModel.FindOne | server/config/passport-setup.js:24 | `findOne` returns a stored user matching the filter, and returns nothing exactly when no user matches |
| UserModel.FindOneUnique | server/models/User.js:8-25 | in a collection obeying the unique indexes, any matching user is the one `findOne` returns |
| UserModel.IndexOfStored | server/models/User.js:7-30 | in a collection obeying the unique indexes, looking up a stored user's id finds that user's position |
| UserModel.SaveUser | server/models/User.js:7-39 | `save()` fails only by leaving the collection unchanged; it fails validation iff the email is missing, empty or off-pattern; a saved document is the hooked document; a new one is appended and an old one replaced at its position; unique indexes stay intact |
| UserModel.SaveReplacesAt | server/models/User.js:7-39 | re-saving a changed stored user with no clash and an unmodified password replaces exactly that user |
| UserModel.SaveAppends | server/models/User.js:7-39 | saving a new valid document whose password is not modified, with no clash, appends exactly that document |
| UserModel.UserDoc.Create | server/models/User.js:8-30 | `new User({...})` applies the email setters, defaults `createdAt` to now and marks a given password as modified |
| UserModel.UserDoc.Load | server/models/User.js:7-30 | a queried document holds the stored user and is neither new nor modified |
| UserModel.UserDoc.HashPasswordIfModified | server/models/User.js:33-39 | the hook rewrites the document in place exactly as `PreSave` says |
| UserModel.UserStore.Save | server/models/User.js:7-39 | `doc.save()` on the collection does what `SaveUser` says and keeps the collection well formed; on success the document holds what was stored and is neither new nor modified; a validation failure leaves the document as it was; a duplicate key or a missing document leaves it hooked (password hashed if it was modified) and still new and modified as before |
| EventModel.ParseCategory | server/models/Event.js:29-31 | the enum validator accepts a value only as the spelling of the category it yields |
| EventModel.ParseCategoryName | server/models/Event.js:31 | every category is accepted under its own spelling, so parsing inverts spelling |
| EventModel.ParseCategoryExactly | server/models/Event.js:31 | exactly the five listed spellings are accepted |
| EventModel.Validate | server/models/Event.js:6-43 | a document validates iff name and location are non-empty after trimming, date and time are present, and the category is absent or listed; a valid event is well formed and keeps organizer and creation time |
| EventModel.ValidatedFields | server/models/Event.js:7-33 | a valid event stores name, location and description trimmed, date and time as given, and category `'other'` when none was given |
| EventModel.RevalidateStored | server/models/Event.js:6-43 | saving a stored event again unchanged validates it to itself |
| EventModel.BlankNameRejected | server/models/Event.js:7-11 | a name of white space only fails `required` on the name |
| Passport.LocalStrategy | server/config/passport-setup.js:22-43 | 'Incorrect email or password.' exactly when no user has the email; the Google message exactly when the user has no password; 'Invalid credentials' exactly when the user has a password that does not match; the found user exactly when the password matches; never an error |
| Passport.ProfileEmail | server/config/passport-setup.js:62 | the email is the profile's first listed email, and is absent exactly when the profile lists none |
| Passport.NewGoogleUser | server/config/passport-setup.js:62-85 | a new Google user has the new id, the profile's Google id, no password, the current time, and the profile's first email after the setters (none when it lists none) |
| Passport.LinkGoogleId | server/config/passport-setup.js:70-73 | linking either fails and changes nothing, or yields the linked user, stored in a collection of the same size that stays well formed |
| Passport.CreateGoogleUser | server/config/passport-setup.js:81-87 | creating either fails and changes nothing, or appends exactly the new Google user and yields it |
| Passport.GoogleStep | server/config/passport-setup.js:51-92 | a user already holding the profile's Google id is returned with the collection unchanged; a granted user is in the collection; the collection is unchanged, the same size, or grown by the new user |
| Passport.GoogleLinksByEmail | server/config/passport-setup.js:67-73 | a user found by email without a Google id gets the profile's id in place; nothing else changes and no user is added |
| Passport.GoogleKeepsLinkedUser | server/config/passport-setup.js:75-76 | a user found by email that already has a Google id is returned unchanged |
| Passport.GoogleCreatesUser | server/config/passport-setup.js:81-87 | with no user found by Google id or email, exactly one user is added: the profile's Google id and email, no password |
| Passport.GoogleWithoutEmailFails | server/config/passport-setup.js:62-87 | a new profile without an email is an error and changes nothing |
| Passport.GoogleStepKeepsWellFormed | server/config/passport-setup.js:51-92 | the Google strategy keeps the unique indexes and the stored-value rules |
| Passport.GoogleIdempotent | server/config/passport-setup.js:54-76 | signing in again with the same profile returns the same user and leaves the collection as it was |
| Passport.GoogleStrategy | server/config/passport-setup.js:51-92 | the callback on the live collection does what `GoogleStep` says and keeps it well formed |
| Passport.LinkByEmail | server/config/passport-setup.js:70-73 | setting `googleId` on the loaded document and saving it does what `LinkGoogleId` says |
| Passport.CreateByProfile | server/config/passport-setup.js:81-87 | building and saving the new document does what `CreateGoogleUser` says |
| Passport.JwtStrategy | server/config/passport-setup.js:100-111 | the strategy yields a stored user with the payload's id, and yields `false` exactly when there is none |
| Passport.SerializeUser | server/config/passport-setup.js:115-117 | the session keeps the user's id and nothing else |
| Passport.DeserializeUser | server/config/passport-setup.js:119-126 | deserialising yields a stored user with that id, and nothing exactly when no user has it |
| Passport.SessionRoundTrip | server/config/passport-setup.js:115-126 | deserialising a stored user's serialised id gives back that user |
| AuthRoutes.RegisteredUser | server/routes/authRoutes.js:34-35 | the registered user has the new id, the normalised email, the hashed password and no Google id |
| AuthRoutes.RegisterStep | server/routes/authRoutes.js:21-50 | an incomplete body is a 400 'Please enter all fields'; 'User already exists' is answered exactly for a complete body whose email is taken; a refusal changes nothing; success is a 201 that appends the registered user and issues a token for its id with `{id, email}` |
| AuthRoutes.RegisterKeepsWellFormed | server/routes/authRoutes.js:34-35 | registering keeps the collection well formed |
| AuthRoutes.RegisterSucceeds | server/routes/authRoutes.js:34-45 | a complete body with a fresh valid email and a fresh id registers and adds exactly one user |
| AuthRoutes.Register | server/routes/authRoutes.js:21-50 | the route on the live collection does what `RegisterStep` says and keeps it well formed |
| AuthRoutes.Login | server/routes/authRoutes.js:55-91 | an unknown email and a wrong password get the same 400 'Invalid credentials'; a user without a password gets the Google message whatever was entered; only a matching password issues a token for that user, with 200 |
| AuthRoutes.LoginAgreesWithLocalStrategy | server/routes/authRoutes.js:55-91 | `/login` issues a token exactly when the local strategy grants, and for the same user |
| AuthRoutes.RegisterThenLogin | server/routes/authRoutes.js:21-91 | after a successful register, login with the same body succeeds and names the registered user's id |
| AuthRoutes.CurrentUser | server/routes/authRoutes.js:122-128 | `/user` answers exactly when the token verifies and its user exists, with that user's id and email only |
| AuthRoutes.IssuedTokenNamesUser | server/routes/authRoutes.js:122-128 | a token issued for a stored user names that user at `/user` until it expires |
| AuthMiddleware.View | server/middleware/authMiddleware.js:24 | the attached view keeps every field of the user except the password |
| AuthMiddleware.ViewOmitsOnlyPassword | server/middleware/authMiddleware.js:24 | two users have the same view exactly when they differ at most in their passwords, so the password never reaches the attached user and no other field is lost |
| AuthMiddleware.BearerToken | server/middleware/authMiddleware.js:18 | the token taken from the header contains no space |
| AuthMiddleware.BearerTokenOf | server/middleware/authMiddleware.js:18 | the token is the piece after the first space and before the next one |
| AuthMiddleware.Attached | server/middleware/authMiddleware.js:24 | a user is attached exactly when one has the decoded id, and it has that id |
| AuthMiddleware.Protect | server/middleware/authMiddleware.js:12-35 | as written: a missing or non-Bearer header makes one 401 'no token' call; `next` is called iff the token verifies, with no `json` call and the looked-up user, which may be null; a failed verification makes the 'token failed' call, followed by a 'no token' call when the token part is missing or empty |
| AuthMiddleware.ProtectBareBearerCallsJsonTwice | server/middleware/authMiddleware.js:15-34 | the header `Bearer` alone makes the middleware call `res.status(401).json` twice, the second time after the first response has gone out |
| AuthMiddleware.ProtectIntended | server/middleware/authMiddleware.js:12-35 | corrected: every request gets exactly one `json` call or is passed on; 'no token' is answered exactly for a missing, non-Bearer or token-less header |
| AuthMiddleware.ProtectIntendedAgrees | server/middleware/authMiddleware.js:15-34 | the corrected middleware agrees with the written one except on a Bearer header without a usable token part |
| AuthMiddleware.ProtectAcceptsIssuedToken | server/middleware/authMiddleware.js:15-25 | `Bearer <token>` with a token issued for a stored user passes the request on with that user, its password omitted, until expiry |
| EventRoutes.Find | server/routes/eventRoutes.js:60-69 | a malformed id, a missing event and another user's event are told apart in that order; otherwise the event is the caller's |
| EventRoutes.LookupFailure | server/routes/eventRoutes.js:62-78 | a malformed id is a 400 'Invalid event ID', a missing event a 404, another user's event a 403 with the route's message |
| EventRoutes.NewDraft | server/routes/eventRoutes.js:24-32 | the new document's organizer is the caller, whatever the body holds |
| EventRoutes.HasRequiredFields | server/routes/eventRoutes.js:19 | a body the route's 400 test refuses would also fail the schema's validation, whoever creates it and whenever |
| EventRoutes.CreateStep | server/routes/eventRoutes.js:16-40 | the 400 is answered exactly when name, date, time or location is falsy; every failure leaves the table unchanged; a created event is stored under a fresh id with the caller as organizer; the table stays well formed |
| EventRoutes.CreatedFromBody | server/routes/eventRoutes.js:24-34 | a created event holds the body's fields, trimmed where the schema trims, and `'other'` without a category |
| EventRoutes.BlankNameIsServerError | server/routes/eventRoutes.js:19-38 | a name of white space only passes the route's check and is a 500 that changes nothing |
| EventRoutes.CreateSucceeds | server/routes/eventRoutes.js:19-35 | a body whose required fields survive trimming, with a listed or no category and a fresh id, is created |
| EventRoutes.KeyLeTotal | server/routes/eventRoutes.js:47 | the listing order, by date then time, relates every two events |
| EventRoutes.KeyLeTransitive | server/routes/eventRoutes.js:47 | the listing order is transitive |
| EventRoutes.InsertPos | server/routes/eventRoutes.js:47 | the insertion position lies after every entry not later than the new one and before the rest |
| EventRoutes.InsertSorted | server/routes/eventRoutes.js:47 | inserting at that position keeps a listing sorted and shifts the later entries by one |
| EventRoutes.InsertKeepsListed | server/routes/eventRoutes.js:47 | visiting one of the caller's events and inserting it keeps the partial listing sorted, owned, complete for the visited ids and free of repeats |
| EventRoutes.InsertCovers | server/routes/eventRoutes.js:47 | after the insertion every visited event of the caller is listed |
| EventRoutes.GetStep | server/routes/eventRoutes.js:58-80 | the event is returned exactly when it exists and is the caller's; otherwise the lookup's failure is answered |
| EventRoutes.Or | server/routes/eventRoutes.js:101-106 | `x || stored` on a string field: a truthy body value, otherwise the stored value |
| EventRoutes.Merge | server/routes/eventRoutes.js:101-106 | the merged document keeps the stored organizer and creation time |
| EventRoutes.UpdateStep | server/routes/eventRoutes.js:85-117 | a failed lookup gets its 400, 404 or 403; for the owner the update succeeds exactly when the merged document validates, storing the validated event under the same id, and is otherwise a 500; every failure leaves the table unchanged; organizer and creation time are kept; the table stays well formed |
| EventRoutes.UpdateChangesOnlyGivenFields | server/routes/eventRoutes.js:100-108 | an update changes exactly the fields given truthy values (trimmed where the schema trims) and keeps the others and the organizer |
| EventRoutes.UpdateSucceeds | server/routes/eventRoutes.js:85-111 | the owner's update succeeds for any body whose truthy name and location are more than white space and whose truthy category is listed, such as a body giving only a description |
| EventRoutes.EmptyUpdateKeepsEvent | server/routes/eventRoutes.js:100-108 | an update with no truthy field stores the event as it was |
| EventRoutes.DeleteStep | server/routes/eventRoutes.js:122-144 | the delete succeeds exactly when the caller owns the event and then removes exactly that id; a failure answers the lookup's failure and changes nothing |
| EventRoutes.DeleteThenGetNotFound | server/routes/eventRoutes.js:124-135 | after a delete, reading the same id is a 404 for everyone |
| EventRoutes.LookupFailuresAgree | server/routes/eventRoutes.js:58-144 | read, update and delete answer a failed lookup with the same status, and neither update nor delete changes the table then |
| EventRoutes.EventTable.Create | server/routes/eventRoutes.js:16-40 | the route on the table does what `CreateStep` says and keeps every stored event valid |
| EventRoutes.EventTable.List | server/routes/eventRoutes.js:45-53 | the result is sorted by date then time; it holds exactly the caller's events, each once, as stored; an empty result is an ordinary answer |
| EventRoutes.EventTable.Get | server/routes/eventRoutes.js:58-80 | the route on the table answers what `GetStep` says |
| EventRoutes.EventTable.Update | server/routes/eventRoutes.js:85-117 | the route on the table does what `UpdateStep` says and keeps every stored event valid |
| EventRoutes.EventTable.Delete | server/routes/eventRoutes.js:122-144 | the route on the table does what `DeleteStep` says and keeps every stored event valid |

## Left out

- HTTP, Express and the response objects. A route's answer is a datatype with its status code. Logging is omitted.
- passport-jwt's extraction of the token from the `Authorization` header, and its gate in front of the event routes, which receive the authenticated caller's id. For `/user` the refusal of a bad token is modelled by `AuthRoutes.CurrentUser`.
- The Google OAuth redirect exchange, the callback's redirect URL with the token in it, the session store, and `/logout`. `/logout` calls an undefined `next` on error. These are all framework and network behaviour.
- Database failures and the 500 answers they cause. List, read and delete therefore never answer 500 in the model. Update and create answer 500 only for the validation and duplicate-key errors the model has.
- Concurrency: each step runs alone, so lost updates between concurrent requests are not modelled.
- bcrypt's salt and its 72-byte input limit. Hashing is an injective prefix tagging, and the hash check holds for the original password only.
- JWT signing and the secret. Authentic token texts are a parameter map.
- UserModel.NormalizeEmail: `toLowerCase` folds only the ASCII letters A-Z. Unicode case mapping is not modelled.
- Identifiers.CastObjectId: Mongoose also accepts a 12-character string as an ObjectId. Only the 24-hex-digit form is modelled.
- Request bodies: `None` stands for an absent field. JSON `null` and values that are not strings are not modelled. Mongoose applies the category default only to an absent value, and its enum validator lets `null` through. So a create body with `category: null` would store an event without a category, where the model stores 'other'.
- Dates are whole numbers and times are strings. Date parsing, time zones and the cast error for an unparsable date are not modelled. A falsy `date` is absent.
- EventRoutes.EventTable.List: the loop stands for the database's filter and sort. Among events with equal date and time the order is left open, as the database leaves it.
- Referential integrity of `organizer`: an event's organizer is an ObjectId, and it is not checked against the users collection, as in the schema.
- `generateToken`'s `iat` and `exp` come from the clock parameter. Clock skew options of `jwt.verify` are not modelled.

## Findings

| source | as written | input that shows it | evidently intended | confidence | as-written member | corrected member |
|---|---|---|---|---|---|---|
| server/middleware/authMiddleware.js:15-34 | when the token part of a Bearer header is missing or empty, verification fails and `res.status(401).json` sends 'token failed'; the later check sees no token and calls `res.status(401).json` again, after the response has gone out, which Express refuses with an error the async middleware leaves unhandled; the middleware is not exported (line 37), so no route reaches it | `Authorization: Bearer` | one `json` call per request: 401 'Not authorized, no token' and nothing else | not executed | AuthMiddleware.ProtectBareBearerCallsJsonTwice | AuthMiddleware.ProtectIntended |
