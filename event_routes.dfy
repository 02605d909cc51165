/** The event routes, over the events collection held as a map from id to
    event. Every route runs behind the JWT strategy, so the caller is the id
    of an authenticated user. Creating stamps the caller as organizer;
    listing returns the caller's events by date, then time; reading,
    updating and deleting one event check first that it exists (404), then
    that the caller organises it (403). */
module EventRoutes {
  import opened Wrappers
  import opened Identifiers
  import opened EventModel
  import Text

  const MissingFieldsMessage: string := "Please provide event name, date, time, and location."
  const CreateErrorMessage: string := "Server error creating event"
  const NotFoundMessage: string := "Event not found"
  const InvalidIdMessage: string := "Invalid event ID"
  const UpdateErrorMessage: string := "Server error updating event"

  /** The three routes that address one event, for their 403 messages. */
  datatype Action = View | Change | Remove

  function ForbiddenMessage(a: Action): string {
    match a
    case View => "Not authorized to view this event"
    case Change => "Not authorized to update this event"
    case Remove => "Not authorized to delete this event"
  }

  /** A stored event with its id. */
  datatype Entry = Entry(id: ObjectId, event: Event)

  /** The fields of a request body; `None` for an absent field, and for `date`
      also for any falsy value. */
  datatype EventBody = EventBody(
    name: Option<string>,
    date: Option<nat>,
    time: Option<string>,
    location: Option<string>,
    description: Option<string>,
    category: Option<string>)

  /** What a route answers. `Created` is a 201, the other successes are 200s. */
  datatype Reply =
    | Created(entry: Entry)
    | Listing(entries: seq<Entry>)
    | Found(entry: Entry)
    | Updated(entry: Entry)
    | Deleted
    | Failed(status: nat, message: string)

  function Status(r: Reply): nat {
    match r
    case Created(_) => 201
    case Failed(status, _) => status
    case _ => 200
  }

  type Table = map<ObjectId, Event>

  /** Every stored event passed validation. */
  predicate TableOk(events: Table) {
    forall id :: id in events ==> WellFormedEvent(events[id])
  }

  // --------------------------------------------------------------- lookup

  /** `findById(req.params.id)` followed by the ownership test. */
  datatype Lookup = BadId | Absent | NotOwner | Owned(id: ObjectId)

  /** The id is cast first (a malformed id is a cast error), then looked up,
      and only an existing event's organizer is compared with the caller. */
  function Find(events: Table, caller: ObjectId, rawId: string): (l: Lookup)
    ensures l == BadId <==> CastObjectId(rawId).None?
    ensures l == Absent <==> CastObjectId(rawId).Some? && CastObjectId(rawId).value !in events
    ensures l == NotOwner <==>
      CastObjectId(rawId).Some? && CastObjectId(rawId).value in events && events[CastObjectId(rawId).value].organizer != caller
    ensures l.Owned? ==> l.id == CastObjectId(rawId).value && l.id in events && events[l.id].organizer == caller
  {
    match CastObjectId(rawId)
    case None => BadId
    case Some(id) =>
      if id !in events then Absent
      else if events[id].organizer != caller then NotOwner
      else Owned(id)
  }

  /** The reply for a lookup that did not find the caller's event. */
  function LookupFailure(l: Lookup, a: Action): (r: Reply)
    requires !l.Owned?
    ensures r.Failed?
    ensures l == BadId ==> r == Failed(400, InvalidIdMessage)
    ensures l == Absent ==> r == Failed(404, NotFoundMessage)
    ensures l == NotOwner ==> r == Failed(403, ForbiddenMessage(a))
  {
    match l
    case BadId => Failed(400, InvalidIdMessage)
    case Absent => Failed(404, NotFoundMessage)
    case NotOwner => Failed(403, ForbiddenMessage(a))
  }

  // --------------------------------------------------------------- create

  /** The route's own test: name, date, time and location all truthy. */
  predicate HasRequiredFields(body: EventBody)
    ensures !HasRequiredFields(body) ==> forall caller, now :: Validate(NewDraft(body, caller, now)).Failure?
  {
    Text.Truthy(body.name) && body.date.Some? && Text.Truthy(body.time) && Text.Truthy(body.location)
  }

  /** `new Event({...})` with the organizer taken from the caller. */
  function NewDraft(body: EventBody, caller: ObjectId, now: nat): (d: Draft)
    ensures d.organizer == caller && d.createdAt == now
  {
    Draft(body.name, body.date, body.time, body.location, body.description, body.category, caller, now)
  }

  /** POST `/`: a body missing a required field is a 400; a document that
      fails validation or whose id is taken is a 500; otherwise the event is
      stored under the new id with the caller as organizer. Every failure
      leaves the table as it was. */
  function CreateStep(events: Table, caller: ObjectId, body: EventBody, newId: ObjectId, now: nat): (r: (Reply, Table))
    ensures r.0.Created? || r.0.Failed?
    ensures r.0.Failed? ==> r.1 == events
    ensures r.0 == Failed(400, MissingFieldsMessage) <==> !HasRequiredFields(body)
    ensures r.0.Created? ==>
      && newId !in events
      && r.0.entry.id == newId
      && r.0.entry.event.organizer == caller
      && r.0.entry.event.createdAt == now
      && r.1 == events[newId := r.0.entry.event]
    ensures TableOk(events) ==> TableOk(r.1)
  {
    if !HasRequiredFields(body) then (Failed(400, MissingFieldsMessage), events)
    else
      match Validate(NewDraft(body, caller, now))
      case Failure(_) => (Failed(500, CreateErrorMessage), events)
      case Success(e) =>
        if newId in events then (Failed(500, CreateErrorMessage), events)
        else (Created(Entry(newId, e)), events[newId := e])
  }

  /** A created event holds the body's fields, trimmed where the schema trims,
      and 'other' when the body has no category. */
  lemma CreatedFromBody(events: Table, caller: ObjectId, body: EventBody, newId: ObjectId, now: nat)
    requires CreateStep(events, caller, body, newId, now).0.Created?
    ensures var e := CreateStep(events, caller, body, newId, now).0.entry.event;
      && e.name == Text.Trim(body.name.value)
      && e.date == body.date.value
      && e.time == body.time.value
      && e.location == Text.Trim(body.location.value)
      && e.description == TrimOption(body.description)
      && (body.category.None? ==> e.category == Other)
      && (body.category.Some? ==> CategoryName(e.category) == body.category.value)
  {
    ValidatedFields(NewDraft(body, caller, now));
  }

  /** A name of white space only passes the route's truthiness test but not
      the schema's `required` after trimming: a 500, not a 400. */
  lemma BlankNameIsServerError(events: Table, caller: ObjectId, body: EventBody, newId: ObjectId, now: nat)
    requires HasRequiredFields(body) && Text.AllSpace(body.name.value)
    ensures CreateStep(events, caller, body, newId, now) == (Failed(500, CreateErrorMessage), events)
  {
    BlankNameRejected(NewDraft(body, caller, now));
  }

  /** A body whose required fields survive trimming, with no category or a
      known one, is stored under a fresh id. */
  lemma CreateSucceeds(events: Table, caller: ObjectId, body: EventBody, newId: ObjectId, now: nat)
    requires HasRequiredFields(body) && newId !in events
    requires !Text.AllSpace(body.name.value) && !Text.AllSpace(body.location.value)
    requires body.category.None? || ParseCategory(body.category.value).Some?
    ensures CreateStep(events, caller, body, newId, now).0.Created?
  {
    Text.TrimEmptyIffBlank(body.name.value);
    Text.TrimEmptyIffBlank(body.location.value);
  }

  // ----------------------------------------------------------------- list

  /** The listing order: by date, then by time as strings. */
  predicate KeyLe(a: Entry, b: Entry) {
    a.event.date < b.event.date || (a.event.date == b.event.date && Text.StrLe(a.event.time, b.event.time))
  }

  lemma KeyLeTotal(a: Entry, b: Entry)
    ensures KeyLe(a, b) || KeyLe(b, a)
  {
    Text.StrLeTotal(a.event.time, b.event.time);
  }

  lemma KeyLeTransitive(a: Entry, b: Entry, c: Entry)
    requires KeyLe(a, b) && KeyLe(b, c)
    ensures KeyLe(a, c)
  {
    if a.event.date == b.event.date == c.event.date {
      Text.StrLeTransitive(a.event.time, b.event.time, c.event.time);
    }
  }

  predicate Sorted(s: seq<Entry>) {
    forall i, j :: 0 <= i < j < |s| ==> KeyLe(s[i], s[j])
  }

  /** The caller's events in `events`, each once, in listing order. */
  predicate ListsOwned(events: Table, caller: ObjectId, r: seq<Entry>) {
    && Sorted(r)
    && (forall i :: 0 <= i < |r| ==> r[i].id in events && events[r[i].id] == r[i].event && r[i].event.organizer == caller)
    && (forall id :: id in events && events[id].organizer == caller ==> exists i :: 0 <= i < |r| && r[i].id == id)
    && (forall i, j :: 0 <= i < j < |r| ==> r[i].id != r[j].id)
  }

  /** The position where `x` goes in a sorted listing: after every entry not
      later than it, before the rest. */
  function InsertPos(s: seq<Entry>, x: Entry): (k: nat)
    requires Sorted(s)
    ensures k <= |s|
    ensures forall i :: 0 <= i < k ==> KeyLe(s[i], x)
    ensures forall i :: k <= i < |s| ==> KeyLe(x, s[i])
  {
    if s == [] then 0
    else if !KeyLe(s[0], x) then
      KeyLeTotal(s[0], x);
      assert forall i :: 0 <= i < |s| ==> KeyLe(x, s[i]) by {
        forall i | 0 <= i < |s| ensures KeyLe(x, s[i]) {
          if i > 0 { KeyLeTransitive(x, s[0], s[i]); }
        }
      }
      0
    else
      var k := InsertPos(s[1..], x);
      assert forall i :: 1 <= i < |s| ==> s[i] == s[1..][i - 1];
      k + 1
  }

  /** `x` inserted at its position. */
  function Insert(s: seq<Entry>, x: Entry): (r: seq<Entry>)
    requires Sorted(s)
    ensures |r| == |s| + 1
  {
    s[..InsertPos(s, x)] + [x] + s[InsertPos(s, x)..]
  }

  /** Inserting an entry at its position keeps a listing sorted, and shifts
      the entries after it by one. */
  lemma InsertSorted(s: seq<Entry>, x: Entry)
    requires Sorted(s)
    ensures var k := InsertPos(s, x);
      && Insert(s, x)[k] == x
      && (forall i :: 0 <= i < k ==> Insert(s, x)[i] == s[i])
      && (forall i :: k < i < |s| + 1 ==> Insert(s, x)[i] == s[i - 1])
    ensures Sorted(Insert(s, x))
  {
    var k := InsertPos(s, x);
    var r := Insert(s, x);
    forall i, j | 0 <= i < j < |r| ensures KeyLe(r[i], r[j]) {
      if j < k {
        assert r[i] == s[i] && r[j] == s[j];
      } else if j == k {
        assert r[i] == s[i];
      } else if i == k {
        assert r[j] == s[j - 1];
      } else if i < k {
        assert r[i] == s[i] && r[j] == s[j - 1];
      } else {
        assert r[i] == s[i - 1] && r[j] == s[j - 1];
      }
    }
  }

  /** What a listing holds once the ids in `rest` are still to be visited:
      the caller's events among the visited ones, each once, in order. */
  predicate ListedSoFar(events: Table, caller: ObjectId, rest: set<ObjectId>, r: seq<Entry>) {
    && Sorted(r)
    && (forall i :: 0 <= i < |r| ==>
          r[i].id in events && r[i].id !in rest && events[r[i].id] == r[i].event && r[i].event.organizer == caller)
    && (forall id :: id in events && id !in rest && events[id].organizer == caller ==>
          exists i :: 0 <= i < |r| && r[i].id == id)
    && (forall i, j :: 0 <= i < j < |r| ==> r[i].id != r[j].id)
  }

  /** Visiting one of the caller's events and inserting it keeps the listing. */
  lemma InsertKeepsListed(events: Table, caller: ObjectId, rest: set<ObjectId>, r: seq<Entry>, id: ObjectId)
    requires id in rest && id in events && events[id].organizer == caller
    requires ListedSoFar(events, caller, rest, r)
    ensures ListedSoFar(events, caller, rest - {id}, Insert(r, Entry(id, events[id])))
  {
    var x := Entry(id, events[id]);
    var k := InsertPos(r, x);
    InsertSorted(r, x);
    var r' := Insert(r, x);
    forall i | 0 <= i < |r'|
      ensures r'[i].id in events && r'[i].id !in rest - {id} && events[r'[i].id] == r'[i].event
      ensures r'[i].event.organizer == caller
    {
      if i < k { assert r'[i] == r[i]; } else if i > k { assert r'[i] == r[i - 1]; }
    }
    forall i, j | 0 <= i < j < |r'| ensures r'[i].id != r'[j].id {
      if j < k {
        assert r'[i] == r[i] && r'[j] == r[j];
      } else if j == k {
        assert r'[i] == r[i];
      } else if i == k {
        assert r'[j] == r[j - 1];
      } else if i < k {
        assert r'[i] == r[i] && r'[j] == r[j - 1];
      } else {
        assert r'[i] == r[i - 1] && r'[j] == r[j - 1];
      }
    }
    InsertCovers(events, caller, rest, r, id);
  }

  /** After the insertion every visited event of the caller is listed. */
  lemma InsertCovers(events: Table, caller: ObjectId, rest: set<ObjectId>, r: seq<Entry>, id: ObjectId)
    requires Sorted(r)
    requires forall id' :: id' in events && id' !in rest && events[id'].organizer == caller ==>
      exists i :: 0 <= i < |r| && r[i].id == id'
    requires id in events
    ensures var r' := Insert(r, Entry(id, events[id]));
      forall id' :: id' in events && id' !in rest - {id} && events[id'].organizer == caller ==>
        exists i :: 0 <= i < |r'| && r'[i].id == id'
  {
    var x := Entry(id, events[id]);
    var k := InsertPos(r, x);
    InsertSorted(r, x);
    var r' := Insert(r, x);
    forall id' | id' in events && id' !in rest - {id} && events[id'].organizer == caller
      ensures exists i :: 0 <= i < |r'| && r'[i].id == id'
    {
      if id' == id {
        assert r'[k].id == id';
      } else {
        var i :| 0 <= i < |r| && r[i].id == id';
        if i < k { assert r'[i] == r[i]; } else { assert r'[i + 1] == r[i]; }
      }
    }
  }

  // ------------------------------------------------------------ read one

  /** GET `/:id`: the caller's event, or 400, 404, 403 in that order. */
  function GetStep(events: Table, caller: ObjectId, rawId: string): (r: Reply)
    ensures r.Found? || r.Failed?
    ensures r.Found? <==> Find(events, caller, rawId).Owned?
    ensures r.Found? ==> r.entry.id in events && r.entry.event == events[r.entry.id] && r.entry.event.organizer == caller
    ensures !r.Found? ==> r == LookupFailure(Find(events, caller, rawId), View)
  {
    match Find(events, caller, rawId)
    case Owned(id) => Found(Entry(id, events[id]))
    case l => LookupFailure(l, View)
  }

  // --------------------------------------------------------------- update

  /** `x || old`: a truthy body field replaces the stored value. */
  function Or(x: Option<string>, stored: string): (r: string)
    ensures Text.Truthy(x) ==> r == x.value
    ensures !Text.Truthy(x) ==> r == stored
  {
    if Text.Truthy(x) then x.value else stored
  }

  /** The stored event with every truthy body field assigned over it (`x ||
      event.x`); organizer and creation time are kept. */
  function Merge(e: Event, body: EventBody): (d: Draft)
    ensures d.organizer == e.organizer && d.createdAt == e.createdAt
  {
    Draft(
      Some(Or(body.name, e.name)),
      Some(if body.date.Some? then body.date.value else e.date),
      Some(Or(body.time, e.time)),
      Some(Or(body.location, e.location)),
      if Text.Truthy(body.description) then body.description else e.description,
      Some(Or(body.category, CategoryName(e.category))),
      e.organizer,
      e.createdAt)
  }

  /** PUT `/:id`: after the lookup the merged document is validated and
      stored under the same id; every failure leaves the table unchanged. */
  function UpdateStep(events: Table, caller: ObjectId, rawId: string, body: EventBody): (r: (Reply, Table))
    ensures r.0.Updated? || r.0.Failed?
    ensures r.0.Failed? ==> r.1 == events
    ensures !Find(events, caller, rawId).Owned? ==> r.0 == LookupFailure(Find(events, caller, rawId), Change)
    ensures r.0.Updated? ==>
      && Find(events, caller, rawId) == Owned(r.0.entry.id)
      && r.1 == events[r.0.entry.id := r.0.entry.event]
      && r.0.entry.event.organizer == events[r.0.entry.id].organizer
      && r.0.entry.event.createdAt == events[r.0.entry.id].createdAt
    ensures Find(events, caller, rawId).Owned? ==>
      var id := Find(events, caller, rawId).id;
      && (r.0.Updated? <==> Validate(Merge(events[id], body)).Success?)
      && (r.0.Updated? ==> r.0.entry == Entry(id, Validate(Merge(events[id], body)).value))
      && (!r.0.Updated? ==> r.0 == Failed(500, UpdateErrorMessage))
    ensures TableOk(events) ==> TableOk(r.1)
  {
    match Find(events, caller, rawId)
    case Owned(id) =>
      (match Validate(Merge(events[id], body))
       case Success(e) => (Updated(Entry(id, e)), events[id := e])
       case Failure(_) => (Failed(500, UpdateErrorMessage), events))
    case l => (LookupFailure(l, Change), events)
  }

  /** An update by the organizer changes exactly the fields given truthy
      values (trimmed where the schema trims) and keeps the others. */
  lemma UpdateChangesOnlyGivenFields(events: Table, caller: ObjectId, rawId: string, body: EventBody)
    requires TableOk(events)
    requires UpdateStep(events, caller, rawId, body).0.Updated?
    ensures var id := UpdateStep(events, caller, rawId, body).0.entry.id;
      var was := events[id];
      var e := UpdateStep(events, caller, rawId, body).0.entry.event;
      && e.name == (if Text.Truthy(body.name) then Text.Trim(body.name.value) else was.name)
      && e.date == (if body.date.Some? then body.date.value else was.date)
      && e.time == (if Text.Truthy(body.time) then body.time.value else was.time)
      && e.location == (if Text.Truthy(body.location) then Text.Trim(body.location.value) else was.location)
      && e.description == (if Text.Truthy(body.description) then TrimOption(body.description) else was.description)
      && (if Text.Truthy(body.category) then CategoryName(e.category) == body.category.value else e.category == was.category)
      && e.organizer == was.organizer
  {
    var id := UpdateStep(events, caller, rawId, body).0.entry.id;
    var was := events[id];
    ValidatedFields(Merge(was, body));
    ParseCategoryName(was.category);
    Text.TrimmedFixed(was.name);
    Text.TrimmedFixed(was.location);
    if was.description.Some? {
      Text.TrimmedFixed(was.description.value);
    }
    if Text.Truthy(body.category) {
      assert Merge(was, body).category == body.category;
    }
  }

  /** An update by the organizer succeeds when every truthy name or location
      it gives is more than white space and every truthy category it gives is
      listed. */
  lemma UpdateSucceeds(events: Table, caller: ObjectId, rawId: string, body: EventBody)
    requires TableOk(events) && Find(events, caller, rawId).Owned?
    requires Text.Truthy(body.name) ==> !Text.AllSpace(body.name.value)
    requires Text.Truthy(body.location) ==> !Text.AllSpace(body.location.value)
    requires Text.Truthy(body.category) ==> ParseCategory(body.category.value).Some?
    ensures UpdateStep(events, caller, rawId, body).0.Updated?
  {
    var was := events[Find(events, caller, rawId).id];
    var d := Merge(was, body);
    Text.TrimEmptyIffBlank(d.name.value);
    Text.TrimEmptyIffBlank(d.location.value);
    if !Text.Truthy(body.name) {
      Text.TrimmedFixed(was.name);
    }
    if !Text.Truthy(body.location) {
      Text.TrimmedFixed(was.location);
    }
    ParseCategoryName(was.category);
  }

  /** An update by the organizer with no truthy field stores the event as it
      was. */
  lemma EmptyUpdateKeepsEvent(events: Table, caller: ObjectId, rawId: string, id: ObjectId)
    requires TableOk(events) && Find(events, caller, rawId) == Owned(id)
    ensures UpdateStep(events, caller, rawId, EventBody(None, None, None, None, None, None)) ==
      (Updated(Entry(id, events[id])), events)
  {
    var was := events[id];
    assert Merge(was, EventBody(None, None, None, None, None, None)) == DraftOf(was);
    RevalidateStored(was);
    assert events[id := was] == events;
  }

  // --------------------------------------------------------------- delete

  /** DELETE `/:id`: after the lookup exactly that id is removed. */
  function DeleteStep(events: Table, caller: ObjectId, rawId: string): (r: (Reply, Table))
    ensures r.0 == Deleted || r.0.Failed?
    ensures r.0.Failed? ==>
      !Find(events, caller, rawId).Owned? && r.1 == events && r.0 == LookupFailure(Find(events, caller, rawId), Remove)
    ensures r.0 == Deleted <==> Find(events, caller, rawId).Owned?
    ensures r.0 == Deleted ==> r.1 == events - {Find(events, caller, rawId).id}
    ensures TableOk(events) ==> TableOk(r.1)
  {
    match Find(events, caller, rawId)
    case Owned(id) => (Deleted, events - {id})
    case l => (LookupFailure(l, Remove), events)
  }

  /** After a delete, the same id is not found, whoever asks. */
  lemma DeleteThenGetNotFound(events: Table, caller: ObjectId, rawId: string, anyone: ObjectId)
    requires DeleteStep(events, caller, rawId).0 == Deleted
    ensures GetStep(DeleteStep(events, caller, rawId).1, anyone, rawId) == Failed(404, NotFoundMessage)
  {
    var id := Find(events, caller, rawId).id;
    assert id !in DeleteStep(events, caller, rawId).1;
  }

  /** The three routes on one event agree on the lookup: a missing event is a
      404 and another user's event a 403, whatever the body, and neither
      changes the table. */
  lemma LookupFailuresAgree(events: Table, caller: ObjectId, rawId: string, body: EventBody)
    requires !Find(events, caller, rawId).Owned?
    ensures Status(GetStep(events, caller, rawId)) == Status(UpdateStep(events, caller, rawId, body).0)
    ensures Status(GetStep(events, caller, rawId)) == Status(DeleteStep(events, caller, rawId).0)
    ensures UpdateStep(events, caller, rawId, body).1 == events && DeleteStep(events, caller, rawId).1 == events
  {
  }

  // ----------------------------------------------------------------- table

  /** The events collection. */
  class EventTable {
    var events: Table

    ghost predicate Valid()
      reads this
    {
      TableOk(events)
    }

    constructor ()
      ensures Valid() && events == map[]
    {
      events := map[];
    }

    /** POST `/`. */
    method Create(caller: ObjectId, body: EventBody, newId: ObjectId, now: nat) returns (r: Reply)
      requires Valid()
      modifies this
      ensures Valid()
      ensures (r, events) == CreateStep(old(events), caller, body, newId, now)
    {
      if !Text.Truthy(body.name) || body.date.None? || !Text.Truthy(body.time) || !Text.Truthy(body.location) {
        return Failed(400, MissingFieldsMessage);
      }
      var checked := Validate(NewDraft(body, caller, now));
      if checked.Failure? || newId in events {
        return Failed(500, CreateErrorMessage);
      }
      events := events[newId := checked.value];
      r := Created(Entry(newId, checked.value));
    }

    /** GET `/`: `find({organizer: caller}).sort({date: 1, time: 1})`. The
        loop stands for the database's filter and sort: it visits every
        stored event once and inserts the caller's at their place. */
    method List(caller: ObjectId) returns (r: seq<Entry>)
      ensures ListsOwned(events, caller, r)
    {
      var rest := events.Keys;
      r := [];
      while rest != {}
        invariant rest <= events.Keys
        invariant ListedSoFar(events, caller, rest, r)
        decreases |rest|
      {
        var id :| id in rest;
        if events[id].organizer == caller {
          InsertKeepsListed(events, caller, rest, r, id);
          var x := Entry(id, events[id]);
          var k := InsertPos(r, x);
          r := r[..k] + [x] + r[k..];
        }
        rest := rest - {id};
      }
    }

    /** GET `/:id`. */
    method Get(caller: ObjectId, rawId: string) returns (r: Reply)
      ensures r == GetStep(events, caller, rawId)
    {
      var found := Find(events, caller, rawId);
      if !found.Owned? {
        return LookupFailure(found, View);
      }
      r := Found(Entry(found.id, events[found.id]));
    }

    /** PUT `/:id`: the fetched event's fields are assigned from the truthy
        body fields (`Merge`), then the document is saved. */
    method Update(caller: ObjectId, rawId: string, body: EventBody) returns (r: Reply)
      requires Valid()
      modifies this
      ensures Valid()
      ensures (r, events) == UpdateStep(old(events), caller, rawId, body)
    {
      var found := Find(events, caller, rawId);
      if !found.Owned? {
        return LookupFailure(found, Change);
      }
      var id := found.id;
      var saved := Validate(Merge(events[id], body));
      if saved.Failure? {
        return Failed(500, UpdateErrorMessage);
      }
      events := events[id := saved.value];
      r := Updated(Entry(id, saved.value));
    }

    /** DELETE `/:id`: `deleteOne({_id: id})` after the checks. */
    method Delete(caller: ObjectId, rawId: string) returns (r: Reply)
      requires Valid()
      modifies this
      ensures Valid()
      ensures (r, events) == DeleteStep(old(events), caller, rawId)
    {
      var found := Find(events, caller, rawId);
      if !found.Owned? {
        return LookupFailure(found, Remove);
      }
      events := events - {found.id};
      r := Deleted;
    }
  }
}
