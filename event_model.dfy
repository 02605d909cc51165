/** The Event model: the schema's required fields, the trimmed string paths,
    the category enumeration and its default, and the organizer reference.

    A document is first built from the values assigned to its paths (a
    `Draft`), then cast and validated as `save()` does; only a valid document
    becomes an `Event`. Dates are abstract ordered keys (whole numbers), since
    date parsing and time zones are not modelled. */
module EventModel {
  import opened Wrappers
  import opened Identifiers
  import Text

  datatype Category = Conference | Workshop | Party | Webinar | Other

  /** The enumeration's spelling of each category. */
  function CategoryName(c: Category): string {
    match c
    case Conference => "conference"
    case Workshop => "workshop"
    case Party => "party"
    case Webinar => "webinar"
    case Other => "other"
  }

  /** The enum validator: only the five spellings are accepted. */
  function ParseCategory(s: string): (r: Option<Category>)
    ensures r.Some? ==> CategoryName(r.value) == s
  {
    if s == "conference" then Some(Conference)
    else if s == "workshop" then Some(Workshop)
    else if s == "party" then Some(Party)
    else if s == "webinar" then Some(Webinar)
    else if s == "other" then Some(Other)
    else None
  }

  /** Every category is accepted under its own spelling, so parsing and
      spelling are inverse. */
  lemma ParseCategoryName(c: Category)
    ensures ParseCategory(CategoryName(c)) == Some(c)
  {
  }

  lemma ParseCategoryExactly(s: string)
    ensures ParseCategory(s).Some? <==> s in {"conference", "workshop", "party", "webinar", "other"}
  {
  }

  /** The category a document without one gets. */
  const DefaultCategory: Category := Other

  datatype Event = Event(
    name: string,
    date: nat,
    time: string,
    location: string,
    description: Option<string>,
    category: Category,
    organizer: ObjectId,
    createdAt: nat)

  /** The values assigned to an event document's paths, before casting and
      validation. An absent value is `None`. */
  datatype Draft = Draft(
    name: Option<string>,
    date: Option<nat>,
    time: Option<string>,
    location: Option<string>,
    description: Option<string>,
    category: Option<string>,
    organizer: ObjectId,
    createdAt: nat)

  /** The `trim` setter, on a value that may be absent. */
  function TrimOption(s: Option<string>): Option<string> {
    if s.Some? then Some(Text.Trim(s.value)) else None
  }

  /** What every stored event satisfies. */
  predicate WellFormedEvent(e: Event) {
    && e.name != "" && Text.Trimmed(e.name)
    && e.time != ""
    && e.location != "" && Text.Trimmed(e.location)
    && (e.description.Some? ==> Text.Trimmed(e.description.value))
  }

  datatype ValidationError = Missing(path: string) | NotInEnum(value: string)

  /** Setters, defaults and validators, as `save()` applies them. `required`
      on a string path refuses an absent or empty value. */
  function Validate(d: Draft): (r: Result<Event, ValidationError>)
    ensures r.Success? ==> WellFormedEvent(r.value)
    ensures r.Success? ==> r.value.organizer == d.organizer && r.value.createdAt == d.createdAt
    ensures r.Success? <==>
      && Text.Truthy(TrimOption(d.name)) && d.date.Some? && Text.Truthy(d.time) && Text.Truthy(TrimOption(d.location))
      && (d.category.None? || ParseCategory(d.category.value).Some?)
  {
    var name := TrimOption(d.name);
    var location := TrimOption(d.location);
    var description := TrimOption(d.description);
    if !Text.Truthy(name) then Failure(Missing("name"))
    else if d.date.None? then Failure(Missing("date"))
    else if !Text.Truthy(d.time) then Failure(Missing("time"))
    else if !Text.Truthy(location) then Failure(Missing("location"))
    else
      var category := if d.category.None? then Some(DefaultCategory) else ParseCategory(d.category.value);
      if category.None? then Failure(NotInEnum(d.category.value))
      else
        Success(Event(name.value, d.date.value, d.time.value, location.value, description,
                      category.value, d.organizer, d.createdAt))
  }

  /** A valid document stores its string paths trimmed and its other paths as
      given, and a document without a category is stored as 'other'. */
  lemma ValidatedFields(d: Draft)
    requires Validate(d).Success?
    ensures var e := Validate(d).value;
      && e.name == Text.Trim(d.name.value)
      && e.location == Text.Trim(d.location.value)
      && e.description == TrimOption(d.description)
      && e.date == d.date.value && e.time == d.time.value
      && (d.category.None? ==> e.category == Other)
      && (d.category.Some? ==> CategoryName(e.category) == d.category.value)
  {
  }

  /** The document with a stored event's own values in its paths. */
  function DraftOf(e: Event): (d: Draft)
    ensures d.organizer == e.organizer && d.createdAt == e.createdAt
  {
    Draft(Some(e.name), Some(e.date), Some(e.time), Some(e.location), e.description,
          Some(CategoryName(e.category)), e.organizer, e.createdAt)
  }

  /** Saving a stored event again without changes validates it to itself. */
  lemma RevalidateStored(e: Event)
    requires WellFormedEvent(e)
    ensures Validate(DraftOf(e)) == Success(e)
  {
    var d := DraftOf(e);
    RevalidateSucceeds(e);
    ValidatedFields(d);
    SameFields(e, Validate(d).value);
  }

  /** An event whose paths hold the trimmed values and the spelling of a
      stored event's own values is that event. */
  lemma SameFields(e: Event, v: Event)
    requires WellFormedEvent(e)
    requires v.name == Text.Trim(e.name) && v.location == Text.Trim(e.location)
    requires v.description == TrimOption(e.description)
    requires v.date == e.date && v.time == e.time && CategoryName(v.category) == CategoryName(e.category)
    requires v.organizer == e.organizer && v.createdAt == e.createdAt
    ensures v == e
  {
    Text.TrimmedFixed(e.name);
    Text.TrimmedFixed(e.location);
    TrimOptionFixed(e.description);
    CategoryNameInjective(v.category, e.category);
  }

  lemma CategoryNameInjective(a: Category, b: Category)
    requires CategoryName(a) == CategoryName(b)
    ensures a == b
  {
    ParseCategoryName(a);
    ParseCategoryName(b);
  }

  lemma RevalidateSucceeds(e: Event)
    requires WellFormedEvent(e)
    ensures Validate(DraftOf(e)).Success?
  {
    var d := DraftOf(e);
    TrimOptionFixed(d.name);
    TrimOptionFixed(d.location);
    ParseCategoryName(e.category);
  }

  /** A present value without white space at its ends is its own trim. */
  lemma TrimOptionFixed(s: Option<string>)
    requires s.Some? ==> Text.Trimmed(s.value)
    ensures TrimOption(s) == s
  {
    if s.Some? {
      Text.TrimmedFixed(s.value);
    }
  }

  /** A required path that is absent, empty or only white space (for the
      trimmed ones) makes the document invalid. */
  lemma BlankNameRejected(d: Draft)
    requires d.name.Some? && Text.AllSpace(d.name.value)
    ensures Validate(d) == Failure(Missing("name"))
  {
    Text.TrimEmptyIffBlank(d.name.value);
  }
}
