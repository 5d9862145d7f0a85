/** The Event record of the events collection: the fields the schema marks
    required, the list of attendee ids and the optional image metadata. */
module EventModel {
  import opened Outcomes

  /** A user is referred to by the string form of its id. */
  type UserId = string

  /** The store's key for an event. */
  type EventId = nat

  /** Image metadata: every part optional, kept but never inspected. */
  datatype ImageMeta = ImageMeta(data: Option<seq<bv8>>, contentType: Option<string>, fileName: Option<string>)

  /** A stored event. Dates are millisecond timestamps. */
  datatype Event = Event(
    title: string,
    description: string,
    date: int,
    location: string,
    maxAttendees: int,
    attendees: seq<UserId>,
    image: ImageMeta)

  /** The fields the schema marks required. */
  datatype Field = Title | Description | Date | Location | MaxAttendees

  /** A record before schema validation: each required field may be absent. */
  datatype EventDraft = EventDraft(
    title: Option<string>,
    description: Option<string>,
    date: Option<int>,
    location: Option<string>,
    maxAttendees: Option<int>,
    attendees: seq<UserId>,
    image: ImageMeta)

  /** A required string is satisfied only by a non-empty text; a required
      date or number by any value. */
  predicate PresentText(o: Option<string>) {
    o.Some? && o.value != ""
  }

  predicate Present(d: EventDraft, f: Field) {
    match f
    case Title => PresentText(d.title)
    case Description => PresentText(d.description)
    case Date => d.date.Some?
    case Location => PresentText(d.location)
    case MaxAttendees => d.maxAttendees.Some?
  }

  /** What the schema guarantees of every stored record. Nothing relates
      `attendees` to `maxAttendees` here. */
  ghost predicate Complete(e: Event) {
    e.title != "" && e.description != "" && e.location != ""
  }

  /** The absent required fields, in schema order. */
  function MissingFields(d: EventDraft): (r: seq<Field>)
    ensures forall f :: f in r <==> !Present(d, f)
  {
    (if Present(d, Title) then [] else [Title])
    + (if Present(d, Description) then [] else [Description])
    + (if Present(d, Date) then [] else [Date])
    + (if Present(d, Location) then [] else [Location])
    + (if Present(d, MaxAttendees) then [] else [MaxAttendees])
  }

  /** Schema validation: a record is accepted exactly when every required
      field is present; otherwise every missing field is reported. */
  function Validate(d: EventDraft): (r: Result<Event, seq<Field>>)
    ensures r.Ok? <==> forall f :: Present(d, f)
    ensures r.Ok? ==> Complete(r.value)
    ensures r.Ok? ==> r.value == Event(d.title.value, d.description.value, d.date.value,
                                        d.location.value, d.maxAttendees.value, d.attendees, d.image)
    ensures r.Err? ==> r.error != [] && forall f :: f in r.error <==> !Present(d, f)
  {
    var missing := MissingFields(d);
    if missing == [] then
      Ok(Event(d.title.value, d.description.value, d.date.value,
               d.location.value, d.maxAttendees.value, d.attendees, d.image))
    else
      assert missing[0] in missing;
      Err(missing)
  }

  /** The draft that holds exactly the fields of a stored event. */
  function DraftOf(e: Event): EventDraft {
    EventDraft(Some(e.title), Some(e.description), Some(e.date), Some(e.location),
               Some(e.maxAttendees), e.attendees, e.image)
  }

  /** Every complete record passes validation again unchanged. */
  lemma ValidateDraftOf(e: Event)
    requires Complete(e)
    ensures Validate(DraftOf(e)) == Ok(e)
  {
  }

  /** The capacity rule and the no-duplicate rule that RSVP keeps. */
  ghost predicate WithinCapacity(e: Event) {
    |e.attendees| <= e.maxAttendees
  }

  ghost predicate NoDuplicates(s: seq<UserId>) {
    forall i, j :: 0 <= i < j < |s| ==> s[i] != s[j]
  }

  ghost predicate Healthy(e: Event) {
    WithinCapacity(e) && NoDuplicates(e.attendees)
  }

  /** The schema accepts a record that is over capacity and lists the same
      user twice: neither RSVP rule is a schema rule. */
  lemma SchemaAcceptsUnhealthy()
    ensures var d := EventDraft(Some("t"), Some("d"), Some(0), Some("l"), Some(1), ["u", "u"],
                                ImageMeta(None, None, None));
            Validate(d).Ok? && !Healthy(Validate(d).value)
  {
  }
}
