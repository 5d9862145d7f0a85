/** The event service: creating, listing, RSVP, editing and deleting events
    over an in-memory store keyed by event id, and the daily reminder. Each
    request is one sequential step; the user id of the protected operations
    is supplied by the caller. */
module EventController {
  import opened Outcomes
  import opened Text
  import opened EventModel
  import opened Notification
  import opened EventQueries

  /** The `attendees` part of a create request: a list, one comma-separated
      text, or nothing at all. */
  datatype AttendeesInput = AttendeeList(items: seq<UserId>) | AttendeeText(text: string) | AttendeesAbsent

  /** A list is kept as it is, a text is split on commas; an absent value has
      nothing to split and the request goes no further. */
  function NormalizeAttendees(a: AttendeesInput): (r: Option<seq<UserId>>)
    ensures r.None? <==> a.AttendeesAbsent?
    ensures a.AttendeeList? ==> r == Some(a.items)
    ensures a.AttendeeText? ==> |r.value| >= 1 && Join(r.value, ',') == a.text
    ensures a.AttendeeText? ==> forall i :: 0 <= i < |r.value| ==> ',' !in r.value[i]
  {
    match a
    case AttendeeList(items) => Some(items)
    case AttendeeText(text) => JoinSplit(text, ','); Some(Split(text, ','))
    case AttendeesAbsent => None
  }

  /** A list of comma-free ids written as one comma-separated text comes back
      as the same list. */
  lemma NormalizeJoinedList(ids: seq<UserId>)
    requires |ids| >= 1 && forall i :: 0 <= i < |ids| ==> ',' !in ids[i]
    ensures NormalizeAttendees(AttendeeText(Join(ids, ','))) == Some(ids)
  {
    SplitJoin(ids, ',');
  }

  datatype UploadedFile = UploadedFile(name: string, mimetype: string)

  /** A create request: the body fields and the uploaded image, if any. */
  datatype CreateRequest = CreateRequest(
    title: Option<string>,
    description: Option<string>,
    date: Option<int>,
    location: Option<string>,
    maxAttendees: Option<int>,
    attendees: AttendeesInput,
    file: Option<UploadedFile>)

  datatype CreateError = NoFileUploaded | AttendeesUndefined | Invalid(missing: seq<Field>)

  function DraftFor(req: CreateRequest, attendees: seq<UserId>, f: UploadedFile): EventDraft {
    EventDraft(req.title, req.description, req.date, req.location, req.maxAttendees, attendees,
               ImageMeta(None, Some(f.mimetype), Some(f.name)))
  }

  /** The record a create request produces, or why it produces none: first
      the upload check, then the attendees normalisation, then schema
      validation. The attendees are stored as given: no de-duplication and
      no comparison with `maxAttendees`. */
  function BuildEvent(req: CreateRequest): (r: Result<Event, CreateError>)
    ensures r == Err(NoFileUploaded) <==> req.file.None?
    ensures r == Err(AttendeesUndefined) <==> req.file.Some? && req.attendees.AttendeesAbsent?
    ensures req.file.Some? && !req.attendees.AttendeesAbsent? ==>
              (r.Ok? <==> forall f :: Present(DraftFor(req, [], req.file.value), f))
    ensures r.Err? && r.error.Invalid? ==>
              req.file.Some? && !req.attendees.AttendeesAbsent? && r.error.missing != [] &&
              forall f :: f in r.error.missing <==> !Present(DraftFor(req, [], req.file.value), f)
    ensures r.Ok? ==>
              && req.file.Some?
              && NormalizeAttendees(req.attendees) == Some(r.value.attendees)
              && Complete(r.value)
              && req.title == Some(r.value.title) && req.description == Some(r.value.description)
              && req.date == Some(r.value.date) && req.location == Some(r.value.location)
              && req.maxAttendees == Some(r.value.maxAttendees)
              && r.value.image == ImageMeta(None, Some(req.file.value.mimetype), Some(req.file.value.name))
  {
    match req.file
    case None => Err(NoFileUploaded)
    case Some(f) =>
      match NormalizeAttendees(req.attendees)
      case None => Err(AttendeesUndefined)
      case Some(attendees) =>
        var d := DraftFor(req, attendees, f);
        assert forall g :: Present(d, g) == Present(DraftFor(req, [], f), g);
        match Validate(d)
        case Ok(e) => Ok(e)
        case Err(missing) => Err(Invalid(missing))
  }

  /** Creation neither removes repeated ids nor caps the list: a record that
      breaks both RSVP rules can be created. */
  lemma CreateAcceptsUnhealthy()
    ensures var req := CreateRequest(Some("t"), Some("d"), Some(0), Some("l"), Some(1),
                                     AttendeeText("u,u"), Some(UploadedFile("a.png", "image/png")));
            BuildEvent(req).Ok? && BuildEvent(req).value.attendees == ["u", "u"] &&
            !Healthy(BuildEvent(req).value)
  {
  }

  /** The fields an edit request may carry. */
  datatype EditPayload = EditPayload(title: Option<string>, description: Option<string>,
                                     date: Option<int>, location: Option<string>)

  /** `given || current` for a text: an absent or empty value keeps the
      current one. */
  function Pick(given: Option<string>, current: string): string {
    if given.Some? && given.value != "" then given.value else current
  }

  function PickDate(given: Option<int>, current: int): int {
    if given.Some? then given.value else current
  }

  /** The record after an edit: only title, description, date and location
      can change, each only to a supplied non-empty value. */
  function ApplyEdit(e: Event, p: EditPayload): (r: Event)
    ensures r.maxAttendees == e.maxAttendees && r.attendees == e.attendees && r.image == e.image
    ensures Complete(e) ==> Complete(r)
    ensures Healthy(e) ==> Healthy(r)
    ensures Given(p.title) ==> r.title == p.title.value
    ensures !Given(p.title) ==> r.title == e.title
    ensures Given(p.description) ==> r.description == p.description.value
    ensures !Given(p.description) ==> r.description == e.description
    ensures p.date.Some? ==> r.date == p.date.value
    ensures p.date.None? ==> r.date == e.date
    ensures Given(p.location) ==> r.location == p.location.value
    ensures !Given(p.location) ==> r.location == e.location
  {
    e.(title := Pick(p.title, e.title),
       description := Pick(p.description, e.description),
       date := PickDate(p.date, e.date),
       location := Pick(p.location, e.location))
  }

  /** Supplying the same edit twice changes nothing the second time. */
  lemma EditIdempotent(e: Event, p: EditPayload)
    ensures ApplyEdit(ApplyEdit(e, p), p) == ApplyEdit(e, p)
  {
  }

  /** An edit with nothing usable in it leaves the record as it was. */
  lemma EmptyEditKeepsRecord(e: Event, t: Option<string>, d: Option<string>, l: Option<string>)
    requires !Given(t) && !Given(d) && !Given(l)
    ensures ApplyEdit(e, EditPayload(t, d, None, l)) == e
  {
  }

  datatype RsvpOutcome = NotFound | AlreadyRsvpd | Full | Registered

  /** The capacity guard, in the order the service applies it: the repeat
      registration is reported before the full event. */
  function RsvpCheck(e: Event, u: UserId): RsvpOutcome {
    if u in e.attendees then AlreadyRsvpd
    else if |e.attendees| >= e.maxAttendees then Full
    else Registered
  }

  /** The record after an RSVP attempt on it. */
  function RsvpAfter(e: Event, u: UserId): Event {
    if RsvpCheck(e, u) == Registered then e.(attendees := e.attendees + [u]) else e
  }

  /** Whatever the answer, an RSVP keeps a record within its capacity and
      free of repeated ids when it was so before; a registration adds
      exactly the user, at the end. */
  lemma RsvpKeepsHealthy(e: Event, u: UserId)
    requires Healthy(e)
    ensures Healthy(RsvpAfter(e, u))
    ensures RsvpCheck(e, u) == Registered ==>
              RsvpAfter(e, u).attendees == e.attendees + [u] && |RsvpAfter(e, u).attendees| == |e.attendees| + 1
    ensures RsvpCheck(e, u) != Registered ==> RsvpAfter(e, u) == e
  {
  }

  const MsPerDay: int := 86400000

  /** The instant the daily reminder looks for: one day after `now`. */
  function ReminderDate(now: int): int {
    now + MsPerDay
  }

  /** The notification logs of the listed events, one after the other.
      Each event's notification does its own user lookup, whose answer for
      event `id` is `lookup(id)` (None when that lookup failed). */
  function ReminderLog(notified: seq<Stored>, lookup: EventId -> Option<seq<User>>, delivers: Message -> bool): seq<LogEntry> {
    if notified == [] then []
    else NotifyLog(notified[0].event, lookup(notified[0].id), delivers) + ReminderLog(notified[1..], lookup, delivers)
  }

  lemma {:induction false} ReminderLogAppend(ns: seq<Stored>, x: Stored, lookup: EventId -> Option<seq<User>>, delivers: Message -> bool)
    ensures ReminderLog(ns + [x], lookup, delivers) == ReminderLog(ns, lookup, delivers) + NotifyLog(x.event, lookup(x.id), delivers)
  {
    if ns == [] {
      assert [] + [x] == [x];
      assert [x][1..] == [];
    } else {
      assert (ns + [x])[1..] == ns[1..] + [x];
      ReminderLogAppend(ns[1..], x, lookup, delivers);
    }
  }

  /** Notify the attendees of each listed event in turn. */
  method NotifyEach(found: seq<Stored>, lookup: EventId -> Option<seq<User>>, delivers: Message -> bool)
    returns (log: seq<LogEntry>)
    ensures log == ReminderLog(found, lookup, delivers)
  {
    log := [];
    for i := 0 to |found|
      invariant log == ReminderLog(found[..i], lookup, delivers)
    {
      var x := found[i];
      var one := NotifyUsers(x.event, lookup(x.id), delivers);
      ghost var done := found[..i];
      assert found[..i + 1] == done + [x];
      ReminderLogAppend(done, x, lookup, delivers);
      log := log + one;
    }
    assert found[..|found|] == found;
  }

  /** The event store: events by id, and the next id to hand out. */
  class EventStore {
    var events: map<EventId, Event>
    var nextId: EventId

    /** Every stored id was handed out before, so new ids are fresh. */
    ghost predicate Valid()
      reads this
    {
      forall id :: id in events ==> id < nextId
    }

    /** Every stored event is within capacity and free of repeated ids. */
    ghost predicate AllHealthy()
      reads this
    {
      forall id :: id in events ==> Healthy(events[id])
    }

    constructor ()
      ensures Valid() && events == map[]
    {
      events := map[];
      nextId := 0;
    }

    /** Create an event from a request; on success it is stored under a
        fresh id and nothing else changes. */
    method Create(req: CreateRequest) returns (r: Result<EventId, CreateError>)
      requires Valid()
      modifies this
      ensures Valid()
      ensures r.Ok? <==> BuildEvent(req).Ok?
      ensures r.Ok? ==> r.value !in old(events) && events == old(events)[r.value := BuildEvent(req).value]
      ensures r.Err? ==> r.error == BuildEvent(req).error && events == old(events)
    {
      match BuildEvent(req)
      case Ok(e) =>
        var id := nextId;
        events := events[id := e];
        nextId := nextId + 1;
        r := Ok(id);
      case Err(err) =>
        r := Err(err);
    }

    /** The store's query: every stored event the selector accepts, once,
        in an order the store chooses. */
    method Find(sel: Selector) returns (r: seq<Stored>)
      ensures Lists(r, events, sel)
    {
      var todo := events.Keys;
      r := [];
      while todo != {}
        invariant todo <= events.Keys
        invariant forall i :: 0 <= i < |r| ==>
                    r[i].id in events && r[i].id !in todo &&
                    r[i].event == events[r[i].id] && Selects(sel, r[i].event)
        invariant forall id :: id in events && id !in todo && Selects(sel, events[id]) ==> HasId(r, id)
        invariant DistinctIds(r)
        decreases todo
      {
        var id :| id in todo;
        if Selects(sel, events[id]) {
          ghost var prev := r;
          r := r + [Stored(id, events[id])];
          assert r[|r| - 1].id == id;
          forall id' | HasId(prev, id') ensures HasId(r, id') {
            var k :| 0 <= k < |prev| && prev[k].id == id';
            assert r[k] == prev[k];
          }
        }
        todo := todo - {id};
      }
    }

    /** The listing: exactly the events matching every given option,
        ascending by date. */
    method GetEvents(q: Query) returns (r: seq<Stored>)
      ensures Lists(r, events, ByQuery(q))
      ensures SortedByDate(r)
    {
      var found := Find(ByQuery(q));
      SortByDateLists(found, events, ByQuery(q));
      r := SortByDate(found);
    }

    /** The events the user has registered for. */
    method UserRsvps(u: UserId) returns (r: seq<Stored>)
      ensures Lists(r, events, ByAttendee(u))
    {
      r := Find(ByAttendee(u));
    }

    /** Register user `u` for event `id`. */
    method Rsvp(id: EventId, u: UserId) returns (outcome: RsvpOutcome)
      requires Valid()
      modifies this
      ensures Valid() && nextId == old(nextId)
      ensures outcome == NotFound <==> id !in old(events)
      ensures outcome == AlreadyRsvpd <==> id in old(events) && u in old(events)[id].attendees
      ensures outcome == Full <==>
                id in old(events) && u !in old(events)[id].attendees &&
                |old(events)[id].attendees| >= old(events)[id].maxAttendees
      ensures outcome == Registered ==>
                events == old(events)[id := old(events)[id].(attendees := old(events)[id].attendees + [u])]
      ensures outcome != Registered ==> events == old(events)
      ensures old(AllHealthy()) ==> AllHealthy()
    {
      if id !in events {
        return NotFound;
      }
      var e := events[id];
      if AllHealthy() {
        RsvpKeepsHealthy(e, u);
      }
      outcome := RsvpCheck(e, u);
      if outcome == Registered {
        events := events[id := e.(attendees := e.attendees + [u])];
      }
    }

    /** Edit event `id`, then notify its attendees once with the new record. */
    method Edit(id: EventId, p: EditPayload, users: Option<seq<User>>, delivers: Message -> bool)
      returns (updated: Option<Event>, log: seq<LogEntry>)
      requires Valid()
      modifies this
      ensures Valid() && nextId == old(nextId)
      ensures id !in old(events) ==> updated == None && log == [] && events == old(events)
      ensures id in old(events) ==>
                && updated == Some(ApplyEdit(old(events)[id], p))
                && events == old(events)[id := updated.value]
                && log == NotifyLog(updated.value, users, delivers)
      ensures old(AllHealthy()) ==> AllHealthy()
    {
      if id !in events {
        return None, [];
      }
      var e := ApplyEdit(events[id], p);
      events := events[id := e];
      updated := Some(e);
      log := NotifyUsers(e, users, delivers);
    }

    /** Remove event `id`; reports whether there was one. */
    method Delete(id: EventId) returns (found: bool)
      requires Valid()
      modifies this
      ensures Valid() && nextId == old(nextId)
      ensures found <==> id in old(events)
      ensures events == old(events) - {id}
    {
      found := id in events;
      events := events - {id};
    }

    /** The daily reminder: notify, once each, the events dated exactly one
        day after `now`. */
    method RunReminder(now: int, lookup: EventId -> Option<seq<User>>, delivers: Message -> bool)
      returns (notified: seq<Stored>, log: seq<LogEntry>)
      ensures Lists(notified, events, ByDate(ReminderDate(now)))
      ensures forall i :: 0 <= i < |notified| ==> notified[i].event.date == now + MsPerDay
      ensures log == ReminderLog(notified, lookup, delivers)
    {
      notified := Find(ByDate(ReminderDate(now)));
      log := NotifyEach(notified, lookup, delivers);
    }
  }

  /** Capacity two: two registrations succeed, a third user finds the event
      full, and a repeat registration is refused as such. */
  method RsvpScenario() {
    var store := new EventStore();
    var created := store.Create(CreateRequest(Some("Conf"), Some("Talks"), Some(1000), Some("Hall"), Some(2),
                                              AttendeeList([]), Some(UploadedFile("a.png", "image/png"))));
    assert created.Ok?;
    var id := created.value;
    var o1 := store.Rsvp(id, "u1");
    assert o1 == Registered;
    var o2 := store.Rsvp(id, "u2");
    assert o2 == Registered;
    var o3 := store.Rsvp(id, "u3");
    assert o3 == Full;
    var o4 := store.Rsvp(id, "u1");
    assert o4 == AlreadyRsvpd;
    var removedOther := store.Delete(id + 1);
    assert !removedOther;
    var removed := store.Delete(id);
    assert removed;
  }

  /** A reminder fired at `now` picks the event one day ahead and skips the
      one two days ahead. */
  method ReminderScenario(now: int) {
    var store := new EventStore();
    var req1 := CreateRequest(Some("A"), Some("a"), Some(now + MsPerDay), Some("x"), Some(5),
                              AttendeeList(["u1"]), Some(UploadedFile("a.png", "image/png")));
    var req2 := CreateRequest(Some("B"), Some("b"), Some(now + 2 * MsPerDay), Some("y"), Some(5),
                              AttendeeList(["u1"]), Some(UploadedFile("b.png", "image/png")));
    assert BuildEvent(req1).Ok? && BuildEvent(req1).value.date == now + MsPerDay;
    assert BuildEvent(req2).Ok? && BuildEvent(req2).value.date == now + 2 * MsPerDay;
    var r1 := store.Create(req1);
    var r2 := store.Create(req2);
    assert store.events[r1.value].date == ReminderDate(now);
    assert store.events[r2.value].date != ReminderDate(now);
    var notified, log := store.RunReminder(now, id => Some([User("u1", "u1@example.org", "Ann")]), m => true);
    assert HasId(notified, r1.value);
    assert !HasId(notified, r2.value);
  }
}
