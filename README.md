# Event registration and notification core, modelled in Dafny

This project models the core of an event-management service: events
stored by id, a capacity-bounded RSVP, partial edits followed by a
notification to the attendees, deletion, filtered and date-ordered
listings, the list of events a user has registered for, and a daily
reminder that notifies the events dated exactly one day ahead. A
notification resolves the attendee ids to user records, builds one mail
per user and hands each mail to the delivery channel on its own. A failed
send is only logged.

Files and modules:

- `outcomes.dfy` (`Outcomes`): `Option` and `Result`.
- `text.dfy` (`Text`): ASCII lower-casing, substring search, splitting on
  a separator the way JavaScript's `split` does, joining, and decimal
  rendering of integers.
- `event_model.dfy` (`EventModel`): the `Event` record, the draft a
  request supplies, schema validation, and the two RSVP rules (within
  capacity, no repeated id) as predicates.
- `send_notification.dfy` (`Notification`): users, mails, the outcome
  log, recipient resolution, and the fan-out loop `NotifyUsers`.
- `event_queries.dfy` (`EventQueries`): the listing filter, the store's
  filter documents, what a correct listing is, and the date sort.
- `event_controller.dfy` (`EventController`): attendee normalisation,
  building an event from a create request, the edit rule, the RSVP guard,
  the reminder, and the `EventStore` class. The class holds
  `events: map<EventId, Event>` and the next free id. Its methods are the
  service operations. Two scenario methods replay the capacity-two RSVP
  sequence and a reminder firing.

Modelling choices:

- The database is the map inside `EventStore`. Its `find` is the method
  `Find`. That method picks the keys in an unspecified order, which stands
  for the collection's natural order.
- The user collection is a sequence of `User` in scan order. Looking up
  users by id is a filter over that sequence. When the lookup fails, the
  user list is `None`.
- The mail transport is the parameter `delivers: Message -> bool`, which
  says whether a given mail goes through.
- Dates are millisecond timestamps. The reminder's "now" is a parameter,
  and the target is `now + 86400000`, compared for exact equality as the
  code does.
- A required string field counts as present only when it is non-empty,
  as the schema validator treats `required` strings. A required date or
  number counts as present whenever it is given.
- Creation keeps the initial attendees as given: no de-duplication, no
  cap. `CreateAcceptsUnhealthy` shows this. The two RSVP rules are
  therefore invariants that RSVP and edit preserve, not facts about every
  stored event. The reminder matches an exact instant. A successful RSVP
  answers with a message.
- Truthiness of raw request values: `None` stands for an absent or falsy
  raw value (missing, empty text, or the number 0), and `Some(t)` for a
  truthy raw value already parsed to `t`. This applies to the edit's date
  and to the listing's date option. For the edit's texts and the listing's
  texts the empty text is also checked explicitly.
- Each notification does its own user lookup. The reminder therefore takes
  one lookup answer per notified event (`lookup(id)`), so one event's
  lookup can fail while another's succeeds.

## Model

| member | source | states |
|---|---|---|
| EventModel.Validate | src/models/eventModel.js:3-15 | a draft is accepted exactly when title, description, date, location and maxAttendees are all present; the record then carries exactly the supplied values and attendees; otherwise the error lists exactly the missing fields and is non-empty |
| EventModel.ValidateDraftOf | src/models/eventModel.js:4-8 | every record whose required texts are non-empty passes validation again unchanged |
| EventModel.SchemaAcceptsUnhealthy | src/models/eventModel.js:8-9 | the schema accepts a record with more attendees than maxAttendees and a repeated id: neither RSVP rule is a schema rule |
| Text.Split | src/controllers/eventController.js:31 | splitting on a comma yields at least one piece and no piece contains the comma |
| Text.JoinSplit | src/controllers/eventController.js:31 | re-joining the pieces of a split with the separator gives back the original text |
| Text.SplitJoin | src/controllers/eventController.js:31 | splitting a join of one or more separator-free pieces gives back exactly those pieces |
| EventController.NormalizeAttendees | src/controllers/eventController.js:31 | a list of attendees is kept as is; a text becomes pieces that re-join to the text and contain no comma; an absent value yields nothing |
| EventController.NormalizeJoinedList | src/controllers/eventController.js:31 | a list of comma-free ids written as one comma-separated text normalises back to the same list |
| EventController.BuildEvent | src/controllers/eventController.js:9-45 | NoFileUploaded exactly when no file was uploaded; AttendeesUndefined exactly when there is a file but no attendees; with both present, success exactly when every required field is present, otherwise Invalid listing exactly the missing fields; success stores the supplied fields, the normalised attendees and the file's name and type as image metadata |
| EventController.CreateAcceptsUnhealthy | src/controllers/eventController.js:31-40 | creating with attendees "u,u" and capacity 1 succeeds with a repeated and over-capacity list |
| EventController.EventStore.Create | src/controllers/eventController.js:34-47 | on success the new event is stored under a fresh id and every other entry is unchanged; on failure the store is unchanged and the error is the one BuildEvent gives |
| Text.ContainsIgnoreCaseOfLowered | src/controllers/eventController.js:68-76 | the case-insensitive match gives the same answer on lower-cased arguments |
| EventQueries.MatchesEveryOption | src/controllers/eventController.js:61-76 | an event matches a query exactly when it matches the date option, the location option and the title option each on its own |
| EventQueries.EmptyQueryMatchesAll | src/controllers/eventController.js:61-76 | a query with absent or empty options keeps every event |
| EventQueries.MatchesIgnoresCase | src/controllers/eventController.js:68-76 | lower-casing an event's title and location does not change whether it matches |
| EventQueries.SortByDate | src/controllers/eventController.js:79 | the sorted listing is a permutation of its input |
| EventQueries.SortByDateSorted | src/controllers/eventController.js:79 | the sorted listing is in ascending date order |
| EventQueries.SortByDateDistinct | src/controllers/eventController.js:79 | sorting a listing without repeated ids keeps it without repeated ids |
| EventQueries.SortByDateLists | src/controllers/eventController.js:79 | sorting a correct listing of the matching events gives a correct, date-ordered listing of the same events |
| EventController.EventStore.Find | src/controllers/eventController.js:79 | the store query returns every stored event the filter accepts, once each, with its current record, and nothing else |
| EventController.EventStore.GetEvents | src/controllers/eventController.js:56-85 | the listing holds exactly the stored events that match every given option (date on or after, location and title contained ignoring case), once each, in ascending date order |
| EventController.EventStore.UserRsvps | src/controllers/eventController.js:117-125 | returns exactly the stored events whose attendees contain the user, once each |
| EventController.RsvpKeepsHealthy | src/controllers/eventController.js:96-108 | whatever the outcome, an RSVP keeps a record within capacity and free of repeated ids; a registration appends exactly the user, so the count grows by one; a rejection leaves the record unchanged |
| EventController.EventStore.Rsvp | src/controllers/eventController.js:88-114 | a missing id gives NotFound; a user already listed gives AlreadyRsvpd, even on a full event; a full event gives Full; otherwise the user is appended to that event alone; a rejection changes nothing; the two RSVP rules hold afterwards when they held before |
| EventController.ApplyEdit | src/controllers/eventController.js:133-136 | each of title, description and location takes the supplied value exactly when it is non-empty, and the date exactly when it is supplied; maxAttendees, attendees and image never change; required texts stay non-empty and the RSVP rules are kept |
| EventController.EditIdempotent | src/controllers/eventController.js:133-136 | applying the same edit twice gives the same record as applying it once |
| EventController.EmptyEditKeepsRecord | src/controllers/eventController.js:133-136 | an edit whose values are all absent or empty leaves the record unchanged |
| EventController.EventStore.Edit | src/controllers/eventController.js:128-150 | a missing id gives no record, no notification and no change; otherwise the edited record replaces that entry alone and its attendees are notified exactly once with the updated record |
| EventController.EventStore.Delete | src/controllers/eventController.js:153-164 | reports whether the id was stored; removes exactly that id and keeps all others |
| EventController.EventStore.RunReminder | src/controllers/eventController.js:167-177 | notifies exactly the stored events dated exactly one day after now, once each, in turn, each with its own user lookup |
| EventController.NotifyEach | src/controllers/eventController.js:172-173 | the log is the notification log of each listed event, with that event's own lookup answer, in listing order |
| Notification.Recipients | src/utils/sendNotification.js:34 | a user is a recipient exactly when it is in the directory and its id is among the attendees |
| Notification.RecipientsDistinct | src/utils/sendNotification.js:34 | recipients have distinct ids whenever the directory does |
| Notification.RecipientsExactlyOnce | src/utils/sendNotification.js:34-43 | every directory user listed as an attendee is a recipient once, however often its id is listed, and non-attendees are not recipients |
| Notification.Subject | src/utils/sendNotification.js:40 | the subject is the fixed prefix "Event Notification: " followed by the title, and the title can be read back from it |
| Notification.Body | src/utils/sendNotification.js:41 | the body contains the username, title, description, date and location |
| Notification.NotifyLogMessages | src/utils/sendNotification.js:37-43 | one log entry per recipient, in order; each mail goes to that user's email with the title subject and a body holding the user's name and the event details; an entry is marked delivered exactly when the channel accepted the mail |
| Notification.SendsIndependentOfFailures | src/utils/sendNotification.js:22-43 | the mails attempted do not depend on which sends fail, so a failed send never stops the remaining ones |
| Notification.SendNotification | src/utils/sendNotification.js:13-28 | one send: it never fails towards its caller; the outcome records the mail and is Delivered exactly when the channel accepted it |
| Notification.NotifyUsers | src/utils/sendNotification.js:31-47 | produces exactly the notification log (a failed user lookup becomes one logged failure, never an error) |

## Left out

- File upload and moving the file into the uploads folder
  (src/controllers/eventController.js:14-28) are I/O. Only the "no file
  uploaded" rejection and the file's name and type are kept. A failed
  move is not modelled.
- The HTTP layer (routes, status codes, JSON bodies), CORS, static files,
  socket.io and the server start-up are not modelled. Answers are result
  values. The authentication guard is modelled as a caller-supplied user
  id.
- Store failures, malformed ids and the catch-all "Server error" answers
  are not modelled: the in-memory store never fails. Event ids are
  natural numbers handed out by a counter, not database ObjectIds.
- A missing `attendees` in a create request makes the source throw
  inside the upload callback, and no answer is sent. The model returns
  `AttendeesUndefined` instead. A schema failure at that point likewise
  becomes `Invalid`.
- Concurrency is not modelled. The RSVP read-then-write is one
  sequential step, so atomicity against parallel RSVPs is not checked.
  The un-awaited per-user sends and per-event reminders run one after
  another in the model.
- Location and title filters are plain-text substring matches with ASCII
  case folding. Regular-expression syntax in the query and Unicode case
  folding are not modelled. The date query is taken as already parsed to
  a timestamp.
- Notification.Body: the date appears as a decimal millisecond count, not
  as JavaScript's Date text.
- Dates are integer timestamps. The reminder's time zone, daylight-saving
  shifts of `setDate` and the cron timing are not modelled. The store
  failure the reminder catches and logs is not modelled either.
- `maxAttendees` is an integer. Fractional numbers are not modelled.
- The mail transport set-up, the sender address and the unused query of
  all users (src/utils/sendNotification.js:35) have no effect on the
  model.
- Edit and delete do not check who owns the event, and the source does
  not check this either.
