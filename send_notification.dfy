/** Notification fan-out: resolve the users listed as attendees of an event,
    build one mail per user and hand each to the delivery channel on its own.
    The channel is the parameter `delivers`, which says whether a given mail
    goes through; a failed send is recorded in the outcome log and nothing
    else happens. */
module Notification {
  import opened Outcomes
  import opened Text
  import opened EventModel

  /** A user record as the notifier reads it. */
  datatype User = User(id: UserId, email: string, username: string)

  /** One mail: recipient address, subject line and plain-text body. */
  datatype Message = Message(to: string, subject: string, body: string)

  /** What one step of a notification leaves in the log: a mail handed over,
      a mail whose send failed, or the user lookup that failed. */
  datatype LogEntry = Delivered(message: Message) | SendFailed(message: Message) | NotifyFailed

  const SubjectPrefix: string := "Event Notification: "

  function Subject(title: string): (r: string)
    ensures |r| == |SubjectPrefix| + |title|
    ensures r[..|SubjectPrefix|] == SubjectPrefix && r[|SubjectPrefix|..] == title
  {
    SubjectPrefix + title
  }

  /** The date as the body prints it (decimal milliseconds). */
  function DateText(date: int): string {
    IntText(date)
  }

  /** The mail text: greets the user by name and lists title, description,
      date and location. */
  function Body(username: string, e: Event): (r: string)
    ensures IsInfix(username, r)
    ensures IsInfix(e.title, r)
    ensures IsInfix(e.description, r)
    ensures IsInfix(DateText(e.date), r)
    ensures IsInfix(e.location, r)
  {
    var p0 := "Dear ";
    var p1 := ",\n\nThe event \"";
    var p2 := "\" has been updated. Here are the details:\n\nDescription: ";
    var p3 := "\nDate: ";
    var p4 := "\nLocation: ";
    var p5 := "\n\nBest regards,\nYour Event Management Team";
    var d := DateText(e.date);
    var t9 := e.location + p5;
    var t8 := p4 + t9;
    var t7 := d + t8;
    var t6 := p3 + t7;
    var t5 := e.description + t6;
    var t4 := p2 + t5;
    var t3 := e.title + t4;
    var t2 := p1 + t3;
    var t1 := username + t2;
    var body := p0 + t1;
    InfixAtFront(e.location, p5);
    InfixGrow(e.location, p4, t9);
    InfixGrow(e.location, d, t8);
    InfixAtFront(d, t8);
    InfixGrow(e.location, p3, t7);
    InfixGrow(d, p3, t7);
    InfixGrow(e.location, e.description, t6);
    InfixGrow(d, e.description, t6);
    InfixAtFront(e.description, t6);
    InfixGrow(e.location, p2, t5);
    InfixGrow(d, p2, t5);
    InfixGrow(e.description, p2, t5);
    InfixGrow(e.location, e.title, t4);
    InfixGrow(d, e.title, t4);
    InfixGrow(e.description, e.title, t4);
    InfixAtFront(e.title, t4);
    InfixGrow(e.location, p1, t3);
    InfixGrow(d, p1, t3);
    InfixGrow(e.description, p1, t3);
    InfixGrow(e.title, p1, t3);
    InfixGrow(e.location, username, t2);
    InfixGrow(d, username, t2);
    InfixGrow(e.description, username, t2);
    InfixGrow(e.title, username, t2);
    InfixAtFront(username, t2);
    InfixGrow(e.location, p0, t1);
    InfixGrow(d, p0, t1);
    InfixGrow(e.description, p0, t1);
    InfixGrow(e.title, p0, t1);
    InfixGrow(username, p0, t1);
    body
  }

  function Compose(e: Event, u: User): Message {
    Message(u.email, Subject(e.title), Body(u.username, e))
  }

  ghost predicate DistinctUserIds(us: seq<User>) {
    forall i, j :: 0 <= i < j < |us| ==> us[i].id != us[j].id
  }

  /** The users whose id is listed among `attendees`, in directory order:
      the lookup `id in attendees` over the user collection. */
  function Recipients(directory: seq<User>, attendees: seq<UserId>): (r: seq<User>)
    ensures forall u :: u in r <==> u in directory && u.id in attendees
  {
    if directory == [] then []
    else
      var rest := Recipients(directory[1..], attendees);
      assert forall u :: u in directory[1..] ==> u in directory;
      if directory[0].id in attendees then [directory[0]] + rest else rest
  }

  /** A directory without repeated ids yields recipients without repeated ids. */
  lemma {:induction false} RecipientsDistinct(directory: seq<User>, attendees: seq<UserId>)
    requires DistinctUserIds(directory)
    ensures DistinctUserIds(Recipients(directory, attendees))
  {
    if directory != [] {
      var tail := directory[1..];
      assert DistinctUserIds(tail);
      RecipientsDistinct(tail, attendees);
      var rest := Recipients(tail, attendees);
      if directory[0].id in attendees {
        forall j | 0 <= j < |rest| ensures rest[j].id != directory[0].id {
          assert rest[j] in rest;
          var k :| 0 <= k < |tail| && tail[k] == rest[j];
          assert directory[k + 1] == rest[j];
        }
        var r := [directory[0]] + rest;
        forall i, j | 0 <= i < j < |r| ensures r[i].id != r[j].id {
          assert r[j] == rest[j - 1];
          if i > 0 {
            assert r[i] == rest[i - 1];
          }
        }
      }
    }
  }

  /** Every directory user listed as an attendee is a recipient exactly
      once, however often the id is listed; nobody else is. */
  lemma RecipientsExactlyOnce(directory: seq<User>, attendees: seq<UserId>, u: User)
    requires DistinctUserIds(directory)
    requires u in directory
    ensures u.id in attendees ==>
              exists i :: 0 <= i < |Recipients(directory, attendees)| && Recipients(directory, attendees)[i] == u
    ensures u.id !in attendees ==> u !in Recipients(directory, attendees)
    ensures forall i, j :: 0 <= i < j < |Recipients(directory, attendees)| ==>
              Recipients(directory, attendees)[i].id != Recipients(directory, attendees)[j].id
  {
    var r := Recipients(directory, attendees);
    RecipientsDistinct(directory, attendees);
    if u.id in attendees {
      assert u in r;
      var i :| 0 <= i < |r| && r[i] == u;
    }
  }

  /** One send: the channel's verdict on the mail, recorded either way. */
  function Attempt(m: Message, delivers: Message -> bool): LogEntry {
    if delivers(m) then Delivered(m) else SendFailed(m)
  }

  /** The outcome log of notifying the attendees of `e`, where `users` is the
      answer of the user lookup (None when the lookup failed). */
  function NotifyLog(e: Event, users: Option<seq<User>>, delivers: Message -> bool): seq<LogEntry> {
    match users
    case None => [NotifyFailed]
    case Some(directory) =>
      var rs := Recipients(directory, e.attendees);
      seq(|rs|, i requires 0 <= i < |rs| => Attempt(Compose(e, rs[i]), delivers))
  }

  /** One log entry per recipient, in recipient order: the mail goes to that
      user's address, carries the event title in the subject and the user's
      name and the event details in the body, and is marked delivered exactly
      when the channel accepted it. */
  lemma NotifyLogMessages(e: Event, directory: seq<User>, delivers: Message -> bool)
    ensures var log := NotifyLog(e, Some(directory), delivers);
            var rs := Recipients(directory, e.attendees);
            |log| == |rs| &&
            forall i :: 0 <= i < |log| ==>
              && !log[i].NotifyFailed?
              && log[i].message.to == rs[i].email
              && log[i].message.subject == SubjectPrefix + e.title
              && IsInfix(rs[i].username, log[i].message.body)
              && IsInfix(e.title, log[i].message.body)
              && IsInfix(e.description, log[i].message.body)
              && IsInfix(DateText(e.date), log[i].message.body)
              && IsInfix(e.location, log[i].message.body)
              && (log[i].Delivered? <==> delivers(log[i].message))
  {
  }

  /** Which mails are attempted does not depend on the channel: a failed send
      never stops the sends to the remaining recipients. */
  lemma SendsIndependentOfFailures(e: Event, users: Option<seq<User>>, d1: Message -> bool, d2: Message -> bool)
    ensures |NotifyLog(e, users, d1)| == |NotifyLog(e, users, d2)|
    ensures forall i :: 0 <= i < |NotifyLog(e, users, d1)| ==>
              NotifyLog(e, users, d1)[i].NotifyFailed? == NotifyLog(e, users, d2)[i].NotifyFailed? &&
              (!NotifyLog(e, users, d1)[i].NotifyFailed? ==>
                NotifyLog(e, users, d1)[i].message == NotifyLog(e, users, d2)[i].message)
  {
  }

  /** Hand one mail to the channel; a failure is caught and only logged. */
  method SendNotification(to: string, subject: string, text: string, delivers: Message -> bool)
    returns (entry: LogEntry)
    ensures !entry.NotifyFailed?
    ensures entry.message == Message(to, subject, text)
    ensures entry.Delivered? <==> delivers(Message(to, subject, text))
  {
    var m := Message(to, subject, text);
    if delivers(m) {
      entry := Delivered(m);
    } else {
      entry := SendFailed(m);
    }
  }

  /** Notify every attendee of `e` who resolves to a user, one send each.
      Never fails: a failed lookup or send ends as an entry of the log. */
  method NotifyUsers(e: Event, users: Option<seq<User>>, delivers: Message -> bool)
    returns (log: seq<LogEntry>)
    ensures log == NotifyLog(e, users, delivers)
  {
    if users.None? {
      log := [NotifyFailed];
      return;
    }
    var rs := Recipients(users.value, e.attendees);
    log := [];
    for i := 0 to |rs|
      invariant |log| == i
      invariant forall k :: 0 <= k < i ==> log[k] == Attempt(Compose(e, rs[k]), delivers)
    {
      var entry := SendNotification(rs[i].email, Subject(e.title), Body(rs[i].username, e), delivers);
      log := log + [entry];
    }
  }
}
