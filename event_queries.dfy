/** The read side of the event service: the listing filter, the store's
    filter documents, what it means for a result list to list exactly the
    matching events, and the ascending date order of the listing. */
module EventQueries {
  import opened Outcomes
  import opened Text
  import opened EventModel

  /** A stored event together with its key, as listings return it. */
  datatype Stored = Stored(id: EventId, event: Event)

  /** The options of a listing request. An absent or empty option does not
      filter: date keeps events on or after it, location and title keep
      events whose field contains the text, ignoring case. */
  datatype Query = Query(date: Option<int>, location: Option<string>, title: Option<string>)

  predicate Given(o: Option<string>) {
    o.Some? && o.value != ""
  }

  predicate Matches(e: Event, q: Query) {
    && (q.date.Some? ==> e.date >= q.date.value)
    && (Given(q.location) ==> ContainsIgnoreCase(e.location, q.location.value))
    && (Given(q.title) ==> ContainsIgnoreCase(e.title, q.title.value))
  }

  /** The options compose with AND: an event matches the query exactly when
      it matches each option on its own. */
  lemma MatchesEveryOption(e: Event, q: Query)
    ensures Matches(e, q) <==>
              && Matches(e, Query(q.date, None, None))
              && Matches(e, Query(None, q.location, None))
              && Matches(e, Query(None, None, q.title))
  {
  }

  /** A query without options keeps every event. */
  lemma EmptyQueryMatchesAll(e: Event)
    ensures Matches(e, Query(None, Some(""), Some("")))
    ensures Matches(e, Query(None, None, None))
  {
  }

  /** Matching does not depend on the letter case of the stored texts. */
  lemma MatchesIgnoresCase(e: Event, q: Query)
    ensures Matches(e, q) <==> Matches(e.(title := Lower(e.title), location := Lower(e.location)), q)
  {
    LowerIdempotent(e.title);
    LowerIdempotent(e.location);
  }

  /** The filter documents the service hands to the store: the listing
      query, "attendees contains this user", and "date equals this instant". */
  datatype Selector = ByQuery(q: Query) | ByAttendee(user: UserId) | ByDate(date: int)

  predicate Selects(s: Selector, e: Event) {
    match s
    case ByQuery(q) => Matches(e, q)
    case ByAttendee(u) => u in e.attendees
    case ByDate(d) => e.date == d
  }

  predicate HasId(r: seq<Stored>, id: EventId) {
    exists i :: 0 <= i < |r| && r[i].id == id
  }

  ghost predicate DistinctIds(r: seq<Stored>) {
    forall i, j :: 0 <= i < j < |r| ==> r[i].id != r[j].id
  }

  /** `r` lists every stored event the selector accepts, once, with its
      current record, and nothing else. */
  ghost predicate Lists(r: seq<Stored>, events: map<EventId, Event>, s: Selector) {
    && (forall i :: 0 <= i < |r| ==> r[i].id in events && r[i].event == events[r[i].id] && Selects(s, r[i].event))
    && (forall id :: id in events && Selects(s, events[id]) ==> HasId(r, id))
    && DistinctIds(r)
  }

  ghost predicate SortedByDate(r: seq<Stored>) {
    forall i, j :: 0 <= i < j < |r| ==> r[i].event.date <= r[j].event.date
  }

  /** Put `x` into a date-ordered list, after every entry not later than it. */
  function InsertByDate(x: Stored, s: seq<Stored>): (r: seq<Stored>)
    ensures multiset(r) == multiset(s) + multiset{x}
  {
    if s == [] then [x]
    else if x.event.date < s[0].event.date then [x] + s
    else
      assert [s[0]] + s[1..] == s;
      [s[0]] + InsertByDate(x, s[1..])
  }

  /** Order a listing ascending by date. */
  function SortByDate(s: seq<Stored>): (r: seq<Stored>)
    ensures multiset(r) == multiset(s)
  {
    if s == [] then []
    else
      assert [s[0]] + s[1..] == s;
      InsertByDate(s[0], SortByDate(s[1..]))
  }

  /** Inserting keeps every entry at or after a lower bound both `x` and
      the list respect. */
  lemma InsertByDateAbove(x: Stored, s: seq<Stored>, lo: int)
    requires lo <= x.event.date
    requires forall k :: 0 <= k < |s| ==> lo <= s[k].event.date
    ensures forall j :: 0 <= j < |InsertByDate(x, s)| ==> lo <= InsertByDate(x, s)[j].event.date
  {
    var r := InsertByDate(x, s);
    forall j | 0 <= j < |r| ensures lo <= r[j].event.date {
      assert r[j] in multiset(r);
      if r[j] != x {
        assert r[j] in multiset(s);
        var k :| 0 <= k < |s| && s[k] == r[j];
      }
    }
  }

  lemma {:induction false} InsertByDateSorted(x: Stored, s: seq<Stored>)
    requires SortedByDate(s)
    ensures SortedByDate(InsertByDate(x, s))
  {
    if s == [] {
      assert InsertByDate(x, s) == [x];
    } else if x.event.date < s[0].event.date {
      var r := [x] + s;
      assert InsertByDate(x, s) == r;
      forall i, j | 0 <= i < j < |r| ensures r[i].event.date <= r[j].event.date {
        assert r[j] == s[j - 1];
        if i > 0 {
          assert r[i] == s[i - 1];
        }
      }
    } else {
      var t := s[1..];
      assert SortedByDate(t) by {
        forall i, j | 0 <= i < j < |t| ensures t[i].event.date <= t[j].event.date {
          assert t[i] == s[i + 1] && t[j] == s[j + 1];
        }
      }
      assert forall k :: 0 <= k < |t| ==> s[0].event.date <= t[k].event.date by {
        forall k | 0 <= k < |t| ensures s[0].event.date <= t[k].event.date {
          assert t[k] == s[k + 1];
        }
      }
      InsertByDateSorted(x, t);
      InsertByDateAbove(x, t, s[0].event.date);
      var rest := InsertByDate(x, t);
      var r := [s[0]] + rest;
      assert InsertByDate(x, s) == r;
      forall i, j | 0 <= i < j < |r| ensures r[i].event.date <= r[j].event.date {
        assert r[j] == rest[j - 1];
        if i > 0 {
          assert r[i] == rest[i - 1];
        }
      }
    }
  }

  /** The listing comes out in ascending date order. */
  lemma {:induction false} SortByDateSorted(s: seq<Stored>)
    ensures SortedByDate(SortByDate(s))
  {
    if s != [] {
      SortByDateSorted(s[1..]);
      InsertByDateSorted(s[0], SortByDate(s[1..]));
    }
  }

  lemma {:induction false} InsertByDateDistinct(x: Stored, s: seq<Stored>)
    requires DistinctIds(s) && !HasId(s, x.id)
    ensures DistinctIds(InsertByDate(x, s))
  {
    if s != [] && x.event.date >= s[0].event.date {
      var t := s[1..];
      assert DistinctIds(t);
      InsertByDateDistinct(x, t);
      var rest := InsertByDate(x, t);
      forall j | 0 <= j < |rest| ensures rest[j].id != s[0].id {
        assert rest[j] in multiset(rest);
        if rest[j] != x {
          assert rest[j] in multiset(t);
          var k :| 0 <= k < |t| && t[k] == rest[j];
          assert s[k + 1] == rest[j];
        }
      }
    }
  }

  lemma {:induction false} SortByDateDistinct(s: seq<Stored>)
    requires DistinctIds(s)
    ensures DistinctIds(SortByDate(s))
  {
    if s != [] {
      var t := s[1..];
      assert DistinctIds(t);
      SortByDateDistinct(t);
      var sorted := SortByDate(t);
      forall i | 0 <= i < |sorted| ensures sorted[i].id != s[0].id {
        assert sorted[i] in multiset(t);
        var k :| 0 <= k < |t| && t[k] == sorted[i];
        assert s[k + 1] == sorted[i];
      }
      InsertByDateDistinct(s[0], sorted);
    }
  }

  /** Ordering a listing keeps it a listing of the same events. */
  lemma SortByDateLists(r: seq<Stored>, events: map<EventId, Event>, sel: Selector)
    requires Lists(r, events, sel)
    ensures Lists(SortByDate(r), events, sel)
    ensures SortedByDate(SortByDate(r))
  {
    var sorted := SortByDate(r);
    forall i | 0 <= i < |sorted|
      ensures sorted[i].id in events && sorted[i].event == events[sorted[i].id] && Selects(sel, sorted[i].event)
    {
      assert sorted[i] in multiset(r);
    }
    forall id | id in events && Selects(sel, events[id]) ensures HasId(sorted, id) {
      var i :| 0 <= i < |r| && r[i].id == id;
      assert r[i] in multiset(sorted);
      var k :| 0 <= k < |sorted| && sorted[k] == r[i];
    }
    SortByDateDistinct(r);
    SortByDateSorted(r);
  }
}
