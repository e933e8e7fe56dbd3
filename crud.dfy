// The query layer of the backend over an in-memory copy of its two tables.
// Reads are functions of the table contents (the SQL they issue is a WHERE,
// a COUNT or an OFFSET/LIMIT); writes are methods of `Database`, which owns
// the tables and hands out primary keys.
module Crud {
  import opened Wrappers
  import opened Tables
  import opened Records

  /** Default page sizes of the list queries. */
  const DefaultLimit: nat := 10
  const DefaultEmailLimit: nat := 20

  function HasEventId(id: int): Event -> bool { (e: Event) => e.id == id }
  function HasBookingId(id: int): Booking -> bool { (b: Booking) => b.id == id }
  function OfEvent(eventId: int): Booking -> bool { (b: Booking) => b.eventId == eventId }
  function OfEventSlot(eventId: int, slot: string): Booking -> bool
  {
    (b: Booking) => b.eventId == eventId && b.slot == slot
  }
  function OfEventSlotEmail(eventId: int, slot: string, email: string): Booking -> bool
  {
    (b: Booking) => b.eventId == eventId && b.slot == slot && b.attendeeEmail == email
  }
  function WithEmail(email: string): Booking -> bool { (b: Booking) => b.attendeeEmail == email }

  /** No two rows share a primary key. */
  ghost predicate UniqueEventIds(events: seq<Event>)
  {
    forall j, k :: 0 <= j < k < |events| ==> events[j].id != events[k].id
  }

  ghost predicate UniqueBookingIds(bookings: seq<Booking>)
  {
    forall j, k :: 0 <= j < k < |bookings| ==> bookings[j].id != bookings[k].id
  }

  /** get_event: the row with that key, or none. */
  function GetEvent(events: seq<Event>, eventId: int): (r: Option<Event>)
    ensures r.Some? ==> r.value in events && r.value.id == eventId
    ensures r.None? <==> forall e :: e in events ==> e.id != eventId
  {
    match IndexWhere(events, HasEventId(eventId))
    case None => None
    case Some(k) => Some(events[k])
  }

  // get_events and get_bookings are `Page` of their table: the rows in table
  // order from position `skip`, at most `limit` of them.

  /** count_bookings_for_slot: how many rows have this event and this slot. */
  function CountBookingsForSlot(bookings: seq<Booking>, eventId: int, slot: string): (n: nat)
    ensures n <= |bookings|
    ensures n == |set k | 0 <= k < |bookings| && bookings[k].eventId == eventId && bookings[k].slot == slot|
  {
    CountIsNumberOfMatches(bookings, OfEventSlot(eventId, slot));
    assert IndicesWhere(bookings, OfEventSlot(eventId, slot))
      == set k | 0 <= k < |bookings| && bookings[k].eventId == eventId && bookings[k].slot == slot;
    CountWhere(bookings, OfEventSlot(eventId, slot))
  }

  /** A new row raises the count of its own (event, slot) by one and leaves every
      other count alone. */
  lemma CountAfterInsert(bookings: seq<Booking>, b: Booking, eventId: int, slot: string)
    ensures CountBookingsForSlot(bookings + [b], eventId, slot)
      == CountBookingsForSlot(bookings, eventId, slot) + (if b.eventId == eventId && b.slot == slot then 1 else 0)
  {
    WhereSnoc(bookings, b, OfEventSlot(eventId, slot));
  }

  /** get_bookings_for_event: the event's rows in table order, after skipping
      `skip` of them, at most `limit`. */
  function GetBookingsForEvent(bookings: seq<Booking>, eventId: int, skip: nat, limit: nat): (r: seq<Booking>)
    ensures |r| <= limit
    ensures forall b :: b in r ==> b in bookings && b.eventId == eventId
    ensures |r| == if skip >= CountWhere(bookings, OfEvent(eventId)) then 0
                   else Min(limit, CountWhere(bookings, OfEvent(eventId)) - skip)
    ensures skip == 0 && CountWhere(bookings, OfEvent(eventId)) <= limit ==>
      forall k :: 0 <= k < |bookings| && bookings[k].eventId == eventId ==> bookings[k] in r
  {
    var matching := Where(bookings, OfEvent(eventId));
    var r := Page(matching, skip, limit);
    assert forall b :: b in r ==> b in matching;
    assert skip == 0 && |matching| <= limit ==> r == matching;
    r
  }

  /** get_bookings_by_email: the attendee's rows in table order, after skipping
      `skip` of them, at most `limit`. */
  function GetBookingsByEmail(bookings: seq<Booking>, email: string, skip: nat, limit: nat): (r: seq<Booking>)
    ensures |r| <= limit
    ensures forall b :: b in r ==> b in bookings && b.attendeeEmail == email
    ensures |r| == if skip >= CountWhere(bookings, WithEmail(email)) then 0
                   else Min(limit, CountWhere(bookings, WithEmail(email)) - skip)
    ensures skip == 0 && CountWhere(bookings, WithEmail(email)) <= limit ==>
      forall k :: 0 <= k < |bookings| && bookings[k].attendeeEmail == email ==> bookings[k] in r
  {
    var matching := Where(bookings, WithEmail(email));
    var r := Page(matching, skip, limit);
    assert forall b :: b in r ==> b in matching;
    assert skip == 0 && |matching| <= limit ==> r == matching;
    r
  }

  /** What `scalar_one_or_none` raises when the query has several rows. */
  datatype QueryError = MultipleResultsFound

  /** get_booking_by_email_slot: the one row with this event, slot and e-mail,
      none if there is no such row, an error if there are several. */
  function GetBookingByEmailSlot(bookings: seq<Booking>, eventId: int, slot: string, email: string)
    : (r: Result<Option<Booking>, QueryError>)
    ensures r.Failure? <==> CountWhere(bookings, OfEventSlotEmail(eventId, slot, email)) >= 2
    ensures r == Success(None) <==>
      forall b :: b in bookings ==> !(b.eventId == eventId && b.slot == slot && b.attendeeEmail == email)
    ensures r.Success? && r.value.Some? ==>
      var b := r.value.value;
      b in bookings && b.eventId == eventId && b.slot == slot && b.attendeeEmail == email
  {
    var matching := Where(bookings, OfEventSlotEmail(eventId, slot, email));
    if |matching| == 0 then Success(None)
    else if |matching| == 1 then
      assert matching[0] in matching;
      Success(Some(matching[0]))
    else
      assert matching[0] in matching;
      Failure(MultipleResultsFound)
  }

  /** The two tables and the key counters of the database. */
  class Database {
    var events: seq<Event>
    var bookings: seq<Booking>
    var nextEventId: int
    var nextBookingId: int

    /** Keys are unique and every key in use is below the next one handed out. */
    ghost predicate Valid()
      reads this
    {
      UniqueEventIds(events) && UniqueBookingIds(bookings)
      && (forall k :: 0 <= k < |events| ==> events[k].id < nextEventId)
      && (forall k :: 0 <= k < |bookings| ==> bookings[k].id < nextBookingId)
    }

    constructor ()
      ensures Valid() && events == [] && bookings == []
    {
      events, bookings := [], [];
      nextEventId, nextBookingId := 1, 1;
    }

    /** create_event: one new row with a fresh key; the existing rows stay. */
    method CreateEvent(c: EventCreate) returns (e: Event)
      requires Valid()
      modifies this
      ensures Valid()
      ensures e == EventRow(old(nextEventId), c)
      ensures forall x :: x in old(events) ==> x.id != e.id
      ensures events == old(events) + [e]
      ensures bookings == old(bookings) && nextBookingId == old(nextBookingId)
    {
      e := EventRow(nextEventId, c);
      events := events + [e];
      nextEventId := nextEventId + 1;
    }

    /** create_booking: one new row with a fresh key; the existing rows stay. */
    method CreateBooking(c: BookingCreate) returns (b: Booking)
      requires Valid()
      modifies this
      ensures Valid()
      ensures b == BookingRow(old(nextBookingId), c)
      ensures forall x :: x in old(bookings) ==> x.id != b.id
      ensures bookings == old(bookings) + [b]
      ensures events == old(events) && nextEventId == old(nextEventId)
    {
      b := BookingRow(nextBookingId, c);
      bookings := bookings + [b];
      nextBookingId := nextBookingId + 1;
    }

    /** delete_event: none and no change when the key is absent; otherwise
        exactly that row leaves the table and is returned. The event's
        bookings stay. */
    method DeleteEvent(eventId: int) returns (r: Option<Event>)
      requires Valid()
      modifies this
      ensures Valid()
      ensures r.None? <==> forall e :: e in old(events) ==> e.id != eventId
      ensures r.None? ==> events == old(events)
      ensures r.Some? ==> r.value in old(events) && r.value.id == eventId && |events| == |old(events)| - 1
      ensures forall e :: e in events <==> e in old(events) && e.id != eventId
      ensures bookings == old(bookings)
      ensures nextEventId == old(nextEventId) && nextBookingId == old(nextBookingId)
    {
      match IndexWhere(events, HasEventId(eventId))
      case None =>
        r := None;
      case Some(k) =>
        r := Some(events[k]);
        RemoveKeyed(events, k);
        events := RemoveAt(events, k);
    }

    /** update_event: none and no change when the key is absent; otherwise that
        row takes every field of the payload and keeps its key. */
    method UpdateEvent(eventId: int, c: EventCreate) returns (r: Option<Event>)
      requires Valid()
      modifies this
      ensures Valid()
      ensures r.None? <==> forall e :: e in old(events) ==> e.id != eventId
      ensures r.None? ==> events == old(events)
      ensures r.Some? ==> r.value == EventRow(eventId, c)
      ensures r.Some? ==> exists k :: 0 <= k < |old(events)| && old(events)[k].id == eventId
                                      && events == old(events)[k := EventRow(eventId, c)]
      ensures bookings == old(bookings)
      ensures nextEventId == old(nextEventId) && nextBookingId == old(nextBookingId)
    {
      match IndexWhere(events, HasEventId(eventId))
      case None =>
        r := None;
      case Some(k) =>
        r := Some(EventRow(eventId, c));
        events := events[k := EventRow(eventId, c)];
    }

    /** delete_booking: none and no change when the key is absent; otherwise
        exactly that row leaves the table and is returned. */
    method DeleteBooking(bookingId: int) returns (r: Option<Booking>)
      requires Valid()
      modifies this
      ensures Valid()
      ensures r.None? <==> forall b :: b in old(bookings) ==> b.id != bookingId
      ensures r.None? ==> bookings == old(bookings)
      ensures r.Some? ==> r.value in old(bookings) && r.value.id == bookingId && |bookings| == |old(bookings)| - 1
      ensures forall b :: b in bookings <==> b in old(bookings) && b.id != bookingId
      ensures r.Some? ==> exists k :: 0 <= k < |old(bookings)| && old(bookings)[k] == r.value
                                      && bookings == RemoveAt(old(bookings), k)
      ensures events == old(events)
      ensures nextEventId == old(nextEventId) && nextBookingId == old(nextBookingId)
    {
      match IndexWhere(bookings, HasBookingId(bookingId))
      case None =>
        r := None;
      case Some(k) =>
        r := Some(bookings[k]);
        RemoveKeyed(bookings, k);
        bookings := RemoveAt(bookings, k);
    }

    /** update_booking: none and no change when the key is absent; otherwise
        that row takes every field of the payload and keeps its key. */
    method UpdateBooking(bookingId: int, c: BookingCreate) returns (r: Option<Booking>)
      requires Valid()
      modifies this
      ensures Valid()
      ensures r.None? <==> forall b :: b in old(bookings) ==> b.id != bookingId
      ensures r.None? ==> bookings == old(bookings)
      ensures r.Some? ==> r.value == BookingRow(bookingId, c)
      ensures r.Some? ==> exists k :: 0 <= k < |old(bookings)| && old(bookings)[k].id == bookingId
                                      && bookings == old(bookings)[k := BookingRow(bookingId, c)]
      ensures events == old(events)
      ensures nextEventId == old(nextEventId) && nextBookingId == old(nextBookingId)
    {
      match IndexWhere(bookings, HasBookingId(bookingId))
      case None =>
        r := None;
      case Some(k) =>
        r := Some(BookingRow(bookingId, c));
        bookings := bookings[k := BookingRow(bookingId, c)];
    }
  }

  /** Removing the row at k keeps every other row and brings in none. */
  lemma RemoveKeyed<T>(s: seq<T>, k: nat)
    requires k < |s|
    ensures forall j :: 0 <= j < |RemoveAt(s, k)| ==> RemoveAt(s, k)[j] in s
    ensures forall j :: 0 <= j < |s| && j != k ==> s[j] in RemoveAt(s, k)
    ensures forall x :: x in RemoveAt(s, k) ==> exists j :: 0 <= j < |s| && j != k && s[j] == x
  {
    var r := RemoveAt(s, k);
    forall j | 0 <= j < |s| && j != k ensures s[j] in r {
      if j < k { assert r[j] == s[j]; } else { assert r[j - 1] == s[j]; }
    }
  }
}
