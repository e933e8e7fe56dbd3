// The HTTP handlers of the backend. A handler either returns a value or
// raises an HTTPException (status, detail). The booking endpoint's checks are
// stated as a pure admission decision; the handlers that write go through
// `Database`.
//
// POST /events/{event_id}/bookings is registered twice; the router tries
// routes in registration order, so the first registration serves every
// request and the second (which adds a duplicate check) is never reached.
module Api {
  import opened Wrappers
  import opened Tables
  import opened Records
  import opened Crud

  datatype HttpError = HttpError(status: int, detail: string)

  datatype Outcome<+T> = Returned(value: T) | Raised(error: HttpError)

  const EventNotFound := HttpError(404, "Event not found")
  const BookingNotFound := HttpError(404, "Booking not found")
  const SlotNotValid := HttpError(400, "Slot not valid")
  const SlotFullyBooked := HttpError(400, "Slot already fully booked")
  const AlreadyBooked := HttpError(400, "You have already booked this slot.")
  /** What the framework answers for an exception the handler does not catch. */
  const InternalServerError := HttpError(500, "Internal Server Error")

  /** GET /events/{event_id}. */
  function ReadEvent(events: seq<Event>, eventId: int): (r: Outcome<Event>)
    ensures r == Raised(EventNotFound) <==> forall e :: e in events ==> e.id != eventId
    ensures r.Returned? ==> r.value in events && r.value.id == eventId
  {
    match GetEvent(events, eventId)
    case None => Raised(EventNotFound)
    case Some(e) => Returned(e)
  }

  /** GET /events/{event_id}/bookings/ with its default page (skip 0, limit 10). */
  function ReadBookingsForEvent(bookings: seq<Booking>, eventId: int): (r: seq<Booking>)
    ensures |r| <= DefaultLimit
    ensures forall b :: b in r ==> b in bookings && b.eventId == eventId
    ensures |r| == Min(DefaultLimit, CountWhere(bookings, OfEvent(eventId)))
    ensures CountWhere(bookings, OfEvent(eventId)) <= DefaultLimit ==>
      forall k :: 0 <= k < |bookings| && bookings[k].eventId == eventId ==> bookings[k] in r
  {
    GetBookingsForEvent(bookings, eventId, 0, DefaultLimit)
  }

  /** GET /users/{email}/bookings with its default page (skip 0, limit 20). */
  function ReadBookingsByEmail(bookings: seq<Booking>, email: string): (r: seq<Booking>)
    ensures |r| <= DefaultEmailLimit
    ensures forall b :: b in r ==> b in bookings && b.attendeeEmail == email
    ensures |r| == Min(DefaultEmailLimit, CountWhere(bookings, WithEmail(email)))
    ensures CountWhere(bookings, WithEmail(email)) <= DefaultEmailLimit ==>
      forall k :: 0 <= k < |bookings| && bookings[k].attendeeEmail == email ==> bookings[k] in r
  {
    GetBookingsByEmail(bookings, email, 0, DefaultEmailLimit)
  }

  /** The verdict of a booking handler's checks: the event to book into, or
      the exception raised. */
  datatype Admission = Admit(event: Event) | Refuse(error: HttpError)

  /** The checks of the first registered booking handler, in order: the event
      exists, the slot is one of its slots, the slot has room. */
  function AdmitBooking(events: seq<Event>, bookings: seq<Booking>, eventId: int, slot: string)
    : (r: Admission)
    ensures r == Refuse(EventNotFound) <==> forall e :: e in events ==> e.id != eventId
    ensures r == Refuse(SlotNotValid) ==> GetEvent(events, eventId).Some? && slot !in GetEvent(events, eventId).value.slots
    ensures r == Refuse(SlotFullyBooked) ==>
      GetEvent(events, eventId).Some? && slot in GetEvent(events, eventId).value.slots
      && CountBookingsForSlot(bookings, eventId, slot) >= GetEvent(events, eventId).value.maxBookings
    ensures r.Admit? ==>
      r.event in events && r.event.id == eventId && slot in r.event.slots
      && CountBookingsForSlot(bookings, eventId, slot) < r.event.maxBookings
    ensures r.Admit? || r.error in {EventNotFound, SlotNotValid, SlotFullyBooked}
  {
    match GetEvent(events, eventId)
    case None => Refuse(EventNotFound)
    case Some(e) =>
      if slot !in e.slots then Refuse(SlotNotValid)
      else if CountBookingsForSlot(bookings, eventId, slot) >= e.maxBookings then Refuse(SlotFullyBooked)
      else Admit(e)
  }

  /** The checks of the second registered booking handler: as the first, with
      a look-up of an earlier booking of the same slot by the same e-mail
      between the slot check and the capacity check. */
  function AdmitBookingNoDuplicate(events: seq<Event>, bookings: seq<Booking>, eventId: int, slot: string, email: string)
    : (r: Admission)
    ensures r == Refuse(EventNotFound) <==> forall e :: e in events ==> e.id != eventId
    ensures r == Refuse(SlotNotValid) ==> GetEvent(events, eventId).Some? && slot !in GetEvent(events, eventId).value.slots
    ensures r == Refuse(AlreadyBooked) ==>
      exists b :: b in bookings && b.eventId == eventId && b.slot == slot && b.attendeeEmail == email
    ensures r == Refuse(InternalServerError) ==>
      CountWhere(bookings, OfEventSlotEmail(eventId, slot, email)) >= 2
    ensures r == Refuse(SlotFullyBooked) ==>
      GetEvent(events, eventId).Some? && slot in GetEvent(events, eventId).value.slots
      && CountWhere(bookings, OfEventSlotEmail(eventId, slot, email)) == 0
      && CountBookingsForSlot(bookings, eventId, slot) >= GetEvent(events, eventId).value.maxBookings
    ensures r.Admit? ==>
      r.event in events && r.event.id == eventId && slot in r.event.slots
      && CountBookingsForSlot(bookings, eventId, slot) < r.event.maxBookings
      && forall b :: b in bookings ==> !(b.eventId == eventId && b.slot == slot && b.attendeeEmail == email)
    ensures r.Admit? || r.error in {EventNotFound, SlotNotValid, AlreadyBooked, SlotFullyBooked, InternalServerError}
    // The duplicate look-up runs before the capacity check: a single earlier
    // booking is refused as a repeat whatever the slot's count.
    ensures (GetEvent(events, eventId).Some? && slot in GetEvent(events, eventId).value.slots
             && CountWhere(bookings, OfEventSlotEmail(eventId, slot, email)) == 1)
      ==> r == Refuse(AlreadyBooked)
    // The slot check runs before the look-up, and a look-up that finds two
    // or more rows raises, which the server answers with a 500.
    ensures (GetEvent(events, eventId).Some? && slot !in GetEvent(events, eventId).value.slots)
      ==> r == Refuse(SlotNotValid)
    ensures (GetEvent(events, eventId).Some? && slot in GetEvent(events, eventId).value.slots
             && CountWhere(bookings, OfEventSlotEmail(eventId, slot, email)) >= 2)
      ==> r == Refuse(InternalServerError)
  {
    match GetEvent(events, eventId)
    case None => Refuse(EventNotFound)
    case Some(e) =>
      if slot !in e.slots then Refuse(SlotNotValid)
      else match GetBookingByEmailSlot(bookings, eventId, slot, email)
        case Failure(_) => Refuse(InternalServerError)
        case Success(Some(_)) => Refuse(AlreadyBooked)
        case Success(None) =>
          if CountBookingsForSlot(bookings, eventId, slot) >= e.maxBookings then Refuse(SlotFullyBooked)
          else Admit(e)
  }

  /** The second handler admits exactly what the first admits and has no earlier
      booking of that slot by that e-mail; so it admits a subset of what the
      first admits. */
  lemma NoDuplicateAdmitsIff(events: seq<Event>, bookings: seq<Booking>, eventId: int, slot: string, email: string)
    ensures AdmitBookingNoDuplicate(events, bookings, eventId, slot, email).Admit? <==>
      AdmitBooking(events, bookings, eventId, slot).Admit?
      && forall b :: b in bookings ==> !(b.eventId == eventId && b.slot == slot && b.attendeeEmail == email)
    ensures AdmitBookingNoDuplicate(events, bookings, eventId, slot, email).Admit? ==>
      AdmitBookingNoDuplicate(events, bookings, eventId, slot, email) == AdmitBooking(events, bookings, eventId, slot)
  {
  }

  /** The row an admitted request adds: the event from the path, the booking
      time from the server clock, the rest from the body (whose own event_id
      and booked_at are ignored). */
  function AcceptedBooking(id: int, eventId: int, data: BookingCreate, now: Timestamp): (b: Booking)
    ensures b.id == id && b.eventId == eventId && b.bookedAt == now
    ensures b.attendeeName == data.attendeeName && b.attendeeEmail == data.attendeeEmail && b.slot == data.slot
  {
    BookingRow(id, BookingCreate(eventId, data.attendeeName, data.attendeeEmail, now, data.slot))
  }

  /** Every (event, slot) that has bookings holds no more of them than the
      event's max_bookings. Rows of an event that no longer exists are not
      constrained. */
  ghost predicate WithinCapacity(events: seq<Event>, bookings: seq<Booking>)
  {
    forall k :: 0 <= k < |bookings| ==> RowWithinCapacity(events, bookings, bookings[k])
  }

  ghost predicate RowWithinCapacity(events: seq<Event>, bookings: seq<Booking>, b: Booking)
  {
    match GetEvent(events, b.eventId)
    case None => true
    case Some(e) => CountBookingsForSlot(bookings, b.eventId, b.slot) <= e.maxBookings
  }

  /** An admitted booking keeps every slot within capacity. */
  lemma AdmissionKeepsCapacity(events: seq<Event>, bookings: seq<Booking>, eventId: int, slot: string, b: Booking)
    requires WithinCapacity(events, bookings)
    requires AdmitBooking(events, bookings, eventId, slot).Admit?
    requires b.eventId == eventId && b.slot == slot
    ensures WithinCapacity(events, bookings + [b])
  {
    var after := bookings + [b];
    forall k | 0 <= k < |after| ensures RowWithinCapacity(events, after, after[k]) {
      var x := after[k];
      CountAfterInsert(bookings, b, x.eventId, x.slot);
      if k < |bookings| {
        assert RowWithinCapacity(events, bookings, bookings[k]);
      }
    }
  }

  /** POST /events/{event_id}/bookings, first registration: the handler that
      serves the route. */
  method BookSlotForEvent(db: Database, eventId: int, data: BookingCreate, now: Timestamp)
    returns (r: Outcome<Booking>)
    requires db.Valid()
    modifies db
    ensures db.Valid()
    ensures db.events == old(db.events) && db.nextEventId == old(db.nextEventId)
    ensures old(AdmitBooking(db.events, db.bookings, eventId, data.slot)).Refuse? ==>
      r == Raised(old(AdmitBooking(db.events, db.bookings, eventId, data.slot)).error)
      && db.bookings == old(db.bookings) && db.nextBookingId == old(db.nextBookingId)
    ensures old(AdmitBooking(db.events, db.bookings, eventId, data.slot)).Admit? ==>
      r == Returned(AcceptedBooking(old(db.nextBookingId), eventId, data, now))
      && db.bookings == old(db.bookings) + [r.value]
    ensures WithinCapacity(old(db.events), old(db.bookings)) ==> WithinCapacity(db.events, db.bookings)
  {
    ghost var verdict := AdmitBooking(db.events, db.bookings, eventId, data.slot);
    var event := GetEvent(db.events, eventId);
    if event.None? {
      return Raised(EventNotFound);
    }
    if data.slot !in event.value.slots {
      return Raised(SlotNotValid);
    }
    var bookingsForSlot := CountBookingsForSlot(db.bookings, eventId, data.slot);
    if bookingsForSlot >= event.value.maxBookings {
      return Raised(SlotFullyBooked);
    }
    assert verdict.Admit?;
    ghost var before := db.bookings;
    var created := db.CreateBooking(BookingCreate(eventId, data.attendeeName, data.attendeeEmail, now, data.slot));
    assert created == AcceptedBooking(old(db.nextBookingId), eventId, data, now);
    if WithinCapacity(db.events, before) {
      AdmissionKeepsCapacity(db.events, before, eventId, data.slot, created);
    }
    r := Returned(created);
  }

  /** POST /events/{event_id}/bookings, second registration (never reached
      through the router). */
  method BookSlotForEventNoDuplicate(db: Database, eventId: int, data: BookingCreate, now: Timestamp)
    returns (r: Outcome<Booking>)
    requires db.Valid()
    modifies db
    ensures db.Valid()
    ensures db.events == old(db.events) && db.nextEventId == old(db.nextEventId)
    ensures old(AdmitBookingNoDuplicate(db.events, db.bookings, eventId, data.slot, data.attendeeEmail)).Refuse? ==>
      r == Raised(old(AdmitBookingNoDuplicate(db.events, db.bookings, eventId, data.slot, data.attendeeEmail)).error)
      && db.bookings == old(db.bookings) && db.nextBookingId == old(db.nextBookingId)
    ensures old(AdmitBookingNoDuplicate(db.events, db.bookings, eventId, data.slot, data.attendeeEmail)).Admit? ==>
      r == Returned(AcceptedBooking(old(db.nextBookingId), eventId, data, now))
      && db.bookings == old(db.bookings) + [r.value]
    ensures WithinCapacity(old(db.events), old(db.bookings)) ==> WithinCapacity(db.events, db.bookings)
    ensures NoDoubleBooking(old(db.bookings)) ==> NoDoubleBooking(db.bookings)
  {
    ghost var verdict := AdmitBookingNoDuplicate(db.events, db.bookings, eventId, data.slot, data.attendeeEmail);
    var event := GetEvent(db.events, eventId);
    if event.None? {
      return Raised(EventNotFound);
    }
    if data.slot !in event.value.slots {
      return Raised(SlotNotValid);
    }
    var existing := GetBookingByEmailSlot(db.bookings, eventId, data.slot, data.attendeeEmail);
    if existing.Failure? {
      return Raised(InternalServerError);
    }
    if existing.value.Some? {
      return Raised(AlreadyBooked);
    }
    var bookingsForSlot := CountBookingsForSlot(db.bookings, eventId, data.slot);
    if bookingsForSlot >= event.value.maxBookings {
      return Raised(SlotFullyBooked);
    }
    assert verdict.Admit?;
    ghost var before := db.bookings;
    var created := db.CreateBooking(BookingCreate(eventId, data.attendeeName, data.attendeeEmail, now, data.slot));
    assert created == AcceptedBooking(old(db.nextBookingId), eventId, data, now);
    NoDuplicateAdmitsIff(db.events, before, eventId, data.slot, data.attendeeEmail);
    if WithinCapacity(db.events, before) {
      AdmissionKeepsCapacity(db.events, before, eventId, data.slot, created);
    }
    if NoDoubleBooking(before) {
      NoDuplicateAdmissionKeepsUnique(db.events, before, eventId, data.slot, data.attendeeEmail, created);
    }
    r := Returned(created);
  }

  /** No two rows book the same slot of the same event under the same e-mail. */
  ghost predicate NoDoubleBooking(bookings: seq<Booking>)
  {
    forall j, k :: 0 <= j < k < |bookings| ==> !SameAttendeeSlot(bookings[j], bookings[k])
  }

  predicate SameAttendeeSlot(a: Booking, b: Booking)
  {
    a.eventId == b.eventId && a.slot == b.slot && a.attendeeEmail == b.attendeeEmail
  }

  /** What the second handler admits never creates a double booking. */
  lemma NoDuplicateAdmissionKeepsUnique(events: seq<Event>, bookings: seq<Booking>, eventId: int, slot: string, email: string, b: Booking)
    requires NoDoubleBooking(bookings)
    requires AdmitBookingNoDuplicate(events, bookings, eventId, slot, email).Admit?
    requires b.eventId == eventId && b.slot == slot && b.attendeeEmail == email
    ensures NoDoubleBooking(bookings + [b])
  {
    var after := bookings + [b];
    forall j, k | 0 <= j < k < |after| ensures !SameAttendeeSlot(after[j], after[k]) {
      if k == |bookings| {
        assert after[j] in bookings;
      }
    }
  }

  /** The served handler lets the same e-mail book the same slot twice while
      there is room, and the second handler would have refused it. */
  lemma ServedRouteAdmitsDoubleBooking()
    ensures
      var e := Event(1, "Demo", None, "2024-01-01T09:00:00", "2024-01-01T12:00:00", "Org", ["2024-01-01T10:00:00Z"], 2);
      var first := Booking(1, 1, "Ann", "ann@example.com", "2024-01-01T08:00:00", "2024-01-01T10:00:00Z");
      var again := BookingCreate(1, "Ann", "ann@example.com", "2024-01-01T08:05:00", "2024-01-01T10:00:00Z");
      AdmitBooking([e], [first], 1, again.slot).Admit?
      && !NoDoubleBooking([first] + [AcceptedBooking(2, 1, again, "2024-01-01T08:05:00")])
      && AdmitBookingNoDuplicate([e], [first], 1, again.slot, again.attendeeEmail) == Refuse(AlreadyBooked)
  {
    var e := Event(1, "Demo", None, "2024-01-01T09:00:00", "2024-01-01T12:00:00", "Org", ["2024-01-01T10:00:00Z"], 2);
    var first := Booking(1, 1, "Ann", "ann@example.com", "2024-01-01T08:00:00", "2024-01-01T10:00:00Z");
    var again := BookingCreate(1, "Ann", "ann@example.com", "2024-01-01T08:05:00", "2024-01-01T10:00:00Z");
    CountAfterInsert([], first, 1, again.slot);
    assert [] + [first] == [first];
    assert GetEvent([e], 1) == Some(e);
    var second := AcceptedBooking(2, 1, again, "2024-01-01T08:05:00");
    assert ([first] + [second])[0] == first && ([first] + [second])[1] == second;
    assert first in [first];
  }

  /** A request to the booking endpoint: path, body and the server clock's reading. */
  datatype BookingRequest = BookingRequest(eventId: int, data: BookingCreate, now: Timestamp)

  /** The bookings table after the served handler has answered `requests` one
      after the other, the events table staying as it is. */
  function ServeBookings(events: seq<Event>, bookings: seq<Booking>, nextId: int, requests: seq<BookingRequest>)
    : seq<Booking>
    decreases |requests|
  {
    if requests == [] then bookings
    else
      var q := requests[0];
      match AdmitBooking(events, bookings, q.eventId, q.data.slot)
      case Refuse(_) => ServeBookings(events, bookings, nextId, requests[1..])
      case Admit(_) =>
        ServeBookings(events, bookings + [AcceptedBooking(nextId, q.eventId, q.data, q.now)], nextId + 1, requests[1..])
  }

  /** If bookings enter only through the served endpoint, one request after
      the other, no slot ever holds more than its event's max_bookings. */
  lemma {:induction false} ServedBookingsStayWithinCapacity(events: seq<Event>, bookings: seq<Booking>, nextId: int, requests: seq<BookingRequest>)
    requires WithinCapacity(events, bookings)
    ensures WithinCapacity(events, ServeBookings(events, bookings, nextId, requests))
    decreases |requests|
  {
    if requests != [] {
      var q := requests[0];
      match AdmitBooking(events, bookings, q.eventId, q.data.slot)
      case Refuse(_) =>
        ServedBookingsStayWithinCapacity(events, bookings, nextId, requests[1..]);
      case Admit(_) =>
        var b := AcceptedBooking(nextId, q.eventId, q.data, q.now);
        AdmissionKeepsCapacity(events, bookings, q.eventId, q.data.slot, b);
        ServedBookingsStayWithinCapacity(events, bookings + [b], nextId + 1, requests[1..]);
    }
  }

  /** POST /bookings/: inserts the body as it is, with no check at all. */
  method CreateBooking(db: Database, data: BookingCreate) returns (r: Booking)
    requires db.Valid()
    modifies db
    ensures db.Valid()
    ensures r == BookingRow(old(db.nextBookingId), data)
    ensures db.bookings == old(db.bookings) + [r] && db.events == old(db.events)
  {
    r := db.CreateBooking(data);
  }

  /** So the capacity rule holds only per endpoint: the unchecked insert puts
      a second booking into a slot of capacity one, which the booking
      endpoint would have refused. */
  lemma UncheckedCreateExceedsCapacity()
    ensures
      var e := Event(1, "Demo", None, "2024-01-01T09:00:00", "2024-01-01T12:00:00", "Org", ["2024-01-01T10:00:00Z"], 1);
      var first := Booking(1, 1, "Ann", "ann@example.com", "2024-01-01T08:00:00", "2024-01-01T10:00:00Z");
      var extra := BookingCreate(1, "Bob", "bob@example.com", "2024-01-01T08:05:00", "2024-01-01T10:00:00Z");
      WithinCapacity([e], [first])
      && AdmitBooking([e], [first], 1, extra.slot) == Refuse(SlotFullyBooked)
      && !WithinCapacity([e], [first] + [BookingRow(2, extra)])
  {
    var e := Event(1, "Demo", None, "2024-01-01T09:00:00", "2024-01-01T12:00:00", "Org", ["2024-01-01T10:00:00Z"], 1);
    var first := Booking(1, 1, "Ann", "ann@example.com", "2024-01-01T08:00:00", "2024-01-01T10:00:00Z");
    var extra := BookingCreate(1, "Bob", "bob@example.com", "2024-01-01T08:05:00", "2024-01-01T10:00:00Z");
    assert GetEvent([e], 1) == Some(e);
    CountAfterInsert([], first, 1, extra.slot);
    assert [] + [first] == [first];
    assert RowWithinCapacity([e], [first], first);
    CountAfterInsert([first], BookingRow(2, extra), 1, extra.slot);
    assert ([first] + [BookingRow(2, extra)])[0] == first;
    assert !RowWithinCapacity([e], [first] + [BookingRow(2, extra)], first);
  }

  /** PUT /bookings/{booking_id}/: overwrites the row with no check either;
      moving a booking into a full slot exceeds its capacity. */
  lemma UncheckedUpdateExceedsCapacity()
    ensures
      var e := Event(1, "Demo", None, "2024-01-01T09:00:00", "2024-01-01T12:00:00", "Org", ["10:00", "11:00"], 1);
      var a := Booking(1, 1, "Ann", "ann@example.com", "t0", "10:00");
      var b := Booking(2, 1, "Bob", "bob@example.com", "t1", "11:00");
      var moved := BookingCreate(1, "Bob", "bob@example.com", "t1", "10:00");
      WithinCapacity([e], [a, b]) && !WithinCapacity([e], [a, b][1 := BookingRow(2, moved)])
  {
    var e := Event(1, "Demo", None, "2024-01-01T09:00:00", "2024-01-01T12:00:00", "Org", ["10:00", "11:00"], 1);
    var a := Booking(1, 1, "Ann", "ann@example.com", "t0", "10:00");
    var b := Booking(2, 1, "Bob", "bob@example.com", "t1", "11:00");
    var moved := BookingCreate(1, "Bob", "bob@example.com", "t1", "10:00");
    assert GetEvent([e], 1) == Some(e);
    var c := BookingRow(2, moved);
    assert [a, b][1 := c] == [a, c];
    assert WithinCapacity([e], [a, b]) by {
      CountOfTwo(a, b, 1, "10:00");
      CountOfTwo(a, b, 1, "11:00");
      assert RowWithinCapacity([e], [a, b], a) && RowWithinCapacity([e], [a, b], b);
    }
    CountOfTwo(a, c, 1, "10:00");
    assert !RowWithinCapacity([e], [a, c], [a, c][0]);
  }

  lemma CountOfTwo(a: Booking, b: Booking, eventId: int, slot: string)
    ensures CountBookingsForSlot([a, b], eventId, slot)
      == (if a.eventId == eventId && a.slot == slot then 1 else 0)
       + (if b.eventId == eventId && b.slot == slot then 1 else 0)
  {
    CountAfterInsert([], a, eventId, slot);
    assert [] + [a] == [a];
    CountAfterInsert([a], b, eventId, slot);
    assert [a] + [b] == [a, b];
  }

  /** PUT /events/{event_id}/. */
  method UpdateEvent(db: Database, eventId: int, data: EventCreate) returns (r: Outcome<Event>)
    requires db.Valid()
    modifies db
    ensures db.Valid()
    ensures r == Raised(EventNotFound) <==> forall e :: e in old(db.events) ==> e.id != eventId
    ensures r.Raised? ==> db.events == old(db.events)
    ensures r.Returned? ==>
      r.value == EventRow(eventId, data)
      && exists k :: 0 <= k < |old(db.events)| && old(db.events)[k].id == eventId
                     && db.events == old(db.events)[k := r.value]
    ensures db.bookings == old(db.bookings)
  {
    var updated := db.UpdateEvent(eventId, data);
    if updated.None? {
      return Raised(EventNotFound);
    }
    r := Returned(updated.value);
  }

  /** DELETE /events/{event_id}/. */
  method DeleteEvent(db: Database, eventId: int) returns (r: Outcome<Event>)
    requires db.Valid()
    modifies db
    ensures db.Valid()
    ensures r == Raised(EventNotFound) <==> forall e :: e in old(db.events) ==> e.id != eventId
    ensures r.Raised? ==> db.events == old(db.events)
    ensures r.Returned? ==> r.value in old(db.events) && r.value.id == eventId
    ensures forall e :: e in db.events <==> e in old(db.events) && e.id != eventId
    ensures db.bookings == old(db.bookings)
  {
    var deleted := db.DeleteEvent(eventId);
    if deleted.None? {
      return Raised(EventNotFound);
    }
    r := Returned(deleted.value);
  }

  /** PUT /bookings/{booking_id}/. */
  method UpdateBooking(db: Database, bookingId: int, data: BookingCreate) returns (r: Outcome<Booking>)
    requires db.Valid()
    modifies db
    ensures db.Valid()
    ensures r == Raised(BookingNotFound) <==> forall b :: b in old(db.bookings) ==> b.id != bookingId
    ensures r.Raised? ==> db.bookings == old(db.bookings)
    ensures r.Returned? ==>
      r.value == BookingRow(bookingId, data)
      && exists k :: 0 <= k < |old(db.bookings)| && old(db.bookings)[k].id == bookingId
                     && db.bookings == old(db.bookings)[k := r.value]
    ensures db.events == old(db.events)
  {
    var updated := db.UpdateBooking(bookingId, data);
    if updated.None? {
      return Raised(BookingNotFound);
    }
    r := Returned(updated.value);
  }

  /** DELETE /bookings/{booking_id}/. */
  method DeleteBooking(db: Database, bookingId: int) returns (r: Outcome<Booking>)
    requires db.Valid()
    modifies db
    ensures db.Valid()
    ensures r == Raised(BookingNotFound) <==> forall b :: b in old(db.bookings) ==> b.id != bookingId
    ensures r.Raised? ==> db.bookings == old(db.bookings)
    ensures r.Returned? ==> r.value in old(db.bookings) && r.value.id == bookingId
    ensures forall b :: b in db.bookings <==> b in old(db.bookings) && b.id != bookingId
    ensures db.events == old(db.events)
  {
    var deleted := db.DeleteBooking(bookingId);
    if deleted.None? {
      return Raised(BookingNotFound);
    }
    r := Returned(deleted.value);
  }
}
