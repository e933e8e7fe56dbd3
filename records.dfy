// The two tables of the backend (events, bookings) and the request bodies
// that create or overwrite their rows.
module Records {
  import opened Wrappers

  /** A DateTime column or an ISO 8601 string; only ever compared for equality. */
  type Timestamp = string

  /** A row of the `events` table. `slots` is a JSON list of slot timestamps;
      `maxBookings` is the capacity of each slot. */
  datatype Event = Event(
    id: int,
    title: string,
    description: Option<string>,
    startTime: Timestamp,
    endTime: Timestamp,
    organizer: string,
    slots: seq<string>,
    maxBookings: int)

  /** The body of POST /events/ and PUT /events/{id}/: every column but `id`. */
  datatype EventCreate = EventCreate(
    title: string,
    description: Option<string>,
    startTime: Timestamp,
    endTime: Timestamp,
    organizer: string,
    slots: seq<string>,
    maxBookings: int)

  /** A row of the `bookings` table. */
  datatype Booking = Booking(
    id: int,
    eventId: int,
    attendeeName: string,
    attendeeEmail: string,
    bookedAt: Timestamp,
    slot: string)

  /** The body of the booking endpoints: every column but `id`. */
  datatype BookingCreate = BookingCreate(
    eventId: int,
    attendeeName: string,
    attendeeEmail: string,
    bookedAt: Timestamp,
    slot: string)

  /** `models.Event(**event.dict())` given the key the table assigns. */
  function EventRow(id: int, c: EventCreate): Event
  {
    Event(id, c.title, c.description, c.startTime, c.endTime, c.organizer, c.slots, c.maxBookings)
  }

  function EventPayload(e: Event): EventCreate
  {
    EventCreate(e.title, e.description, e.startTime, e.endTime, e.organizer, e.slots, e.maxBookings)
  }

  /** `models.Booking(**booking.dict())` given the key the table assigns. */
  function BookingRow(id: int, c: BookingCreate): Booking
  {
    Booking(id, c.eventId, c.attendeeName, c.attendeeEmail, c.bookedAt, c.slot)
  }

  function BookingPayload(b: Booking): BookingCreate
  {
    BookingCreate(b.eventId, b.attendeeName, b.attendeeEmail, b.bookedAt, b.slot)
  }
}
