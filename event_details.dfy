// The event page of the front-end: the per-slot booking counts it derives
// from the bookings it holds, the slot options built from them, the list of
// time zones offered, and the booking form's submit handler.
module EventDetails {
  import opened Wrappers
  import opened Tables
  import opened Text
  import opened Records
  import opened Crud
  import opened Api
  import opened Fetch

  // ---------------------------------------------------------------------
  // Slot occupancy

  function OnSlot(slot: string): Booking -> bool
  {
    (b: Booking) => b.slot == slot
  }

  /** How many of `bookings` are for `slot`. */
  function SlotCount(bookings: seq<Booking>, slot: string): nat
  {
    CountWhere(bookings, OnSlot(slot))
  }

  /** The dictionary the page builds: one key per slot of the event, holding
      the number of bookings for that slot. */
  function Occupancy(slots: seq<string>, bookings: seq<Booking>): (m: map<string, nat>)
    ensures forall s :: s in m <==> s in slots
  {
    map s | s in slots :: SlotCount(bookings, s)
  }

  /** Each value of the dictionary is the number of bookings whose slot is
      that key. */
  lemma OccupancyCountsBookings(slots: seq<string>, bookings: seq<Booking>, s: string)
    requires s in slots
    ensures Occupancy(slots, bookings)[s] == |set k | 0 <= k < |bookings| && bookings[k].slot == s|
  {
    CountIsNumberOfMatches(bookings, OnSlot(s));
    assert IndicesWhere(bookings, OnSlot(s)) == set k | 0 <= k < |bookings| && bookings[k].slot == s;
  }

  lemma SlotCountSnoc(bookings: seq<Booking>, b: Booking, slot: string)
    ensures SlotCount(bookings + [b], slot) == SlotCount(bookings, slot) + (if b.slot == slot then 1 else 0)
  {
    WhereSnoc(bookings, b, OnSlot(slot));
  }

  /** The two loops that fill `slotCounts`: every slot seeded with 0, then one
      increment per booking whose slot is already a key; bookings for any
      other slot change nothing. */
  method CountSlots(slots: seq<string>, bookings: seq<Booking>) returns (slotCounts: map<string, nat>)
    ensures slotCounts == Occupancy(slots, bookings)
  {
    slotCounts := map[];
    for i := 0 to |slots|
      invariant forall s :: s in slotCounts <==> s in slots[..i]
      invariant forall s :: s in slotCounts ==> slotCounts[s] == 0
    {
      assert slots[..i + 1] == slots[..i] + [slots[i]];
      slotCounts := slotCounts[slots[i] := 0];
    }
    assert slots[..|slots|] == slots;
    for j := 0 to |bookings|
      invariant forall s :: s in slotCounts <==> s in slots
      invariant forall s :: s in slotCounts ==> slotCounts[s] == SlotCount(bookings[..j], s)
    {
      var b := bookings[j];
      assert bookings[..j + 1] == bookings[..j] + [b];
      forall s ensures SlotCount(bookings[..j + 1], s) == SlotCount(bookings[..j], s) + (if b.slot == s then 1 else 0) {
        SlotCountSnoc(bookings[..j], b, s);
      }
      if b.slot in slotCounts {
        slotCounts := slotCounts[b.slot := slotCounts[b.slot] + 1];
      }
    }
    assert bookings[..|bookings|] == bookings;
    assert slotCounts.Keys == Occupancy(slots, bookings).Keys;
  }

  // ---------------------------------------------------------------------
  // First occurrences, in order

  /** `arr.filter((v, i, arr) => arr.indexOf(v) === i)`: each value at the
      place it first appears. */
  function FirstOccurrences<T(==,!new)>(arr: seq<T>): (r: seq<T>)
    ensures forall x :: x in r <==> x in arr
    ensures forall i, j :: 0 <= i < j < |r| ==> r[i] != r[j]
    ensures arr != [] ==> r != [] && r[0] == arr[0]
    decreases |arr|
  {
    if arr == [] then []
    else
      var init, last := arr[..|arr| - 1], arr[|arr| - 1];
      assert arr == init + [last];
      assert init != [] ==> init[0] == arr[0];
      FirstOccurrences(init) + (if last in init then [] else [last])
  }

  /** `y` first appears at some position, and `x` appears before it. */
  ghost predicate SeenBeforeFirst<T(!new)>(arr: seq<T>, x: T, y: T)
  {
    exists k :: 0 <= k < |arr| && arr[k] == y && y !in arr[..k] && x in arr[..k]
  }

  /** The kept values are in the order of their first appearances. */
  lemma {:induction false} FirstOccurrencesInOrder<T(!new)>(arr: seq<T>)
    ensures forall i, j :: 0 <= i < j < |FirstOccurrences(arr)| ==>
      SeenBeforeFirst(arr, FirstOccurrences(arr)[i], FirstOccurrences(arr)[j])
    decreases |arr|
  {
    if arr != [] {
      var init, last := arr[..|arr| - 1], arr[|arr| - 1];
      assert arr == init + [last];
      FirstOccurrencesInOrder(init);
      var before := FirstOccurrences(init);
      var r := FirstOccurrences(arr);
      forall i, j | 0 <= i < j < |r| ensures SeenBeforeFirst(arr, r[i], r[j]) {
        if j < |before| {
          var k :| 0 <= k < |init| && init[k] == before[j] && before[j] !in init[..k] && before[i] in init[..k];
          assert arr[..k] == init[..k];
        } else {
          assert r[j] == last && last !in init && r[i] in before;
          assert arr[..|init|] == init;
        }
      }
    }
  }

  /** The zones `Intl` is not consulted for: the fixed part of the menu. */
  const CommonTimezones: seq<string> := ["UTC", "America/New_York", "Europe/London", "Europe/Paris",
                                         "Asia/Kolkata", "Asia/Tokyo", "Australia/Sydney"]

  /** The "Viewing times in" menu: the browser's zone, then the common ones,
      each once. */
  function TimezoneOptions(browserZone: string): (r: seq<string>)
  {
    FirstOccurrences([browserZone] + CommonTimezones)
  }

  lemma TimezoneOptionsShape(browserZone: string)
    ensures TimezoneOptions(browserZone) != [] && TimezoneOptions(browserZone)[0] == browserZone
    ensures forall z :: z in TimezoneOptions(browserZone) <==> z == browserZone || z in CommonTimezones
    ensures forall i, j :: 0 <= i < j < |TimezoneOptions(browserZone)| ==>
      TimezoneOptions(browserZone)[i] != TimezoneOptions(browserZone)[j]
  {
    assert ([browserZone] + CommonTimezones)[0] == browserZone;
  }

  // ---------------------------------------------------------------------
  // What the counts add up to

  predicate DistinctKeys(keys: seq<string>)
  {
    forall i, j :: 0 <= i < j < |keys| ==> keys[i] != keys[j]
  }

  function SlotIn(slots: seq<string>): Booking -> bool
  {
    (b: Booking) => b.slot in slots
  }

  /** The sum of the dictionary's values, key by key in `keys`. */
  function SumCounts(keys: seq<string>, counts: map<string, nat>): nat
    requires forall k :: k in keys ==> k in counts
    decreases |keys|
  {
    if keys == [] then 0 else counts[keys[0]] + SumCounts(keys[1..], counts)
  }

  /** The keys of `slotCounts` in insertion order are the first occurrences
      of the event's slots; this is the sum of its values. */
  function TotalCounted(slots: seq<string>, bookings: seq<Booking>): nat
  {
    SumCounts(FirstOccurrences(slots), Occupancy(slots, bookings))
  }

  /** The sum of SlotCount over `keys`. */
  function Booked(keys: seq<string>, bookings: seq<Booking>): nat
    decreases |keys|
  {
    if keys == [] then 0 else SlotCount(bookings, keys[0]) + Booked(keys[1..], bookings)
  }

  lemma {:induction false} SumIsBooked(keys: seq<string>, slots: seq<string>, bookings: seq<Booking>)
    requires forall k :: k in keys ==> k in slots
    ensures SumCounts(keys, Occupancy(slots, bookings)) == Booked(keys, bookings)
    decreases |keys|
  {
    if keys != [] {
      SumIsBooked(keys[1..], slots, bookings);
    }
  }

  lemma {:induction false} BookedSnoc(keys: seq<string>, bookings: seq<Booking>, b: Booking)
    requires DistinctKeys(keys)
    ensures Booked(keys, bookings + [b]) == Booked(keys, bookings) + (if b.slot in keys then 1 else 0)
    decreases |keys|
  {
    if keys != [] {
      SlotCountSnoc(bookings, b, keys[0]);
      BookedSnoc(keys[1..], bookings, b);
      assert keys == [keys[0]] + keys[1..];
      assert b.slot == keys[0] ==> b.slot !in keys[1..];
    }
  }

  /** Summed over distinct keys, the counts are the number of bookings whose
      slot is one of the keys. */
  lemma {:induction false} BookedIsListed(keys: seq<string>, slots: seq<string>, bookings: seq<Booking>)
    requires DistinctKeys(keys)
    requires forall s :: s in keys <==> s in slots
    ensures Booked(keys, bookings) == CountWhere(bookings, SlotIn(slots))
    decreases |bookings|
  {
    if bookings == [] {
      BookedNone(keys);
    } else {
      var init, last := bookings[..|bookings| - 1], bookings[|bookings| - 1];
      assert bookings == init + [last];
      BookedIsListed(keys, slots, init);
      BookedSnoc(keys, init, last);
      WhereSnoc(init, last, SlotIn(slots));
    }
  }

  lemma {:induction false} BookedNone(keys: seq<string>)
    ensures Booked(keys, []) == 0
    decreases |keys|
  {
    if keys != [] {
      BookedNone(keys[1..]);
    }
  }

  /** The counts add up to the bookings whose slot is listed... */
  lemma TotalCountedIsListedBookings(slots: seq<string>, bookings: seq<Booking>)
    ensures TotalCounted(slots, bookings) == CountWhere(bookings, SlotIn(slots))
  {
    var keys := FirstOccurrences(slots);
    SumIsBooked(keys, slots, bookings);
    BookedIsListed(keys, slots, bookings);
  }

  /** ... so never to more than the bookings held, and to exactly that many
      when every booking is for a listed slot. */
  lemma TotalCountedBound(slots: seq<string>, bookings: seq<Booking>)
    ensures TotalCounted(slots, bookings) <= |bookings|
    ensures TotalCounted(slots, bookings) == |bookings| <==> forall k :: 0 <= k < |bookings| ==> bookings[k].slot in slots
  {
    TotalCountedIsListedBookings(slots, bookings);
    CountAllIff(bookings, SlotIn(slots));
  }

  // ---------------------------------------------------------------------
  // Slot options

  datatype Availability = FullyBooked | Available(remaining: int)

  /** One `<option>` of the slot menu. */
  datatype SlotOption = SlotOption(value: string, disabled: bool, caption: Availability)

  function OptionFor(slot: string, count: nat, maxBookings: int): (o: SlotOption)
    ensures o.value == slot
    ensures o.disabled <==> count >= maxBookings
    ensures o.caption.FullyBooked? <==> o.disabled
    ensures o.caption.Available? ==> o.caption.remaining == maxBookings - count && o.caption.remaining >= 1
  {
    if count >= maxBookings then SlotOption(slot, true, FullyBooked)
    else SlotOption(slot, false, Available(maxBookings - count))
  }

  /** The slot menu after its "Select slot" placeholder: one option per slot
      of the event, in the event's order. */
  function SlotOptions(event: Event, bookings: seq<Booking>): (r: seq<SlotOption>)
    ensures |r| == |event.slots|
    ensures forall k :: 0 <= k < |r| ==> r[k] == OptionFor(event.slots[k], Occupancy(event.slots, bookings)[event.slots[k]], event.maxBookings)
  {
    var counts := Occupancy(event.slots, bookings);
    seq(|event.slots|, k requires 0 <= k < |event.slots| => OptionFor(event.slots[k], counts[event.slots[k]], event.maxBookings))
  }

  /** More bookings never make a fully booked slot selectable again. */
  lemma FullStaysFull(event: Event, bookings: seq<Booking>, more: seq<Booking>, k: int)
    requires 0 <= k < |event.slots|
    requires SlotOptions(event, bookings)[k].disabled
    ensures SlotOptions(event, bookings + more)[k].disabled
  {
    CountMonotone(bookings, more, OnSlot(event.slots[k]));
  }

  /** Counting only the event's bookings inside all of them is counting the
      (event, slot) pair. */
  lemma {:induction false} SlotCountOfEventRows(all: seq<Booking>, eventId: int, slot: string)
    ensures SlotCount(Where(all, OfEvent(eventId)), slot) == CountBookingsForSlot(all, eventId, slot)
    decreases |all|
  {
    if all != [] {
      var init, last := all[..|all| - 1], all[|all| - 1];
      assert all == init + [last];
      SlotCountOfEventRows(init, eventId, slot);
      var before := Where(init, OfEvent(eventId));
      WhereSnoc(init, last, OfEvent(eventId));
      CountAfterInsert(init, last, eventId, slot);
      if last.eventId == eventId {
        SlotCountSnoc(before, last, slot);
      } else {
        assert Where(all, OfEvent(eventId)) == before;
      }
    }
  }

  /** Every booking of the event, in table order: what the page needs to
      count occupancy. */
  function AllBookingsForEvent(all: seq<Booking>, eventId: int): (r: seq<Booking>)
    ensures forall b :: b in r <==> b in all && b.eventId == eventId
  {
    GetBookingsForEvent(all, eventId, 0, |all|)
  }

  /** From the complete list, an option is selectable exactly when the
      booking endpoint would admit a booking of that slot. */
  lemma CompleteListMatchesServer(events: seq<Event>, all: seq<Booking>, event: Event, k: int)
    requires event in events && UniqueEventIds(events)
    requires 0 <= k < |event.slots|
    ensures !SlotOptions(event, AllBookingsForEvent(all, event.id))[k].disabled
      <==> AdmitBooking(events, all, event.id, event.slots[k]).Admit?
  {
    var matching := Where(all, OfEvent(event.id));
    CountAllIff(all, OfEvent(event.id));
    assert GetBookingsForEvent(all, event.id, 0, |all|) == Page(matching, 0, |all|);
    assert Page(matching, 0, |all|) == matching;
    SlotCountOfEventRows(all, event.id, event.slots[k]);
    assert GetEvent(events, event.id) == Some(event);
  }

  /** With the default page of 10, the page undercounts: eleven bookings of
      one slot of capacity eleven show as "1 available" while the booking
      endpoint refuses the slot as full. */
  lemma DefaultPageUndercounts()
    ensures
      var event := Event(1, "Demo", None, "s", "e", "Org", ["10:00"], 11);
      var all := seq(11, i => Booking(i + 1, 1, "Ann", "ann@example.com", "t", "10:00"));
      var shown := ReadBookingsForEvent(all, 1);
      SlotOptions(event, shown)[0] == SlotOption("10:00", false, Available(1))
      && AdmitBooking([event], all, 1, "10:00") == Refuse(SlotFullyBooked)
  {
    var event := Event(1, "Demo", None, "s", "e", "Org", ["10:00"], 11);
    var all := seq(11, i => Booking(i + 1, 1, "Ann", "ann@example.com", "t", "10:00"));
    var shown := ReadBookingsForEvent(all, 1);
    CountAllIff(all, OfEvent(1));
    CountAllIff(all, OfEventSlot(1, "10:00"));
    assert |shown| == 10;
    CountAllIff(shown, OnSlot("10:00"));
    assert SlotCount(shown, "10:00") == 10;
    assert GetEvent([event], 1) == Some(event);
  }

  // ---------------------------------------------------------------------
  // The booking form and its submit handler

  /** The form's three fields. */
  datatype BookingDraft = BookingDraft(attendeeName: string, attendeeEmail: string, slot: string)

  const EmptyDraft := BookingDraft("", "", "")

  datatype DraftField = AttendeeName | AttendeeEmail | Slot

  /** `{ ...f, [name]: value }` for one of the three inputs. */
  function WithField(d: BookingDraft, field: DraftField, value: string): (r: BookingDraft)
    ensures field == AttendeeName ==> r == d.(attendeeName := value)
    ensures field == AttendeeEmail ==> r == d.(attendeeEmail := value)
    ensures field == Slot ==> r == d.(slot := value)
  {
    match field
    case AttendeeName => d.(attendeeName := value)
    case AttendeeEmail => d.(attendeeEmail := value)
    case Slot => d.(slot := value)
  }

  /** What the modal shows: a message, or the raw validation-error list a
      failed response carried as its `detail`. */
  datatype ModalContent = Says(text: string) | ListsErrors(errors: seq<FieldError>)

  datatype Modal = Modal(show: bool, title: string, content: ModalContent)

  const NoModal := Modal(false, "", Says(""))

  const FillInEverything := "Please fill in all the fields and select a slot."
  const EnterValidEmail := "Please enter a valid email address."
  const BookingFailed := "Booking failed. Please try again."

  const BookedModal := Modal(true, "Booking Successful!", Says("Your booking was successful! Check your email for confirmation."))
  const NetworkModal := Modal(true, "Network Error", Says("A network error occurred. Please try again."))

  function ErrorModal(content: ModalContent): Modal
  {
    Modal(true, "Booking Error", content)
  }

  /** The client-side checks, in order: all three fields filled (name and
      e-mail after trimming), then the anchored e-mail pattern on the
      untrimmed e-mail. */
  function DraftError(d: BookingDraft): (r: Option<string>)
    ensures r.Some? ==> r.value in {FillInEverything, EnterValidEmail}
    ensures r == Some(FillInEverything) <==>
      IsBlank(d.attendeeName) || IsBlank(d.attendeeEmail) || d.slot == ""
    ensures r == Some(EnterValidEmail) <==>
      !IsBlank(d.attendeeName) && !IsBlank(d.attendeeEmail) && d.slot != "" && !MatchesStrictEmail(d.attendeeEmail)
  {
    if IsBlank(d.attendeeName) || IsBlank(d.attendeeEmail) || d.slot == "" then Some(FillInEverything)
    else if !MatchesStrictEmail(d.attendeeEmail) then Some(EnterValidEmail)
    else None
  }

  /** A draft passes exactly when the name is not blank, a slot is chosen and
      the e-mail matches the pattern (which already makes it non-blank). */
  lemma DraftAcceptedIff(d: BookingDraft)
    ensures DraftError(d).None? <==>
      !IsBlank(d.attendeeName) && d.slot != "" && MatchesStrictEmail(d.attendeeEmail)
  {
    if MatchesStrictEmail(d.attendeeEmail) {
      StrictEmailNotBlank(d.attendeeEmail);
    }
  }

  /** The slot is only required to be chosen, not to be one of the event's:
      a draft naming a slot the event does not have passes the checks, and the
      backend refuses it. */
  lemma SlotNotCheckedOnClient()
    ensures
      var event := Event(1, "Demo", None, "s", "e", "Org", ["10:00"], 5);
      var d := BookingDraft("Ann", "ann@example.com", "11:00");
      DraftError(d).None? && d.slot !in event.slots
      && AdmitBooking([event], [], event.id, d.slot) == Refuse(SlotNotValid)
  {
    var event := Event(1, "Demo", None, "s", "e", "Org", ["10:00"], 5);
    var e := "ann@example.com";
    assert e[..3] == "ann" && e[4..11] == "example" && e[12..] == "com";
    assert StrictSplitAt(e, 3, 11);
    DraftAcceptedIff(BookingDraft("Ann", e, "11:00"));
    assert !IsSpace("Ann"[0]);
    assert GetEvent([event], 1) == Some(event);
  }

  /** The request body the handler posts. */
  function Payload(eventId: int, d: BookingDraft, bookedAt: Timestamp): (p: BookingCreate)
    ensures p.eventId == eventId && p.bookedAt == bookedAt
    ensures p.attendeeName == d.attendeeName && p.attendeeEmail == d.attendeeEmail && p.slot == d.slot
  {
    BookingCreate(eventId, d.attendeeName, d.attendeeEmail, bookedAt, d.slot)
  }

  /** The error modal's content for a failed response: the body's `detail`
      when it is there, the fixed message otherwise (also when the body is not
      JSON). */
  function FailureContent(body: Body): (c: ModalContent)
    ensures body.Parsed? && DetailPresent(body.detail) && body.detail.DetailText? ==> c == Says(body.detail.text)
    ensures body.Parsed? && body.detail.DetailList? ==> c == ListsErrors(body.detail.errors)
    ensures !(body.Parsed? && DetailPresent(body.detail)) ==> c == Says(BookingFailed)
  {
    match body
    case Unparsable(_) => Says(BookingFailed)
    case Parsed(detail) =>
      match detail
      case NoDetail => Says(BookingFailed)
      case DetailText(t) => if t != "" then Says(t) else Says(BookingFailed)
      case DetailList(errors) => ListsErrors(errors)
  }

  /** The second request, made after a successful booking: the event's
      bookings (default page), or an exception. */
  datatype Refetch = Refetched(list: seq<Booking>) | RefetchThrown

  /** The page once its event has loaded. */
  class EventDetailsView {
    var event: Event
    var bookings: seq<Booking>
    var form: BookingDraft
    var submitting: bool
    var modal: Modal

    constructor (event: Event, bookings: seq<Booking>)
      ensures this.event == event && this.bookings == bookings
      ensures form == EmptyDraft && !submitting && modal == NoModal
    {
      this.event := event;
      this.bookings := bookings;
      form := EmptyDraft;
      submitting := false;
      modal := NoModal;
    }

    /** An input changed: only that field of the form takes the new value. */
    method HandleChange(field: DraftField, value: string)
      modifies this
      ensures form == WithField(old(form), field, value)
      ensures event == old(event) && bookings == old(bookings)
      ensures submitting == old(submitting) && modal == old(modal)
    {
      form := WithField(form, field, value);
    }

    /** The form was submitted, the clock read `now`; `reply` is what the
        booking request brought back (if one was made) and `refetch` what the
        reload of the bookings brought back (if one was made). Returns the
        body posted, if any. */
    method HandleSubmit(now: Timestamp, reply: Reply<Booking>, refetch: Refetch) returns (sent: Option<BookingCreate>)
      modifies this
      ensures event == old(event) && !submitting
      ensures DraftError(old(form)).Some? ==>
        sent == None && modal == ErrorModal(Says(DraftError(old(form)).value))
        && form == old(form) && bookings == old(bookings)
      ensures DraftError(old(form)).None? ==> sent == Some(Payload(event.id, old(form), now))
      ensures DraftError(old(form)).None? && reply.Ok? ==>
        form == EmptyDraft
        && (refetch.Refetched? ==> bookings == refetch.list && modal == BookedModal)
        && (refetch.RefetchThrown? ==> bookings == old(bookings) && modal == NetworkModal)
      ensures DraftError(old(form)).None? && reply.NotOk? ==>
        form == old(form) && bookings == old(bookings) && modal == ErrorModal(FailureContent(reply.body))
      ensures DraftError(old(form)).None? && reply.Thrown? ==>
        form == old(form) && bookings == old(bookings) && modal == NetworkModal
    {
      submitting := true;
      if IsBlank(form.attendeeName) || IsBlank(form.attendeeEmail) || form.slot == "" {
        modal := ErrorModal(Says(FillInEverything));
        submitting := false;
        return None;
      }
      if !MatchesStrictEmail(form.attendeeEmail) {
        modal := ErrorModal(Says(EnterValidEmail));
        submitting := false;
        return None;
      }
      var payload := Payload(event.id, form, now);
      sent := Some(payload);
      match reply {
        case Ok(_) =>
          modal := BookedModal;
          form := EmptyDraft;
          match refetch {
            case Refetched(updated) =>
              bookings := updated;
            case RefetchThrown =>
              modal := NetworkModal;
          }
        case NotOk(body) =>
          modal := ErrorModal(FailureContent(body));
        case Thrown(_) =>
          modal := NetworkModal;
      }
      submitting := false;
    }
  }
}
