# Booking app: admission rules, tables and form state, in Dafny

The system is a small booking application. A FastAPI backend keeps two
tables, `events` and `bookings`, and serves CRUD routes plus one guarded
route that books a slot of an event. A React front-end shows an event's
slots with their remaining capacity and books them, and has forms to
create events, to book by hand, to list and delete bookings and to look up
the bookings made under an e-mail address.

This project models:

- the two tables and the CRUD functions of `backend/app/crud.py`, as a
  `Crud.Database` class whose methods change its `events` and `bookings`
  sequences, with pure query functions (filter, count, offset/limit) beside
  it (`tables.dfy`, `records.dfy`, `crud.dfy`);
- the handlers of `backend/app/main.py` (`api.dfy`): both registrations of
  the booking route, their checks as a pure admission decision, the
  capacity invariant they keep, the unchecked `POST /bookings/` and
  `PUT /bookings/{id}/` that break it, and the 404 mapping of the
  read/update/delete routes;
- the event page (`event_details.dfy`): the per-slot counting loop, what the
  counts add up to, the slot options, the time-zone menu, and the booking
  submit handler as a state machine over `form`, `bookings`, `submitting`
  and `modal`;
- the other components as classes over their React state
  (`create_event_form.dfy`, `booking_form.dfy`, `my_bookings.dfy`,
  `booking_list.dfy`, `event_form.dfy`), with their validators (both a
  first-failure chain, `validation.dfy`), the e-mail
  patterns (`text.dfy`), `parseInt`, and the error-message formatting.

Network replies are inputs: each handler that awaits a request takes a
`Fetch.Reply` (`Ok`, `NotOk` with the parsed error body, or `Thrown` with
the exception's message) and, where a second request follows, its outcome
too. The server clock is a `now` parameter, `Date.parse` is a predicate
parameter `parsesAsDate`, the browser's time zone is a parameter, and
`window.confirm` is a `confirmed` flag.

On the event page (`frontend/src/components/EventDetails.js`) every
outcome of a submission is shown in a modal; a thrown request shows the
fixed text "A network error occurred. Please try again."; and
`handleSubmit` does not itself refuse a second submission while one is in
flight, since only the rendered button is disabled while `submitting`
holds.

## Model

| member | source | states |
|---|---|---|
| `Tables.Where` | backend/app/crud.py:39 | a SQL `where`: every result row is a table row satisfying the condition, every satisfying row is kept, none added |
| `Tables.Page` | backend/app/crud.py:12-14 | `offset(skip).limit(limit)`: the rows from position `skip`, in order, `min(limit, n - skip)` of them and none past the end; get_events and get_bookings (crud.py:32-34) are this page of their table |
| `Tables.CountIsNumberOfMatches` | backend/app/crud.py:27-28 | the filter's length is the number of positions whose row satisfies the condition |
| `Tables.IndexWhere` | backend/app/crud.py:44-45 | the first position satisfying the condition, or none exactly when no row does |
| `Tables.CountAllIff` | frontend/src/components/EventDetails.js:40-42 | the count of matches equals the length exactly when every entry matches |
| `Tables.CountMonotone` | backend/app/crud.py:24-30 | appending rows never lowers a count |
| `Tables.RemoveAt` | frontend/src/components/CreateEventForm.js:44 | dropping index `k` keeps the entries before it and shifts the ones after it down by one; an index past the end changes nothing |
| `Text.TrimStart` | frontend/src/components/CreateEventForm.js:23 | the suffix left after the leading white space: what it dropped is all white space and it does not start with white space |
| `Text.TrimEnd` | frontend/src/components/CreateEventForm.js:49 | the prefix left before the trailing white space, with the same two properties at the end |
| `Text.TrimEmptyIffBlank` | frontend/src/components/EventDetails.js:53 | `s.trim()` is empty exactly when every character of `s` is white space |
| `Text.JoinAvoids` | frontend/src/components/CreateEventForm.js:85-86 | a character occurring in no part and not in the separator does not occur in the joined text |
| `Text.SplitJoin` | frontend/src/components/CreateEventForm.js:84-86 | splitting the joined text at a separator no part contains gives back the parts |
| `Text.StrictEmailIffShape` | frontend/src/components/EventDetails.js:63 | the anchored pattern matches exactly the strings without white space with a single "@", not first, and a "." after it with text on both sides |
| `Text.StrictImpliesLoose` | frontend/src/components/BookingForm.js:28 | every string the anchored pattern accepts, the unanchored one accepts |
| `Text.LooseDoesNotImplyStrict` | frontend/src/components/BookingForm.js:28 | "a b@c.d" is accepted by the unanchored pattern and refused by the anchored one |
| `Text.StrictEmailNotBlank` | frontend/src/components/EventDetails.js:53-63 | an address the anchored pattern accepts is never blank, so the blank check never hides the pattern check's verdict |
| `Text.PaddedEmailIsRejected` | frontend/src/components/EventDetails.js:53-63 | " a@b.c" passes the trimmed blank check and is refused by the pattern, which sees the untrimmed value |
| `Fetch.OrElse` | frontend/src/components/BookingList.js:26 | an error text falls back to the fixed message exactly when it is empty, and is kept as it is otherwise |
| `Crud.GetEvent` | backend/app/crud.py:43-45 | the event row with that key, or none exactly when no row has it |
| `Crud.CountBookingsForSlot` | backend/app/crud.py:24-30 | the number of rows whose event and slot are the ones asked for |
| `Crud.CountAfterInsert` | backend/app/crud.py:24-30 | one new row raises the count of its own (event, slot) by one and leaves every other count alone |
| `Crud.GetBookingsForEvent` | backend/app/crud.py:36-41 | only rows of that event, at most `limit`, exactly `min(limit, matches - skip)` of them; with no skip and few enough matches, every row of the event |
| `Crud.GetBookingsByEmail` | backend/app/crud.py:101-105 | only rows with that e-mail, at most `limit`, exactly `min(limit, matches - skip)` of them; with no skip and few enough matches, every such row |
| `Crud.GetBookingByEmailSlot` | backend/app/crud.py:89-98 | an error exactly when two or more rows match (event, slot, e-mail), none exactly when no row matches, otherwise a matching row |
| `Crud.Database.constructor` | backend/app/models.py:5-25 | empty tables, with unique keys below the next key to hand out |
| `Crud.Database.CreateEvent` | backend/app/crud.py:5-10 | appends one row built from the payload under a key no row had, changes nothing else, keeps the keys unique |
| `Crud.Database.CreateBooking` | backend/app/crud.py:17-22 | appends one row built from the payload under a key no row had, changes nothing else, keeps the keys unique |
| `Crud.Database.DeleteEvent` | backend/app/crud.py:47-54 | none and no change exactly when the key is absent; otherwise returns that row, which alone leaves the table; the bookings stay |
| `Crud.Database.UpdateEvent` | backend/app/crud.py:56-65 | none and no change exactly when the key is absent; otherwise that row, at its place, takes every field of the payload and keeps its key |
| `Crud.Database.DeleteBooking` | backend/app/crud.py:67-74 | none and no change exactly when the key is absent; otherwise the table loses exactly that row, the rest in order |
| `Crud.Database.UpdateBooking` | backend/app/crud.py:76-85 | none and no change exactly when the key is absent; otherwise that row, at its place, takes every field of the payload and keeps its key |
| `Api.ReadEvent` | backend/app/main.py:34-39 | 404 "Event not found" exactly when no event has the id, else that event |
| `Api.ReadBookingsForEvent` | backend/app/main.py:50-54 | the event's bookings with the default page: only rows of the event, `min(10, matches)` of them, and every one of them when there are at most 10 |
| `Api.ReadBookingsByEmail` | backend/app/main.py:165-172 | the attendee's bookings with the default page: only rows with that e-mail, `min(20, matches)` of them, and every one of them when there are at most 20 |
| `Api.AdmitBooking` | backend/app/main.py:63-75 | 404 exactly when the event is missing; 400 "Slot not valid" only for a slot the event lacks; 400 "Slot already fully booked" only when the count has reached `max_bookings`; admitted only for a listed slot with room; no other outcome |
| `Api.AdmitBookingNoDuplicate` | backend/app/main.py:131-148 | 404 exactly when the event is missing; 400 "Slot not valid" exactly for a slot the event lacks, whatever bookings exist (the slot check runs first); with a listed slot, a 500 whenever two or more bookings of that slot by that e-mail make the `scalar_one_or_none` look-up raise, and "You have already booked this slot." whenever exactly one exists, whatever the slot's count (the look-up runs before the capacity check); "Slot already fully booked" only with no such booking and the count at `max_bookings`; admitted only for a listed slot with room and no such booking; no other outcome |
| `Api.NoDuplicateAdmitsIff` | backend/app/main.py:141-148 | the second handler admits exactly what the first admits minus the repeat bookings, so a subset of it |
| `Api.AcceptedBooking` | backend/app/main.py:78-87 | the new row takes the event from the path, the time from the server clock, and name, e-mail and slot from the body |
| `Api.AdmissionKeepsCapacity` | backend/app/main.py:73-87 | when every slot is within capacity, adding an admitted booking keeps every slot within capacity |
| `Api.BookSlotForEvent` | backend/app/main.py:57-88 | on refusal raises that error and changes nothing; on admission appends exactly the accepted row and returns it; keeps keys unique and every slot within capacity |
| `Api.BookSlotForEventNoDuplicate` | backend/app/main.py:125-161 | the same for the second handler, which also keeps "no e-mail books a slot twice" |
| `Api.NoDuplicateAdmissionKeepsUnique` | backend/app/main.py:140-160 | a booking the second handler admits never creates a double booking |
| `Api.ServedRouteAdmitsDoubleBooking` | backend/app/main.py:57-88 | the served handler admits a second booking of the same slot by the same e-mail, which the second handler refuses |
| `Api.ServedBookingsStayWithinCapacity` | backend/app/main.py:73-87 | when bookings arrive only through the served route, one after the other, no slot ever exceeds its event's `max_bookings` |
| `Api.CreateBooking` | backend/app/main.py:42-44 | appends the body as a row with no check at all |
| `Api.UncheckedCreateExceedsCapacity` | backend/app/main.py:42-44 | a slot of capacity one holding one booking gets a second through this route, which the booking route refuses as full |
| `Api.UncheckedUpdateExceedsCapacity` | backend/app/main.py:109-114 | moving a booking into a full slot by update puts that slot over capacity |
| `Api.UpdateEvent` | backend/app/main.py:93-98 | 404 "Event not found" exactly when the key is absent, with no change; otherwise the updated row |
| `Api.DeleteEvent` | backend/app/main.py:101-106 | 404 "Event not found" exactly when the key is absent, with no change; otherwise the deleted row |
| `Api.UpdateBooking` | backend/app/main.py:109-114 | 404 "Booking not found" exactly when the key is absent, with no change; otherwise the updated row |
| `Api.DeleteBooking` | backend/app/main.py:117-122 | 404 "Booking not found" exactly when the key is absent, with no change; otherwise the deleted row |
| `EventDetails.Occupancy` | frontend/src/components/EventDetails.js:37-42 | the keys are exactly the event's slots |
| `EventDetails.OccupancyCountsBookings` | frontend/src/components/EventDetails.js:40-42 | the value under each slot is the number of booking positions whose slot is that one |
| `EventDetails.CountSlots` | frontend/src/components/EventDetails.js:37-42 | after both loops the dictionary has one key per distinct slot, each holding the number of bookings for that slot; other bookings count nowhere |
| `EventDetails.FirstOccurrences` | frontend/src/components/EventDetails.js:137-138 | the same values as the input, none twice, starting with the input's first value |
| `EventDetails.FirstOccurrencesInOrder` | frontend/src/components/EventDetails.js:137-138 | the kept values are in the order of their first appearances |
| `EventDetails.TimezoneOptionsShape` | frontend/src/components/EventDetails.js:137-138 | the menu starts with the browser's zone, holds it and the seven common zones and nothing else, each once |
| `EventDetails.SumIsBooked` | frontend/src/components/EventDetails.js:37-42 | summing the dictionary over listed keys is summing the per-slot counts |
| `EventDetails.BookedIsListed` | frontend/src/components/EventDetails.js:40-42 | over distinct keys, the per-slot counts add up to the number of bookings whose slot is listed |
| `EventDetails.TotalCountedIsListedBookings` | frontend/src/components/EventDetails.js:40-42 | the dictionary's values add up to the number of bookings whose slot is one of the event's |
| `EventDetails.TotalCountedBound` | frontend/src/components/EventDetails.js:40-42 | that sum is at most the number of bookings, and equal to it exactly when every booking's slot is listed |
| `EventDetails.OptionFor` | frontend/src/components/EventDetails.js:185-190 | disabled exactly when the count has reached `max_bookings`, and then "Fully booked"; otherwise `max_bookings - count` available, which is at least 1 |
| `EventDetails.SlotOptions` | frontend/src/components/EventDetails.js:181-193 | one option per slot of the event, in order, each built from that slot's count |
| `EventDetails.FullStaysFull` | frontend/src/components/EventDetails.js:185 | more bookings never make a disabled slot selectable again |
| `EventDetails.SlotCountOfEventRows` | backend/app/crud.py:24-30 | counting a slot among an event's rows equals the server's (event, slot) count over the whole table |
| `EventDetails.AllBookingsForEvent` | backend/app/crud.py:36-41 | with a limit as large as the table, the list holds exactly the event's rows |
| `EventDetails.CompleteListMatchesServer` | frontend/src/components/EventDetails.js:185-190 | counted from all the event's bookings, an option is enabled exactly when the booking route would admit that slot |
| `EventDetails.DefaultPageUndercounts` | frontend/src/components/EventDetails.js:97-100 | eleven bookings of a slot of capacity eleven show as "1 available" from the default page while the booking route refuses the slot as full |
| `EventDetails.WithField` | frontend/src/components/EventDetails.js:44-46 | the named field takes the value, the other two keep theirs |
| `EventDetails.DraftError` | frontend/src/components/EventDetails.js:53-71 | "Please fill in all the fields and select a slot." exactly when the trimmed name or trimmed e-mail is blank or no slot is chosen; "Please enter a valid email address." exactly when those are all filled and the untrimmed e-mail fails the anchored pattern, so the fill-in check takes precedence; no other message |
| `EventDetails.DraftAcceptedIff` | frontend/src/components/EventDetails.js:53-71 | a draft passes exactly when the name is not blank, a slot is chosen and the e-mail matches the anchored pattern |
| `EventDetails.SlotNotCheckedOnClient` | frontend/src/components/EventDetails.js:53-71 | a slot the event lacks passes the client checks and is refused by the server with "Slot not valid" |
| `EventDetails.Payload` | frontend/src/components/EventDetails.js:73-79 | the posted body carries the event's id, the three fields as typed and the client's time |
| `EventDetails.FailureContent` | frontend/src/components/EventDetails.js:102-106 | the body's `detail` when present (text or error list), "Booking failed. Please try again." otherwise, also for a body that is not JSON |
| `EventDetails.EventDetailsView.constructor` | frontend/src/components/EventDetails.js:8-17 | the loaded event and bookings, an empty form, nothing submitting, no modal |
| `EventDetails.EventDetailsView.HandleChange` | frontend/src/components/EventDetails.js:44-46 | only the named form field changes |
| `EventDetails.EventDetailsView.HandleSubmit` | frontend/src/components/EventDetails.js:48-121 | a refused draft shows its message, posts nothing, keeps form and bookings; OK empties the form and replaces the bookings by the refetched list (network modal if the refetch throws); non-OK shows the error content and keeps both; thrown shows the network modal and keeps both; `submitting` ends false |
| `CreateEventForm.LeadingDigits` | frontend/src/components/CreateEventForm.js:23 | the longest prefix made of decimal digits |
| `CreateEventForm.ShowNat` | frontend/src/components/CreateEventForm.js:23 | a natural number's decimal text is a non-empty run of digits |
| `CreateEventForm.DigitsValueOfShowNat` | frontend/src/components/CreateEventForm.js:23 | reading back a number's decimal text gives the number |
| `CreateEventForm.ParseShowNat` | frontend/src/components/CreateEventForm.js:23 | `parseInt` of what a number input shows gives that number back |
| `CreateEventForm.ParseSignedShowNat` | frontend/src/components/CreateEventForm.js:23 | the same with a leading "+" or "-", the sign applied |
| `CreateEventForm.NaNFromNonNumeric` | frontend/src/components/CreateEventForm.js:23 | "", "abc" and "-" parse to NaN, and NaN is not below 1 |
| `Validation.FirstFailure` | frontend/src/components/CreateEventForm.js:48-62 | the message of the first failing check (every earlier check passing), "" exactly when no check fails, and otherwise always some failing check's message; the shape of both `validate()` functions (also BookingForm.js:25-31) |
| `CreateEventForm.ValidateIsFirstFailure` | frontend/src/components/CreateEventForm.js:48-62 | the early-return chain answers the message of the first failing check, in the order title, description, start, end, organizer, slots present and non-blank, capacity, slot dates, start date, end date |
| `CreateEventForm.ValidateAcceptsIff` | frontend/src/components/CreateEventForm.js:48-62 | the form passes exactly when every check passes |
| `CreateEventForm.MissingSlotReported` | frontend/src/components/CreateEventForm.js:54-55 | with the text fields filled, no slot or a blank slot is reported as "At least one valid slot is required" |
| `CreateEventForm.NaNCapacityPasses` | frontend/src/components/CreateEventForm.js:56 | a capacity that is not a number is never reported as below 1 |
| `CreateEventForm.ErrorLines` | frontend/src/components/CreateEventForm.js:84-86 | one line per validation error, in order, each its location joined with "." then ": " and the message |
| `CreateEventForm.ShownError` | frontend/src/components/CreateEventForm.js:102 | the shown error is never empty |
| `CreateEventForm.ErrorLinesRecoverable` | frontend/src/components/CreateEventForm.js:83-87 | with no line break inside, splitting the message at "\n" gives back one line per error |
| `CreateEventForm.LocationRecoverable` | frontend/src/components/CreateEventForm.js:85 | a location whose parts hold no "." splits back into its parts |
| `CreateEventForm.EmptyErrorListFallsBack` | frontend/src/components/CreateEventForm.js:83-102 | an empty error list gives an empty message, so "Error creating event" is shown |
| `CreateEventForm.WithField` | frontend/src/components/CreateEventForm.js:19-27 | the named field takes the value (the capacity its `parseInt`), the slots and other fields keep theirs |
| `CreateEventForm.CreateEventFormView.constructor` | frontend/src/components/CreateEventForm.js:6-17 | the initial form with one empty slot and capacity 1, no messages, not loading |
| `CreateEventForm.CreateEventFormView.HandleChange` | frontend/src/components/CreateEventForm.js:19-27 | only the named field changes; both messages are cleared |
| `CreateEventForm.CreateEventFormView.HandleSlotChange` | frontend/src/components/CreateEventForm.js:29-35 | only slot `idx` takes the value, same length, other fields unchanged, messages cleared |
| `CreateEventForm.CreateEventFormView.AddSlot` | frontend/src/components/CreateEventForm.js:37-39 | one empty slot appended, nothing else changes |
| `CreateEventForm.CreateEventFormView.RemoveSlot` | frontend/src/components/CreateEventForm.js:41-46 | exactly slot `idx` removed, the rest in order; when the Remove buttons are shown, at least one slot remains |
| `CreateEventForm.CreateEventFormView.HandleSubmit` | frontend/src/components/CreateEventForm.js:64-106 | a failing validation shows its message and posts nothing; OK shows success and resets the form; non-OK shows the formatted detail; thrown shows its message; `loading` ends false whenever a request was made |
| `BookingForm.WithField` | frontend/src/components/BookingForm.js:18-22 | the named field takes the value, the other three keep theirs |
| `BookingForm.Validate` | frontend/src/components/BookingForm.js:25-31 | "Event ID is required" for an empty event id; otherwise "Name is required" for an empty name; otherwise "Valid email required" for an e-mail without an a@b.c; otherwise "Time is required" for an empty time |
| `BookingForm.ValidateIsFirstFailure` | frontend/src/components/BookingForm.js:25-31 | the early-return chain answers the message of the first failing check, in the order event id, name, e-mail, time |
| `BookingForm.ValidateAcceptsIff` | frontend/src/components/BookingForm.js:25-31 | the form passes exactly when event id, name and time are non-empty and the e-mail contains an a@b.c |
| `BookingForm.UntrimmedFieldsPass` | frontend/src/components/BookingForm.js:25-31 | a name of one space and "x a@b.c" pass, both of which the event page refuses |
| `BookingForm.AnchoredEmailPasses` | frontend/src/components/BookingForm.js:28 | an e-mail the event page accepts, this form accepts |
| `BookingForm.ShownError` | frontend/src/components/BookingForm.js:56 | the shown error is never empty |
| `BookingForm.ListDetailShowsOnlyCount` | frontend/src/components/BookingForm.js:51 | a list `detail` shows as one "[object Object]" per entry |
| `BookingForm.Cleared` | frontend/src/components/BookingForm.js:54 | the event id stays, name, e-mail and time are emptied |
| `BookingForm.ClearedFormNeedsName` | frontend/src/components/BookingForm.js:53-54 | a second submit right after a success stops at the name (or the event id when that is empty) |
| `BookingForm.BookingFormView.constructor` | frontend/src/components/BookingForm.js:6-15 | the given event id, other fields empty, no messages, not loading |
| `BookingForm.BookingFormView.HandleChange` | frontend/src/components/BookingForm.js:18-22 | only the named field changes; both messages are cleared |
| `BookingForm.BookingFormView.HandleSubmit` | frontend/src/components/BookingForm.js:33-60 | a failing validation shows its message, posts nothing and keeps the form; OK shows success and clears all but the event id; a failure shows its message and keeps the form; `loading` ends false whenever a request was made |
| `MyBookings.MyBookingsView.constructor` | frontend/src/pages/MyBookings.js:5-10 | empty address, no bookings, no error, not loading |
| `MyBookings.MyBookingsView.SetEmail` | frontend/src/pages/MyBookings.js:46 | only the address changes |
| `MyBookings.MyBookingsView.HandleSubmit` | frontend/src/pages/MyBookings.js:12-36 | an address the anchored pattern refuses shows the error, queries nothing and leaves `loading`; otherwise OK sets the bookings and the submitted address, a failure keeps no bookings and the old submitted address with its message; `loading` ends false after a request |
| `BookingList.WithoutId` | frontend/src/components/BookingList.js:39 | the entries without that id, and only those |
| `BookingList.WithoutUniqueIdIsRemoveAt` | frontend/src/components/BookingList.js:39 | with unique ids, filtering out an entry's id removes exactly that entry, the rest in order |
| `BookingList.WithoutAbsentId` | frontend/src/components/BookingList.js:39 | filtering out an id no entry has keeps the list as it is |
| `BookingList.BookingListView.constructor` | frontend/src/components/BookingList.js:6-9 | no bookings, loading, no error, nothing being deleted; the loading screen shows |
| `BookingList.BookingListView.Screen` | frontend/src/components/BookingList.js:47-49 | loading first, then the error, then the empty list, then the list |
| `BookingList.BookingListView.FetchBookings` | frontend/src/components/BookingList.js:17-30 | OK replaces the list and clears the error; otherwise the list stays and the error is set; the error screen shows exactly when the fetch failed; `loading` ends false |
| `BookingList.BookingListView.HandleDelete` | frontend/src/components/BookingList.js:33-45 | declined: nothing changes; confirmed: `deleting` holds the id during the request and is cleared after; OK filters the id out; a failure keeps the list and sets the error |
| `EventForm.WithField` | frontend/src/components/EventForm.js:12-14 | the named field takes the value, the other four keep theirs |
| `EventForm.DescriptionOptional` | frontend/src/components/EventForm.js:18 | whether the form passes does not depend on the description |
| `EventForm.ResetFormIsIncomplete` | frontend/src/components/EventForm.js:23-29 | the form after a hand-over would be refused |
| `EventForm.EventFormView.constructor` | frontend/src/components/EventForm.js:4-10 | all five fields empty |
| `EventForm.EventFormView.HandleChange` | frontend/src/components/EventForm.js:12-14 | only the named field changes |
| `EventForm.EventFormView.HandleSubmit` | frontend/src/components/EventForm.js:16-30 | with title, start, end and organizer non-empty, hands over the current form and resets it; otherwise alerts "Please fill all required fields.", hands over nothing and keeps the form |

## Left out

- Network, JSON, CORS and URL building: every request's outcome is an input `Reply`. A successful response whose body is not JSON is folded into `Thrown` only in the components that parse it: `MyBookings` (MyBookings.js:26), `BookingList`'s fetch (BookingList.js:23) and the event page's refetch (EventDetails.js:99). Where a success body is never read (the event page's POST, `BookingForm`, `CreateEventForm` and `BookingList`'s delete), such a response is an `Ok` like any other.
- Concurrency: the backend's async sessions and the non-atomic count-then-insert of the booking route; the capacity invariant is stated for requests served one after the other only. On the front-end, interleavings at `await` points and stale closures (e.g. `bookings` captured by `handleDelete`) are not modelled.
- Clocks and dates: `datetime.utcnow()` and `new Date().toISOString()` are a `now` parameter, `Date.parse` is the predicate `parsesAsDate`, and timestamps are opaque strings.
- Time-zone formatting (`frontend/src/utils/timezone.js`): the browser's zone is a parameter and slot labels carry no formatted time; the MyBookings time-zone menu is not modelled.
- Presentation and routing: JSX, the Modal, NavBar, App, HomePage, EventList, EventsPage, styles, and `frontend/src/api/calendlyApi.js`.
- The mount effects that load an event and its bookings (EventDetails.js:19-32) and the first `fetchBookings` call of BookingList: the classes start from the loaded state; the "Loading..." and "Event data invalid" screens are not modelled.
- `POST /events/`, `GET /events/` and `GET /bookings/` are pass-throughs to `Crud.Database.CreateEvent` and to `Tables.Page` over the events and bookings tables, which are modelled; negative `skip`/`limit` are not (they are `nat`).
- `Crud.GetBookingsForEvent`: which matching rows a page with `skip` returns, and their order, is not stated, because the SQL query has no ORDER BY and so promises no order; the model keeps table order by construction. `Crud.GetBookingsByEmail` likewise.
- `Crud.Database.DeleteEvent`: the foreign key from bookings to events is not enforced; the event's bookings stay, as the code leaves them.
- `update_*` assign the payload field by field with `setattr`; the model replaces the row by key plus payload, which has the same result.
- pydantic's `EmailStr` and the declarations of `backend/app/schemas.py`; `backend/seed.py`, `backend/create_tables.py` and `backend/app/database.py` (I/O).
- `EventDetails.EventDetailsView.HandleSubmit`: a refetch answered with a non-OK response stores that response's body as the bookings list in the code; the model only has a list or a thrown refetch. An error-list `detail` is kept as a list in the modal; how React renders it is not modelled.
- Validation-error locations are strings; FastAPI's numeric location parts and a missing `loc` ("undefined") are not modelled, and any other JSON shape of `detail` is not either.
- `parseInt` on the capacity input: `-0` is taken as 0; non-decimal inputs such as "0x1A" parse as their leading decimal digits, as in base 10.
- `CreateEventForm.CreateEventFormView.HandleSlotChange` requires an index inside the list: the UI only passes indices of rendered inputs.
- `BookingForm.BookingFormView.constructor` takes the event id as text; a numeric prop is not modelled.
- JavaScript object prototype keys in `slotCounts` (a slot named "constructor") are not modelled: the dictionary is a map with exactly the event's slots as keys.

## Findings

| source | as written | input that shows it | evidently intended | confidence | as-written member | corrected member |
|---|---|---|---|---|---|---|
| backend/app/main.py:125-161 | the second registration of `POST /events/{event_id}/bookings`, the one with the duplicate check, is never reached: the first registration at main.py:57 serves the path | event 1 with slot S and capacity 2 holding one booking of S by ann@example.com; the same request again is admitted, giving two bookings of S by the same e-mail | refuse it with 400 "You have already booked this slot." | medium, not executed | `Api.ServedRouteAdmitsDoubleBooking` | `Api.BookSlotForEventNoDuplicate` |
| frontend/src/components/EventDetails.js:97-100 | after booking, the page refetches the event's bookings with the route's default page of 10 (main.py:50-54, crud.py:36-41) and counts occupancy from that page | one slot of capacity 11 with 11 bookings: the page counts 10 and offers "1 available", the booking route refuses "Slot already fully booked" | count every booking of the event | high, not executed | `EventDetails.DefaultPageUndercounts` | `EventDetails.CompleteListMatchesServer` |
