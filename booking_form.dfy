// The stand-alone booking form: field updates, its validation (no trimming,
// the unanchored e-mail pattern) and its submit handler, which clears the
// form on success but keeps the event id.
module BookingForm {
  import opened Wrappers
  import opened Text
  import opened Records
  import opened Fetch
  import opened Validation

  datatype BookingFormDraft = BookingFormDraft(eventId: string, name: string, email: string, time: string)

  datatype FormField = EventId | Name | Email | Time

  /** `{ ...form, [e.target.name]: e.target.value }`. */
  function WithField(f: BookingFormDraft, field: FormField, value: string): (r: BookingFormDraft)
    ensures field == EventId ==> r == f.(eventId := value)
    ensures field == Name ==> r == f.(name := value)
    ensures field == Email ==> r == f.(email := value)
    ensures field == Time ==> r == f.(time := value)
  {
    match field
    case EventId => f.(eventId := value)
    case Name => f.(name := value)
    case Email => f.(email := value)
    case Time => f.(time := value)
  }

  const EventIdRequired := "Event ID is required"
  const NameRequired := "Name is required"
  const ValidEmailRequired := "Valid email required"
  const TimeRequired := "Time is required"

  /** `validate()`: the first failing check's message, "" when all pass. A
      field fails only when it is the empty string. */
  function Validate(f: BookingFormDraft): (r: string)
    ensures f.eventId == "" ==> r == EventIdRequired
    ensures f.eventId != "" && f.name == "" ==> r == NameRequired
    ensures f.eventId != "" && f.name != "" && !MatchesLooseEmail(f.email) ==> r == ValidEmailRequired
    ensures f.eventId != "" && f.name != "" && MatchesLooseEmail(f.email) && f.time == "" ==> r == TimeRequired
  {
    if f.eventId == "" then EventIdRequired
    else if f.name == "" then NameRequired
    else if f.email == "" || !MatchesLooseEmail(f.email) then ValidEmailRequired
    else if f.time == "" then TimeRequired
    else ""
  }

  /** The checks of `validate()` in the order it runs them. */
  function Checks(f: BookingFormDraft): seq<Check>
  {
    [ Check(f.eventId == "", EventIdRequired),
      Check(f.name == "", NameRequired),
      Check(f.email == "" || !MatchesLooseEmail(f.email), ValidEmailRequired),
      Check(f.time == "", TimeRequired) ]
  }

  /** The early-return chain is "first failure" over the ordered checks. */
  lemma ValidateIsFirstFailure(f: BookingFormDraft)
    ensures Validate(f) == FirstFailure(Checks(f))
  {
    var c := Checks(f);
    assert FirstFailure(c[4..]) == "";
    assert c[3..][1..] == c[4..];
    assert FirstFailure(c[3..]) == if c[3].failed then c[3].message else FirstFailure(c[4..]);
    assert c[2..][1..] == c[3..];
    assert FirstFailure(c[2..]) == if c[2].failed then c[2].message else FirstFailure(c[3..]);
    assert c[1..][1..] == c[2..];
    assert FirstFailure(c[1..]) == if c[1].failed then c[1].message else FirstFailure(c[2..]);
  }

  /** The form passes exactly when event id, name and time are non-empty and
      the e-mail contains something of the form a@b.c. */
  lemma ValidateAcceptsIff(f: BookingFormDraft)
    ensures Validate(f) == "" <==>
      f.eventId != "" && f.name != "" && f.time != "" && MatchesLooseEmail(f.email)
  {
  }

  /** Nothing is trimmed: a name of one space and an e-mail with text around
      the address pass, where the event page would refuse both. */
  lemma UntrimmedFieldsPass()
    ensures Validate(BookingFormDraft("1", " ", "x a@b.c", "10:00")) == ""
    ensures IsBlank(" ") && !MatchesStrictEmail("x a@b.c")
  {
    var e := "x a@b.c";
    assert e[2..3] == "a" && e[4..5] == "b" && e[6..7] == "c";
    assert LooseSplitAt(e, 2, 3, 5, 7);
    StrictEmailIffShape(e);
    assert IsSpace(e[1]);
  }

  /** Whatever the event page accepts as an e-mail, this form accepts too. */
  lemma AnchoredEmailPasses(f: BookingFormDraft)
    requires f.eventId != "" && f.name != "" && f.time != ""
    requires MatchesStrictEmail(f.email)
    ensures Validate(f) == ""
  {
    StrictImpliesLoose(f.email);
  }

  const BookingFailed := "Booking failed"
  const SubmitError := "Error submitting booking"
  const Booked := "Booking successful!"

  /** What `String(obj)` gives for each entry of a list `detail`. */
  const ObjectText := "[object Object]"

  /** The message of the Error thrown for a failed response:
      `new Error(detail?.detail || 'Booking failed')`. A list detail becomes
      its entries' string forms joined with ",". */
  function FailureMessage(body: Body): string
  {
    match body
    case Unparsable(parseError) => parseError
    case Parsed(detail) =>
      match detail
      case NoDetail => BookingFailed
      case DetailText(t) => OrElse(t, BookingFailed)
      case DetailList(errors) => Join(seq(|errors|, _ => ObjectText), ",")
  }

  /** `setError(err.message || 'Error submitting booking')`. */
  function ShownError(message: string): (r: string)
    ensures r != ""
  {
    OrElse(message, SubmitError)
  }

  /** A list detail shows one "[object Object]" per entry, which is all that
      can be read back from it. */
  lemma ListDetailShowsOnlyCount(errors: seq<FieldError>)
    requires |errors| >= 1
    ensures Split(FailureMessage(Parsed(DetailList(errors))), ',') == seq(|errors|, _ => ObjectText)
  {
    var parts := seq(|errors|, _ => ObjectText);
    forall p, k | p in parts && 0 <= k < |p| ensures p[k] != ',' {
      assert p == ObjectText;
    }
    SplitJoin(parts, ',');
  }

  /** The form after a successful submit: the event id stays, the rest is
      emptied. */
  function Cleared(f: BookingFormDraft): (r: BookingFormDraft)
    ensures r.eventId == f.eventId && r.name == "" && r.email == "" && r.time == ""
  {
    f.(name := "", email := "", time := "")
  }

  /** So a second submit right after a success stops at the name, unless the
      event id was empty to begin with. */
  lemma ClearedFormNeedsName(f: BookingFormDraft)
    ensures Validate(Cleared(f)) == if f.eventId == "" then EventIdRequired else NameRequired
  {
  }

  class BookingFormView {
    var form: BookingFormDraft
    var loading: bool
    var error: string
    var success: string

    /** `eventId || ''`: the event id given to the component, if any. */
    constructor (eventId: string)
      ensures form == BookingFormDraft(eventId, "", "", "")
      ensures !loading && error == "" && success == ""
    {
      form := BookingFormDraft(eventId, "", "", "");
      loading := false;
      error := "";
      success := "";
    }

    /** An input changed: that field takes the value; messages are cleared. */
    method HandleChange(field: FormField, value: string)
      modifies this
      ensures form == WithField(old(form), field, value)
      ensures error == "" && success == "" && loading == old(loading)
    {
      form := WithField(form, field, value);
      error := "";
      success := "";
    }

    /** The form was submitted; `reply` is what the POST brought back if one
        was made. Returns the form posted, if any. */
    method HandleSubmit(reply: Reply<Booking>) returns (sent: Option<BookingFormDraft>)
      modifies this
      ensures Validate(old(form)) != "" ==>
        sent == None && error == Validate(old(form)) && success == ""
        && form == old(form) && loading == old(loading)
      ensures Validate(old(form)) == "" ==> sent == Some(old(form)) && !loading
      ensures Validate(old(form)) == "" && reply.Ok? ==>
        success == Booked && error == "" && form == Cleared(old(form))
      ensures Validate(old(form)) == "" && reply.NotOk? ==>
        error == ShownError(FailureMessage(reply.body)) && success == "" && form == old(form)
      ensures Validate(old(form)) == "" && reply.Thrown? ==>
        error == ShownError(reply.message) && success == "" && form == old(form)
    {
      error := "";
      success := "";
      var validationError := Validate(form);
      if validationError != "" {
        error := validationError;
        return None;
      }
      loading := true;
      sent := Some(form);
      match reply {
        case Ok(_) =>
          success := Booked;
          form := form.(name := "", email := "", time := "");
        case NotOk(body) =>
          error := ShownError(FailureMessage(body));
        case Thrown(message) =>
          error := ShownError(message);
      }
      loading := false;
    }
  }
}
