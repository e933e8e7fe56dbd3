// The "Create Event" form: its field updates, the slot-list editor, the
// ordered validation, and the submit handler with its error formatting.
module CreateEventForm {
  import opened Wrappers
  import opened Tables
  import opened Text
  import opened Records
  import opened Fetch
  import opened Validation

  // ---------------------------------------------------------------------
  // parseInt(value, 10)

  /** A JavaScript number as `parseInt` can produce it. */
  datatype NumberValue = Int(n: int) | NaN

  predicate IsDigit(c: char) { '0' <= c <= '9' }

  /** The longest prefix of `s` made of decimal digits. */
  function LeadingDigits(s: string): (r: string)
    ensures |r| <= |s| && r == s[..|r|]
    ensures forall k :: 0 <= k < |r| ==> IsDigit(r[k])
    ensures |r| < |s| ==> !IsDigit(s[|r|])
    decreases |s|
  {
    if s != [] && IsDigit(s[0]) then [s[0]] + LeadingDigits(s[1..]) else ""
  }

  /** The value of a run of decimal digits, most significant first. */
  function DigitsValue(ds: string): nat
    decreases |ds|
  {
    if ds == [] then 0
    else 10 * DigitsValue(ds[..|ds| - 1]) + (if IsDigit(ds[|ds| - 1]) then ds[|ds| - 1] as int - '0' as int else 0)
  }

  /** `parseInt(s, 10)`: leading white space skipped, one optional sign, then
      as many digits as there are; no digit at all is NaN. */
  function ParseInt10(s: string): NumberValue
  {
    ParseSigned(TrimStart(s))
  }

  /** The same once the white space is gone. */
  function ParseSigned(t: string): NumberValue
  {
    var negative := t != [] && t[0] == '-';
    var unsigned := if t != [] && (t[0] == '-' || t[0] == '+') then t[1..] else t;
    var digits := LeadingDigits(unsigned);
    if digits == [] then NaN
    else Int(if negative then 0 - DigitsValue(digits) else DigitsValue(digits))
  }

  /** The decimal rendering of a natural number, as a number input holds it. */
  function ShowNat(n: nat): (r: string)
    ensures r != [] && AllDigits(r)
  {
    if n < 10 then [('0' as int + n) as char]
    else ShowNat(n / 10) + [('0' as int + n % 10) as char]
  }

  lemma {:induction false} DigitsValueOfShowNat(n: nat)
    ensures DigitsValue(ShowNat(n)) == n
  {
    if n >= 10 {
      var s := ShowNat(n);
      assert s[..|s| - 1] == ShowNat(n / 10);
      DigitsValueOfShowNat(n / 10);
    }
  }

  lemma TrimStartKeeps(s: string)
    requires s != [] && !IsSpace(s[0])
    ensures TrimStart(s) == s
  {
  }

  predicate AllDigits(s: string)
  {
    forall k :: 0 <= k < |s| ==> IsDigit(s[k])
  }

  lemma ParseUnsignedDigits(s: string)
    requires s != [] && AllDigits(s)
    ensures ParseInt10(s) == Int(DigitsValue(s))
  {
    assert LeadingDigits(s) == s;
    TrimStartKeeps(s);
  }

  lemma ParseSignedDigits(s: string, sign: char, v: nat)
    requires s != [] && AllDigits(s) && DigitsValue(s) == v
    requires sign == '-' || sign == '+'
    ensures ParseInt10([sign] + s) == Int(if sign == '-' then 0 - v else v)
  {
    var t := [sign] + s;
    assert t[1..] == s;
    assert LeadingDigits(s) == s;
    TrimStartKeeps(t);
  }

  /** What a number input shows parses back to that number... */
  lemma ParseShowNat(n: nat)
    ensures ParseInt10(ShowNat(n)) == Int(n)
  {
    DigitsValueOfShowNat(n);
    ParseUnsignedDigits(ShowNat(n));
  }

  /** ... also with a sign in front. */
  lemma ParseSignedShowNat(n: nat, sign: char)
    requires sign == '-' || sign == '+'
    ensures ParseInt10([sign] + ShowNat(n)) == Int(if sign == '-' then 0 - n else n)
  {
    DigitsValueOfShowNat(n);
    ParseSignedDigits(ShowNat(n), sign, n);
  }

  /** Text with no digit before anything else parses to NaN, and NaN is not
      below 1. */
  lemma NaNFromNonNumeric()
    ensures ParseInt10("") == NaN && ParseInt10("abc") == NaN && ParseInt10("-") == NaN
    ensures !LessThanOne(ParseInt10("abc"))
  {
    TrimStartKeeps("abc");
    TrimStartKeeps("-");
    assert LeadingDigits("abc") == "";
    assert "-"[1..] == "";
  }

  /** `value < 1` on a number: false for NaN. */
  predicate LessThanOne(v: NumberValue)
  {
    v.Int? && v.n < 1
  }

  // ---------------------------------------------------------------------
  // The form and its validation

  datatype EventDraft = EventDraft(
    title: string,
    description: string,
    startTime: string,
    endTime: string,
    organizer: string,
    slots: seq<string>,
    maxBookings: NumberValue)

  /** The form when the page opens and after a successful submit. */
  const InitialDraft := EventDraft("", "", "", "", "", [""], Int(1))

  const TitleRequired := "Title is required"
  const DescriptionRequired := "Description is required"
  const StartRequired := "Start time is required"
  const EndRequired := "End time is required"
  const OrganizerRequired := "Organizer is required"
  const SlotRequired := "At least one valid slot is required"
  const MaxBookingsTooSmall := "Max bookings must be at least 1"
  const SlotsNotDates := "Slots must be valid ISO8601 dates"
  const StartNotDate := "Start time must be valid ISO8601 date"
  const EndNotDate := "End time must be valid ISO8601 date"

  /** `slots.some(slot => !slot.trim())`. */
  predicate SomeBlank(slots: seq<string>)
  {
    exists k :: 0 <= k < |slots| && IsBlank(slots[k])
  }

  /** `slots.some(slot => isNaN(Date.parse(slot)))`, date parsing being the
      predicate `parsesAsDate`. */
  predicate SomeNotDate(slots: seq<string>, parsesAsDate: string -> bool)
  {
    exists k :: 0 <= k < |slots| && !parsesAsDate(slots[k])
  }

  /** `validate()`: the message of the first check that fails, "" when none
      does. */
  function Validate(f: EventDraft, parsesAsDate: string -> bool): string
  {
    if IsBlank(f.title) then TitleRequired
    else if IsBlank(f.description) then DescriptionRequired
    else if IsBlank(f.startTime) then StartRequired
    else if IsBlank(f.endTime) then EndRequired
    else if IsBlank(f.organizer) then OrganizerRequired
    else if |f.slots| == 0 || SomeBlank(f.slots) then SlotRequired
    else if LessThanOne(f.maxBookings) then MaxBookingsTooSmall
    else if SomeNotDate(f.slots, parsesAsDate) then SlotsNotDates
    else if !parsesAsDate(f.startTime) then StartNotDate
    else if !parsesAsDate(f.endTime) then EndNotDate
    else ""
  }

  /** The checks of `validate()` in the order it runs them. */
  function Checks(f: EventDraft, parsesAsDate: string -> bool): seq<Check>
  {
    [ Check(IsBlank(f.title), TitleRequired),
      Check(IsBlank(f.description), DescriptionRequired),
      Check(IsBlank(f.startTime), StartRequired),
      Check(IsBlank(f.endTime), EndRequired),
      Check(IsBlank(f.organizer), OrganizerRequired),
      Check(|f.slots| == 0 || SomeBlank(f.slots), SlotRequired),
      Check(LessThanOne(f.maxBookings), MaxBookingsTooSmall),
      Check(SomeNotDate(f.slots, parsesAsDate), SlotsNotDates),
      Check(!parsesAsDate(f.startTime), StartNotDate),
      Check(!parsesAsDate(f.endTime), EndNotDate) ]
  }

  /** The early-return chain is "first failure" over the ordered checks. */
  lemma ValidateIsFirstFailure(f: EventDraft, parsesAsDate: string -> bool)
    ensures Validate(f, parsesAsDate) == FirstFailure(Checks(f, parsesAsDate))
  {
    var c := Checks(f, parsesAsDate);
    assert FirstFailure(c[10..]) == "";
    assert c[9..][1..] == c[10..];
    assert FirstFailure(c[9..]) == if c[9].failed then c[9].message else FirstFailure(c[10..]);
    assert c[8..][1..] == c[9..];
    assert FirstFailure(c[8..]) == if c[8].failed then c[8].message else FirstFailure(c[9..]);
    assert c[7..][1..] == c[8..];
    assert FirstFailure(c[7..]) == if c[7].failed then c[7].message else FirstFailure(c[8..]);
    assert c[6..][1..] == c[7..];
    assert FirstFailure(c[6..]) == if c[6].failed then c[6].message else FirstFailure(c[7..]);
    assert c[5..][1..] == c[6..];
    assert FirstFailure(c[5..]) == if c[5].failed then c[5].message else FirstFailure(c[6..]);
    assert c[4..][1..] == c[5..];
    assert FirstFailure(c[4..]) == if c[4].failed then c[4].message else FirstFailure(c[5..]);
    assert c[3..][1..] == c[4..];
    assert FirstFailure(c[3..]) == if c[3].failed then c[3].message else FirstFailure(c[4..]);
    assert c[2..][1..] == c[3..];
    assert FirstFailure(c[2..]) == if c[2].failed then c[2].message else FirstFailure(c[3..]);
    assert c[1..][1..] == c[2..];
    assert FirstFailure(c[1..]) == if c[1].failed then c[1].message else FirstFailure(c[2..]);
    assert c[0..][1..] == c[1..];
    assert FirstFailure(c[0..]) == if c[0].failed then c[0].message else FirstFailure(c[1..]);
    assert c[0..] == c;
  }

  /** The form passes exactly when every check passes. */
  lemma ValidateAcceptsIff(f: EventDraft, parsesAsDate: string -> bool)
    ensures Validate(f, parsesAsDate) == "" <==>
      !IsBlank(f.title) && !IsBlank(f.description) && !IsBlank(f.startTime)
      && !IsBlank(f.endTime) && !IsBlank(f.organizer)
      && |f.slots| > 0 && (forall k :: 0 <= k < |f.slots| ==> !IsBlank(f.slots[k]))
      && !LessThanOne(f.maxBookings)
      && (forall k :: 0 <= k < |f.slots| ==> parsesAsDate(f.slots[k]))
      && parsesAsDate(f.startTime) && parsesAsDate(f.endTime)
  {
  }

  /** With the five text fields filled, an empty slot list or any blank slot
      is reported as the missing slot, whatever the later checks would say. */
  lemma MissingSlotReported(f: EventDraft, parsesAsDate: string -> bool, k: int)
    requires !IsBlank(f.title) && !IsBlank(f.description) && !IsBlank(f.startTime)
    requires !IsBlank(f.endTime) && !IsBlank(f.organizer)
    requires |f.slots| == 0 || (0 <= k < |f.slots| && IsBlank(f.slots[k]))
    ensures Validate(f, parsesAsDate) == SlotRequired
  {
  }

  /** A capacity that is not a number gets past the capacity check. */
  lemma NaNCapacityPasses(f: EventDraft, parsesAsDate: string -> bool)
    requires f.maxBookings == NaN
    ensures Validate(f, parsesAsDate) != MaxBookingsTooSmall
  {
  }

  // ---------------------------------------------------------------------
  // Error messages

  const CreateFailed := "Failed to create event"
  const CreateError := "Error creating event"
  const Created := "Event created successfully!"

  /** One validation error as a line: its location joined with "." and its
      message. */
  function ErrorLine(e: FieldError): string
  {
    Join(e.loc, ".") + ": " + e.msg
  }

  function ErrorLines(errors: seq<FieldError>): (r: seq<string>)
    ensures |r| == |errors| && forall k :: 0 <= k < |r| ==> r[k] == ErrorLine(errors[k])
  {
    seq(|errors|, k requires 0 <= k < |errors| => ErrorLine(errors[k]))
  }

  /** The message of the Error thrown for a failed response. */
  function FailureMessage(body: Body): string
  {
    match body
    case Unparsable(parseError) => parseError
    case Parsed(detail) =>
      match detail
      case DetailList(errors) => Join(ErrorLines(errors), "\n")
      case DetailText(t) => OrElse(t, CreateFailed)
      case NoDetail => CreateFailed
  }

  /** `setError(err.message || 'Error creating event')`. */
  function ShownError(message: string): (r: string)
    ensures r != ""
  {
    OrElse(message, CreateError)
  }

  predicate NoNewline(s: string)
  {
    forall k :: 0 <= k < |s| ==> s[k] != '\n'
  }

  /** When no location part and no message holds a line break, each line of
      the error text is exactly one validation error. */
  lemma ErrorLinesRecoverable(errors: seq<FieldError>)
    requires |errors| >= 1
    requires forall e :: e in errors ==> NoNewline(e.msg) && forall p :: p in e.loc ==> NoNewline(p)
    ensures Split(FailureMessage(Parsed(DetailList(errors))), '\n') == ErrorLines(errors)
  {
    var lines := ErrorLines(errors);
    forall p, k | p in lines && 0 <= k < |p| ensures p[k] != '\n' {
      var i :| 0 <= i < |lines| && lines[i] == p;
      var e := errors[i];
      assert e in errors;
      JoinAvoids(e.loc, ".", '\n');
      var loc := Join(e.loc, ".");
      assert p == loc + ": " + e.msg;
      if k >= |loc| + 2 {
        assert p[k] == e.msg[k - |loc| - 2];
      }
    }
    SplitJoin(lines, '\n');
  }

  /** ... and each location splits back into its parts at ".". */
  lemma LocationRecoverable(loc: seq<string>)
    requires |loc| >= 1
    requires forall p, k :: p in loc && 0 <= k < |p| ==> p[k] != '.'
    ensures Split(Join(loc, "."), '.') == loc
  {
    SplitJoin(loc, '.');
  }

  /** An empty error list gives an empty message, which the fallback
      replaces. */
  lemma EmptyErrorListFallsBack()
    ensures ShownError(FailureMessage(Parsed(DetailList([])))) == CreateError
  {
  }

  // ---------------------------------------------------------------------
  // The component

  datatype FormField = Title | Description | StartTime | EndTime | Organizer | MaxBookings

  /** `{ ...f, [name]: name === "max_bookings" ? parseInt(value, 10) : value }`. */
  function WithField(f: EventDraft, field: FormField, value: string): (r: EventDraft)
    ensures r.slots == f.slots
    ensures field == MaxBookings ==> r == f.(maxBookings := ParseInt10(value))
    ensures field == Title ==> r == f.(title := value)
    ensures field == Description ==> r == f.(description := value)
    ensures field == StartTime ==> r == f.(startTime := value)
    ensures field == EndTime ==> r == f.(endTime := value)
    ensures field == Organizer ==> r == f.(organizer := value)
  {
    match field
    case Title => f.(title := value)
    case Description => f.(description := value)
    case StartTime => f.(startTime := value)
    case EndTime => f.(endTime := value)
    case Organizer => f.(organizer := value)
    case MaxBookings => f.(maxBookings := ParseInt10(value))
  }

  class CreateEventFormView {
    var form: EventDraft
    var loading: bool
    var error: string
    var success: string

    constructor ()
      ensures form == InitialDraft && !loading && error == "" && success == ""
    {
      form := InitialDraft;
      loading := false;
      error := "";
      success := "";
    }

    /** The slot list has at least one row, so the form always shows one. */
    ghost predicate HasSlotRow()
      reads this
    {
      |form.slots| >= 1
    }

    /** The Remove buttons are rendered only beside a list of two or more. */
    function RemoveButtonsShown(): bool
      reads this
    {
      |form.slots| > 1
    }

    method HandleChange(field: FormField, value: string)
      modifies this
      ensures form == WithField(old(form), field, value)
      ensures error == "" && success == "" && loading == old(loading)
      ensures old(HasSlotRow()) ==> HasSlotRow()
    {
      form := WithField(form, field, value);
      error := "";
      success := "";
    }

    /** The slot input at `idx` changed: a copy of the list with that entry
        replaced becomes the list. */
    method HandleSlotChange(idx: nat, value: string)
      requires idx < |form.slots|
      modifies this
      ensures |form.slots| == |old(form.slots)| && form.slots[idx] == value
      ensures forall k :: 0 <= k < |form.slots| && k != idx ==> form.slots[k] == old(form.slots)[k]
      ensures form == old(form).(slots := form.slots)
      ensures error == "" && success == "" && loading == old(loading)
      ensures old(HasSlotRow()) ==> HasSlotRow()
    {
      var slots := form.slots;
      slots := slots[idx := value];
      form := form.(slots := slots);
      error := "";
      success := "";
    }

    /** "+ Add Slot": one more, empty, slot at the end. */
    method AddSlot()
      modifies this
      ensures form.slots == old(form.slots) + [""]
      ensures form == old(form).(slots := form.slots)
      ensures error == old(error) && success == old(success) && loading == old(loading)
      ensures HasSlotRow()
    {
      form := form.(slots := form.slots + [""]);
    }

    /** "Remove" beside slot `idx`: every other slot stays, in order. */
    method RemoveSlot(idx: nat)
      modifies this
      ensures form.slots == RemoveAt(old(form.slots), idx)
      ensures form == old(form).(slots := form.slots)
      ensures error == old(error) && success == old(success) && loading == old(loading)
      ensures old(RemoveButtonsShown()) ==> HasSlotRow()
    {
      form := form.(slots := RemoveAt(form.slots, idx));
    }

    /** The form was submitted; `reply` is what the POST brought back if one
        was made. Returns the form posted, if any. */
    method HandleSubmit(parsesAsDate: string -> bool, reply: Reply<Event>) returns (sent: Option<EventDraft>)
      modifies this
      ensures Validate(old(form), parsesAsDate) != "" ==>
        sent == None && error == Validate(old(form), parsesAsDate) && success == ""
        && form == old(form) && loading == old(loading)
      ensures Validate(old(form), parsesAsDate) == "" ==> sent == Some(old(form)) && !loading
      ensures Validate(old(form), parsesAsDate) == "" && reply.Ok? ==>
        success == Created && error == "" && form == InitialDraft
      ensures Validate(old(form), parsesAsDate) == "" && reply.NotOk? ==>
        error == ShownError(FailureMessage(reply.body)) && success == "" && form == old(form)
      ensures Validate(old(form), parsesAsDate) == "" && reply.Thrown? ==>
        error == ShownError(reply.message) && success == "" && form == old(form)
      ensures old(HasSlotRow()) ==> HasSlotRow()
    {
      error := "";
      success := "";
      var validation := Validate(form, parsesAsDate);
      if validation != "" {
        error := validation;
        return None;
      }
      loading := true;
      sent := Some(form);
      match reply {
        case Ok(_) =>
          success := Created;
          form := InitialDraft;
        case NotOk(body) =>
          error := ShownError(FailureMessage(body));
        case Thrown(message) =>
          error := ShownError(message);
      }
      loading := false;
    }
  }
}
