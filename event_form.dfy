// The small event form that hands a new event to its parent: a required-field
// guard, the hand-over, and a reset.
module EventForm {
  import opened Wrappers

  datatype EventFormDraft = EventFormDraft(
    title: string,
    description: string,
    startTime: string,
    endTime: string,
    organizer: string)

  const EmptyForm := EventFormDraft("", "", "", "", "")

  const FillRequired := "Please fill all required fields."

  datatype FormField = Title | Description | StartTime | EndTime | Organizer

  /** `{ ...form, [e.target.name]: e.target.value }`. */
  function WithField(f: EventFormDraft, field: FormField, value: string): (r: EventFormDraft)
    ensures field == Title ==> r == f.(title := value)
    ensures field == Description ==> r == f.(description := value)
    ensures field == StartTime ==> r == f.(startTime := value)
    ensures field == EndTime ==> r == f.(endTime := value)
    ensures field == Organizer ==> r == f.(organizer := value)
  {
    match field
    case Title => f.(title := value)
    case Description => f.(description := value)
    case StartTime => f.(startTime := value)
    case EndTime => f.(endTime := value)
    case Organizer => f.(organizer := value)
  }

  /** Title, start, end and organizer are non-empty (not trimmed); the
      description may be empty. */
  predicate Complete(f: EventFormDraft)
  {
    f.title != "" && f.startTime != "" && f.endTime != "" && f.organizer != ""
  }

  /** Whether a form passes does not depend on its description. */
  lemma DescriptionOptional(f: EventFormDraft, description: string)
    ensures Complete(WithField(f, Description, description)) == Complete(f)
  {
  }

  /** The form just after a hand-over would be refused. */
  lemma ResetFormIsIncomplete()
    ensures !Complete(EmptyForm)
  {
  }

  class EventFormView {
    var form: EventFormDraft

    constructor ()
      ensures form == EmptyForm
    {
      form := EmptyForm;
    }

    /** An input changed: only that field takes the new value. */
    method HandleChange(field: FormField, value: string)
      modifies this
      ensures form == WithField(old(form), field, value)
    {
      form := WithField(form, field, value);
    }

    /** The form was submitted. Returns what `onSubmit` received, if it was
        called, and the alert shown, if any. */
    method HandleSubmit() returns (submitted: Option<EventFormDraft>, alert: Option<string>)
      modifies this
      ensures Complete(old(form)) ==> submitted == Some(old(form)) && alert == None && form == EmptyForm
      ensures !Complete(old(form)) ==> submitted == None && alert == Some(FillRequired) && form == old(form)
    {
      if form.title == "" || form.startTime == "" || form.endTime == "" || form.organizer == "" {
        return None, Some(FillRequired);
      }
      submitted, alert := Some(form), None;
      form := EmptyForm;
    }
  }
}
