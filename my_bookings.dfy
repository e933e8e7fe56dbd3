// The "My Bookings" page: look up the bookings made under an e-mail address.
module MyBookings {
  import opened Wrappers
  import opened Text
  import opened Records
  import opened Fetch

  const InvalidEmail := "Please enter a valid email address."
  const CouldNotFetch := "Could not fetch bookings. Please try again later."
  const NetworkError := "Network error. Please try again."

  class MyBookingsView {
    var email: string
    var submittedEmail: string
    /** `null` until a lookup succeeds. */
    var bookings: Option<seq<Booking>>
    var loading: bool
    var error: string

    constructor ()
      ensures email == "" && submittedEmail == "" && bookings == None && !loading && error == ""
    {
      email := "";
      submittedEmail := "";
      bookings := None;
      loading := false;
      error := "";
    }

    /** The e-mail input changed. */
    method SetEmail(value: string)
      modifies this
      ensures email == value
      ensures submittedEmail == old(submittedEmail) && bookings == old(bookings)
      ensures loading == old(loading) && error == old(error)
    {
      email := value;
    }

    /** The form was submitted; `reply` is what the lookup brought back if one
        was made. Returns the address looked up, if any. */
    method HandleSubmit(reply: Reply<seq<Booking>>) returns (queried: Option<string>)
      modifies this
      ensures email == old(email)
      ensures bookings.Some? ==> error == "" && submittedEmail == email
      ensures !MatchesStrictEmail(old(email)) ==>
        queried == None && error == InvalidEmail && bookings == None
        && loading == old(loading) && submittedEmail == old(submittedEmail)
      ensures MatchesStrictEmail(old(email)) ==> queried == Some(old(email)) && !loading
      ensures MatchesStrictEmail(old(email)) && reply.Ok? ==>
        bookings == Some(reply.data) && submittedEmail == old(email) && error == ""
      ensures MatchesStrictEmail(old(email)) && reply.NotOk? ==>
        bookings == None && submittedEmail == old(submittedEmail) && error == CouldNotFetch
      ensures MatchesStrictEmail(old(email)) && reply.Thrown? ==>
        bookings == None && submittedEmail == old(submittedEmail) && error == NetworkError
    {
      error := "";
      bookings := None;
      if email == "" || !MatchesStrictEmail(email) {
        error := InvalidEmail;
        return None;
      }
      loading := true;
      queried := Some(email);
      match reply {
        case Ok(data) =>
          bookings := Some(data);
          submittedEmail := email;
        case NotOk(_) =>
          error := CouldNotFetch;
        case Thrown(_) =>
          error := NetworkError;
      }
      loading := false;
    }
  }
}
