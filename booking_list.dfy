// The "All Bookings" list: loading every booking, deleting one after the
// user confirms, and what the component renders in each state.
module BookingList {
  import opened Wrappers
  import opened Tables
  import opened Records
  import opened Crud
  import opened Fetch

  const FetchFailed := "Failed to fetch bookings"
  const UnknownError := "Unknown error"
  const DeleteFailed := "Failed to delete booking"
  const DeleteError := "Failed to delete"

  function NotId(id: int): Booking -> bool
  {
    (b: Booking) => b.id != id
  }

  /** `bookings.filter(b => b.id !== id)`. */
  function WithoutId(bookings: seq<Booking>, id: int): (r: seq<Booking>)
    ensures forall b :: b in r <==> b in bookings && b.id != id
  {
    Where(bookings, NotId(id))
  }

  /** When ids are unique, dropping the id of the entry at `k` drops exactly
      that entry: the list the server keeps after deleting the row. */
  lemma {:induction false} WithoutUniqueIdIsRemoveAt(bookings: seq<Booking>, k: nat)
    requires UniqueBookingIds(bookings)
    requires k < |bookings|
    ensures WithoutId(bookings, bookings[k].id) == RemoveAt(bookings, k)
    decreases |bookings|
  {
    var id := bookings[k].id;
    var init, last := bookings[..|bookings| - 1], bookings[|bookings| - 1];
    assert bookings == init + [last];
    WhereSnoc(init, last, NotId(id));
    if k == |bookings| - 1 {
      assert forall j :: 0 <= j < |init| ==> init[j].id != id;
      WithoutAbsentId(init, id);
    } else {
      assert last.id != id;
      assert UniqueBookingIds(init) by {
        assert forall j :: 0 <= j < |init| ==> init[j] == bookings[j];
      }
      assert init[k] == bookings[k];
      WithoutUniqueIdIsRemoveAt(init, k);
      RemoveAtSnoc(init, last, k);
    }
  }

  lemma RemoveAtSnoc<T>(s: seq<T>, x: T, k: nat)
    requires k < |s|
    ensures RemoveAt(s + [x], k) == RemoveAt(s, k) + [x]
  {
    assert (s + [x])[..k] == s[..k];
    assert (s + [x])[k + 1..] == s[k + 1..] + [x];
  }

  /** Filtering out an id nobody has keeps the list as it is. */
  lemma {:induction false} WithoutAbsentId(bookings: seq<Booking>, id: int)
    requires forall j :: 0 <= j < |bookings| ==> bookings[j].id != id
    ensures WithoutId(bookings, id) == bookings
    decreases |bookings|
  {
    if bookings != [] {
      var init, last := bookings[..|bookings| - 1], bookings[|bookings| - 1];
      assert bookings == init + [last];
      WhereSnoc(init, last, NotId(id));
      WithoutAbsentId(init, id);
    }
  }

  /** What the component renders, first match wins. */
  datatype Screen = LoadingScreen | ErrorScreen(message: string) | EmptyScreen | ListScreen(items: seq<Booking>)

  class BookingListView {
    var bookings: seq<Booking>
    var loading: bool
    var error: string
    var deleting: Option<int>

    /** The component starts out loading, before its first fetch returns. */
    constructor ()
      ensures bookings == [] && loading && error == "" && deleting == None
      ensures Screen() == LoadingScreen
    {
      bookings := [];
      loading := true;
      error := "";
      deleting := None;
    }

    /** Loading, then an error, then the empty list, then the list. */
    function Screen(): (s: Screen)
      reads this
      ensures s.LoadingScreen? <==> loading
      ensures s.ErrorScreen? <==> !loading && error != ""
      ensures s.ListScreen? ==> s.items == bookings && bookings != []
    {
      if loading then LoadingScreen
      else if error != "" then ErrorScreen(error)
      else if bookings == [] then EmptyScreen
      else ListScreen(bookings)
    }

    /** Load every booking; `reply` is what the request brought back. */
    method FetchBookings(reply: Reply<seq<Booking>>)
      modifies this
      ensures !loading && deleting == old(deleting)
      ensures reply.Ok? ==> bookings == reply.data && error == ""
      ensures reply.NotOk? ==> bookings == old(bookings) && error == FetchFailed
      ensures reply.Thrown? ==> bookings == old(bookings) && error == OrElse(reply.message, UnknownError)
      ensures Screen().ErrorScreen? <==> !reply.Ok?
      ensures reply.Ok? ==> Screen() == if reply.data == [] then EmptyScreen else ListScreen(reply.data)
    {
      loading := true;
      error := "";
      match reply {
        case Ok(data) =>
          bookings := data;
        case NotOk(_) =>
          error := FetchFailed;
        case Thrown(message) =>
          error := OrElse(message, UnknownError);
      }
      loading := false;
    }

    /** The Delete button of booking `id` was pressed; `confirmed` is the
        user's answer to the confirmation dialog and `reply` what the DELETE
        brought back if one was made. `heldDuringRequest` is the value of
        `deleting` while the request is out. */
    method HandleDelete(id: int, confirmed: bool, reply: Reply<Booking>)
      returns (requested: bool, ghost heldDuringRequest: Option<int>)
      modifies this
      ensures requested == confirmed && loading == old(loading)
      ensures !confirmed ==>
        bookings == old(bookings) && error == old(error) && deleting == old(deleting)
      ensures confirmed ==> heldDuringRequest == Some(id) && deleting == None
      ensures confirmed && reply.Ok? ==> bookings == WithoutId(old(bookings), id) && error == old(error)
      ensures confirmed && reply.NotOk? ==> bookings == old(bookings) && error == DeleteFailed
      ensures confirmed && reply.Thrown? ==>
        bookings == old(bookings) && error == OrElse(reply.message, DeleteError)
    {
      if !confirmed {
        return false, None;
      }
      requested := true;
      deleting := Some(id);
      heldDuringRequest := deleting;
      match reply {
        case Ok(_) =>
          bookings := WithoutId(bookings, id);
        case NotOk(_) =>
          error := DeleteFailed;
        case Thrown(message) =>
          error := OrElse(message, DeleteError);
      }
      deleting := None;
    }
  }
}
