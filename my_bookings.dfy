/** The student's list of booked slots: the upcoming, past or all of them in
    start order, and the cancel dialog. */
module MyBookings {
  import opened Common
  import opened Base
  import opened Sorting

  /** A booking as the list shows it. */
  datatype Booking = Booking(id: string, start: int)

  function StartOf(b: Booking): int {
    b.start
  }

  /** A booking whose start lies before now; the list offers no cancel
      button for it. */
  predicate IsPast(b: Booking, now: int) {
    b.start < now
  }

  function UpcomingAt(now: int): (p: Booking -> bool)
    ensures forall b :: p(b) <==> b.start >= now
  {
    (b: Booking) => b.start >= now
  }

  function PastAt(now: int): (p: Booking -> bool)
    ensures forall b :: p(b) <==> b.start < now
  {
    (b: Booking) => b.start < now
  }

  /** `getFilteredBookings`: a copy of the bookings, narrowed to the upcoming
      or past ones when that filter is chosen, sorted by start. */
  function FilteredBookings(bookings: seq<Booking>, filter: string, now: int): (r: seq<Booking>)
    ensures SortedBy(r, StartOf)
    ensures filter == "upcoming" ==> multiset(r) == multiset(Where(bookings, UpcomingAt(now)))
    ensures filter == "past" ==> multiset(r) == multiset(Where(bookings, PastAt(now)))
    ensures filter != "upcoming" && filter != "past" ==> multiset(r) == multiset(bookings)
  {
    var chosen := if filter == "upcoming" then Where(bookings, UpcomingAt(now))
                  else if filter == "past" then Where(bookings, PastAt(now))
                  else bookings;
    SortBy(chosen, StartOf)
  }

  lemma {:induction false} WhereSplit<T(!new)>(s: seq<T>, p: T -> bool, q: T -> bool)
    requires forall x :: q(x) <==> !p(x)
    ensures multiset(Where(s, p)) + multiset(Where(s, q)) == multiset(s)
  {
    if s != [] {
      var h, t := s[0], s[1..];
      assert s == [h] + t;
      WhereSplit(t, p, q);
      if p(h) {
        assert Where(s, p) == [h] + Where(t, p) && Where(s, q) == Where(t, q);
      } else {
        assert Where(s, q) == [h] + Where(t, q) && Where(s, p) == Where(t, p);
      }
    }
  }

  /** For one instant, every booking is upcoming or past and none is both:
      the two lists together are the whole list. */
  lemma UpcomingPastPartition(bookings: seq<Booking>, now: int)
    ensures multiset(FilteredBookings(bookings, "upcoming", now)) + multiset(FilteredBookings(bookings, "past", now)) ==
      multiset(bookings)
    ensures forall b :: b in FilteredBookings(bookings, "upcoming", now) ==> !IsPast(b, now)
    ensures forall b :: b in FilteredBookings(bookings, "past", now) ==> IsPast(b, now)
  {
    WhereSplit(bookings, UpcomingAt(now), PastAt(now));
    var up := FilteredBookings(bookings, "upcoming", now);
    var past := FilteredBookings(bookings, "past", now);
    forall b | b in up ensures !IsPast(b, now) {
      assert b in multiset(up);
    }
    forall b | b in past ensures IsPast(b, now) {
      assert b in multiset(past);
    }
  }

  /** The page state the cancel handlers touch. */
  class BookingsPage {
    var bookings: seq<Booking>
    var selected: Option<Booking>
    var showCancelModal: bool
    var reloads: nat

    constructor (bookings: seq<Booking>)
      ensures this.bookings == bookings && selected.None? && !showCancelModal && reloads == 0
    {
      this.bookings := bookings;
      selected := None;
      showCancelModal := false;
      reloads := 0;
    }

    /** The cancel button of a booking: shown, and so able to open the
        dialog, only when the booking is not past. */
    method OfferCancel(b: Booking, now: int) returns (offered: bool)
      modifies this
      ensures offered <==> !IsPast(b, now)
      ensures offered ==> selected == Some(b) && showCancelModal
      ensures !offered ==> selected == old(selected) && showCancelModal == old(showCancelModal)
      ensures bookings == old(bookings) && reloads == old(reloads)
    {
      offered := !IsPast(b, now);
      if offered {
        selected := Some(b);
        showCancelModal := true;
      }
    }

    /** `handleCancelBooking`: without a selection nothing happens; otherwise
        the cancel request for it is sent (`succeeded` is its outcome), and
        success closes the dialog, clears the selection and reloads. */
    method CancelBooking(succeeded: bool) returns (request: Option<string>)
      modifies this
      ensures bookings == old(bookings)
      ensures old(selected).None? ==> (request.None? && selected == old(selected) &&
        showCancelModal == old(showCancelModal) && reloads == old(reloads))
      ensures old(selected).Some? ==> request == Some(old(selected).value.id)
      ensures old(selected).Some? && succeeded ==> (selected.None? && !showCancelModal && reloads == old(reloads) + 1)
      ensures old(selected).Some? && !succeeded ==>
        (selected == old(selected) && showCancelModal == old(showCancelModal) && reloads == old(reloads))
    {
      if selected.None? {
        return None;
      }
      request := Some(selected.value.id);
      if succeeded {
        showCancelModal := false;
        selected := None;
        reloads := reloads + 1;
      }
    }
  }
}
