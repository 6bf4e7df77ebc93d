/**
 * The profile page: the user's bookings split by status into an "upcoming" and a
 * "past" list, the counts shown above them, and each booking's label and actions.
 */
module ProfilePage {
  import opened JsDate

  datatype Status = Upcoming | Completed | Cancelled

  /** A booking as the profile lists it; the amount paid is in cents. */
  datatype Booking = Booking(
    id: string, date: int, timeSlot: string, groupSize: int, status: Status, totalPaidCents: int)

  // ---------------------------------------------------------------------------
  // Filtering by status
  // ---------------------------------------------------------------------------

  /** The bookings whose status is one of `statuses`, in their original order. */
  function WithStatus(bs: seq<Booking>, statuses: set<Status>): (r: seq<Booking>)
    ensures |r| <= |bs|
    ensures forall i :: 0 <= i < |r| ==> r[i].status in statuses
    ensures forall b :: b in r <==> b in bs && b.status in statuses
  {
    if bs == [] then []
    else
      var rest := WithStatus(bs[1..], statuses);
      assert forall b :: b in bs <==> b == bs[0] || b in bs[1..];
      if bs[0].status in statuses then [bs[0]] + rest else rest
  }

  /** `upcomingBookings`: the bookings with status upcoming. */
  function UpcomingBookings(bs: seq<Booking>): (r: seq<Booking>)
    ensures forall b :: b in r <==> b in bs && b.status == Upcoming
  {
    WithStatus(bs, {Upcoming})
  }

  /** `pastBookings`: the bookings with status completed or cancelled. */
  function PastBookings(bs: seq<Booking>): (r: seq<Booking>)
    ensures forall b :: b in r <==> b in bs && (b.status == Completed || b.status == Cancelled)
  {
    WithStatus(bs, {Completed, Cancelled})
  }

  /** The "Completed" count: the completed bookings among the past ones. */
  function CompletedCount(bs: seq<Booking>): nat {
    |WithStatus(PastBookings(bs), {Completed})|
  }

  /**
   * `s` is an order-preserving merge of `a` and `b`: each element of `s` is taken, in
   * turn, from the front of `a` or of `b`.
   */
  ghost predicate Interleaves(s: seq<Booking>, a: seq<Booking>, b: seq<Booking>)
    decreases |s|
  {
    if s == [] then a == [] && b == []
    else
      (a != [] && a[0] == s[0] && Interleaves(s[1..], a[1..], b))
      || (b != [] && b[0] == s[0] && Interleaves(s[1..], a, b[1..]))
  }

  /** A merge keeps every element exactly once: lengths add up and so do the multisets. */
  lemma {:induction false} InterleavesCounts(s: seq<Booking>, a: seq<Booking>, b: seq<Booking>)
    requires Interleaves(s, a, b)
    ensures |a| + |b| == |s|
    ensures multiset(a) + multiset(b) == multiset(s)
    decreases |s|
  {
    if s != [] {
      assert s == [s[0]] + s[1..];
      if a != [] && a[0] == s[0] && Interleaves(s[1..], a[1..], b) {
        InterleavesCounts(s[1..], a[1..], b);
        assert a == [a[0]] + a[1..];
      } else {
        InterleavesCounts(s[1..], a, b[1..]);
        assert b == [b[0]] + b[1..];
      }
    }
  }

  /** Filtering by two complementary sets of statuses splits the list without reordering it. */
  lemma {:induction false} SplitByStatus(bs: seq<Booking>, statuses: set<Status>, others: set<Status>)
    requires statuses !! others
    requires statuses + others == {Upcoming, Completed, Cancelled}
    ensures Interleaves(bs, WithStatus(bs, statuses), WithStatus(bs, others))
  {
    if bs != [] {
      SplitByStatus(bs[1..], statuses, others);
      var a, b := WithStatus(bs[1..], statuses), WithStatus(bs[1..], others);
      assert bs[0].status in {Upcoming, Completed, Cancelled} by {
        match bs[0].status
        case Upcoming =>
        case Completed =>
        case Cancelled =>
      }
      if bs[0].status in statuses {
        assert WithStatus(bs, statuses) == [bs[0]] + a && WithStatus(bs, others) == b;
        assert ([bs[0]] + a)[1..] == a;
      } else {
        assert WithStatus(bs, others) == [bs[0]] + b && WithStatus(bs, statuses) == a;
        assert ([bs[0]] + b)[1..] == b;
      }
    }
  }

  /**
   * Upcoming and past split the bookings: the page shows every booking exactly once,
   * in its original order, and the two tab counts add up to the total count.
   */
  lemma UpcomingAndPastPartition(bs: seq<Booking>)
    ensures Interleaves(bs, UpcomingBookings(bs), PastBookings(bs))
    ensures |UpcomingBookings(bs)| + |PastBookings(bs)| == |bs|
    ensures multiset(UpcomingBookings(bs)) + multiset(PastBookings(bs)) == multiset(bs)
  {
    SplitByStatus(bs, {Upcoming}, {Completed, Cancelled});
    InterleavesCounts(bs, UpcomingBookings(bs), PastBookings(bs));
  }

  /** Filtering twice keeps the bookings whose status passes both filters. */
  lemma {:induction false} WithStatusTwice(bs: seq<Booking>, s: set<Status>, t: set<Status>)
    ensures WithStatus(WithStatus(bs, s), t) == WithStatus(bs, s * t)
  {
    if bs != [] {
      WithStatusTwice(bs[1..], s, t);
      var rest := WithStatus(bs[1..], s);
      if bs[0].status in s {
        assert WithStatus(bs, s) == [bs[0]] + rest;
        assert ([bs[0]] + rest)[1..] == rest;
      }
    }
  }

  /** The "Completed" count is the number of completed bookings, and never more than the past count. */
  lemma CompletedWithinPast(bs: seq<Booking>)
    ensures CompletedCount(bs) == |WithStatus(bs, {Completed})|
    ensures CompletedCount(bs) <= |PastBookings(bs)|
  {
    WithStatusTwice(bs, {Completed, Cancelled}, {Completed});
    assert {Completed, Cancelled} * {Completed} == {Completed};
  }

  // ---------------------------------------------------------------------------
  // Labels and actions
  // ---------------------------------------------------------------------------

  /** The status as the booking record spells it. */
  function StatusText(st: Status): string {
    match st
    case Upcoming => "upcoming"
    case Completed => "completed"
    case Cancelled => "cancelled"
  }

  /** `toUpperCase` on one character, for the lower-case ASCII letters the status names use. */
  function UpperCase(c: char): (r: char)
    ensures 'a' <= c <= 'z' ==> 'A' <= r <= 'Z' && r as int - 'A' as int == c as int - 'a' as int
    ensures !('a' <= c <= 'z') ==> r == c
  {
    if 'a' <= c <= 'z' then (c as int - 'a' as int + 'A' as int) as char else c
  }

  /** The first character upper-cased, the rest unchanged. */
  function Capitalize(s: string): (r: string)
    ensures |r| == |s|
    ensures s != [] ==> r[0] == UpperCase(s[0]) && r[1..] == s[1..]
  {
    if s == [] then [] else [UpperCase(s[0])] + s[1..]
  }

  /** The badge text of a booking. */
  function StatusLabel(st: Status): string {
    Capitalize(StatusText(st))
  }

  lemma StatusLabels()
    ensures StatusLabel(Upcoming) == "Upcoming"
    ensures StatusLabel(Completed) == "Completed"
    ensures StatusLabel(Cancelled) == "Cancelled"
  {
    assert UpperCase('u') == 'U' && UpperCase('c') == 'C';
  }

  /** Different statuses get different badge texts. */
  lemma StatusLabelsDistinct(s: Status, t: Status)
    requires StatusLabel(s) == StatusLabel(t)
    ensures s == t
  {
    StatusLabels();
    assert "Completed"[1] != "Cancelled"[1];
    assert "Upcoming"[0] != "Completed"[0];
  }

  datatype Action = Reschedule | Cancel | BookAgain

  /** The buttons a booking card offers, by status. */
  function Actions(st: Status): (r: seq<Action>)
    ensures Reschedule in r <==> st == Upcoming
    ensures Cancel in r <==> st == Upcoming
    ensures BookAgain in r <==> st == Completed
    ensures st == Cancelled <==> r == []
  {
    match st
    case Upcoming => [Reschedule, Cancel]
    case Completed => [BookAgain]
    case Cancelled => []
  }

  // ---------------------------------------------------------------------------
  // The sample bookings the page starts from
  // ---------------------------------------------------------------------------

  /** Midnight UTC of a calendar date, as `new Date("YYYY-MM-DD")` gives it. */
  function DateOnly(year: int, month: int, day: int): int
    requires 1 <= month <= 12
  {
    DaysFromCivil(Civil(year, month, day)) * MsPerDay
  }

  const MockBookings := [
    Booking("ZL-2024-001", DateOnly(2024, 12, 25), "10:30 AM", 2, Upcoming, 19296),
    Booking("ZL-2024-002", DateOnly(2024, 11, 15), "2:00 PM", 4, Completed, 38592),
    Booking("ZL-2024-003", DateOnly(2024, 10, 8), "1:30 PM", 1, Completed, 9612)]

  /** With the sample bookings the tabs read "Upcoming (1)" and "Past (2)", and two are completed. */
  lemma MockTabCounts()
    ensures |UpcomingBookings(MockBookings)| == 1 && |PastBookings(MockBookings)| == 2
    ensures CompletedCount(MockBookings) == 2
  {
    assert UpcomingBookings(MockBookings) == [MockBookings[0]];
    assert PastBookings(MockBookings) == [MockBookings[1], MockBookings[2]];
  }
}
