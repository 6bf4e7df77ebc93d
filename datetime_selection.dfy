/**
 * The date-and-time step of the booking flow: a calendar whose past and
 * blocked days are disabled, six fixed start times, and a Continue button that
 * hands the chosen date and slot to the flow.
 */
module DateTimeSelection {
  import opened Optional
  import opened JsDate

  /** The start times offered on every bookable day, in display order. */
  const TimeSlots: seq<string> := ["9:00 AM", "10:30 AM", "12:00 PM", "1:30 PM", "3:00 PM", "4:30 PM"]

  /** How many days, starting with today, the blocking rule looks ahead. */
  const BlockWindow := 30

  predicate IsWeekend(day: int) {
    Weekday(day) == 0 || Weekday(day) == 6
  }

  /** Offsets from today that are closed for maintenance. */
  predicate IsMaintenanceOffset(offset: int) {
    offset == 5 || offset == 12 || offset == 23
  }

  /** The blocking rule: seen from day `today`, day `day` is closed. */
  predicate IsBlockedDay(today: int, day: int) {
    today <= day < today + BlockWindow && (IsWeekend(day) || IsMaintenanceOffset(day - today))
  }

  /**
   * `blocked` lists the blocked days seen from time value `now`: each entry is
   * a blocked day at `now`'s time of day, and every blocked day has an entry
   * (possibly more than one).
   */
  ghost predicate ListsBlockedDays(now: int, blocked: seq<int>) {
    && (forall k :: 0 <= k < |blocked| ==>
          TimeInDay(blocked[k]) == TimeInDay(now) && IsBlockedDay(DayOf(now), DayOf(blocked[k])))
    && (forall day :: IsBlockedDay(DayOf(now), day) ==>
          exists k :: 0 <= k < |blocked| && DayOf(blocked[k]) == day)
  }

  /** Moving a time value on by whole days keeps its time of day. */
  lemma AddDays(t: int, i: int)
    ensures DayOf(t + i * MsPerDay) == DayOf(t) + i
    ensures TimeInDay(t + i * MsPerDay) == TimeInDay(t)
  {
    var r := TimeInDay(t);
    assert t + i * MsPerDay == (DayOf(t) + i) * MsPerDay + r;
  }

  /**
   * `getBlockedDates`: walks the 30 days from today and pushes each weekend day
   * and each maintenance day. A maintenance day on a weekend is pushed twice,
   * which membership does not notice.
   */
  method GetBlockedDates(now: int) returns (blocked: seq<int>)
    ensures ListsBlockedDays(now, blocked)
  {
    var today := DayOf(now);
    blocked := [];
    var i := 0;
    while i < BlockWindow
      invariant 0 <= i <= BlockWindow
      invariant forall k :: 0 <= k < |blocked| ==>
        TimeInDay(blocked[k]) == TimeInDay(now) && IsBlockedDay(today, DayOf(blocked[k]))
      invariant forall day :: IsBlockedDay(today, day) && day < today + i ==>
        exists k :: 0 <= k < |blocked| && DayOf(blocked[k]) == day
    {
      var date := now + i * MsPerDay;
      ghost var before := blocked;
      AddDays(now, i);
      if Weekday(DayOf(date)) == 0 || Weekday(DayOf(date)) == 6 {
        blocked := blocked + [date];
      }
      if i == 5 || i == 12 || i == 23 {
        blocked := blocked + [date];
      }
      assert IsBlockedDay(today, today + i) ==> DayOf(blocked[|blocked| - 1]) == today + i;
      assert blocked[..|before|] == before;
      forall day | IsBlockedDay(today, day) && day < today + i
        ensures exists k :: 0 <= k < |blocked| && DayOf(blocked[k]) == day
      {
        var k :| 0 <= k < |before| && DayOf(before[k]) == day;
        assert blocked[k] == before[k];
      }
      i := i + 1;
    }
  }

  /** `isDateBlocked`: some blocked entry falls on the same calendar day as `date`. */
  predicate IsDateBlocked(blocked: seq<int>, date: int) {
    exists k :: 0 <= k < |blocked| && DayOf(blocked[k]) == DayOf(date)
  }

  /** `isDateBeforeToday`: `date` lies before the midnight that starts today. */
  predicate IsDateBeforeToday(now: int, date: int) {
    date < StartOfDay(now)
  }

  /** The calendar's `disabled` test. */
  predicate IsDisabled(now: int, blocked: seq<int>, date: int) {
    IsDateBeforeToday(now, date) || IsDateBlocked(blocked, date)
  }

  /** With the list GetBlockedDates builds, a date is blocked exactly when the blocking rule closes its day. */
  lemma BlockedIffRule(now: int, blocked: seq<int>, date: int)
    requires ListsBlockedDays(now, blocked)
    ensures IsDateBlocked(blocked, date) <==> IsBlockedDay(DayOf(now), DayOf(date))
  {
    if IsBlockedDay(DayOf(now), DayOf(date)) {
      var k :| 0 <= k < |blocked| && DayOf(blocked[k]) == DayOf(date);
    }
  }

  /**
   * Which dates the calendar disables: a date is disabled exactly when its day
   * is before today or closed by the blocking rule; so every earlier day is
   * disabled, every day from today + 30 on is selectable, and inside the window
   * a day is disabled exactly when it is a weekend day or a maintenance day.
   */
  lemma DisabledDates(now: int, blocked: seq<int>, date: int)
    requires ListsBlockedDays(now, blocked)
    ensures IsDisabled(now, blocked, date) <==>
      DayOf(date) < DayOf(now) || IsBlockedDay(DayOf(now), DayOf(date))
    ensures DayOf(date) < DayOf(now) ==> IsDisabled(now, blocked, date)
    ensures DayOf(date) >= DayOf(now) + BlockWindow ==> !IsDisabled(now, blocked, date)
    ensures DayOf(now) <= DayOf(date) < DayOf(now) + BlockWindow ==>
      (IsDisabled(now, blocked, date) <==>
        IsWeekend(DayOf(date)) || IsMaintenanceOffset(DayOf(date) - DayOf(now)))
  {
    BlockedIffRule(now, blocked, date);
    BeforeStartOfDay(date, now);
  }

  /** The calendar decides by calendar day alone: two times on one day are disabled alike. */
  lemma DisabledByDay(now: int, blocked: seq<int>, a: int, b: int)
    requires DayOf(a) == DayOf(b)
    ensures IsDisabled(now, blocked, a) == IsDisabled(now, blocked, b)
  {
    BeforeStartOfDay(a, now);
    BeforeStartOfDay(b, now);
  }

  /** The component's state: the selected date and time slot, with today and the blocked list fixed at mount. */
  class DateTimePicker {
    const now: int
    const blockedDates: seq<int>
    var selectedDate: Option<int>
    var selectedTimeSlot: string

    ghost predicate Valid()
      reads this
    {
      && ListsBlockedDays(now, blockedDates)
      && (selectedDate.Some? ==> !IsDisabled(now, blockedDates, selectedDate.value))
      && (selectedTimeSlot == "" || selectedTimeSlot in TimeSlots)
    }

    /** Mounting: nothing selected yet. */
    constructor (now: int)
      ensures Valid()
      ensures this.now == now && selectedDate == None && selectedTimeSlot == ""
    {
      var blocked := GetBlockedDates(now);
      this.now := now;
      blockedDates := blocked;
      selectedDate := None;
      selectedTimeSlot := "";
    }

    /**
     * The calendar's `onSelect`: a disabled day cannot be picked, `None` clears
     * the selection, and the chosen time slot is kept either way.
     */
    method SelectDate(date: Option<int>)
      requires Valid()
      modifies this
      ensures Valid()
      ensures selectedDate == (if date.Some? && IsDisabled(now, blockedDates, date.value)
                               then old(selectedDate) else date)
      ensures selectedTimeSlot == old(selectedTimeSlot)
    {
      if date.None? || !IsDisabled(now, blockedDates, date.value) {
        selectedDate := date;
      }
    }

    /** The slot grid is shown once a date is selected that is not blocked. */
    predicate ShowsTimeSlots()
      reads this
    {
      selectedDate.Some? && !IsDateBlocked(blockedDates, selectedDate.value)
    }

    /** A slot button: only the six offered slots exist, and only while the grid is shown. */
    method SelectTimeSlot(slot: string)
      requires Valid() && ShowsTimeSlots() && slot in TimeSlots
      modifies this
      ensures Valid()
      ensures selectedTimeSlot == slot && selectedDate == old(selectedDate)
    {
      selectedTimeSlot := slot;
    }

    /** `canProceed`: a date is selected and the slot string is not empty. */
    predicate CanProceed()
      reads this
    {
      selectedDate.Some? && selectedTimeSlot != ""
    }

    /**
     * `handleNext`: hands the date and slot to the flow exactly when Continue is
     * enabled; what it hands over is a selectable date and an offered slot.
     */
    method HandleNext() returns (next: Option<(int, string)>)
      requires Valid()
      ensures next.Some? <==> selectedDate.Some? && selectedTimeSlot != ""
      ensures next.Some? ==> next.value == (selectedDate.value, selectedTimeSlot)
      ensures next.Some? ==> !IsDisabled(now, blockedDates, next.value.0) && next.value.1 in TimeSlots
    {
      if selectedDate.Some? && selectedTimeSlot != "" {
        next := Some((selectedDate.value, selectedTimeSlot));
      } else {
        next := None;
      }
    }
  }
}
