/**
 * The confirmation step: the calendar event built from the booking (its start and
 * end in the compact UTC form a calendar link carries) and the booking summary.
 */
module ConfirmationScreen {
  import opened Optional
  import opened JsText
  import opened JsDate
  import opened BookingDraft
  import CheckoutScreen
  import DateTimeSelection

  const EventTitle := "Florida's Longest Zipline Adventure"
  const EventLocation := "Florida Adventure Park, FL"
  /** Every event lasts two hours. */
  const EventDuration := 2 * MsPerHour

  // ---------------------------------------------------------------------------
  // Reading a slot label
  // ---------------------------------------------------------------------------

  /** The 24-hour clock hour for a 12-hour clock hour and the period word after it, if any. */
  function Hour24(hours: int, period: Option<string>): (r: int)
    ensures period != Some("AM") && period != Some("PM") ==> r == hours
    ensures 1 <= hours <= 12 && period == Some("AM") ==> r == hours % 12
    ensures 1 <= hours <= 12 && period == Some("PM") ==> r == hours % 12 + 12
  {
    var h := if period == Some("PM") && hours != 12 then hours + 12 else hours;
    if period == Some("AM") && hours == 12 then 0 else h
  }

  /** The 12-hour clock reading of a 24-hour clock hour: the partner of Hour24. */
  function ClockHour(h24: int): (r: (int, string))
    requires 0 <= h24 < 24
    ensures 1 <= r.0 <= 12 && (r.1 == "AM" || r.1 == "PM")
    ensures r.1 == "AM" <==> h24 < 12
  {
    var h := if h24 % 12 == 0 then 12 else h24 % 12;
    (h, if h24 < 12 then "AM" else "PM")
  }

  /** Hour24 maps the 24 readings of the 12-hour clock one-to-one onto the hours 0..23. */
  lemma Hour24RoundTrip(hours: int, period: string)
    requires 1 <= hours <= 12 && (period == "AM" || period == "PM")
    ensures 0 <= Hour24(hours, Some(period)) < 24
    ensures ClockHour(Hour24(hours, Some(period))) == (hours, period)
  {
  }

  lemma ClockHourRoundTrip(h24: int)
    requires 0 <= h24 < 24
    ensures Hour24(ClockHour(h24).0, Some(ClockHour(h24).1)) == h24
  {
  }

  /** A time of day on the 24-hour clock. */
  datatype ClockTime = ClockTime(hour: int, minute: int)

  predicate ValidClockTime(t: ClockTime) {
    0 <= t.hour < 24 && 0 <= t.minute < 60
  }

  /**
   * The time a slot label stands for, read the way the confirmation reads it: the text
   * up to the first space is the time and the next piece the period; the time's pieces
   * around ':' are the hours and the minutes, each read as a Number, where missing
   * minutes count as 0. None when hours or minutes are a Number form the model does
   * not compute.
   */
  function ParseSlot(slot: string): Option<ClockTime> {
    var parts := Split(slot, ' ');
    var period := if |parts| > 1 then Some(parts[1]) else None;
    var pieces := Split(parts[0], ':');
    var hours := ToNumber(pieces[0]);
    var minutes := if |pieces| > 1 then ToNumber(pieces[1]) else Int(0);
    if hours.Unparsed? || minutes.Unparsed? then None
    else Some(ClockTime(Hour24(hours.n, period), minutes.n))
  }

  /** How the slot list writes a time: the 12-hour clock hour, two-digit minutes and the period. */
  function SlotLabel(t: ClockTime): string
    requires ValidClockTime(t)
  {
    var (h, period) := ClockHour(t.hour);
    NatToDecimal(h) + ":" + ZeroPad(t.minute, 2) + " " + period
  }

  lemma NoSeparatorInDigits(s: string, sep: char)
    requires AllDigits(s) && !IsDigit(sep)
    ensures sep !in s
  {
  }

  /** A label of the form "hours:minutes period" with digit hours and minutes reads as those numbers. */
  lemma ReadSlot(hs: string, ms: string, period: string)
    requires hs != [] && AllDigits(hs) && ms != [] && AllDigits(ms) && ' ' !in period
    ensures ParseSlot(hs + ":" + ms + " " + period)
      == Some(ClockTime(Hour24(DecimalToNat(hs), Some(period)), DecimalToNat(ms)))
  {
    var time := hs + ":" + ms;
    NoSeparatorInDigits(hs, ':');
    NoSeparatorInDigits(hs, ' ');
    NoSeparatorInDigits(ms, ' ');
    NoSeparatorInDigits(ms, ':');
    assert ' ' !in time;
    assert hs + ":" + ms + " " + period == time + [' '] + period;
    SplitPrefix(time, ' ', period);
    SplitPiece(period, ' ');
    assert time == hs + [':'] + ms;
    SplitPrefix(hs, ':', ms);
    SplitPiece(ms, ':');
  }

  /** A label with no minutes, "hours period", reads as that hour on the hour. */
  lemma MissingMinutes(hs: string, period: string)
    requires hs != [] && AllDigits(hs) && ' ' !in period
    ensures ParseSlot(hs + " " + period) == Some(ClockTime(Hour24(DecimalToNat(hs), Some(period)), 0))
  {
    NoSeparatorInDigits(hs, ' ');
    NoSeparatorInDigits(hs, ':');
    assert hs + " " + period == hs + [' '] + period;
    SplitPrefix(hs, ' ', period);
    SplitPiece(period, ' ');
    SplitPiece(hs, ':');
  }

  /** Reading a slot label gives back the time it was written from. */
  lemma ParseSlotLabel(t: ClockTime)
    requires ValidClockTime(t)
    ensures ParseSlot(SlotLabel(t)) == Some(t)
  {
    var (h, period) := ClockHour(t.hour);
    DecimalRoundTrip(h);
    ReadSlot(NatToDecimal(h), ZeroPad(t.minute, 2), period);
    Hour24RoundTrip(h, period);
    ClockHourRoundTrip(t.hour);
  }

  /** The start times of the six slots offered: 9:00, 10:30, 12:00, 13:30, 15:00 and 16:30. */
  const OfferedTimes := [ClockTime(9, 0), ClockTime(10, 30), ClockTime(12, 0),
                         ClockTime(13, 30), ClockTime(15, 0), ClockTime(16, 30)]

  lemma TwoDigitMinutes()
    ensures ZeroPad(0, 2) == "00" && ZeroPad(30, 2) == "30"
  {
    assert NatToDecimal(0) == "0";
    assert LeadingZeros(1, "0") == "00";
    assert NatToDecimal(3) == "3";
    assert NatToDecimal(30) == "30";
  }

  /** The slot list writes each offered time as SlotLabel does. */
  lemma OfferedLabels()
    ensures forall i :: 0 <= i < 6 ==>
      ValidClockTime(OfferedTimes[i]) && DateTimeSelection.TimeSlots[i] == SlotLabel(OfferedTimes[i])
  {
    TwoDigitMinutes();
    assert SlotLabel(ClockTime(9, 0)) == "9:00 AM";
    assert SlotLabel(ClockTime(10, 30)) == "10:30 AM" by {
      assert NatToDecimal(10) == "10" by { assert NatToDecimal(1) == "1"; }
    }
    assert SlotLabel(ClockTime(12, 0)) == "12:00 PM" by {
      assert NatToDecimal(12) == "12" by { assert NatToDecimal(1) == "1"; }
    }
    assert SlotLabel(ClockTime(13, 30)) == "1:30 PM";
    assert SlotLabel(ClockTime(15, 0)) == "3:00 PM";
    assert SlotLabel(ClockTime(16, 30)) == "4:30 PM";
  }

  /** Each offered slot reads back as its start time. */
  lemma OfferedSlotsParse()
    ensures forall i :: 0 <= i < 6 ==>
      ValidClockTime(OfferedTimes[i]) && ParseSlot(DateTimeSelection.TimeSlots[i]) == Some(OfferedTimes[i])
  {
    OfferedLabels();
    forall i | 0 <= i < 6
      ensures ParseSlot(DateTimeSelection.TimeSlots[i]) == Some(OfferedTimes[i])
    {
      ParseSlotLabel(OfferedTimes[i]);
    }
  }

  // ---------------------------------------------------------------------------
  // Compact timestamps
  // ---------------------------------------------------------------------------

  /** Removes every '-' and ':', as a global replace of the class [-:] by nothing does. */
  function StripDashesColons(s: string): string {
    if s == [] then []
    else (if s[0] == '-' || s[0] == ':' then [] else [s[0]]) + StripDashesColons(s[1..])
  }

  /** What is left has no '-' and no ':', and every other character is kept. */
  lemma {:induction false} StripRemoves(s: string)
    ensures '-' !in StripDashesColons(s) && ':' !in StripDashesColons(s)
    ensures forall c :: c in s && c != '-' && c != ':' ==> c in StripDashesColons(s)
  {
    if s != [] {
      StripRemoves(s[1..]);
      assert forall c :: c in s ==> c == s[0] || c in s[1..];
    }
  }

  lemma {:induction false} StripConcat(a: string, b: string)
    ensures StripDashesColons(a + b) == StripDashesColons(a) + StripDashesColons(b)
  {
    if a == [] {
      assert a + b == b;
    } else {
      assert (a + b)[0] == a[0] && (a + b)[1..] == a[1..] + b;
      StripConcat(a[1..], b);
    }
  }

  /** A string without '-' or ':' is left as it is. */
  lemma {:induction false} StripKeeps(s: string)
    requires '-' !in s && ':' !in s
    ensures StripDashesColons(s) == s
  {
    if s != [] {
      StripKeeps(s[1..]);
    }
  }

  /**
   * The compact form of an ISO timestamp: without '-' and ':', cut at the first '.',
   * with "Z" put back at the end.
   */
  function CompactTimestamp(iso: string): (r: string)
    ensures |r| >= 1 && r[|r| - 1] == 'Z'
    ensures '-' !in r && ':' !in r && '.' !in r[..|r| - 1]
  {
    var stripped := StripDashesColons(iso);
    StripRemoves(iso);
    var head := Split(stripped, '.')[0];
    assert head <= stripped;
    var r := head + "Z";
    assert r[..|r| - 1] == head;
    r
  }

  /**
   * The form of a UTC date-time in section 3.3.5 of RFC 5545 (form #2): eight date
   * digits YYYYMMDD, "T", six time digits HHMMSS and "Z".
   */
  predicate IsUtcDateTime(s: string) {
    |s| == 16 && s[8] == 'T' && s[15] == 'Z'
    && (forall i :: 0 <= i < 15 && i != 8 ==> IsDigit(s[i]))
  }

  /** Fields a basic UTC date-time can carry: a four-digit year and in-range parts. */
  predicate BasicFields(f: Fields) {
    0 <= f.date.year <= 9999 && ValidCivil(f.date)
    && 0 <= f.hour < 24 && 0 <= f.minute < 60 && 0 <= f.second < 60
  }

  lemma PadWidths()
    ensures Pow10(2) == 100 && Pow10(4) == 10000
  {
  }

  /** Broken-down fields written in the RFC 5545 basic form, to the second. */
  function BasicUtc(f: Fields): (r: string)
    requires BasicFields(f)
    ensures IsUtcDateTime(r)
  {
    PadWidths();
    var r := ZeroPad(f.date.year, 4) + ZeroPad(f.date.month, 2) + ZeroPad(f.date.day, 2) + "T"
      + ZeroPad(f.hour, 2) + ZeroPad(f.minute, 2) + ZeroPad(f.second, 2) + "Z";
    BasicLayout(ZeroPad(f.date.year, 4), ZeroPad(f.date.month, 2), ZeroPad(f.date.day, 2),
      ZeroPad(f.hour, 2), ZeroPad(f.minute, 2), ZeroPad(f.second, 2));
    r
  }

  /** Six digit groups of the basic widths, laid out with "T" and "Z", form a basic UTC date-time whose slices are the groups. */
  lemma BasicLayout(y: string, mo: string, d: string, h: string, mi: string, sec: string)
    requires |y| == 4 && |mo| == 2 && |d| == 2 && |h| == 2 && |mi| == 2 && |sec| == 2
    requires AllDigits(y) && AllDigits(mo) && AllDigits(d) && AllDigits(h) && AllDigits(mi) && AllDigits(sec)
    ensures var s := y + mo + d + "T" + h + mi + sec + "Z";
      IsUtcDateTime(s)
      && s[..4] == y && s[4..6] == mo && s[6..8] == d
      && s[9..11] == h && s[11..13] == mi && s[13..15] == sec
  {
    var s := y + mo + d + "T" + h + mi + sec + "Z";
    forall i | 0 <= i < 15 && i != 8
      ensures IsDigit(s[i])
    {
      if i < 4 { assert s[i] == y[i]; }
      else if i < 6 { assert s[i] == mo[i - 4]; }
      else if i < 8 { assert s[i] == d[i - 6]; }
      else if i < 11 { assert s[i] == h[i - 9]; }
      else if i < 13 { assert s[i] == mi[i - 11]; }
      else { assert s[i] == sec[i - 13]; }
    }
    assert s[..4] == y && s[4..6] == mo && s[6..8] == d;
    assert s[9..11] == h && s[11..13] == mi && s[13..15] == sec;
  }

  lemma NoDotInBasic(s: string)
    requires IsUtcDateTime(s)
    ensures '.' !in s[..15]
  {
    forall i | 0 <= i < 15
      ensures s[..15][i] != '.'
    {
      assert s[..15][i] == s[i];
    }
  }

  /** Reads a basic UTC date-time back into a time value; None for any other text. */
  function ParseBasicUtc(s: string): Option<int> {
    if !IsUtcDateTime(s) then None
    else
      assert AllDigits(s[..4]) && AllDigits(s[4..6]) && AllDigits(s[6..8]);
      assert AllDigits(s[9..11]) && AllDigits(s[11..13]) && AllDigits(s[13..15]);
      var date := Civil(DecimalToNat(s[..4]), DecimalToNat(s[4..6]), DecimalToNat(s[6..8]));
      if 1 <= date.month <= 12 then
        Some(TimeOf(Fields(date, DecimalToNat(s[9..11]), DecimalToNat(s[11..13]), DecimalToNat(s[13..15]), 0)))
      else None
  }

  /** Reading back the basic form of a time's fields gives the time less its milliseconds. */
  lemma BasicUtcRoundTrip(f: Fields)
    requires BasicFields(f)
    ensures ParseBasicUtc(BasicUtc(f)) == Some(TimeOf(f.(millisecond := 0)))
  {
    PadWidths();
    var y := ZeroPad(f.date.year, 4);
    var mo := ZeroPad(f.date.month, 2);
    var d := ZeroPad(f.date.day, 2);
    var h := ZeroPad(f.hour, 2);
    var mi := ZeroPad(f.minute, 2);
    var sec := ZeroPad(f.second, 2);
    BasicLayout(y, mo, d, h, mi, sec);
    assert BasicUtc(f) == y + mo + d + "T" + h + mi + sec + "Z";
  }

  /** For years 0..9999 the compact form of an ISO timestamp is exactly the RFC 5545 basic UTC form. */
  lemma CompactIsBasicUtc(f: Fields)
    requires BasicFields(f) && 0 <= f.millisecond < 1000
    ensures CompactTimestamp(IsoOfFields(f)) == BasicUtc(f)
  {
    var y := ZeroPad(f.date.year, 4);
    var mo := ZeroPad(f.date.month, 2);
    var d := ZeroPad(f.date.day, 2);
    var h := ZeroPad(f.hour, 2);
    var mi := ZeroPad(f.minute, 2);
    var sec := ZeroPad(f.second, 2);
    var ms := ZeroPad(f.millisecond, 3);
    var iso := IsoOfFields(f);
    assert iso == y + "-" + mo + "-" + d + "T" + h + ":" + mi + ":" + sec + "." + ms + "Z";
    StripDigits(y); StripDigits(mo); StripDigits(d); StripDigits(h); StripDigits(mi); StripDigits(sec);
    StripDigits(ms);
    StripPieces(y, mo, d, h, mi, sec, ms);
    var head := y + mo + d + "T" + h + mi + sec;
    assert StripDashesColons(iso) == head + ['.'] + (ms + "Z");
    assert BasicUtc(f) == head + "Z";
    assert head == BasicUtc(f)[..15];
    NoDotInBasic(BasicUtc(f));
    SplitPrefix(head, '.', ms + "Z");
  }

  lemma StripDigits(s: string)
    requires AllDigits(s)
    ensures StripDashesColons(s) == s
  {
    NoSeparatorInDigits(s, '-');
    NoSeparatorInDigits(s, ':');
    StripKeeps(s);
  }

  /** One piece that is left as it is, followed by one character. */
  lemma StripStep(x: string, piece: string, c: char)
    requires StripDashesColons(piece) == piece
    ensures StripDashesColons(x + piece + [c])
      == StripDashesColons(x) + piece + (if c == '-' || c == ':' then [] else [c])
  {
    StripConcat(x, piece);
    StripConcat(x + piece, [c]);
    assert StripDashesColons([c]) == (if c == '-' || c == ':' then [] else [c]) + StripDashesColons([c][1..]);
  }

  /** Removing the separators of the ISO layout leaves the basic layout, followed by the fraction. */
  lemma StripPieces(a: string, b: string, c: string, d: string, e: string, f: string, ms: string)
    requires StripDashesColons(a) == a && StripDashesColons(b) == b && StripDashesColons(c) == c
    requires StripDashesColons(d) == d && StripDashesColons(e) == e && StripDashesColons(f) == f
    requires StripDashesColons(ms) == ms
    ensures StripDashesColons(a + "-" + b + "-" + c + "T" + d + ":" + e + ":" + f + "." + ms + "Z")
      == a + b + c + "T" + d + e + f + "." + ms + "Z"
  {
    var p1 := a + "-";
    assert StripDashesColons(p1) == a by {
      StripStep([], a, '-');
      assert [] + a + ['-'] == p1;
    }
    var p2 := p1 + b + "-";
    assert StripDashesColons(p2) == a + b by {
      StripStep(p1, b, '-');
    }
    var p3 := p2 + c + "T";
    assert StripDashesColons(p3) == a + b + c + "T" by {
      StripStep(p2, c, 'T');
    }
    var p4 := p3 + d + ":";
    assert StripDashesColons(p4) == a + b + c + "T" + d by {
      StripStep(p3, d, ':');
    }
    var p5 := p4 + e + ":";
    assert StripDashesColons(p5) == a + b + c + "T" + d + e by {
      StripStep(p4, e, ':');
    }
    var p6 := p5 + f + ".";
    assert StripDashesColons(p6) == a + b + c + "T" + d + e + f + "." by {
      StripStep(p5, f, '.');
    }
    assert StripDashesColons(p6 + ms + "Z") == a + b + c + "T" + d + e + f + "." + ms + "Z" by {
      StripStep(p6, ms, 'Z');
    }
  }

  // ---------------------------------------------------------------------------
  // The calendar event
  // ---------------------------------------------------------------------------

  /** Moving a time value within its own day keeps the day and shifts the time of day. */
  lemma SameDay(t: int, k: int)
    requires 0 <= TimeInDay(t) + k < MsPerDay
    ensures DayOf(t + k) == DayOf(t)
    ensures TimeInDay(t + k) == TimeInDay(t) + k
  {
    var q := DayOf(t);
    assert t + k == q * MsPerDay + (TimeInDay(t) + k);
    assert (q * MsPerDay + (TimeInDay(t) + k)) / MsPerDay == q;
  }

  /** `setHours(hour, minute, 0, 0)`: the same day, at that time of day. */
  function AtTimeOfDay(date: int, t: ClockTime): (r: int)
    ensures ValidClockTime(t) ==>
      DayOf(r) == DayOf(date) && TimeInDay(r) == t.hour * MsPerHour + t.minute * MsPerMinute
  {
    var r := StartOfDay(date) + t.hour * MsPerHour + t.minute * MsPerMinute;
    if ValidClockTime(t) then
      SameDay(StartOfDay(date), t.hour * MsPerHour + t.minute * MsPerMinute);
      r
    else r
  }

  /** The singular for a group of one, the plural for any other size. */
  function PersonWord(groupSize: int): (w: string)
    ensures w == "person" <==> groupSize == 1
    ensures w == "people" <==> groupSize != 1
  {
    assert "people" != "person" by { assert "people"[4] != "person"[4]; }
    if groupSize == 1 then "person" else "people"
  }

  /** The group as the summary and the event describe it: the number and the noun. */
  function GroupLine(groupSize: int): string {
    IntToString(groupSize) + " " + PersonWord(groupSize)
  }

  function EventDescription(groupSize: int, bookingId: string): string {
    "Zipline Adventure for " + GroupLine(groupSize) + ". Booking ID: " + bookingId
  }

  /** The event's description ends with the booking id. */
  lemma DescriptionEndsWithId(groupSize: int, bookingId: string)
    ensures var s := EventDescription(groupSize, bookingId);
      |s| >= |bookingId| && s[|s| - |bookingId|..] == bookingId
  {
    var prefix := "Zipline Adventure for " + GroupLine(groupSize) + ". Booking ID: ";
    assert EventDescription(groupSize, bookingId) == prefix + bookingId;
  }

  datatype CalendarEvent = CalendarEvent(
    title: string, start: string, end: string, description: string, location: string)

  /**
   * What "Add to Calendar" does: nothing without a date or a slot, a calendar link for
   * the event otherwise. `Unsupported` stands for a slot whose numbers the model does
   * not read.
   */
  datatype CalendarRequest = NoEvent | Unsupported | Open(event: CalendarEvent)

  function AddToCalendar(data: BookingData, bookingId: string): (r: CalendarRequest)
    ensures r.NoEvent? <==> data.date.None? || data.timeSlot.None? || data.timeSlot == Some("")
    ensures r.Open? ==>
      (r.event.title == EventTitle && r.event.location == EventLocation
       && r.event.description == EventDescription(data.groupSize, bookingId))
  {
    if data.date.None? || data.timeSlot.None? || data.timeSlot.value == "" then NoEvent
    else
      match ParseSlot(data.timeSlot.value)
      case None => Unsupported
      case Some(t) => Open(EventAt(AtTimeOfDay(data.date.value, t), data.groupSize, bookingId))
  }

  /** The event that starts at `start` and lasts two hours. */
  function EventAt(start: int, groupSize: int, bookingId: string): CalendarEvent {
    CalendarEvent(EventTitle, CompactTimestamp(ToIsoString(start)),
      CompactTimestamp(ToIsoString(start + EventDuration)), EventDescription(groupSize, bookingId), EventLocation)
  }

  /** A whole-second time in the years 0..9999 survives the compact form unchanged. */
  lemma CompactRoundTrip(t: int)
    requires 0 <= FieldsOf(t).date.year <= 9999 && FieldsOf(t).millisecond == 0
    ensures IsUtcDateTime(CompactTimestamp(ToIsoString(t)))
    ensures ParseBasicUtc(CompactTimestamp(ToIsoString(t))) == Some(t)
  {
    var f := FieldsOf(t);
    CompactIsBasicUtc(f);
    BasicUtcRoundTrip(f);
    assert f.(millisecond := 0) == f;
  }

  /** A slot that reads as a time gives the event starting at that time of the booked day. */
  lemma EventOfSlot(data: BookingData, bookingId: string, t: ClockTime)
    requires data.date.Some? && data.timeSlot.Some? && data.timeSlot.value != ""
    requires ParseSlot(data.timeSlot.value) == Some(t)
    ensures AddToCalendar(data, bookingId) == Open(EventAt(AtTimeOfDay(data.date.value, t), data.groupSize, bookingId))
  {
  }

  /**
   * An event whose start and end are in the RFC 5545 basic UTC form and read back as
   * `start` and two hours later.
   */
  predicate TwoHourEvent(e: CalendarEvent, start: int) {
    && IsUtcDateTime(e.start) && IsUtcDateTime(e.end)
    && ParseBasicUtc(e.start) == Some(start)
    && ParseBasicUtc(e.end) == Some(start + EventDuration)
  }

  /**
   * An event that starts on a whole second, early enough in a day of the years 0..9999
   * to end that same day, has its start and end written in the RFC 5545 basic UTC
   * form, and they read back as its start and two hours later.
   */
  lemma SameDayEvent(start: int, seconds: int, groupSize: int, bookingId: string)
    requires TimeInDay(start) == seconds * MsPerSecond && TimeInDay(start) + EventDuration < MsPerDay
    requires 0 <= FieldsOf(start).date.year <= 9999
    ensures TwoHourEvent(EventAt(start, groupSize, bookingId), start)
  {
    var end := start + EventDuration;
    SameDay(start, EventDuration);
    assert FieldsOf(end).date == FieldsOf(start).date;
    WholeSecond(start, seconds);
    WholeSecond(end, seconds + 7200);
    CompactRoundTrip(start);
    CompactRoundTrip(end);
  }

  /**
   * For an offered slot on a date in the years 0..9999 the link opens an event that
   * starts on the booked day at the slot's time and ends two hours later, both
   * written in the RFC 5545 basic UTC form.
   */
  lemma OfferedSlotEvent(data: BookingData, bookingId: string, i: int)
    requires data.date.Some? && 0 <= i < 6 && data.timeSlot == Some(DateTimeSelection.TimeSlots[i])
    requires 0 <= CivilFromDays(DayOf(data.date.value)).year <= 9999
    ensures AddToCalendar(data, bookingId).Open?
    ensures DayOf(AtTimeOfDay(data.date.value, OfferedTimes[i])) == DayOf(data.date.value)
    ensures TwoHourEvent(AddToCalendar(data, bookingId).event, AtTimeOfDay(data.date.value, OfferedTimes[i]))
  {
    OfferedSlotOpens(data, bookingId, i);
    OfferedSlotFits(data.date.value, i, data.groupSize, bookingId);
  }

  lemma OfferedSlotOpens(data: BookingData, bookingId: string, i: int)
    requires data.date.Some? && 0 <= i < 6 && data.timeSlot == Some(DateTimeSelection.TimeSlots[i])
    ensures AddToCalendar(data, bookingId)
      == Open(EventAt(AtTimeOfDay(data.date.value, OfferedTimes[i]), data.groupSize, bookingId))
  {
    OfferedSlotParses(i);
    EventOfSlot(data, bookingId, OfferedTimes[i]);
  }

  lemma OfferedSlotParses(i: int)
    requires 0 <= i < 6
    ensures DateTimeSelection.TimeSlots[i] != ""
    ensures ParseSlot(DateTimeSelection.TimeSlots[i]) == Some(OfferedTimes[i])
  {
    assert |DateTimeSelection.TimeSlots[i]| > 0;
    OfferedSlotsParse();
  }

  lemma OfferedSlotFits(date: int, i: int, groupSize: int, bookingId: string)
    requires 0 <= i < 6 && 0 <= CivilFromDays(DayOf(date)).year <= 9999
    ensures DayOf(AtTimeOfDay(date, OfferedTimes[i])) == DayOf(date)
    ensures TwoHourEvent(EventAt(AtTimeOfDay(date, OfferedTimes[i]), groupSize, bookingId),
      AtTimeOfDay(date, OfferedTimes[i]))
  {
    var t := OfferedTimes[i];
    var start := AtTimeOfDay(date, t);
    OfferedTimeFits(t);
    assert FieldsOf(start).date == CivilFromDays(DayOf(date));
    SameDayEvent(start, t.hour * 3600 + t.minute * 60, groupSize, bookingId);
  }

  /** Every offered slot starts on a whole minute and its event ends by 18:30, the same day. */
  lemma OfferedTimeFits(t: ClockTime)
    requires t in OfferedTimes
    ensures ValidClockTime(t)
    ensures t.hour * MsPerHour + t.minute * MsPerMinute == (t.hour * 3600 + t.minute * 60) * MsPerSecond
    ensures t.hour * MsPerHour + t.minute * MsPerMinute + EventDuration <= 18 * MsPerHour + 30 * MsPerMinute
  {
  }

  /** A time whose time of day is a whole number of seconds has no milliseconds. */
  lemma WholeSecond(t: int, seconds: int)
    requires TimeInDay(t) == seconds * MsPerSecond
    ensures FieldsOf(t).millisecond == 0
  {
    var ms := TimeInDay(t);
    assert ms % MsPerSecond == 0 by { WholeThousands(seconds); }
  }

  lemma WholeThousands(k: int)
    ensures (k * 1000) % 1000 == 0
  {
  }

  /** The "Total Paid" line: 89 dollars a person with 8% added, in cents. */
  function TotalPaidCents(groupSize: int): (r: int)
    ensures r == CheckoutScreen.QuoteFor(groupSize).total
  {
    89 * groupSize * 108
  }

  /** The confirmation shows as paid exactly the total the checkout showed. */
  lemma TotalPaidMatchesCheckout(groupSize: int)
    ensures "$" + FormatCents(TotalPaidCents(groupSize)) == CheckoutScreen.TotalLine(groupSize)
  {
  }
}
