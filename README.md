# Zipline booking: a verified model of the booking flow

This project models the booking part of a single-page web app that sells rides on a
zipline. The app shows one of three views: a hero page, the booking flow and a
profile page. The booking flow has four steps:

1. **Date and time.** A calendar disables past days, weekends and three maintenance
   days in a rolling 30-day window. Six fixed start times are offered.
2. **Details.** A form checks name, email, phone and group size. It builds an error
   map, and submits only when the map is empty.
3. **Checkout.** The price is 89 dollars a person plus 8% tax. The pay button charges
   the displayed total.
4. **Confirmation.** The screen summarises the booking and builds a calendar event.
   The event's start and end are written as compact UTC timestamps.

The profile page splits the user's bookings into an "upcoming" list and a "past" list.
It shows their counts, and gives each booking a status badge and action buttons.

Modules follow the source files:

- `App` (`app.dfy`): the root view switcher. A class whose booking flow exists only
  while the booking view is shown.
- `BookingFlow` (`booking_flow.dfy`): the step machine. The class `Flow` keeps the
  current step, the draft booking, the payments still waiting for their timer and the
  booking id. Its invariant: past the first step the draft has a date and a slot; from
  checkout on, and while a payment is pending, it also has contact details that pass
  every form rule.
- `BookingDraft` (`booking_data.dfy`): the draft booking record and its initial value.
- `DateTimeSelection` (`datetime_selection.dfy`): the blocked-days loop, the calendar's
  disabled test, and the picker's state as a class.
- `BookingForm` (`booking_form.dfy`): the four validation rules, the two regular
  expressions as predicates, and the form's state as a class.
- `CheckoutScreen`, `ConfirmationScreen`, `ProfilePage`: pure functions and lemmas over
  the booking data.
- `JsText` and `JsDate`: the parts of the JavaScript runtime the components rely on.
  - `JsText`: `trim`, `\s`, `split`, `Number` on digit strings, `String(n)` and
    `toFixed(2)` on amounts held in cents.
  - `JsDate`: time values in milliseconds, the proleptic Gregorian calendar,
    `setHours`, `getDay` and `toISOString`.
- `Optional`: the Option type.

Money is held exactly in integer cents. Time values are integers counting milliseconds
since 1970-01-01T00:00:00Z. Local time is taken to be UTC.

## Model

| member | source | states |
|---|---|---|
| JsText.TrimStart | src/components/BookingForm.tsx:28 | the result is a suffix of the input; everything dropped is white space; the result does not start with white space |
| JsText.TrimEnd | src/components/BookingForm.tsx:28 | the result is a prefix of the input; everything dropped is white space; the result does not end with white space |
| JsText.Trim | src/components/BookingForm.tsx:28-38 | the trimmed text is empty exactly when the input is all white space; otherwise it neither starts nor ends with white space |
| JsText.Split | src/components/ConfirmationScreen.tsx:28-29 | there is always at least one piece; the first piece is a prefix of the input; no piece contains the separator |
| JsText.JoinSplit | src/components/ConfirmationScreen.tsx:28-29 | joining the pieces with the separator gives back the original string |
| JsText.SplitJoin | src/components/ConfirmationScreen.tsx:28-29 | splitting a join of separator-free pieces gives back those pieces |
| JsText.DecimalRoundTrip | src/components/ConfirmationScreen.tsx:29 | reading back the decimal notation of a number gives the number |
| JsText.DecimalRoundTripString | src/components/ConfirmationScreen.tsx:29 | a digit string without a leading zero is the notation of its own value |
| JsText.ToNumber | src/components/ConfirmationScreen.tsx:29 | `Number` of a blank string is 0; `Number` of a digit string is its decimal value |
| JsText.IntToString | src/components/ConfirmationScreen.tsx:42 | an integer is written as digits that read back as its value, after a '-' when it is negative |
| JsText.ZeroPad | src/components/ConfirmationScreen.tsx:40-41 | the padded field is all digits, has exactly the requested width when the value fits, and reads back as the value |
| JsText.FormatCentsRoundTrip | src/components/CheckoutScreen.tsx:65-73 | a displayed amount reads back as exactly the cents it was made from |
| JsText.FormatCents | src/components/CheckoutScreen.tsx:65-73 | two decimals after a point; FormatCentsRoundTrip reads it back as the cents |
| JsDate.TimeInDay | src/components/DateTimeSelection.tsx:55-59 | the time of day lies in [0, one day) and, with the day number, rebuilds the time value |
| JsDate.StartOfDay | src/components/DateTimeSelection.tsx:56-57 | midnight of the same calendar day, at or before the time value and less than a day before it |
| JsDate.BeforeStartOfDay | src/components/DateTimeSelection.tsx:55-59 | a time lies before today's midnight exactly when its calendar day is earlier than today |
| JsDate.Weekday | src/components/DateTimeSelection.tsx:31 | the day of the week is in 0..6; WeekdayAnchors and WeekdayPeriodic fix which day is which |
| JsDate.WeekdayPeriodic | src/components/DateTimeSelection.tsx:31 | the day of the week repeats every seven days |
| JsDate.WeekdayAnchors | src/components/DateTimeSelection.tsx:31 | day 0 is 1970-01-01, a Thursday (4); 2024-12-25 is a Wednesday (3) and 2025-09-20 a Saturday (6), so 0 is Sunday and 6 Saturday |
| JsDate.YearStartStep | src/components/ConfirmationScreen.tsx:40-41 | each year starts exactly one year length after the previous one |
| JsDate.CivilFromDays | src/components/ConfirmationScreen.tsx:40-41 | every day number has a valid calendar date that names that same day |
| JsDate.CivilRoundTrip | src/components/ConfirmationScreen.tsx:40-41 | every valid calendar date is the date of exactly one day number |
| JsDate.FieldsOf | src/components/ConfirmationScreen.tsx:40-41 | the broken-down UTC fields are in range and name the time value they came from |
| JsDate.ToIsoString | src/components/ConfirmationScreen.tsx:40-41 | specified by CompactIsBasicUtc and CompactRoundTrip, through IsoOfFields |
| JsDate.IsoOfFields | src/components/ConfirmationScreen.tsx:40-41 | specified by CompactIsBasicUtc: for years 0..9999, compacting it gives the basic form of the same fields |
| DateTimeSelection.AddDays | src/components/DateTimeSelection.tsx:27-28 | moving a date on by i days moves its calendar day by i and keeps its time of day |
| DateTimeSelection.GetBlockedDates | src/components/DateTimeSelection.tsx:21-42 | each entry is a blocked day at today's time of day, and every day the rule closes in the 30 days from today has an entry |
| DateTimeSelection.BlockedIffRule | src/components/DateTimeSelection.tsx:49-53 | with that list, a date counts as blocked exactly when the rule closes its calendar day |
| DateTimeSelection.IsDateBlocked | src/components/DateTimeSelection.tsx:49-53 | specified by BlockedIffRule |
| DateTimeSelection.IsDateBeforeToday | src/components/DateTimeSelection.tsx:55-59 | specified by BeforeStartOfDay and DisabledDates |
| DateTimeSelection.IsDisabled | src/components/DateTimeSelection.tsx:79 | specified by DisabledDates and DisabledByDay |
| DateTimeSelection.DisabledDates | src/components/DateTimeSelection.tsx:79 | a date is disabled exactly when its day is before today or closed; every earlier day is disabled; every day from today + 30 on is selectable; inside the window a day is disabled exactly when it is a weekend or a maintenance day |
| DateTimeSelection.DisabledByDay | src/components/DateTimeSelection.tsx:49-59 | two times on the same calendar day are disabled alike |
| DateTimeSelection.DateTimePicker.constructor | src/components/DateTimeSelection.tsx:45-47 | the picker mounts with nothing selected and the blocked list for now |
| DateTimeSelection.DateTimePicker.SelectDate | src/components/DateTimeSelection.tsx:76-79 | a disabled date cannot be selected; clearing is allowed; the chosen slot is kept |
| DateTimeSelection.DateTimePicker.SelectTimeSlot | src/components/DateTimeSelection.tsx:107-114 | a slot can be picked only while the grid is shown, and only one of the six offered slots; the date is kept |
| DateTimeSelection.DateTimePicker.ShowsTimeSlots | src/components/DateTimeSelection.tsx:107 | the grid is shown for a selected date that is not blocked; SelectTimeSlot requires it |
| DateTimeSelection.DateTimePicker.CanProceed | src/components/DateTimeSelection.tsx:61 | specified by HandleNext: the selection is handed on exactly when it holds |
| DateTimeSelection.DateTimePicker.HandleNext | src/components/DateTimeSelection.tsx:61-67 | the selection is handed on exactly when a date and a non-empty slot are chosen; what is handed on is a selectable date and an offered slot |
| BookingForm.EmailTestMatchesPattern | src/components/BookingForm.tsx:34 | the email test holds exactly when `\S+@\S+\.\S+` matches somewhere in the text |
| BookingForm.PhoneTestMatchesPattern | src/components/BookingForm.tsx:40 | the phone test holds exactly when `^\+?[\d\s\-\(\)]+$` matches the whole text |
| BookingForm.EmailLooksValid | src/components/BookingForm.tsx:34 | specified by EmailTestMatchesPattern |
| BookingForm.PhoneLooksValid | src/components/BookingForm.tsx:40 | specified by PhoneTestMatchesPattern |
| BookingForm.Assess | src/components/BookingForm.tsx:28-44 | specified by RuleMeanings, through ValidationErrors |
| BookingForm.ValidationErrors | src/components/BookingForm.tsx:25-50 | specified by ErrorsFollowRules, RuleMeanings and NoErrorsIffAcceptable |
| BookingForm.ErrorsFollowRules | src/components/BookingForm.tsx:25-46 | each field has an entry exactly when its own rule fails, and the entry holds that rule's message |
| BookingForm.RuleMeanings | src/components/BookingForm.tsx:28-46 | per field, in terms of white space, the two patterns and the range 1..12: when the field has an error, and which message it gets ("required" before "invalid") |
| BookingForm.NoErrorsIffAcceptable | src/components/BookingForm.tsx:48-49 | the error map is empty exactly when all four rules accept |
| BookingForm.MessagesNonEmpty | src/components/BookingForm.tsx:64 | every recorded message is non-empty, so testing `errors[field]` tests presence |
| BookingForm.WithField | src/components/BookingForm.tsx:61 | the edited field takes the new value and every other field keeps its value |
| BookingForm.GroupSizeOptionsInRange | src/components/BookingForm.tsx:137 | the select offers exactly the sizes 1..12, so a size picked from it never fails the range rule |
| BookingForm.SizeInRangeAccepted | src/components/BookingForm.tsx:44-46 | a group size in 1..12 gets no group-size error |
| BookingForm.RecordErrors | src/components/BookingForm.tsx:26-46 | the map built rule by rule is the error map of the rules' verdicts |
| BookingForm.Form.constructor | src/components/BookingForm.tsx:22-23 | the form starts with the given details and no errors |
| BookingForm.Form.ValidateForm | src/components/BookingForm.tsx:25-50 | the errors become the error map of the current details, and the result is true exactly when every rule accepts |
| BookingForm.Form.HandleSubmit | src/components/BookingForm.tsx:52-58 | the current details are submitted exactly when every rule accepts; the errors are refreshed |
| BookingForm.Form.UpdateField | src/components/BookingForm.tsx:60-71 | one field changes and exactly that field's error is removed |
| CheckoutScreen.QuoteFor | src/components/CheckoutScreen.tsx:21-26 | subtotal is 89 dollars a person; tax is exactly 8% of the subtotal; the total is their sum, 96.12 dollars a person |
| CheckoutScreen.TotalIncreasing | src/components/CheckoutScreen.tsx:24-26 | for accepted group sizes the total is positive, and a larger group pays more |
| CheckoutScreen.PayButtonShowsTotal | src/components/CheckoutScreen.tsx:73-126 | the pay button's caption is "PAY " and the displayed total, and its amount reads back as the total |
| CheckoutScreen.ThreePeople | src/components/CheckoutScreen.tsx:65-73 | for three people the screen shows 267.00, 21.36 and 288.36 |
| CheckoutScreen.TotalLine | src/components/CheckoutScreen.tsx:73 | specified by PayButtonShowsTotal and TotalPaidMatchesCheckout |
| CheckoutScreen.PayButtonLabel | src/components/CheckoutScreen.tsx:126 | specified by PayButtonShowsTotal |
| ConfirmationScreen.ClockHour | src/components/ConfirmationScreen.tsx:31-33 | the 12-hour reading of an hour is in 1..12, and its period is AM exactly before noon |
| ConfirmationScreen.Hour24RoundTrip | src/components/ConfirmationScreen.tsx:31-33 | the AM/PM conversion sends each 12-hour reading to an hour in 0..23, and back |
| ConfirmationScreen.ClockHourRoundTrip | src/components/ConfirmationScreen.tsx:31-33 | every hour 0..23 is the conversion of its own 12-hour reading |
| ConfirmationScreen.Hour24 | src/components/ConfirmationScreen.tsx:31-33 | without a period the hour is unchanged; 12 AM is 0 and other AM hours stay; 12 PM is 12 and other PM hours gain 12 |
| ConfirmationScreen.ParseSlot | src/components/ConfirmationScreen.tsx:28-35 | specified by ReadSlot, MissingMinutes and ParseSlotLabel |
| ConfirmationScreen.MissingMinutes | src/components/ConfirmationScreen.tsx:28-35 | a label with no minutes, "hours period", reads as that hour on the hour (`minutes \|\| 0`) |
| ConfirmationScreen.ReadSlot | src/components/ConfirmationScreen.tsx:28-33 | a label "hours:minutes period" with digit numbers reads as those numbers, with the hour converted to 24-hour time |
| ConfirmationScreen.ParseSlotLabel | src/components/ConfirmationScreen.tsx:28-35 | reading a slot label gives back the time it was written from |
| ConfirmationScreen.OfferedLabels | src/components/DateTimeSelection.tsx:11-18 | the six offered labels are the slot labels of 9:00, 10:30, 12:00, 13:30, 15:00 and 16:30 |
| ConfirmationScreen.OfferedSlotsParse | src/components/ConfirmationScreen.tsx:28-35 | each offered slot reads back as its start time |
| ConfirmationScreen.StripRemoves | src/components/ConfirmationScreen.tsx:40 | removing dashes and colons leaves none, and keeps every other character |
| ConfirmationScreen.StripDashesColons | src/components/ConfirmationScreen.tsx:40 | specified by StripRemoves, StripConcat and StripKeeps: no dash or colon remains; stripping a concatenation strips each part, and a character other than a dash or colon is kept, so every other character stays in order and as often as it occurred |
| ConfirmationScreen.CompactTimestamp | src/components/ConfirmationScreen.tsx:40-41 | the compact form ends in "Z" and has no '-' or ':', and no '.' before the final "Z" |
| ConfirmationScreen.BasicUtc | src/components/ConfirmationScreen.tsx:40-41 | broken-down fields written to the second have the form of section 3.3.5 of RFC 5545: 8 digits, "T", 6 digits, "Z" |
| ConfirmationScreen.BasicUtcRoundTrip | src/components/ConfirmationScreen.tsx:40-41 | reading the basic form back gives the time without its milliseconds |
| ConfirmationScreen.CompactIsBasicUtc | src/components/ConfirmationScreen.tsx:40-41 | for years 0..9999 the compact form of an ISO timestamp is exactly the basic form |
| ConfirmationScreen.CompactRoundTrip | src/components/ConfirmationScreen.tsx:40-41 | a whole-second time in years 0..9999 survives the compact form unchanged |
| ConfirmationScreen.AtTimeOfDay | src/components/ConfirmationScreen.tsx:35 | setting a valid time of day keeps the calendar day, and the time of day becomes that time |
| ConfirmationScreen.PersonWord | src/components/ConfirmationScreen.tsx:42 | "person" exactly for a group of one, and "people" for any other size |
| ConfirmationScreen.DescriptionEndsWithId | src/components/ConfirmationScreen.tsx:42 | the event description ends with the booking id |
| ConfirmationScreen.EventDescription | src/components/ConfirmationScreen.tsx:42 | specified by DescriptionEndsWithId and PersonWord |
| ConfirmationScreen.EventAt | src/components/ConfirmationScreen.tsx:36-44 | specified by SameDayEvent: start and end in basic form, reading back as the start and two hours later |
| ConfirmationScreen.AddToCalendar | src/components/ConfirmationScreen.tsx:23-44 | no event exactly when the date or the slot is missing or the slot is empty; an event has the fixed title, location and description |
| ConfirmationScreen.SameDayEvent | src/components/ConfirmationScreen.tsx:35-41 | a whole-second start that ends the same day gives start and end in basic form, and they read back as the start and two hours later |
| ConfirmationScreen.OfferedSlotEvent | src/components/ConfirmationScreen.tsx:23-44 | for every offered slot the link opens an event on the booked day at the slot's time, lasting two hours, both ends in basic form |
| ConfirmationScreen.TotalPaidCents | src/components/ConfirmationScreen.tsx:119 | the "Total Paid" amount is the checkout's total |
| ConfirmationScreen.TotalPaidMatchesCheckout | src/components/ConfirmationScreen.tsx:119 | the confirmation shows the same total text as the checkout |
| ProfilePage.WithStatus | src/components/ProfilePage.tsx:64-65 | the filter keeps exactly the bookings with a listed status, and is no longer than the input |
| ProfilePage.UpcomingBookings | src/components/ProfilePage.tsx:64 | holds exactly the bookings with status upcoming |
| ProfilePage.PastBookings | src/components/ProfilePage.tsx:65 | holds exactly the bookings with status completed or cancelled |
| ProfilePage.CompletedCount | src/components/ProfilePage.tsx:206 | specified by CompletedWithinPast |
| ProfilePage.InterleavesCounts | src/components/ProfilePage.tsx:64-65 | an order-preserving merge keeps every booking exactly once |
| ProfilePage.SplitByStatus | src/components/ProfilePage.tsx:64-65 | filtering by two complementary sets of statuses splits the list without reordering it |
| ProfilePage.UpcomingAndPastPartition | src/components/ProfilePage.tsx:64-65 | upcoming and past split the bookings: each appears once, in order, and the two tab counts add up to the total |
| ProfilePage.WithStatusTwice | src/components/ProfilePage.tsx:206 | filtering twice is filtering by the intersection of the two sets |
| ProfilePage.CompletedWithinPast | src/components/ProfilePage.tsx:198-208 | the "Completed" count is the number of completed bookings, at most the past count |
| ProfilePage.UpperCase | src/components/ProfilePage.tsx:94 | lower-case ASCII letters map to their capitals; every other character is unchanged |
| ProfilePage.Capitalize | src/components/ProfilePage.tsx:94 | the first character is upper-cased and the rest is unchanged |
| ProfilePage.StatusLabel | src/components/ProfilePage.tsx:94 | specified by StatusLabels and StatusLabelsDistinct |
| ProfilePage.StatusLabels | src/components/ProfilePage.tsx:94 | the badges read "Upcoming", "Completed" and "Cancelled" |
| ProfilePage.StatusLabelsDistinct | src/components/ProfilePage.tsx:94 | different statuses get different badges |
| ProfilePage.MockTabCounts | src/components/ProfilePage.tsx:33-58 | with the sample bookings the tabs show 1 upcoming and 2 past bookings, 2 of them completed |
| ProfilePage.Actions | src/components/ProfilePage.tsx:125-157 | reschedule and cancel exactly for upcoming bookings, book again exactly for completed ones, and no button exactly for cancelled ones |
| BookingFlow.StepIndex | src/components/BookingFlow.tsx:26 | the steps are numbered 0..3, from date and time to confirmation |
| BookingFlow.StepTitle | src/components/BookingFlow.tsx:55-63 | specified by StepTitlesDistinct |
| BookingFlow.BackStep | src/components/BookingFlow.tsx:65-80 | specified by BackMovesOneStep |
| BookingFlow.StepAfterClick | src/components/BookingFlow.tsx:82-99 | specified by StepClickNeverAdvances |
| BookingFlow.ShowsBackButton | src/components/BookingFlow.tsx:106 | specified by BackButtonWithProgress |
| BookingFlow.BackButtonWithProgress | src/components/BookingFlow.tsx:106-121 | the back arrow is shown exactly when the progress bar is, on every step but the confirmation |
| BookingFlow.ProgressOf | src/components/BookingFlow.tsx:121-170 | specified by ProgressOnlyGrows and BackButtonWithProgress |
| BookingFlow.StepTitlesDistinct | src/components/BookingFlow.tsx:55-63 | each step has its own title |
| BookingFlow.BackMovesOneStep | src/components/BookingFlow.tsx:65-80 | back leaves the flow exactly from the first step, goes back exactly one step from the middle steps, and never leaves the confirmation |
| BookingFlow.StepClickNeverAdvances | src/components/BookingFlow.tsx:82-99 | an indicator click never moves forward: it goes to the earlier clicked step or does nothing; clicking checkout does nothing |
| BookingFlow.ProgressOnlyGrows | src/components/BookingFlow.tsx:121-170 | checked circles stay checked as the flow moves forward; the payment circle is lit exactly on checkout |
| BookingFlow.WithContact | src/components/BookingFlow.tsx:42-45 | the draft takes the submitted contact details and keeps its date and slot |
| BookingFlow.WithOwnContact | src/components/BookingFlow.tsx:182-191 | writing back the contact details read from the draft leaves the draft as it was |
| BookingFlow.Flow.constructor | src/components/BookingFlow.tsx:26-35 | the flow starts on the first step, with the initial draft, no pending payment and the given id |
| BookingFlow.Flow.HandleDateTimeNext | src/components/BookingFlow.tsx:37-40 | stores the date and the slot, nothing else, and moves to the details step |
| BookingFlow.Flow.HandleFormSubmit | src/components/BookingFlow.tsx:42-45 | stores the contact details, keeps the date and slot, and moves to checkout |
| BookingFlow.Flow.StartPayment | src/components/CheckoutScreen.tsx:28-33 | each pay click starts one more pending payment, on the checkout step, and changes nothing else |
| BookingFlow.Flow.HandlePayment | src/components/BookingFlow.tsx:47-49 | a pending payment's timer moves the flow to the confirmation from any step, consumes that payment and changes no booking data |
| BookingFlow.Flow.PayThenGoBack | src/components/CheckoutScreen.tsx:28-33 | paying and then pressing back before the timer fires still ends on the confirmation, with the draft unchanged |
| BookingFlow.Flow.HandleBackNavigation | src/components/BookingFlow.tsx:65-80 | exits exactly from the first step, otherwise takes one step back; the draft is unchanged |
| BookingFlow.Flow.HandleStepClick | src/components/BookingFlow.tsx:82-99 | the step becomes the click's outcome and the draft is unchanged |
| BookingFlow.Flow.OpenDetailsForm | src/components/BookingFlow.tsx:182-191 | the details form is mounted with the draft's contact details and no errors |
| BookingFlow.Flow.ContinueFromPicker | src/components/BookingFlow.tsx:178-179 | continue moves to details exactly when the picker can proceed, storing a selectable date and an offered slot |
| BookingFlow.Flow.SubmitDetails | src/components/BookingFlow.tsx:182-191 | submitting moves to checkout with the form's details exactly when they pass every rule; otherwise nothing moves |
| BookingFlow.Flow.ReviewDetailsAgain | src/components/BookingFlow.tsx:65-80 | going back from checkout and resubmitting the unedited form returns to checkout with the draft unchanged |
| App.App.constructor | src/App.tsx:11 | the app opens on the hero view with no booking flow |
| App.App.SetView | src/App.tsx:38-54 | the view changes; entering booking mounts a new flow, staying keeps it, leaving unmounts it |
| App.App.HandleBookingClick | src/App.tsx:14-16 | shows the booking view with a new flow, or keeps the one already shown |
| App.App.HandleBackToHero | src/App.tsx:18-20 | shows the hero view; the flow is gone |
| App.App.HandleBookingComplete | src/App.tsx:22-24 | shows the profile view; the flow is gone |
| App.App.HandleNavigation | src/App.tsx:26-28 | shows the chosen view; choosing the view already shown changes nothing |
| App.App.FlowBack | src/App.tsx:45-50 | the flow's back arrow goes one step back, or to the hero view from the first step |
| App.App.FlowComplete | src/App.tsx:45-50 | finishing the confirmation shows the profile and unmounts the flow |

## Left out

- The wall clock is a parameter. The booking id (`ZL-` and `Date.now()`) is a string
  given to the flow's constructor. "Today" for the picker is a time value given to its
  constructor, and the model keeps that "today" and the blocked list fixed while the
  picker is mounted. The source recomputes both on every render and on every
  `isDateBeforeToday` call, so across midnight a date selected earlier can become
  disabled and still be handed on by `handleNext`. DateTimeSelection.DateTimePicker.HandleNext
  guarantees a selectable date only under this fixed clock.
- Time zones are left out: local time is taken to be UTC, so `setHours`, `getDay` and
  `toDateString` act on UTC fields.
- Locale-dependent date text (`toLocaleDateString`) is not modelled.
- JavaScript `Date` limits are not modelled: time values are unbounded integers. The
  compact timestamp is related to the RFC 5545 form only for years 0..9999.
- Floating point is not modelled. All amounts are exact integer cents. `89 * n * 0.08`
  and `toFixed(2)` are modelled as their exact decimal values.
- JsText.ToNumber: it computes `Number` only for blank and plain-digit strings. Signs,
  fractions, exponents, hexadecimal, "Infinity" and NaN are reported as `Unparsed`.
  ConfirmationScreen.AddToCalendar maps that to `Unsupported`. So the model does not
  follow `minutes || 0` turning NaN minutes into 0, nor the invalid date a NaN hour
  would give.
- Browser side effects are left out: `window.open`, the calendar URL with
  `encodeURIComponent`, `navigator.share`, the clipboard, `alert` and `confirm`. They
  only display or send text.
- The share and email buttons and the profile's reschedule, cancel and book-again
  handlers only show messages, so only which buttons appear is modelled.
- The 2-second delay itself is left out. What is modelled: each pay click starts a
  pending payment (BookingFlow.Flow.StartPayment), and BookingFlow.Flow.HandlePayment is
  the moment one fires. The timer is never cleared, so a pending payment moves the flow
  to the confirmation from whatever step it is on. Paying and then going back still
  ends on the confirmation (BookingFlow.Flow.PayThenGoBack). Paying twice fires the
  handler twice.
- A timer that fires after the booking view is left is not modelled: the flow is
  unmounted and React drops its state update.
- The calendar grid widget is not part of this model; only its `disabled` predicate
  and its `onSelect` are. The hero, navigation bars, layout and performance helper are
  presentation only.
- BookingFlow.Flow.HandleFormSubmit and BookingFlow.Flow.StartPayment require the
  step that shows the calling screen. HandleFormSubmit also requires details that pass
  the form's rules, because only the form calls it, and only after validating.
- DateTimeSelection.DateTimePicker.SelectTimeSlot requires the grid to be shown and
  one of the six offered slots, because only those buttons exist.
- The blocking rule: a 30-day window from today, with weekends and the 5th, 12th and 23rd
  day after today blocked.
- Duplicate blocked entries are allowed. A maintenance day on a weekend is pushed
  twice; only membership matters.
- BookingFlow.Flow.HandleStepClick is modelled although no element of the markup
  calls `handleStepClick`.
- Sample prices: the profile's sample amounts for 2 and 4 people (192.96 and 385.92)
  are not what the checkout charges (192.24 and 384.48). The sample list is kept as
  data only; no property of the page depends on it.
