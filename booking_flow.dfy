/**
 * The booking flow: four steps in a fixed order (date and time, contact details,
 * checkout, confirmation), a draft booking filled in along the way, back and
 * step-indicator navigation that only ever move backwards, and a booking id fixed
 * when the flow is created.
 */
module BookingFlow {
  import opened Optional
  import opened BookingDraft
  import BookingForm
  import DateTimeSelection

  datatype Step = Datetime | Details | Checkout | Confirmation

  /** The position of a step in the flow. */
  function StepIndex(s: Step): (i: nat)
    ensures i < 4
    ensures i == 0 <==> s == Datetime
    ensures i == 3 <==> s == Confirmation
  {
    match s
    case Datetime => 0
    case Details => 1
    case Checkout => 2
    case Confirmation => 3
  }

  /** The header title of each step. */
  function StepTitle(s: Step): string {
    match s
    case Datetime => "Select Date & Time"
    case Details => "Your Details"
    case Checkout => "Checkout"
    case Confirmation => "Confirmation"
  }

  /** Every step has its own title. */
  lemma StepTitlesDistinct(a: Step, b: Step)
    requires StepTitle(a) == StepTitle(b)
    ensures a == b
  {
    assert "Checkout"[1] != "Confirmation"[1];
  }

  /** Where the back arrow leads from a step; None: out of the flow, to the previous view. */
  function BackStep(s: Step): Option<Step> {
    match s
    case Datetime => None
    case Details => Some(Datetime)
    case Checkout => Some(Details)
    case Confirmation => Some(Confirmation)
  }

  /**
   * Back leaves the flow exactly from the first step, goes back exactly one step from
   * the two middle steps, and cannot leave the confirmation.
   */
  lemma BackMovesOneStep(s: Step)
    ensures BackStep(s).None? <==> s == Datetime
    ensures BackStep(s).Some? && s != Confirmation ==> StepIndex(BackStep(s).value) + 1 == StepIndex(s)
    ensures s == Confirmation ==> BackStep(s) == Some(s)
  {
  }

  /** The step after a click on a step indicator: only earlier steps can be reached. */
  function StepAfterClick(current: Step, target: Step): Step
    requires target != Confirmation
  {
    match target
    case Datetime => if current == Details || current == Checkout then Datetime else current
    case Details => if current == Checkout then Details else current
    case Checkout => current
  }

  /**
   * An indicator click never moves forward: it either goes to the clicked, earlier
   * step or does nothing. Clicking checkout, or clicking anything on the confirmation
   * step, does nothing.
   */
  lemma StepClickNeverAdvances(current: Step, target: Step)
    requires target != Confirmation
    ensures StepIndex(StepAfterClick(current, target)) <= StepIndex(current)
    ensures StepAfterClick(current, target) == current
      || (StepAfterClick(current, target) == target && StepIndex(target) < StepIndex(current))
    ensures target == Checkout || current == Confirmation ==> StepAfterClick(current, target) == current
  {
  }

  /** The back arrow and the progress bar are shown on every step but the confirmation. */
  predicate ShowsBackButton(s: Step) {
    s != Confirmation
  }

  /** The progress bar: whether the first two circles show a check and whether the third is lit. */
  datatype Progress = Progress(dateChecked: bool, detailsChecked: bool, paymentLit: bool)

  function ProgressOf(s: Step): Option<Progress> {
    if s == Confirmation then None
    else Some(Progress(s != Datetime, s != Datetime, s == Checkout))
  }

  /** The back arrow and the progress bar come and go together. */
  lemma BackButtonWithProgress(s: Step)
    ensures ShowsBackButton(s) <==> ProgressOf(s).Some?
  {
  }

  /** Circles that show a check stay checked as the flow moves forward. */
  lemma ProgressOnlyGrows(a: Step, b: Step)
    requires StepIndex(a) <= StepIndex(b) && ProgressOf(a).Some? && ProgressOf(b).Some?
    ensures ProgressOf(a).value.dateChecked ==> ProgressOf(b).value.dateChecked
    ensures ProgressOf(a).value.detailsChecked ==> ProgressOf(b).value.detailsChecked
    ensures ProgressOf(b).value.paymentLit <==> b == Checkout
  {
  }

  /** The contact part of the draft, as the details form edits it. */
  function ContactOf(d: BookingData): BookingForm.FormData {
    BookingForm.FormData(d.name, d.email, d.phone, d.groupSize)
  }

  /** The draft with its contact part replaced and its date and slot kept. */
  function WithContact(d: BookingData, c: BookingForm.FormData): (r: BookingData)
    ensures ContactOf(r) == c
    ensures r.date == d.date && r.timeSlot == d.timeSlot
  {
    d.(name := c.name, email := c.email, phone := c.phone, groupSize := c.groupSize)
  }

  /** Writing back the contact details read from a draft leaves the draft as it was. */
  lemma WithOwnContact(d: BookingData)
    ensures WithContact(d, ContactOf(d)) == d
  {
  }

  class Flow {
    var step: Step
    var data: BookingData
    /**
     * Payments started on the checkout screen whose timer has not fired yet. The timer
     * is never cleared, so a payment stays pending whatever step the flow moves to.
     */
    var paymentsPending: nat
    /** Fixed when the flow is created, from the clock at that moment. */
    const bookingId: string

    /**
     * Past the first step the draft has a date and a slot; from checkout on, its
     * contact details passed every rule of the form. A pending payment was started
     * on checkout, so the same holds while one is pending.
     */
    ghost predicate Valid()
      reads this
    {
      && (step != Datetime ==> data.date.Some? && data.timeSlot.Some?)
      && (step == Checkout || step == Confirmation || paymentsPending > 0 ==>
            data.date.Some? && data.timeSlot.Some? && BookingForm.Acceptable(ContactOf(data)))
    }

    /** A new flow: first step, nothing chosen, empty contact details, one person. */
    constructor (bookingId: string)
      ensures Valid()
      ensures step == Datetime && data == InitialData && paymentsPending == 0
      ensures this.bookingId == bookingId
    {
      step := Datetime;
      data := InitialData;
      paymentsPending := 0;
      this.bookingId := bookingId;
    }

    /** `handleDateTimeNext`: stores the date and the slot, nothing else, and moves to the details. */
    method HandleDateTimeNext(date: int, timeSlot: string)
      requires Valid()
      modifies this
      ensures Valid()
      ensures step == Details
      ensures data == old(data).(date := Some(date), timeSlot := Some(timeSlot))
      ensures paymentsPending == old(paymentsPending)
    {
      data := data.(date := Some(date), timeSlot := Some(timeSlot));
      step := Details;
    }

    /**
     * `handleFormSubmit`: stores the contact details, keeps the date and the slot and
     * moves to checkout. The form is shown only on the details step and submits only
     * details that pass its rules.
     */
    method HandleFormSubmit(contact: BookingForm.FormData)
      requires Valid() && step == Details && BookingForm.Acceptable(contact)
      modifies this
      ensures Valid()
      ensures step == Checkout
      ensures data == WithContact(old(data), contact)
      ensures paymentsPending == old(paymentsPending)
    {
      data := WithContact(data, contact);
      step := Checkout;
    }

    /**
     * The pay button on the checkout screen: starts a payment whose timer will call
     * `handlePayment`. The button stays enabled, so each click starts another one.
     */
    method StartPayment()
      requires Valid() && step == Checkout
      modifies this
      ensures Valid()
      ensures paymentsPending == old(paymentsPending) + 1
      ensures step == old(step) && data == old(data)
    {
      paymentsPending := paymentsPending + 1;
    }

    /**
     * `handlePayment`, run when a pending payment's timer fires: it always succeeds,
     * moves to the confirmation from whatever step the flow is on, and changes no
     * booking data.
     */
    method HandlePayment()
      requires Valid() && paymentsPending > 0
      modifies this
      ensures Valid()
      ensures step == Confirmation && data == old(data)
      ensures paymentsPending == old(paymentsPending) - 1
    {
      paymentsPending := paymentsPending - 1;
      step := Confirmation;
    }

    /**
     * Paying and then pressing back before the timer fires still ends on the
     * confirmation, with the draft as it was at checkout.
     */
    method PayThenGoBack()
      requires Valid() && step == Checkout
      modifies this
      ensures Valid()
      ensures step == Confirmation && data == old(data)
      ensures paymentsPending == old(paymentsPending)
    {
      StartPayment();
      var exitFlow := HandleBackNavigation();
      assert step == Details;
      HandlePayment();
    }

    /** `handleBackNavigation`: one step back, or out of the flow from the first step. */
    method HandleBackNavigation() returns (exitFlow: bool)
      requires Valid()
      modifies this
      ensures Valid()
      ensures exitFlow <==> old(step) == Datetime
      ensures step == (if exitFlow then old(step) else BackStep(old(step)).value)
      ensures data == old(data) && paymentsPending == old(paymentsPending)
    {
      match step
      case Datetime =>
        exitFlow := true;
      case Details =>
        exitFlow := false;
        step := Datetime;
      case Checkout =>
        exitFlow := false;
        step := Details;
      case Confirmation =>
        exitFlow := false;
    }

    /** `handleStepClick`: only the checkout indicator and the earlier ones exist to click. */
    method HandleStepClick(target: Step)
      requires Valid() && target != Confirmation
      modifies this
      ensures Valid()
      ensures step == StepAfterClick(old(step), target)
      ensures data == old(data) && paymentsPending == old(paymentsPending)
    {
      match target
      case Datetime =>
        if step == Details || step == Checkout {
          step := Datetime;
        }
      case Details =>
        if step == Checkout {
          step := Details;
        }
      case Checkout =>
    }

    /** The details step mounts the form seeded with the draft's contact details. */
    method OpenDetailsForm() returns (form: BookingForm.Form)
      ensures fresh(form) && form.Valid()
      ensures form.formData == ContactOf(data) && form.errors == map[]
    {
      form := new BookingForm.Form(ContactOf(data));
    }

    /** Continue on the first step: the picker hands its selection to `handleDateTimeNext`. */
    method ContinueFromPicker(picker: DateTimeSelection.DateTimePicker)
      requires Valid() && step == Datetime && picker.Valid()
      modifies this
      ensures Valid()
      ensures picker.CanProceed() ==>
        step == Details
        && data == old(data).(date := picker.selectedDate, timeSlot := Some(picker.selectedTimeSlot))
        && data.timeSlot.value in DateTimeSelection.TimeSlots
        && !DateTimeSelection.IsDisabled(picker.now, picker.blockedDates, data.date.value)
      ensures !picker.CanProceed() ==> step == old(step) && data == old(data)
      ensures paymentsPending == old(paymentsPending)
    {
      var next := picker.HandleNext();
      if next.Some? {
        HandleDateTimeNext(next.value.0, next.value.1);
      }
    }

    /** Submit on the details step: the form hands valid details to `handleFormSubmit`. */
    method SubmitDetails(form: BookingForm.Form)
      requires Valid() && step == Details && form.Valid()
      modifies this, form
      ensures Valid() && form.Valid()
      ensures form.formData == old(form.formData)
      ensures form.errors == BookingForm.ValidationErrors(form.formData)
      ensures BookingForm.Acceptable(form.formData) ==>
        step == Checkout && data == WithContact(old(data), form.formData)
      ensures !BookingForm.Acceptable(form.formData) ==> step == Details && data == old(data)
      ensures paymentsPending == old(paymentsPending)
    {
      var submitted := form.HandleSubmit();
      if submitted.Some? {
        HandleFormSubmit(submitted.value);
      }
    }

    /**
     * Going back from checkout to the details and submitting the form unedited
     * returns to checkout with the draft exactly as it was.
     */
    method ReviewDetailsAgain()
      requires Valid() && step == Checkout
      modifies this
      ensures Valid()
      ensures step == Checkout && data == old(data) && paymentsPending == old(paymentsPending)
    {
      var exitFlow := HandleBackNavigation();
      var form := OpenDetailsForm();
      SubmitDetails(form);
      WithOwnContact(data);
    }
  }
}
