/**
 * The root of the app: one of three views is shown at a time, and the booking flow
 * exists only while the booking view is shown.
 */
module App {
  import BookingFlow
  import BookingDraft

  datatype View = Hero | Booking | Profile

  class App {
    var currentView: View
    /** The mounted booking flow; null whenever another view is shown. */
    var flow: BookingFlow.Flow?

    ghost predicate Valid()
      reads this, flow
    {
      && (currentView == Booking <==> flow != null)
      && (flow != null ==> flow.Valid())
    }

    /** The app opens on the hero view. */
    constructor ()
      ensures Valid()
      ensures currentView == Hero && flow == null
    {
      currentView := Hero;
      flow := null;
    }

    /**
     * `setCurrentView`: shows `v`. Switching to the booking view mounts a new flow
     * whose id is `newBookingId`; staying on it keeps the flow and its state; leaving
     * it unmounts the flow.
     */
    method SetView(v: View, newBookingId: string)
      requires Valid()
      modifies this
      ensures Valid()
      ensures currentView == v
      ensures v == Booking && old(currentView) == Booking ==> flow == old(flow)
      ensures v == Booking && old(currentView) != Booking ==>
        fresh(flow) && flow.step == BookingFlow.Datetime && flow.data == BookingDraft.InitialData
        && flow.bookingId == newBookingId
      ensures v != Booking ==> flow == null
    {
      if v == Booking && currentView != Booking {
        flow := new BookingFlow.Flow(newBookingId);
      } else if v != Booking {
        flow := null;
      }
      currentView := v;
    }

    /** "Book now" on the hero: the booking view. */
    method HandleBookingClick(newBookingId: string)
      requires Valid()
      modifies this
      ensures Valid()
      ensures currentView == Booking
      ensures old(currentView) == Booking ==> flow == old(flow)
      ensures old(currentView) != Booking ==>
        fresh(flow) && flow.step == BookingFlow.Datetime && flow.data == BookingDraft.InitialData
        && flow.bookingId == newBookingId
    {
      SetView(Booking, newBookingId);
    }

    /** Back from the flow's first step or from the profile: the hero view, from any view. */
    method HandleBackToHero()
      requires Valid()
      modifies this
      ensures Valid()
      ensures currentView == Hero && flow == null
    {
      SetView(Hero, "");
    }

    /** The end of a booking: the profile view. */
    method HandleBookingComplete()
      requires Valid()
      modifies this
      ensures Valid()
      ensures currentView == Profile && flow == null
    {
      SetView(Profile, "");
    }

    /**
     * The navigation bars: shows `v` whatever is shown now. Choosing the view that is
     * already shown changes nothing, so choosing a view twice is the same as once.
     */
    method HandleNavigation(v: View, newBookingId: string)
      requires Valid()
      modifies this
      ensures Valid()
      ensures currentView == v
      ensures old(currentView) == v ==> flow == old(flow)
      ensures v == Booking && old(currentView) != Booking ==>
        fresh(flow) && flow.step == BookingFlow.Datetime && flow.data == BookingDraft.InitialData
        && flow.bookingId == newBookingId
      ensures v != Booking ==> flow == null
    {
      SetView(v, newBookingId);
    }

    /** The flow's back arrow: a step back inside the flow, or the hero view from its first step. */
    method FlowBack()
      requires Valid() && currentView == Booking
      modifies this, flow
      ensures Valid()
      ensures old(flow.step) == BookingFlow.Datetime ==> currentView == Hero && flow == null
      ensures old(flow.step) != BookingFlow.Datetime ==>
        currentView == Booking && flow == old(flow)
        && flow.step == BookingFlow.BackStep(old(flow.step)).value && flow.data == old(flow.data)
        && flow.paymentsPending == old(flow.paymentsPending)
    {
      var exitFlow := flow.HandleBackNavigation();
      if exitFlow {
        HandleBackToHero();
      }
    }

    /** "Done" on the confirmation: the booking is complete and the profile is shown. */
    method FlowComplete()
      requires Valid() && currentView == Booking && flow.step == BookingFlow.Confirmation
      modifies this
      ensures Valid()
      ensures currentView == Profile && flow == null
    {
      HandleBookingComplete();
    }
  }
}
