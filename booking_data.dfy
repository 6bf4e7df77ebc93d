/** The booking draft the flow fills in step by step and hands to checkout and confirmation. */
module BookingDraft {
  import opened Optional

  /** `BookingData`: the date is a time value in milliseconds, or absent until chosen. */
  datatype BookingData = BookingData(
    date: Option<int>,
    timeSlot: Option<string>,
    name: string,
    email: string,
    phone: string,
    groupSize: int)

  /** The draft a new flow starts from: nothing chosen, empty contact details, one person. */
  const InitialData := BookingData(None, None, "", "", "", 1)
}
