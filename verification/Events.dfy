/** The domain events the booking and availability services exchange, reduced to
    the fields their consumers read. */
module Events {
  import opened Intervals

  type Email = string

  /** A booking id is a uuid; here the position of the booking among all bookings ever created. */
  type BookingId = nat

  /** An event id is a uuid; here the position of the event among all events its service ever emitted. */
  type EventId = nat

  /** What a booking asks for. No handler ever edits it. An absent email is "". */
  datatype Request = Request(user: Email, handyman: Email, window: Window)

  datatype Event =
    // emitted by the booking service
    | BookingRequested(eid: EventId, id: BookingId, request: Request)
    | ConfirmRequested(eid: EventId, id: BookingId, request: Request)
    | CancelRequested(eid: EventId, id: BookingId, reason: string)
    | CompletedByUser(eid: EventId, id: BookingId)
    | CompletedByHandyman(eid: EventId, id: BookingId)
    | BookingCompleted(eid: EventId, id: BookingId)
    | BookingRejected(eid: EventId, id: BookingId, reason: string)
    // emitted by the availability service
    | SlotReserved(id: BookingId, handyman: Email)
    | SlotRejected(id: BookingId, reason: string)
    | SlotConfirmed(id: BookingId, handyman: Email)
    | SlotExpired(id: BookingId)
    | SlotReleased(id: BookingId, reason: string)
    | AvailabilityUpdated(handyman: Email, slots: seq<Window>)

  /** The routing keys the booking service listens to. */
  predicate IsSlotEvent(e: Event) {
    e.SlotReserved? || e.SlotRejected? || e.SlotConfirmed? || e.SlotExpired? || e.SlotReleased?
  }

  /** The events the booking service emits. */
  predicate IsBookingEvent(e: Event) {
    !IsSlotEvent(e) && !e.AvailabilityUpdated?
  }

  /** The routing keys the availability service listens to. */
  predicate IsBookingCommand(e: Event) {
    e.BookingRequested? || e.ConfirmRequested? || e.CancelRequested?
  }
}
