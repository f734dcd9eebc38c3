/** The booking service: the HTTP handlers that drive a booking's status and the consumer of
    the availability service's events. */
module Bookings {
  import opened Events

  datatype Status = Pending | Reserved | Confirmed | Completed | Canceled | Failed | Expired | Rejected

  /** The statuses cancel_booking returns early on. */
  predicate Terminal(s: Status) {
    s == Canceled || s == Failed || s == Expired || s == Rejected
  }

  function Rank(s: Status): nat {
    match s
    case Pending => 0
    case Reserved => 1
    case Confirmed => 2
    case Completed => 3
    case _ => 4
  }

  /** An absent reason is "". */
  datatype Booking = Booking(
    request: Request,
    status: Status,
    completedByUser: bool,
    completedByHandyman: bool,
    rejectedByHandyman: bool,
    failureReason: string,
    cancellationReason: string,
    rejectionReason: string)

  /** `issued` lists the request of every booking ever created, `out` every event ever added to
      the outbox table, oldest first. */
  datatype BkState = BkState(rows: map<BookingId, Booking>, issued: seq<Request>, out: seq<Event>)

  const EMPTY := BkState(map[], [], [])

  datatype Response = Accepted | NotFound | BadRequest

  // ---- What the handlers do ----

  function NewBooking(r: Request): Booking {
    Booking(r, Pending, false, false, false, "", "", "")
  }

  function Create(bk: BkState, r: Request): BkState {
    var b := |bk.issued|;
    BkState(bk.rows[b := NewBooking(r)], bk.issued + [r], bk.out + [BookingRequested(|bk.out|, b, r)])
  }

  function Save(bk: BkState, b: BookingId, booking: Booking, e: Event): BkState {
    bk.(rows := bk.rows[b := booking], out := bk.out + [e])
  }

  function Confirm(bk: BkState, b: BookingId): (BkState, Response) {
    if b !in bk.rows then (bk, NotFound)
    else if bk.rows[b].status != Reserved then (bk, BadRequest)
    else (Save(bk, b, bk.rows[b], ConfirmRequested(|bk.out|, b, bk.rows[b].request)), Accepted)
  }

  function OrElse(reason: string, default: string): string {
    if reason == "" then default else reason
  }

  function Cancel(bk: BkState, b: BookingId, reason: string): (BkState, Response) {
    if b !in bk.rows then (bk, NotFound)
    else if Terminal(bk.rows[b].status) then (bk, Accepted)
    else
      var why := OrElse(reason, "user_requested");
      (Save(bk, b, bk.rows[b].(status := Canceled, cancellationReason := why), CancelRequested(|bk.out|, b, why)), Accepted)
  }

  function CompleteAsUser(bk: BkState, b: BookingId): (BkState, Response) {
    if b !in bk.rows then (bk, NotFound)
    else if bk.rows[b].status != Confirmed then (bk, BadRequest)
    else if bk.rows[b].completedByHandyman
    then (Save(bk, b, bk.rows[b].(completedByUser := true, status := Completed), BookingCompleted(|bk.out|, b)), Accepted)
    else (Save(bk, b, bk.rows[b].(completedByUser := true), CompletedByUser(|bk.out|, b)), Accepted)
  }

  function CompleteAsHandyman(bk: BkState, b: BookingId): (BkState, Response) {
    if b !in bk.rows then (bk, NotFound)
    else if bk.rows[b].status != Confirmed then (bk, BadRequest)
    else if bk.rows[b].completedByUser
    then (Save(bk, b, bk.rows[b].(completedByHandyman := true, status := Completed), BookingCompleted(|bk.out|, b)), Accepted)
    else (Save(bk, b, bk.rows[b].(completedByHandyman := true), CompletedByHandyman(|bk.out|, b)), Accepted)
  }

  function Reject(bk: BkState, b: BookingId, reason: string): (BkState, Response) {
    if b !in bk.rows then (bk, NotFound)
    else if bk.rows[b].status != Reserved && bk.rows[b].status != Confirmed then (bk, BadRequest)
    else
      (Save(bk, b, bk.rows[b].(status := Rejected, rejectedByHandyman := true, rejectionReason := reason),
            BookingRejected(|bk.out|, b, reason)), Accepted)
  }

  function AdminDelete(bk: BkState, b: BookingId): (BkState, Response) {
    if b !in bk.rows then (bk, NotFound) else (bk.(rows := bk.rows - {b}), Accepted)
  }

  /** The consumer's guarded transitions. */
  function OnSlotEvent(booking: Booking, e: Event): Booking {
    match e
    case SlotReserved(_, _) =>
      if booking.status == Pending then booking.(status := Reserved) else booking
    case SlotRejected(_, reason) =>
      if booking.status == Pending || booking.status == Reserved
      then booking.(status := Failed, failureReason := OrElse(reason, "slot_rejected")) else booking
    case SlotConfirmed(_, _) =>
      if booking.status == Reserved then booking.(status := Confirmed) else booking
    case SlotExpired(_) =>
      if booking.status == Pending || booking.status == Reserved then booking.(status := Expired) else booking
    case SlotReleased(_, _) =>
      if booking.status != Canceled && booking.status != Rejected
      then booking.(status := Canceled, cancellationReason := OrElse(booking.cancellationReason, "released")) else booking
    case _ => booking
  }

  function Consume(bk: BkState, e: Event): BkState {
    if !IsSlotEvent(e) || e.id !in bk.rows then bk
    else bk.(rows := bk.rows[e.id := OnSlotEvent(bk.rows[e.id], e)])
  }

  // ---- The handlers ----

  class BookingService {
    var rows: map<BookingId, Booking>
    var issued: seq<Request>
    var outbox: seq<Event>

    ghost function State(): BkState
      reads this
    {
      BkState(rows, issued, outbox)
    }

    constructor ()
      ensures State() == EMPTY
    {
      rows, issued, outbox := map[], [], [];
    }

    method CreateBooking(r: Request) returns (b: BookingId)
      modifies this
      ensures State() == Create(old(State()), r)
      ensures b == |old(issued)|
    {
      b := |issued|;
      issued := issued + [r];
      rows := rows[b := NewBooking(r)];
      outbox := outbox + [BookingRequested(|outbox|, b, r)];
    }

    method ConfirmBooking(b: BookingId) returns (response: Response)
      modifies this`rows, this`outbox
      ensures (State(), response) == Confirm(old(State()), b)
    {
      if b !in rows {
        return NotFound;
      }
      if rows[b].status != Reserved {
        return BadRequest;
      }
      outbox := outbox + [ConfirmRequested(|outbox|, b, rows[b].request)];
      assert rows == rows[b := rows[b]];
      response := Accepted;
    }

    method CancelBooking(b: BookingId, reason: string) returns (response: Response)
      modifies this`rows, this`outbox
      ensures (State(), response) == Cancel(old(State()), b, reason)
    {
      if b !in rows {
        return NotFound;
      }
      if rows[b].status in {Canceled, Failed, Expired, Rejected} {
        return Accepted;
      }
      var why := OrElse(reason, "user_requested");
      rows := rows[b := rows[b].(status := Canceled, cancellationReason := why)];
      outbox := outbox + [CancelRequested(|outbox|, b, why)];
      response := Accepted;
    }

    method CompleteBookingAsUser(b: BookingId) returns (response: Response)
      modifies this`rows, this`outbox
      ensures (State(), response) == CompleteAsUser(old(State()), b)
    {
      if b !in rows {
        return NotFound;
      }
      if rows[b].status != Confirmed {
        return BadRequest;
      }
      var booking := rows[b].(completedByUser := true);
      if booking.completedByUser && booking.completedByHandyman {
        booking := booking.(status := Completed);
        outbox := outbox + [BookingCompleted(|outbox|, b)];
      } else {
        outbox := outbox + [CompletedByUser(|outbox|, b)];
      }
      rows := rows[b := booking];
      response := Accepted;
    }

    method CompleteBookingAsHandyman(b: BookingId) returns (response: Response)
      modifies this`rows, this`outbox
      ensures (State(), response) == CompleteAsHandyman(old(State()), b)
    {
      if b !in rows {
        return NotFound;
      }
      if rows[b].status != Confirmed {
        return BadRequest;
      }
      var booking := rows[b].(completedByHandyman := true);
      if booking.completedByUser && booking.completedByHandyman {
        booking := booking.(status := Completed);
        outbox := outbox + [BookingCompleted(|outbox|, b)];
      } else {
        outbox := outbox + [CompletedByHandyman(|outbox|, b)];
      }
      rows := rows[b := booking];
      response := Accepted;
    }

    method RejectBooking(b: BookingId, reason: string) returns (response: Response)
      modifies this`rows, this`outbox
      ensures (State(), response) == Reject(old(State()), b, reason)
    {
      if b !in rows {
        return NotFound;
      }
      if rows[b].status !in {Reserved, Confirmed} {
        return BadRequest;
      }
      rows := rows[b := rows[b].(status := Rejected, rejectedByHandyman := true, rejectionReason := reason)];
      outbox := outbox + [BookingRejected(|outbox|, b, reason)];
      response := Accepted;
    }

    method AdminDeleteBooking(b: BookingId) returns (response: Response)
      modifies this`rows
      ensures (State(), response) == AdminDelete(old(State()), b)
    {
      if b !in rows {
        return NotFound;
      }
      rows := rows - {b};
      response := Accepted;
    }

    method ProcessEvent(e: Event)
      modifies this`rows
      ensures State() == Consume(old(State()), e)
    {
      if !IsSlotEvent(e) || e.id !in rows {
        return;
      }
      var booking := rows[e.id];
      if e.SlotReserved? {
        if booking.status == Pending {
          booking := booking.(status := Reserved);
        }
      } else if e.SlotRejected? {
        if booking.status in {Pending, Reserved} {
          booking := booking.(status := Failed, failureReason := OrElse(e.reason, "slot_rejected"));
        }
      } else if e.SlotConfirmed? {
        if booking.status == Reserved {
          booking := booking.(status := Confirmed);
        }
      } else if e.SlotExpired? {
        if booking.status in {Pending, Reserved} {
          booking := booking.(status := Expired);
        }
      } else {
        if booking.status !in {Canceled, Rejected} {
          booking := booking.(status := Canceled, cancellationReason := OrElse(booking.cancellationReason, "released"));
        }
      }
      rows := rows[e.id := booking];
    }
  }
}
