/** What the composed system guarantees about one booking's status over whole runs: it only
    moves forward, terminal statuses are final, and redelivered events do nothing. */
module Lifecycle {
  import opened Events
  import opened Idempotency
  import opened Protocol
  import A = Availability
  import B = Bookings

  /** A status either stays or moves to one of strictly higher rank; the four terminal
      statuses share the highest rank, so none of them is ever left. */
  predicate Advances(before: B.Status, after: B.Status) {
    before == after || B.Rank(before) < B.Rank(after)
  }

  predicate Booked(status: B.Status) {
    status == B.Confirmed || status == B.Completed
  }

  /** What the mere existence of an event says about its booking. */
  predicate Implied(e: Event, status: B.Status) {
    match e
    case ConfirmRequested(_, _, _) => status != B.Pending
    case SlotConfirmed(_, _) => status != B.Pending
    case CancelRequested(_, _, _) => status == B.Canceled
    case SlotReleased(_, _) => status == B.Canceled
    case _ => true
  }

  /** What having consumed an event says about its booking. */
  predicate Settled(e: Event, status: B.Status) {
    match e
    case SlotReserved(_, _) => status != B.Pending
    case SlotRejected(_, _) => status != B.Pending && status != B.Reserved
    case SlotConfirmed(_, _) => status != B.Pending && status != B.Reserved
    case SlotExpired(_) => status != B.Pending && status != B.Reserved
    case SlotReleased(_, _) => status == B.Canceled
    case _ => true
  }

  ghost predicate AllImplied(out: seq<Event>, rows: map<BookingId, B.Booking>) {
    forall e :: e in out && !e.AvailabilityUpdated? && e.id in rows ==> Implied(e, rows[e.id].status)
  }

  ghost predicate AllSettled(seen: set<Event>, rows: map<BookingId, B.Booking>) {
    forall e :: e in seen && IsSlotEvent(e) && e.id in rows ==> Settled(e, rows[e.id].status)
  }

  ghost predicate ConfirmedWereEmitted(s: System) {
    forall b :: b in s.bk.rows && Booked(s.bk.rows[b].status)
      ==> SlotConfirmed(b, s.bk.rows[b].request.handyman) in s.av.out
  }

  ghost predicate StatusInv(s: System) {
    && Facts(s)
    && AllImplied(s.bk.out, s.bk.rows)
    && AllImplied(s.av.out, s.bk.rows)
    && AllSettled(s.seen, s.bk.rows)
    && ConfirmedWereEmitted(s)
  }

  /** Rows present on both sides advance; a row that appears is a new booking, still pending. */
  ghost predicate RowsAdvance(bk: B.BkState, bk': B.BkState) {
    && |bk.issued| <= |bk'.issued|
    && forall b :: b in bk'.rows ==>
         if b in bk.rows then Advances(bk.rows[b].status, bk'.rows[b].status) && bk'.rows[b].request == bk.rows[b].request
         else b >= |bk.issued| && bk'.rows[b].status == B.Pending
  }

  lemma SlotEventAdvances(booking: B.Booking, e: Event)
    requires e.SlotReleased? ==> booking.status == B.Canceled
    ensures Advances(booking.status, B.OnSlotEvent(booking, e).status)
    ensures B.OnSlotEvent(booking, e).request == booking.request
  {
  }

  lemma HttpHandlersAdvanceRows(bk: B.BkState, b: BookingId, reason: string)
    ensures RowsAdvance(bk, B.Cancel(bk, b, reason).0)
    ensures RowsAdvance(bk, B.Reject(bk, b, reason).0)
    ensures RowsAdvance(bk, B.Confirm(bk, b).0)
    ensures RowsAdvance(bk, B.AdminDelete(bk, b).0)
  {
  }

  lemma CompletionByUserAdvancesRows(bk: B.BkState, b: BookingId)
    ensures RowsAdvance(bk, B.CompleteAsUser(bk, b).0)
  {
  }

  lemma CompletionByHandymanAdvancesRows(bk: B.BkState, b: BookingId)
    ensures RowsAdvance(bk, B.CompleteAsHandyman(bk, b).0)
  {
  }

  lemma ConsumingAdvancesRows(bk: B.BkState, e: Event)
    requires IsSlotEvent(e) && e.id in bk.rows ==> Implied(e, bk.rows[e.id].status)
    ensures RowsAdvance(bk, B.Consume(bk, e))
  {
    if IsSlotEvent(e) && e.id in bk.rows {
      SlotEventAdvances(bk.rows[e.id], e);
    }
  }

  lemma NextAdvancesRows(s: System, a: Action)
    requires StatusInv(s) && Enabled(s, a)
    ensures RowsAdvance(s.bk, Next(s, a).bk)
  {
    match a
    case ConfirmBooking(b) => HttpHandlersAdvanceRows(s.bk, b, "");
    case CancelBooking(b, reason) => HttpHandlersAdvanceRows(s.bk, b, reason);
    case RejectBooking(b, reason) => HttpHandlersAdvanceRows(s.bk, b, reason);
    case AdminDeleteBooking(b) => HttpHandlersAdvanceRows(s.bk, b, "");
    case CompleteAsUser(b) => CompletionByUserAdvancesRows(s.bk, b);
    case CompleteAsHandyman(b) => CompletionByHandymanAdvancesRows(s.bk, b);
    case DeliverToBooking(e) => ConsumingAdvancesRows(s.bk, e);
    case _ =>
  }

  /** Everything implied or settled before stays so while rows advance and ids stay fresh. */
  lemma AdvancingKeepsImplied(out: seq<Event>, bk: B.BkState, bk': B.BkState)
    requires AllImplied(out, bk.rows) && RowsAdvance(bk, bk')
    requires forall e :: e in out && !e.AvailabilityUpdated? && e.id in bk'.rows ==> e.id < |bk.issued|
    ensures AllImplied(out, bk'.rows)
  {
  }

  lemma AdvancingKeepsSettled(seen: set<Event>, bk: B.BkState, bk': B.BkState)
    requires AllSettled(seen, bk.rows) && RowsAdvance(bk, bk')
    requires forall e :: e in seen && IsSlotEvent(e) ==> e.id < |bk.issued|
    ensures AllSettled(seen, bk'.rows)
  {
  }

  /** Any event a step adds is already implied by the rows it leaves behind. */
  ghost predicate EmitsImplied(bk: B.BkState, bk': B.BkState) {
    bk.out <= bk'.out && AllImplied(bk'.out[|bk.out|..], bk'.rows)
  }

  lemma CreationEmitsImplied(bk: B.BkState, r: Request)
    ensures EmitsImplied(bk, B.Create(bk, r))
  {
  }

  lemma HttpHandlersEmitImplied(bk: B.BkState, b: BookingId, reason: string)
    ensures EmitsImplied(bk, B.Cancel(bk, b, reason).0)
    ensures EmitsImplied(bk, B.Reject(bk, b, reason).0)
    ensures EmitsImplied(bk, B.Confirm(bk, b).0)
  {
  }

  lemma CompletionEmitsImplied(bk: B.BkState, b: BookingId)
    ensures EmitsImplied(bk, B.CompleteAsUser(bk, b).0)
    ensures EmitsImplied(bk, B.CompleteAsHandyman(bk, b).0)
  {
  }

  lemma EmittedByBookingIsImplied(s: System, a: Action)
    ensures EmitsImplied(s.bk, Next(s, a).bk)
  {
    match a
    case CreateBooking(r) => CreationEmitsImplied(s.bk, r);
    case ConfirmBooking(b) => HttpHandlersEmitImplied(s.bk, b, "");
    case CancelBooking(b, reason) => HttpHandlersEmitImplied(s.bk, b, reason);
    case RejectBooking(b, reason) => HttpHandlersEmitImplied(s.bk, b, reason);
    case CompleteAsUser(b) => CompletionEmitsImplied(s.bk, b);
    case CompleteAsHandyman(b) => CompletionEmitsImplied(s.bk, b);
    case _ =>
  }

  lemma AppendKeepsImplied(out: seq<Event>, e: Event, rows: map<BookingId, B.Booking>)
    requires AllImplied(out, rows)
    requires !e.AvailabilityUpdated? && e.id in rows ==> Implied(e, rows[e.id].status)
    ensures AllImplied(out + [e], rows)
  {
  }

  lemma ProcessedIsImplied(av: A.AvState, now: int, e: Event, rows: map<BookingId, B.Booking>)
    requires AllImplied(av.out, rows)
    requires IsBookingCommand(e) && e.id in rows ==> Implied(e, rows[e.id].status)
    ensures AllImplied(A.Process(av, now, e).out, rows)
  {
    if IsBookingCommand(e) && e.ConfirmRequested? && !Marked(av.processed, now, e.eid) {
      var h, b := e.request.handyman, e.id;
      forall slots, email
        ensures AllImplied(av.out + [AvailabilityUpdated(h, slots)] + [SlotConfirmed(b, email)], rows)
      {
        AppendKeepsImplied(av.out, AvailabilityUpdated(h, slots), rows);
        AppendKeepsImplied(av.out + [AvailabilityUpdated(h, slots)], SlotConfirmed(b, email), rows);
      }
    }
  }

  lemma {:induction false} EmittedByExpiryIsImplied(av: A.AvState, now: int, due: seq<BookingId>, rows: map<BookingId, B.Booking>)
    requires AllImplied(av.out, rows)
    ensures av.out <= A.ExpireAll(av, now, due).out && AllImplied(A.ExpireAll(av, now, due).out, rows)
  {
    ExpireOnlyAppends(av, now, due);
  }

  /** Apart from deliveries to it and its expiry worker, the availability service emits nothing
      but availability.updated. */
  lemma OtherStepsOnlyAnnounceSlots(s: System, a: Action)
    requires !a.DeliverToAvailability? && !a.ExpiryPass?
    ensures s.av.out <= Next(s, a).av.out
    ensures forall e :: e in Next(s, a).av.out ==> e in s.av.out || e.AvailabilityUpdated?
  {
  }

  lemma EmittedByAvailabilityIsImplied(s: System, a: Action)
    requires StatusInv(s) && Enabled(s, a) && RowsAdvance(s.bk, Next(s, a).bk)
    ensures s.av.out <= Next(s, a).av.out
    ensures AllImplied(Next(s, a).av.out, Next(s, a).bk.rows)
  {
    if a.DeliverToAvailability? {
      ProcessOnlyAppends(s.av, s.now, a.event);
      ProcessedIsImplied(s.av, s.now, a.event, s.bk.rows);
    } else if a.ExpiryPass? {
      EmittedByExpiryIsImplied(s.av, s.now, a.due, s.bk.rows);
    } else {
      OtherStepsOnlyAnnounceSlots(s, a);
      AdvancingKeepsImplied(s.av.out, s.bk, Next(s, a).bk);
    }
  }

  lemma NextKeepsStatusInv(s: System, a: Action)
    requires StatusInv(s) && Enabled(s, a)
    ensures StatusInv(Next(s, a))
  {
    var t := Next(s, a);
    NextKeepsFacts(s, a);
    NextAdvancesRows(s, a);
    AdvancingKeepsImplied(s.bk.out, s.bk, t.bk);
    EmittedByBookingIsImplied(s, a);
    assert t.bk.out == s.bk.out + t.bk.out[|s.bk.out|..];
    EmittedByAvailabilityIsImplied(s, a);
    AdvancingKeepsSettled(s.seen, s.bk, t.bk);
    if a.DeliverToBooking? {
      NewlySeenIsSettled(s, a);
    }
    ConfirmedStaysEmitted(s, a);
  }

  lemma NewlySeenIsSettled(s: System, a: Action)
    requires StatusInv(s) && Enabled(s, a) && a.DeliverToBooking?
    ensures IsSlotEvent(a.event) && a.event.id in Next(s, a).bk.rows ==>
              Settled(a.event, Next(s, a).bk.rows[a.event.id].status)
  {
  }

  ghost predicate NoneNewlyBooked(bk: B.BkState, bk': B.BkState) {
    forall b :: b in bk'.rows && Booked(bk'.rows[b].status) ==> b in bk.rows && Booked(bk.rows[b].status)
  }

  lemma HttpHandlersBookNothing(bk: B.BkState, b: BookingId, reason: string)
    ensures NoneNewlyBooked(bk, B.Cancel(bk, b, reason).0)
    ensures NoneNewlyBooked(bk, B.Reject(bk, b, reason).0)
    ensures NoneNewlyBooked(bk, B.Confirm(bk, b).0)
    ensures NoneNewlyBooked(bk, B.AdminDelete(bk, b).0)
  {
  }

  lemma CompletionBooksNothing(bk: B.BkState, b: BookingId)
    ensures NoneNewlyBooked(bk, B.CompleteAsUser(bk, b).0)
    ensures NoneNewlyBooked(bk, B.CompleteAsHandyman(bk, b).0)
  {
  }

  lemma OnlyConsumingBooks(s: System, a: Action)
    requires !a.DeliverToBooking?
    ensures NoneNewlyBooked(s.bk, Next(s, a).bk)
  {
    match a
    case ConfirmBooking(b) => HttpHandlersBookNothing(s.bk, b, "");
    case CancelBooking(b, reason) => HttpHandlersBookNothing(s.bk, b, reason);
    case RejectBooking(b, reason) => HttpHandlersBookNothing(s.bk, b, reason);
    case AdminDeleteBooking(b) => HttpHandlersBookNothing(s.bk, b, "");
    case CompleteAsUser(b) => CompletionBooksNothing(s.bk, b);
    case CompleteAsHandyman(b) => CompletionBooksNothing(s.bk, b);
    case _ =>
  }

  lemma ConfirmedStaysEmitted(s: System, a: Action)
    requires StatusInv(s) && Enabled(s, a) && RowsAdvance(s.bk, Next(s, a).bk)
    requires s.av.out <= Next(s, a).av.out
    ensures ConfirmedWereEmitted(Next(s, a))
  {
    var t := Next(s, a);
    forall b | b in t.bk.rows && Booked(t.bk.rows[b].status)
      ensures SlotConfirmed(b, t.bk.rows[b].request.handyman) in s.av.out
    {
      if a.DeliverToBooking? {
        if t.bk.rows[b].status != s.bk.rows[b].status {
          OnlyConfirmationConfirms(s.bk, a.event, b);
        }
      } else {
        OnlyConsumingBooks(s, a);
      }
    }
  }

  lemma OnlyConfirmationConfirms(bk: B.BkState, e: Event, b: BookingId)
    requires b in bk.rows && B.Consume(bk, e).rows[b].status != bk.rows[b].status
    requires Booked(B.Consume(bk, e).rows[b].status)
    ensures e.SlotConfirmed? && e.id == b
  {
  }

  lemma InitHasStatusInv(s: System)
    requires Init(s)
    ensures StatusInv(s)
  {
  }

  lemma {:induction false} RunKeepsStatusInv(allowed: (System, Action) -> bool, s: System, actions: seq<Action>, t: System)
    requires StatusInv(s) && Run(allowed, s, actions, t)
    ensures StatusInv(t)
    decreases |actions|
  {
    if actions != [] {
      NextKeepsStatusInv(s, actions[0]);
      RunKeepsStatusInv(allowed, Next(s, actions[0]), actions[1..], t);
    }
  }

  /** Over any run, a booking that is still there has advanced; and an id once gone never returns. */
  lemma {:induction false} StatusOnlyMovesForward(allowed: (System, Action) -> bool, s: System, actions: seq<Action>, t: System)
    requires StatusInv(s) && Run(allowed, s, actions, t)
    ensures |s.bk.issued| <= |t.bk.issued|
    ensures forall b: BookingId :: b < |s.bk.issued| && b in t.bk.rows ==>
              b in s.bk.rows && Advances(s.bk.rows[b].status, t.bk.rows[b].status)
    decreases |actions|
  {
    if actions != [] {
      NextAdvancesRows(s, actions[0]);
      NextKeepsStatusInv(s, actions[0]);
      StatusOnlyMovesForward(allowed, Next(s, actions[0]), actions[1..], t);
    }
  }

  /** CANCELED, FAILED, EXPIRED and REJECTED are final, whatever is delivered in whatever order. */
  lemma {:induction false} TerminalStatusesAreFinal(start: System, first: seq<Action>, s: System, rest: seq<Action>, t: System, b: BookingId)
    requires Init(start) && Run(Anything, start, first, s) && Run(Anything, s, rest, t)
    requires b in s.bk.rows && b in t.bk.rows && B.Terminal(s.bk.rows[b].status)
    ensures t.bk.rows[b].status == s.bk.rows[b].status
  {
    ReachableHasStatusInv(start, first, s);
    StatusOnlyMovesForward(Anything, s, rest, t);
    assert b < |s.bk.issued|;
    TerminalIsHighest(s.bk.rows[b].status, t.bk.rows[b].status);
  }

  lemma TerminalIsHighest(before: B.Status, after: B.Status)
    requires B.Terminal(before) && Advances(before, after)
    ensures after == before
  {
  }

  lemma {:induction false} ReachableHasStatusInv(start: System, actions: seq<Action>, t: System)
    requires Init(start) && Run(Anything, start, actions, t)
    ensures StatusInv(t)
  {
    InitHasStatusInv(start);
    RunKeepsStatusInv(Anything, start, actions, t);
  }

  /** Redelivering an event the booking service has already consumed changes nothing, at any later
      time, although the service remembers no event ids. */
  lemma {:induction false} RedeliveryChangesNothing(start: System, actions: seq<Action>, t: System, e: Event)
    requires Init(start) && Run(Anything, start, actions, t) && e in t.seen
    ensures Next(t, DeliverToBooking(e)) == t
  {
    ReachableHasStatusInv(start, actions, t);
    if IsSlotEvent(e) && e.id in t.bk.rows {
      assert Settled(e, t.bk.rows[e.id].status);
      assert t.bk.rows[e.id := t.bk.rows[e.id]] == t.bk.rows;
    }
    assert t.seen + {e} == t.seen;
  }

  // ---- Completion ----

  /** Nobody has completed a booking that is not confirmed yet, and a confirmed one is COMPLETED
      exactly when both sides have said so. */
  predicate FlagsMatch(booking: B.Booking) {
    match booking.status
    case Pending => !booking.completedByUser && !booking.completedByHandyman
    case Reserved => !booking.completedByUser && !booking.completedByHandyman
    case Confirmed => !(booking.completedByUser && booking.completedByHandyman)
    case Completed => booking.completedByUser && booking.completedByHandyman
    case _ => true
  }

  ghost predicate AllFlagsMatch(rows: map<BookingId, B.Booking>) {
    forall b :: b in rows ==> FlagsMatch(rows[b])
  }

  lemma HttpHandlersKeepFlags(bk: B.BkState, b: BookingId, reason: string)
    requires AllFlagsMatch(bk.rows)
    ensures AllFlagsMatch(B.Cancel(bk, b, reason).0.rows) && AllFlagsMatch(B.Reject(bk, b, reason).0.rows)
    ensures AllFlagsMatch(B.Confirm(bk, b).0.rows) && AllFlagsMatch(B.AdminDelete(bk, b).0.rows)
  {
  }

  lemma CompletionKeepsFlags(bk: B.BkState, b: BookingId)
    requires AllFlagsMatch(bk.rows)
    ensures AllFlagsMatch(B.CompleteAsUser(bk, b).0.rows) && AllFlagsMatch(B.CompleteAsHandyman(bk, b).0.rows)
  {
  }

  lemma NextKeepsFlags(s: System, a: Action)
    requires AllFlagsMatch(s.bk.rows)
    ensures AllFlagsMatch(Next(s, a).bk.rows)
  {
    match a
    case ConfirmBooking(b) => HttpHandlersKeepFlags(s.bk, b, "");
    case CancelBooking(b, reason) => HttpHandlersKeepFlags(s.bk, b, reason);
    case RejectBooking(b, reason) => HttpHandlersKeepFlags(s.bk, b, reason);
    case AdminDeleteBooking(b) => HttpHandlersKeepFlags(s.bk, b, "");
    case CompleteAsUser(b) => CompletionKeepsFlags(s.bk, b);
    case CompleteAsHandyman(b) => CompletionKeepsFlags(s.bk, b);
    case _ =>
  }

  lemma {:induction false} RunKeepsFlags(s: System, actions: seq<Action>, t: System)
    requires AllFlagsMatch(s.bk.rows) && Run(Anything, s, actions, t)
    ensures AllFlagsMatch(t.bk.rows)
    decreases |actions|
  {
    if actions != [] {
      NextKeepsFlags(s, actions[0]);
      RunKeepsFlags(Next(s, actions[0]), actions[1..], t);
    }
  }

  /** A booked job is COMPLETED exactly when both the user and the handyman have completed it, and
      then the booking's slot.confirmed has been emitted. */
  lemma {:induction false} CompletedExactlyWhenBothAgree(start: System, actions: seq<Action>, t: System, b: BookingId)
    requires Init(start) && Run(Anything, start, actions, t)
    requires b in t.bk.rows && Booked(t.bk.rows[b].status)
    ensures t.bk.rows[b].status == B.Completed <==> t.bk.rows[b].completedByUser && t.bk.rows[b].completedByHandyman
    ensures SlotConfirmed(b, t.bk.rows[b].request.handyman) in t.av.out
  {
    RunKeepsFlags(start, actions, t);
    ReachableHasStatusInv(start, actions, t);
    assert FlagsMatch(t.bk.rows[b]);
  }
}
