/** The booking and availability services composed. They share no state: each only sees the
    events the other has emitted. An event, once emitted, may be delivered at any later moment,
    any number of times, in any order, or never. */
module Protocol {
  import opened Intervals
  import opened Events
  import opened FreeSlots
  import R = Reservations
  import A = Availability
  import B = Bookings

  /** `seen` lists the events the booking service has consumed at least once. */
  datatype System = System(now: Instant, bk: B.BkState, av: A.AvState, seen: set<Event>)

  datatype Action =
    | CreateBooking(request: Request)
    | ConfirmBooking(id: BookingId)
    | CancelBooking(id: BookingId, reason: string)
    | CompleteAsUser(id: BookingId)
    | CompleteAsHandyman(id: BookingId)
    | RejectBooking(id: BookingId, reason: string)
    | AdminDeleteBooking(id: BookingId)
    | DeliverToAvailability(event: Event)
    | DeliverToBooking(event: Event)
    | ExpiryPass(due: seq<BookingId>)
    | Tick(seconds: nat)
    | SetAvailability(handyman: Email, offered: seq<Window>)
    | ClearAvailability(handyman: Email)
    | DeleteReservation(id: BookingId)

  ghost predicate Init(s: System) {
    s.bk == B.EMPTY && s.av == A.EMPTY && s.seen == {}
  }

  ghost predicate Enabled(s: System, a: Action) {
    match a
    case DeliverToAvailability(e) => e in s.bk.out
    case DeliverToBooking(e) => e in s.av.out
    case ExpiryPass(due) => A.IsDueBatch(s.av.res.expiry, s.now, due)
    case _ => true
  }

  function Next(s: System, a: Action): System {
    match a
    case CreateBooking(r) => s.(bk := B.Create(s.bk, r))
    case ConfirmBooking(b) => s.(bk := B.Confirm(s.bk, b).0)
    case CancelBooking(b, reason) => s.(bk := B.Cancel(s.bk, b, reason).0)
    case CompleteAsUser(b) => s.(bk := B.CompleteAsUser(s.bk, b).0)
    case CompleteAsHandyman(b) => s.(bk := B.CompleteAsHandyman(s.bk, b).0)
    case RejectBooking(b, reason) => s.(bk := B.Reject(s.bk, b, reason).0)
    case AdminDeleteBooking(b) => s.(bk := B.AdminDelete(s.bk, b).0)
    case DeliverToAvailability(e) => s.(av := A.Process(s.av, s.now, e))
    case DeliverToBooking(e) => s.(bk := B.Consume(s.bk, e), seen := s.seen + {e})
    case ExpiryPass(due) => s.(av := A.ExpireAll(s.av, s.now, due))
    case Tick(d) => s.(now := s.now + d)
    case SetAvailability(h, offered) => s.(av := A.OnSetAvailability(s.av, h, offered))
    case ClearAvailability(h) => s.(av := A.OnClearAvailability(s.av, h))
    case DeleteReservation(b) => s.(av := A.OnDeleteReservation(s.av, s.now, b))
  }

  predicate ActsOnAvailability(a: Action) {
    a.DeliverToAvailability? || a.ExpiryPass? || a.SetAvailability? || a.ClearAvailability? || a.DeleteReservation?
  }

  lemma OtherStepsLeaveAvailability(s: System, a: Action)
    requires !ActsOnAvailability(a)
    ensures Next(s, a).av == s.av
  {
  }

  /** A run takes one enabled action after another, each allowed by the given rule. */
  ghost predicate Run(allowed: (System, Action) -> bool, s: System, actions: seq<Action>, t: System)
    decreases |actions|
  {
    if actions == [] then s == t
    else
      && Enabled(s, actions[0]) && allowed(s, actions[0])
      && Run(allowed, Next(s, actions[0]), actions[1..], t)
  }

  /** Any action at all. */
  ghost predicate Anything(s: System, a: Action) {
    true
  }

  lemma {:induction false} RunExtends(allowed: (System, Action) -> bool, s: System, actions: seq<Action>, t: System, a: Action)
    requires Run(allowed, s, actions, t) && Enabled(t, a) && allowed(t, a)
    ensures Run(allowed, s, actions + [a], Next(t, a))
    decreases |actions|
  {
    if actions == [] {
      assert [a][1..] == [];
      assert Run(allowed, Next(t, a), [], Next(t, a));
      assert actions + [a] == [a];
    } else {
      RunExtends(allowed, Next(s, actions[0]), actions[1..], t, a);
      assert (actions + [a])[1..] == actions[1..] + [a];
    }
  }

  // ---- Facts about identities ----

  ghost predicate BookingFacts(bk: B.BkState) {
    && (forall b :: b in bk.rows ==> b < |bk.issued| && bk.rows[b].request == bk.issued[b])
    && (forall e :: e in bk.out ==>
          && IsBookingEvent(e) && e.id < |bk.issued|
          && (e.BookingRequested? || e.ConfirmRequested? ==> e.request == bk.issued[e.id]))
    && (forall i :: 0 <= i < |bk.out| ==> IsBookingEvent(bk.out[i]) && bk.out[i].eid == i)
  }

  ghost predicate EmittedFacts(out: seq<Event>, issued: seq<Request>) {
    forall e :: e in out && !e.AvailabilityUpdated? ==>
      && IsSlotEvent(e) && e.id < |issued|
      && (e.SlotConfirmed? ==> e.handyman == issued[e.id].handyman)
  }

  /** Bookings, reservations and events all agree on each booking's handyman and window. */
  ghost predicate Facts(s: System) {
    && BookingFacts(s.bk)
    && EmittedFacts(s.av.out, s.bk.issued)
    && R.Consistent(s.av.res, s.now, s.bk.issued)
    && (forall e :: e in s.seen ==> e in s.av.out)
    && (forall eid :: eid in s.av.processed ==> eid < |s.bk.out|)
  }

  ghost predicate AvailabilityFacts(av: A.AvState, now: Instant, issued: seq<Request>) {
    EmittedFacts(av.out, issued) && R.Consistent(av.res, now, issued)
  }

  /** What a delivered command must satisfy for the handlers to keep the facts. */
  ghost predicate CommandFacts(e: Event, issued: seq<Request>) {
    IsBookingCommand(e) ==>
      && e.id < |issued|
      && (e.BookingRequested? || e.ConfirmRequested? ==> e.request == issued[e.id])
  }

  lemma RequestedKeepsFacts(av: A.AvState, now: Instant, issued: seq<Request>, b: BookingId, r: Request)
    requires AvailabilityFacts(av, now, issued) && b < |issued| && r == issued[b]
    ensures AvailabilityFacts(A.OnRequested(av, now, b, r), now, issued)
  {
    if HasSlot(A.SlotsOf(av, r.handyman), r.window) && R.Create(av.res, now, b, r).1 {
      R.InsertKeepsConsistent(av.res, now, issued, b, r);
    }
  }

  lemma ConfirmKeepsFacts(av: A.AvState, now: Instant, issued: seq<Request>, b: BookingId, r: Request)
    requires AvailabilityFacts(av, now, issued) && b < |issued| && r == issued[b]
    ensures AvailabilityFacts(A.OnConfirmRequested(av, now, b, r), now, issued)
  {
    R.DeleteKeepsConsistent(av.res, now, issued, b);
  }

  lemma CancelKeepsFacts(av: A.AvState, now: Instant, issued: seq<Request>, b: BookingId, reason: string)
    requires AvailabilityFacts(av, now, issued) && b < |issued|
    ensures AvailabilityFacts(A.OnCancelRequested(av, now, b, reason), now, issued)
  {
    R.DeleteKeepsConsistent(av.res, now, issued, b);
  }

  lemma ProcessKeepsFacts(av: A.AvState, now: Instant, issued: seq<Request>, e: Event)
    requires AvailabilityFacts(av, now, issued) && CommandFacts(e, issued)
    ensures AvailabilityFacts(A.Process(av, now, e), now, issued)
  {
    if IsBookingCommand(e) {
      var marked := A.SetMarker(av, now, e.eid);
      match e
      case BookingRequested(_, b, r) => RequestedKeepsFacts(marked, now, issued, b, r);
      case ConfirmRequested(_, b, r) => ConfirmKeepsFacts(marked, now, issued, b, r);
      case CancelRequested(_, b, reason) => CancelKeepsFacts(marked, now, issued, b, reason);
    }
  }

  /** Taking the id out of the sorted set first changes nothing: deletion does it again. */
  lemma ExpireOneIsDelete(av: A.AvState, now: Instant, b: BookingId)
    ensures A.ExpireOne(av, now, b) == A.Emit(av.(res := R.Delete(av.res, now, b)), SlotExpired(b))
  {
    assert av.res.expiry - {b} - {b} == av.res.expiry - {b};
  }

  lemma {:induction false} ExpireKeepsFacts(av: A.AvState, now: Instant, issued: seq<Request>, due: seq<BookingId>)
    requires AvailabilityFacts(av, now, issued)
    requires forall i :: 0 <= i < |due| ==> due[i] < |issued|
    ensures AvailabilityFacts(A.ExpireAll(av, now, due), now, issued)
  {
    if due != [] {
      var before, b := A.ExpireAll(av, now, due[..|due| - 1]), due[|due| - 1];
      ExpireKeepsFacts(av, now, issued, due[..|due| - 1]);
      ExpireOneIsDelete(before, now, b);
      R.DeleteKeepsConsistent(before.res, now, issued, b);
    }
  }

  /** Issuing a booking leaves every fact about earlier bookings as it was. */
  lemma CreateKeepsFacts(s: System, r: Request)
    requires Facts(s)
    ensures Facts(s.(bk := B.Create(s.bk, r)))
  {
    R.IssuingKeepsConsistent(s.av.res, s.now, s.bk.issued, r);
  }

  lemma SaveKeepsBookingFacts(bk: B.BkState, b: BookingId, booking: B.Booking, e: Event)
    requires BookingFacts(bk) && b in bk.rows && booking.request == bk.rows[b].request
    requires IsBookingEvent(e) && e.id == b && e.eid == |bk.out|
    requires e.BookingRequested? || e.ConfirmRequested? ==> e.request == booking.request
    ensures BookingFacts(B.Save(bk, b, booking, e))
  {
  }

  lemma ConfirmKeepsBookingFacts(bk: B.BkState, b: BookingId)
    requires BookingFacts(bk)
    ensures BookingFacts(B.Confirm(bk, b).0)
  {
    if b in bk.rows {
      SaveKeepsBookingFacts(bk, b, bk.rows[b], ConfirmRequested(|bk.out|, b, bk.rows[b].request));
    }
  }

  lemma CancelKeepsBookingFacts(bk: B.BkState, b: BookingId, reason: string)
    requires BookingFacts(bk)
    ensures BookingFacts(B.Cancel(bk, b, reason).0)
  {
  }

  lemma CompleteAsUserKeepsBookingFacts(bk: B.BkState, b: BookingId)
    requires BookingFacts(bk)
    ensures BookingFacts(B.CompleteAsUser(bk, b).0)
  {
  }

  lemma CompleteAsHandymanKeepsBookingFacts(bk: B.BkState, b: BookingId)
    requires BookingFacts(bk)
    ensures BookingFacts(B.CompleteAsHandyman(bk, b).0)
  {
  }

  lemma RejectKeepsBookingFacts(bk: B.BkState, b: BookingId, reason: string)
    requires BookingFacts(bk)
    ensures BookingFacts(B.Reject(bk, b, reason).0)
  {
  }

  /** A step that touches the booking service alone, and keeps every request it has issued. */
  lemma BookingStepKeepsFacts(s: System, bk: B.BkState)
    requires Facts(s) && BookingFacts(bk) && bk.issued == s.bk.issued && |s.bk.out| <= |bk.out|
    ensures Facts(s.(bk := bk))
  {
  }

  lemma BookingStepAppends(s: System, a: Action)
    requires !a.CreateBooking?
    ensures Next(s, a).bk.issued == s.bk.issued && |s.bk.out| <= |Next(s, a).bk.out|
  {
  }

  lemma ConsumeKeepsBookingFacts(bk: B.BkState, e: Event)
    requires BookingFacts(bk)
    ensures BookingFacts(B.Consume(bk, e))
  {
  }

  lemma BookingHandlersKeepFacts(s: System, a: Action)
    requires Facts(s)
    requires a.ConfirmBooking? || a.CancelBooking? || a.CompleteAsUser? || a.CompleteAsHandyman?
             || a.RejectBooking? || a.AdminDeleteBooking? || a.DeliverToBooking?
    requires Enabled(s, a)
    ensures Facts(Next(s, a))
  {
    BookingStepAppends(s, a);
    match a {
      case ConfirmBooking(b) => ConfirmKeepsBookingFacts(s.bk, b);
      case CancelBooking(b, reason) => CancelKeepsBookingFacts(s.bk, b, reason);
      case CompleteAsUser(b) => CompleteAsUserKeepsBookingFacts(s.bk, b);
      case CompleteAsHandyman(b) => CompleteAsHandymanKeepsBookingFacts(s.bk, b);
      case RejectBooking(b, reason) => RejectKeepsBookingFacts(s.bk, b, reason);
      case DeliverToBooking(e) => ConsumeKeepsBookingFacts(s.bk, e);
      case _ =>
    }
    BookingStepKeepsFacts(s, Next(s, a).bk);
  }

  lemma NextKeepsFacts(s: System, a: Action)
    requires Facts(s) && Enabled(s, a)
    ensures Facts(Next(s, a))
  {
    match a
    case CreateBooking(r) => CreateKeepsFacts(s, r);
    case DeliverToAvailability(e) => ProcessKeepsFacts(s.av, s.now, s.bk.issued, e); ProcessOnlyAppends(s.av, s.now, e); ProcessMarksOnly(s.av, s.now, e);
    case ExpiryPass(due) => ExpireKeepsFacts(s.av, s.now, s.bk.issued, due); ExpireOnlyAppends(s.av, s.now, due);
    case Tick(d) => R.TimePassingKeepsConsistent(s.av.res, s.now, s.now + d, s.bk.issued);
    case SetAvailability(_, _) =>
    case ClearAvailability(_) =>
    case DeleteReservation(b) => R.DeleteKeepsConsistent(s.av.res, s.now, s.bk.issued, b);
    case _ => BookingHandlersKeepFacts(s, a);
  }

  lemma ProcessOnlyAppends(av: A.AvState, now: Instant, e: Event)
    ensures av.out <= A.Process(av, now, e).out
  {
  }

  lemma ProcessMarksOnly(av: A.AvState, now: Instant, e: Event)
    ensures A.Process(av, now, e).processed.Keys <= av.processed.Keys + if IsBookingCommand(e) then {e.eid} else {}
  {
  }

  lemma {:induction false} ExpireOnlyAppends(av: A.AvState, now: Instant, due: seq<BookingId>)
    ensures av.out <= A.ExpireAll(av, now, due).out
    ensures forall e :: e in A.ExpireAll(av, now, due).out ==> e in av.out || e.SlotExpired?
    ensures A.ExpireAll(av, now, due).slots == av.slots && A.ExpireAll(av, now, due).processed == av.processed
  {
    if due != [] {
      ExpireOnlyAppends(av, now, due[..|due| - 1]);
    }
  }
}
