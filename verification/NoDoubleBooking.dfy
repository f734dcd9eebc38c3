/** The safety of the composed system: two bookings of one handyman that are both CONFIRMED
    or COMPLETED never overlap. */
module NoDoubleBooking {
  import opened Intervals
  import opened Events
  import opened Idempotency
  import opened FreeSlots
  import opened Protocol
  import opened Lifecycle
  import R = Reservations
  import A = Availability
  import B = Bookings

  /** A booking holds its window from the moment its slot.confirmed is emitted until its row
      reaches a terminal status or is deleted. */
  predicate Holding(s: System, b: BookingId) {
    && b in s.bk.rows && !B.Terminal(s.bk.rows[b].status)
    && SlotConfirmed(b, s.bk.rows[b].request.handyman) in s.av.out
  }

  ghost function Held(s: System): set<BookingId> {
    set b | b in s.bk.rows && Holding(s, b)
  }

  /** No instant of the offer lies in a window that is held for the handyman. */
  ghost predicate OfferAvoidsHeld(s: System, h: Email, offered: seq<Window>) {
    forall b, x :: Holding(s, b) && s.bk.rows[b].request.handyman == h && s.bk.rows[b].request.window.Has(x)
      ==> !Covers(offered, x)
  }

  /** The rule a run must respect: set_availability never offers a held window again. */
  ghost predicate OffersAvoidHeld(s: System, a: Action) {
    a.SetAvailability? ==> OfferAvoidsHeld(s, a.handyman, a.offered)
  }

  ghost predicate NoOverlappingBookings(s: System) {
    forall b, c :: b in s.bk.rows && c in s.bk.rows && b != c
      && Booked(s.bk.rows[b].status) && Booked(s.bk.rows[c].status)
      && s.bk.rows[b].request.handyman == s.bk.rows[c].request.handyman
      ==> !Overlaps(s.bk.rows[b].request.window, s.bk.rows[c].request.window)
  }

  // ---- The availability service keeps held windows apart ----

  ghost predicate HeldFacts(issued: seq<Request>, held: set<BookingId>) {
    && (forall b :: b in held ==> b < |issued| && issued[b].window.Nonempty() && issued[b].handyman != "")
    && (forall b, c :: b in held && c in held && b != c && issued[b].handyman == issued[c].handyman
          ==> !Overlaps(issued[b].window, issued[c].window))
  }

  ghost predicate SlotsAvoid(av: A.AvState, issued: seq<Request>, held: set<BookingId>)
    requires HeldFacts(issued, held)
  {
    forall b, x :: b in held && issued[b].window.Has(x) ==> !Covers(A.SlotsOf(av, issued[b].handyman), x)
  }

  ghost predicate ReservationsAvoid(st: R.Store, now: Instant, issued: seq<Request>, held: set<BookingId>)
    requires HeldFacts(issued, held)
  {
    forall b, c :: b in held && R.Live(st, now, c) && st.keys[c].request.handyman == issued[b].handyman
      ==> !Overlaps(issued[b].window, st.keys[c].request.window)
  }

  ghost predicate Safe(av: A.AvState, now: Instant, issued: seq<Request>, held: set<BookingId>) {
    && HeldFacts(issued, held)
    && R.LiveReservationsDisjoint(av.res, now)
    && SlotsAvoid(av, issued, held)
    && ReservationsAvoid(av.res, now, issued, held)
  }

  /** Fewer held windows, fewer live reservations, and unchanged slots are still safe. */
  lemma ShrinkingKeepsSafe(av: A.AvState, now: Instant, issued: seq<Request>, held: set<BookingId>,
                           av': A.AvState, now': Instant, issued': seq<Request>, held': set<BookingId>)
    requires Safe(av, now, issued, held)
    requires held' <= held && issued <= issued' && av'.slots == av.slots
    requires forall c :: R.Live(av'.res, now', c) ==>
               R.Live(av.res, now, c) && av'.res.keys[c].request == av.res.keys[c].request
    ensures Safe(av', now', issued', held')
  {
  }

  lemma OverlapUncoversHeldInstant(slots: seq<Window>, w: Window, held: Window)
    requires HasSlot(slots, w) && held.Nonempty() && Overlaps(held, w)
    ensures exists x :: held.Has(x) && Covers(slots, x)
  {
    OverlapsIffShareAnInstant(held, w);
    var x :| held.Has(x) && w.Has(x);
    var i :| 0 <= i < |slots| && FullyContains(slots[i], w);
    assert slots[i].Has(x);
  }

  lemma WindowInAFreeSlotAvoidsHeld(slots: seq<Window>, w: Window, held: Window)
    requires HasSlot(slots, w) && held.Nonempty()
    requires forall x :: held.Has(x) ==> !Covers(slots, x)
    ensures !Overlaps(held, w)
  {
    if Overlaps(held, w) {
      OverlapUncoversHeldInstant(slots, w, held);
    }
  }

  /** A reservation is only made inside a free slot, so away from every held window. */
  lemma RequestedKeepsSafe(av: A.AvState, now: Instant, issued: seq<Request>, held: set<BookingId>, b: BookingId, r: Request)
    requires AvailabilityFacts(av, now, issued) && Safe(av, now, issued, held)
    requires b < |issued| && r == issued[b]
    ensures Safe(A.OnRequested(av, now, b, r), now, issued, held)
  {
    if HasSlot(A.SlotsOf(av, r.handyman), r.window) {
      R.CreateIsExact(av.res, now, issued, b, r);
      forall c | c in held && issued[c].handyman == r.handyman
        ensures !Overlaps(issued[c].window, r.window)
      {
        WindowInAFreeSlotAvoidsHeld(A.SlotsOf(av, r.handyman), r.window, issued[c].window);
      }
    }
  }

  /** Confirming moves a window from reserved to held: it was apart from all held windows and
      from all other reservations, and its time leaves the free slots. */
  lemma ConfirmKeepsSafe(av: A.AvState, now: Instant, issued: seq<Request>, held: set<BookingId>, b: BookingId, r: Request)
    requires AvailabilityFacts(av, now, issued) && Safe(av, now, issued, held)
    requires b < |issued| && r == issued[b] && r.handyman != "" && R.Live(av.res, now, b)
    ensures Safe(A.OnConfirmRequested(av, now, b, r), now, issued, held + {b})
  {
    var av' := A.OnConfirmRequested(av, now, b, r);
    LiveMayBeHeld(av, now, issued, held, b);
    DeleteKeepsSafe(av, now, issued, held, b, av.out);
    assert av'.res == R.Delete(av.res, now, b);
    forall c, x | c in held + {b} && issued[c].window.Has(x)
      ensures !Covers(A.SlotsOf(av', issued[c].handyman), x)
    {
      ConfirmTakesWindow(av, now, b, r, x);
    }
  }

  /** The window of a live reservation can join the held ones. */
  lemma LiveMayBeHeld(av: A.AvState, now: Instant, issued: seq<Request>, held: set<BookingId>, b: BookingId)
    requires AvailabilityFacts(av, now, issued) && Safe(av, now, issued, held)
    requires b < |issued| && issued[b].handyman != "" && R.Live(av.res, now, b)
    ensures HeldFacts(issued, held + {b})
    ensures ReservationsAvoid(R.Delete(av.res, now, b), now, issued, held + {b})
  {
  }

  lemma ConfirmTakesWindow(av: A.AvState, now: Instant, b: BookingId, r: Request, x: Instant)
    requires r.handyman != "" && R.Live(av.res, now, b)
    ensures var slots := A.SlotsOf(A.OnConfirmRequested(av, now, b, r), r.handyman);
            Covers(slots, x) ==> Covers(A.SlotsOf(av, r.handyman), x) && !r.window.Has(x)
    ensures forall h :: h != r.handyman ==> A.SlotsOf(A.OnConfirmRequested(av, now, b, r), h) == A.SlotsOf(av, h)
  {
    SubtractCoversExactly(A.SlotsOf(av, r.handyman), r.window, x);
  }

  lemma ConfirmWithoutReservationKeepsSafe(av: A.AvState, now: Instant, issued: seq<Request>, held: set<BookingId>, b: BookingId, r: Request)
    requires Safe(av, now, issued, held) && !R.Live(av.res, now, b)
    ensures Safe(A.OnConfirmRequested(av, now, b, r), now, issued, held)
  {
    ShrinkingKeepsSafe(av, now, issued, held, A.OnConfirmRequested(av, now, b, r), now, issued, held);
  }

  lemma DeleteKeepsSafe(av: A.AvState, now: Instant, issued: seq<Request>, held: set<BookingId>, b: BookingId, out: seq<Event>)
    requires Safe(av, now, issued, held)
    ensures Safe(av.(res := R.Delete(av.res, now, b), out := out), now, issued, held)
  {
    ShrinkingKeepsSafe(av, now, issued, held, av.(res := R.Delete(av.res, now, b), out := out), now, issued, held);
  }

  lemma {:induction false} ExpireKeepsSafe(av: A.AvState, now: Instant, issued: seq<Request>, held: set<BookingId>, due: seq<BookingId>)
    requires Safe(av, now, issued, held)
    ensures Safe(A.ExpireAll(av, now, due), now, issued, held)
  {
    if due != [] {
      var before, b := A.ExpireAll(av, now, due[..|due| - 1]), due[|due| - 1];
      ExpireKeepsSafe(av, now, issued, held, due[..|due| - 1]);
      ExpireOneIsDelete(before, now, b);
      DeleteKeepsSafe(before, now, issued, held, b, before.out + [SlotExpired(b)]);
    }
  }

  lemma OfferKeepsSafe(av: A.AvState, now: Instant, issued: seq<Request>, held: set<BookingId>, h: Email, offered: seq<Window>)
    requires Safe(av, now, issued, held)
    requires forall b, x :: b in held && issued[b].handyman == h && issued[b].window.Has(x) ==> !Covers(offered, x)
    ensures Safe(A.OnSetAvailability(av, h, offered), now, issued, held)
    ensures offered == [] ==> Safe(A.OnClearAvailability(av, h), now, issued, held)
  {
    var av' := A.OnSetAvailability(av, h, offered);
    assert A.SlotsOf(av', h) == offered;
    assert forall e :: e != h ==> A.SlotsOf(av', e) == A.SlotsOf(av, e);
  }

  // ---- The composed system ----

  ghost predicate SafetyInv(s: System) {
    StatusInv(s) && Safe(s.av, s.now, s.bk.issued, Held(s))
  }

  lemma InitIsSafe(s: System)
    requires Init(s)
    ensures SafetyInv(s)
  {
  }

  /** Only processing a confirmation of a live reservation emits slot.confirmed. */
  lemma NothingElseConfirms(s: System, a: Action)
    requires Enabled(s, a)
    requires a.DeliverToAvailability? && a.event.ConfirmRequested? ==>
               Marked(s.av.processed, s.now, a.event.eid) || a.event.request.handyman == "" || !R.Live(s.av.res, s.now, a.event.id)
    ensures forall e: Event :: e.SlotConfirmed? && e in Next(s, a).av.out ==> e in s.av.out
  {
    match a
    case ExpiryPass(due) => ExpireOnlyAppends(s.av, s.now, due);
    case _ =>
  }

  lemma HeldShrinks(s: System, t: System)
    requires EmittedFacts(s.av.out, s.bk.issued) && RowsAdvance(s.bk, t.bk)
    requires forall e: Event :: e.SlotConfirmed? && e in t.av.out ==> e in s.av.out
    ensures Held(t) <= Held(s)
  {
    forall b | b in Held(t)
      ensures b in Held(s)
    {
      assert SlotConfirmed(b, t.bk.rows[b].request.handyman) in s.av.out;
    }
  }

  /** The command confirms: it is new, and its reservation is still live. */
  predicate Confirms(av: A.AvState, now: Instant, e: Event) {
    e.ConfirmRequested? && !Marked(av.processed, now, e.eid) && e.request.handyman != "" && R.Live(av.res, now, e.id)
  }

  lemma ProcessKeepsSafe(av: A.AvState, now: Instant, issued: seq<Request>, held: set<BookingId>, e: Event)
    requires AvailabilityFacts(av, now, issued) && Safe(av, now, issued, held) && CommandFacts(e, issued)
    ensures Safe(A.Process(av, now, e), now, issued, held + if Confirms(av, now, e) then {e.id} else {})
  {
    if IsBookingCommand(e) && !Marked(av.processed, now, e.eid) {
      var marked := A.SetMarker(av, now, e.eid);
      ShrinkingKeepsSafe(av, now, issued, held, marked, now, issued, held);
      match e
      case BookingRequested(_, b, r) =>
        RequestedKeepsSafe(marked, now, issued, held, b, r);
        assert held + {} == held;
      case ConfirmRequested(_, b, r) =>
        ConfirmCommandKeepsSafe(av, now, issued, held, e);
      case CancelRequested(_, b, reason) =>
        DeleteKeepsSafe(marked, now, issued, held, b, av.out + [SlotReleased(b, reason)]);
        assert held + {} == held;
    } else {
      assert held + {} == held;
    }
  }

  lemma ConfirmCommandKeepsSafe(av: A.AvState, now: Instant, issued: seq<Request>, held: set<BookingId>, e: Event)
    requires AvailabilityFacts(av, now, issued) && Safe(av, now, issued, held) && CommandFacts(e, issued)
    requires e.ConfirmRequested? && !Marked(av.processed, now, e.eid)
    ensures Safe(A.Process(av, now, e), now, issued, held + if Confirms(av, now, e) then {e.id} else {})
  {
    var marked := A.SetMarker(av, now, e.eid);
    ShrinkingKeepsSafe(av, now, issued, held, marked, now, issued, held);
    if Confirms(av, now, e) {
      ConfirmKeepsSafe(marked, now, issued, held, e.id, e.request);
    } else {
      assert held + {} == held;
      if e.request.handyman != "" {
        ConfirmWithoutReservationKeepsSafe(marked, now, issued, held, e.id, e.request);
      }
    }
  }

  lemma ConfirmingEmits(av: A.AvState, now: Instant, e: Event)
    ensures forall c: Event :: c.SlotConfirmed? && c in A.Process(av, now, e).out && c !in av.out ==> Confirms(av, now, e) && c.id == e.id
  {
  }

  lemma DeliveryKeepsSafetyInv(s: System, e: Event)
    requires SafetyInv(s) && e in s.bk.out
    ensures Safe(Next(s, DeliverToAvailability(e)).av, s.now, s.bk.issued, Held(Next(s, DeliverToAvailability(e))))
  {
    var t := Next(s, DeliverToAvailability(e));
    var grown := Held(s) + if Confirms(s.av, s.now, e) then {e.id} else {};
    ProcessKeepsSafe(s.av, s.now, s.bk.issued, Held(s), e);
    ConfirmingEmits(s.av, s.now, e);
    forall b | b in Held(t)
      ensures b in grown
    {
      assert SlotConfirmed(b, s.bk.rows[b].request.handyman) in t.av.out;
    }
    ShrinkingKeepsSafe(t.av, s.now, s.bk.issued, grown, t.av, s.now, s.bk.issued, Held(t));
  }

  /** Every other step keeps the windows held before it safe. */
  lemma OtherStepsKeepSafe(s: System, a: Action, held: set<BookingId>)
    requires Safe(s.av, s.now, s.bk.issued, held) && !a.DeliverToAvailability?
    requires a.SetAvailability? ==>
               forall b, x :: b in held && s.bk.issued[b].handyman == a.handyman && s.bk.issued[b].window.Has(x)
                 ==> !Covers(a.offered, x)
    ensures Safe(Next(s, a).av, Next(s, a).now, Next(s, a).bk.issued, held)
  {
    match a
    case ExpiryPass(due) => ExpireKeepsSafe(s.av, s.now, s.bk.issued, held, due);
    case SetAvailability(h, offered) => OfferKeepsSafe(s.av, s.now, s.bk.issued, held, h, offered);
    case ClearAvailability(h) => OfferKeepsSafe(s.av, s.now, s.bk.issued, held, h, []);
    case DeleteReservation(b) => DeleteKeepsSafe(s.av, s.now, s.bk.issued, held, b, s.av.out);
    case _ =>
      var t := Next(s, a);
      ShrinkingKeepsSafe(s.av, s.now, s.bk.issued, held, t.av, t.now, t.bk.issued, held);
  }

  lemma NextKeepsSafetyInv(s: System, a: Action)
    requires SafetyInv(s) && Enabled(s, a) && OffersAvoidHeld(s, a)
    ensures SafetyInv(Next(s, a))
  {
    var t := Next(s, a);
    NextKeepsStatusInv(s, a);
    if a.DeliverToAvailability? {
      DeliveryKeepsSafetyInv(s, a.event);
    } else {
      NextAdvancesRows(s, a);
      NothingElseConfirms(s, a);
      HeldShrinks(s, t);
      OtherStepsKeepSafe(s, a, Held(s));
      ShrinkingKeepsSafe(t.av, t.now, t.bk.issued, Held(s), t.av, t.now, t.bk.issued, Held(t));
    }
  }

  lemma SafetyInvImpliesNoOverlap(s: System)
    requires SafetyInv(s)
    ensures NoOverlappingBookings(s)
  {
    forall b, c | b in s.bk.rows && c in s.bk.rows && b != c
      && Booked(s.bk.rows[b].status) && Booked(s.bk.rows[c].status)
      && s.bk.rows[b].request.handyman == s.bk.rows[c].request.handyman
      ensures !Overlaps(s.bk.rows[b].request.window, s.bk.rows[c].request.window)
    {
      assert b in Held(s) && c in Held(s);
    }
  }

  lemma {:induction false} RunKeepsSafetyInv(s: System, actions: seq<Action>, t: System)
    requires SafetyInv(s) && Run(OffersAvoidHeld, s, actions, t)
    ensures SafetyInv(t)
    decreases |actions|
  {
    if actions != [] {
      NextKeepsSafetyInv(s, actions[0]);
      RunKeepsSafetyInv(Next(s, actions[0]), actions[1..], t);
    }
  }

  /** In every reachable state, whatever was delivered late, twice, out of order or never, no two
      booked jobs of one handyman overlap, provided held windows are not offered again. */
  lemma {:induction false} NoTwoBookingsOverlap(start: System, actions: seq<Action>, t: System)
    requires Init(start) && Run(OffersAvoidHeld, start, actions, t)
    ensures NoOverlappingBookings(t)
  {
    InitIsSafe(start);
    RunKeepsSafetyInv(start, actions, t);
    SafetyInvImpliesNoOverlap(t);
  }
}
