/** Offering a held window again is the one thing that breaks the safety of the system: after an
    offer, some continuation books two overlapping jobs exactly when the offer covers an instant
    of a window that is held. */
module OfferRule {
  import opened Intervals
  import opened Events
  import opened Idempotency
  import opened FreeSlots
  import opened Protocol
  import opened Lifecycle
  import opened NoDoubleBooking
  import R = Reservations
  import A = Availability
  import B = Bookings

  /** Some run that never offers a held window leads from s to t. */
  ghost predicate Reaches(s: System, t: System) {
    exists actions :: Run(OffersAvoidHeld, s, actions, t)
  }

  lemma ReachesItself(s: System)
    ensures Reaches(s, s)
  {
    assert Run(OffersAvoidHeld, s, [], s);
  }

  lemma ReachesNext(s: System, t: System, a: Action)
    requires Reaches(s, t) && Enabled(t, a) && OffersAvoidHeld(t, a)
    ensures Reaches(s, Next(t, a))
  {
    var actions :| Run(OffersAvoidHeld, s, actions, t);
    RunExtends(OffersAvoidHeld, s, actions, t, a);
  }

  lemma {:induction false} RunKeepsFacts(s: System, actions: seq<Action>, t: System)
    requires Facts(s) && Run(OffersAvoidHeld, s, actions, t)
    ensures Facts(t)
    decreases |actions|
  {
    if actions != [] {
      NextKeepsFacts(s, actions[0]);
      RunKeepsFacts(Next(s, actions[0]), actions[1..], t);
    }
  }

  lemma ReachedHasFacts(s: System, t: System)
    requires Facts(s) && Reaches(s, t)
    ensures Facts(t)
  {
    var actions :| Run(OffersAvoidHeld, s, actions, t);
    RunKeepsFacts(s, actions, t);
  }

  /** Once 300 seconds have passed no reservation is live. */
  lemma AllReservationsLapse(s: System, c: BookingId)
    requires Facts(s)
    ensures !R.Live(s.av.res, s.now + R.RES_TTL_SECONDS, c)
  {
  }

  /** A new request inside a free slot is reserved when nothing is live. */
  lemma RequestIsReserved(start: System, s: System, e: Event)
    requires Facts(start) && Reaches(start, s) && e in s.bk.out && e.BookingRequested? && !Marked(s.av.processed, s.now, e.eid)
    requires e.request.user != "" && e.request.handyman != "" && HasSlot(A.SlotsOf(s.av, e.request.handyman), e.request.window)
    requires forall c: BookingId :: !R.Live(s.av.res, s.now, c)
    ensures var t := Next(s, DeliverToAvailability(e));
            t.av.out == s.av.out + [SlotReserved(e.id, e.request.handyman)] && R.Live(t.av.res, t.now, e.id)
  {
    ReachedHasFacts(start, s);
    assert !R.IndexShowsConflict(s.av.res, s.now, e.request);
  }

  /** A new confirmation of a live reservation is granted. */
  lemma ConfirmationIsGranted(start: System, s: System, e: Event)
    requires Facts(start) && Reaches(start, s) && e in s.bk.out && e.ConfirmRequested? && !Marked(s.av.processed, s.now, e.eid)
    requires e.request.handyman != "" && R.Live(s.av.res, s.now, e.id)
    ensures var t := Next(s, DeliverToAvailability(e));
            s.av.out <= t.av.out && SlotConfirmed(e.id, e.request.handyman) in t.av.out
  {
    ReachedHasFacts(start, s);
    assert s.av.res.keys[e.id].request == e.request;
  }

  /** Consuming one event about b changes b's row only. */
  lemma ConsumptionIsLocal(s: System, e: Event)
    requires e in s.av.out && IsSlotEvent(e) && e.id in s.bk.rows
    ensures var t := Next(s, DeliverToBooking(e));
            t.bk == s.bk.(rows := s.bk.rows[e.id := B.OnSlotEvent(s.bk.rows[e.id], e)]) && t.av == s.av && t.now == s.now
  {
  }

  /** Creating a booking queues a command that has not been processed yet. */
  lemma CreationIsQueued(start: System, s: System, r: Request)
    requires Facts(start) && Reaches(start, s)
    ensures var t, e := Next(s, CreateBooking(r)), BookingRequested(|s.bk.out|, |s.bk.issued|, r);
            && t.bk.rows == s.bk.rows[|s.bk.issued| := B.NewBooking(r)]
            && e in t.bk.out && !Marked(t.av.processed, t.now, e.eid)
            && t.av == s.av && t.now == s.now
  {
    ReachedHasFacts(start, s);
  }

  lemma ConfirmationIsQueued(start: System, s: System, b: BookingId)
    requires Facts(start) && Reaches(start, s) && b in s.bk.rows && s.bk.rows[b].status == B.Reserved
    ensures var t, e := Next(s, ConfirmBooking(b)), ConfirmRequested(|s.bk.out|, b, s.bk.rows[b].request);
            && t.bk.rows == s.bk.rows
            && e in t.bk.out && !Marked(t.av.processed, t.now, e.eid)
            && t.av == s.av && t.now == s.now
  {
    ReachedHasFacts(start, s);
  }

  /** A command is delivered, and then an answer to it. */
  lemma CommandIsAnswered(start: System, s: System, command: Event, answer: Event) returns (t: System)
    requires Reaches(start, s) && command in s.bk.out
    requires answer in Next(s, DeliverToAvailability(command)).av.out && IsSlotEvent(answer) && answer.id in s.bk.rows
    ensures Reaches(start, t)
    ensures t.bk.rows == s.bk.rows[answer.id := B.OnSlotEvent(s.bk.rows[answer.id], answer)]
    ensures t.av == Next(s, DeliverToAvailability(command)).av && t.now == s.now
  {
    var s' := Next(s, DeliverToAvailability(command));
    ReachesNext(start, s, DeliverToAvailability(command));
    t := Next(s', DeliverToBooking(answer));
    ConsumptionIsLocal(s', answer);
    ReachesNext(start, s', DeliverToBooking(answer));
  }

  lemma NewBookingIsReserved(r: Request, b: BookingId)
    ensures B.OnSlotEvent(B.NewBooking(r), SlotReserved(b, r.handyman)) == B.NewBooking(r).(status := B.Reserved)
  {
  }

  /** With nothing live, a new booking of a window inside a free slot is created and its command,
      once delivered, reserves that window. */
  lemma NewRequestIsGranted(start: System, s: System, r: Request) returns (s1: System, command: Event)
    requires Facts(start) && Reaches(start, s)
    requires r.user != "" && r.handyman != "" && HasSlot(A.SlotsOf(s.av, r.handyman), r.window)
    requires forall c: BookingId :: !R.Live(s.av.res, s.now, c)
    ensures Reaches(start, s1) && s1.bk.rows == s.bk.rows[|s.bk.issued| := B.NewBooking(r)]
    ensures command in s1.bk.out
    ensures var t := Next(s1, DeliverToAvailability(command));
            && t.av.out == s.av.out + [SlotReserved(|s.bk.issued|, r.handyman)]
            && R.Live(t.av.res, s1.now, |s.bk.issued|)
  {
    s1 := Next(s, CreateBooking(r));
    command := BookingRequested(|s.bk.out|, |s.bk.issued|, r);
    CreationIsQueued(start, s, r);
    ReachesNext(start, s, CreateBooking(r));
    RequestIsReserved(start, s1, command);
  }

  /** With nothing live, a window inside a free slot can be reserved for a new booking, and no
      other row changes. */
  lemma FreeWindowIsReserved(start: System, s: System, r: Request) returns (t: System)
    requires Facts(start) && Reaches(start, s)
    requires r.user != "" && r.handyman != "" && HasSlot(A.SlotsOf(s.av, r.handyman), r.window)
    requires forall c: BookingId :: !R.Live(s.av.res, s.now, c)
    ensures Reaches(start, t)
    ensures t.bk.rows == s.bk.rows[|s.bk.issued| := B.NewBooking(r).(status := B.Reserved)]
    ensures t.av.out == s.av.out + [SlotReserved(|s.bk.issued|, r.handyman)]
    ensures R.Live(t.av.res, t.now, |s.bk.issued|)
  {
    var b := |s.bk.issued|;
    var s1, command := NewRequestIsGranted(start, s, r);
    NewBookingIsReserved(r, b);
    t := CommandIsAnswered(start, s1, command, SlotReserved(b, r.handyman));
  }

  lemma ReservedBookingIsConfirmed(start: System, s: System, b: BookingId) returns (t: System)
    requires Facts(start) && Reaches(start, s) && b in s.bk.rows && s.bk.rows[b].status == B.Reserved
    requires R.Live(s.av.res, s.now, b) && s.bk.rows[b].request.handyman != ""
    ensures Reaches(start, t) && s.av.out <= t.av.out
    ensures t.bk.rows == s.bk.rows[b := s.bk.rows[b].(status := B.Confirmed)]
  {
    var r := s.bk.rows[b].request;
    var command := ConfirmRequested(|s.bk.out|, b, r);
    var s1 := Next(s, ConfirmBooking(b));
    ConfirmationIsQueued(start, s, b);
    ReachesNext(start, s, ConfirmBooking(b));
    ConfirmationIsGranted(start, s1, command);
    t := CommandIsAnswered(start, s1, command, SlotConfirmed(b, r.handyman));
  }

  /** A holding booking is booked already, or becomes so when its slot.confirmed is delivered. */
  lemma HoldingBookingIsBooked(s: System, b: BookingId, row: B.Booking)
    requires StatusInv(s) && Holding(s, b) && row == s.bk.rows[b]
    ensures Booked(B.OnSlotEvent(row, SlotConfirmed(b, row.request.handyman)).status)
    ensures B.OnSlotEvent(row, SlotConfirmed(b, row.request.handyman)).request == row.request
  {
    assert Implied(SlotConfirmed(b, row.request.handyman), row.status);
  }

  lemma SlotCoveringInstant(slots: seq<Window>, x: Instant)
    requires Covers(slots, x)
    ensures HasSlot(slots, Window(x, x + 1))
  {
    var i :| 0 <= i < |slots| && slots[i].Has(x);
    assert FullyContains(slots[i], Window(x, x + 1));
  }

  lemma WaitingLapsesReservations(s: System)
    requires Facts(s)
    ensures var t := Next(s, Tick(R.RES_TTL_SECONDS));
            && Reaches(s, t) && t.bk == s.bk && t.av == s.av
            && forall c: BookingId :: !R.Live(t.av.res, t.now, c)
  {
    var t := Next(s, Tick(R.RES_TTL_SECONDS));
    forall c: BookingId
      ensures !R.Live(t.av.res, t.now, c)
    {
      AllReservationsLapse(s, c);
    }
    ReachesItself(s);
    ReachesNext(s, s, Tick(R.RES_TTL_SECONDS));
  }

  /** A new booking can be confirmed on any covered instant, and no other row changes. */
  lemma CoveredInstantIsBooked(s: System, h: Email, x: Instant) returns (t: System)
    requires Facts(s) && h != "" && Covers(A.SlotsOf(s.av, h), x)
    ensures Reaches(s, t) && s.av.out <= t.av.out
    ensures t.bk.rows == s.bk.rows[|s.bk.issued| := B.NewBooking(Request("u", h, Window(x, x + 1))).(status := B.Confirmed)]
  {
    var s1 := Next(s, Tick(R.RES_TTL_SECONDS));
    WaitingLapsesReservations(s);
    SlotCoveringInstant(A.SlotsOf(s.av, h), x);
    var b, booking := |s.bk.issued|, B.NewBooking(Request("u", h, Window(x, x + 1)));
    var s2 := FreeWindowIsReserved(s, s1, booking.request);
    assert s2.bk.rows == s.bk.rows[b := booking.(status := B.Reserved)];
    t := ReservedBookingIsConfirmed(s, s2, b);
    assert t.bk.rows == s.bk.rows[b := booking.(status := B.Confirmed)];
  }

  /** If a free slot covers an instant of a held window, a double booking is a few steps away. */
  lemma UncoveredHeldWindowIsBookedTwice(s: System, b: BookingId, x: Instant) returns (t: System)
    requires StatusInv(s) && Holding(s, b) && s.bk.rows[b].request.handyman != ""
    requires s.bk.rows[b].request.window.Has(x) && Covers(A.SlotsOf(s.av, s.bk.rows[b].request.handyman), x)
    ensures Reaches(s, t) && !NoOverlappingBookings(t)
  {
    var row, c := s.bk.rows[b], |s.bk.issued|;
    var told := SlotConfirmed(b, row.request.handyman);
    HoldingBookingIsBooked(s, b, row);
    var s1 := CoveredInstantIsBooked(s, row.request.handyman, x);
    assert s1.bk.rows[b] == row;
    t := Next(s1, DeliverToBooking(told));
    ConsumptionIsLocal(s1, told);
    ReachesNext(s, s1, DeliverToBooking(told));
    assert Booked(t.bk.rows[b].status) && Booked(t.bk.rows[c].status) && b != c;
    assert Overlaps(t.bk.rows[b].request.window, t.bk.rows[c].request.window);
  }

  /** The rule is exact. At every reachable state, an offer keeps all continuations free of
      overlapping bookings if and only if it covers no instant of a held window. */
  lemma {:induction false} OfferIsSafeExactlyWhenItAvoidsHeld(start: System, prefix: seq<Action>, s: System, h: Email, offered: seq<Window>)
    requires Init(start) && Run(OffersAvoidHeld, start, prefix, s)
    ensures OfferAvoidsHeld(s, h, offered) <==>
            forall t :: Reaches(Next(s, SetAvailability(h, offered)), t) ==> NoOverlappingBookings(t)
  {
    InitIsSafe(start);
    RunKeepsSafetyInv(start, prefix, s);
    if OfferAvoidsHeld(s, h, offered) {
      AvoidingOfferIsSafe(s, h, offered);
    } else {
      var b, x :| Holding(s, b) && s.bk.rows[b].request.handyman == h && s.bk.rows[b].request.window.Has(x) && Covers(offered, x);
      var t := CoveringOfferIsUnsafe(s, h, offered, b, x);
    }
  }

  lemma AvoidingOfferIsSafe(s: System, h: Email, offered: seq<Window>)
    requires SafetyInv(s) && OfferAvoidsHeld(s, h, offered)
    ensures forall t :: Reaches(Next(s, SetAvailability(h, offered)), t) ==> NoOverlappingBookings(t)
  {
    var s' := Next(s, SetAvailability(h, offered));
    NextKeepsSafetyInv(s, SetAvailability(h, offered));
    forall t | Reaches(s', t)
      ensures NoOverlappingBookings(t)
    {
      var actions :| Run(OffersAvoidHeld, s', actions, t);
      RunKeepsSafetyInv(s', actions, t);
      SafetyInvImpliesNoOverlap(t);
    }
  }

  lemma CoveringOfferIsUnsafe(s: System, h: Email, offered: seq<Window>, b: BookingId, x: Instant) returns (t: System)
    requires SafetyInv(s) && Holding(s, b) && s.bk.rows[b].request.handyman == h
    requires s.bk.rows[b].request.window.Has(x) && Covers(offered, x)
    ensures Reaches(Next(s, SetAvailability(h, offered)), t) && !NoOverlappingBookings(t)
  {
    var s' := Next(s, SetAvailability(h, offered));
    NextKeepsStatusInv(s, SetAvailability(h, offered));
    assert b in Held(s);
    assert A.SlotsOf(s'.av, h) == offered;
    t := UncoveredHeldWindowIsBookedTwice(s', b, x);
  }
}
