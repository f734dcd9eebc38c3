/** Between two edits of a handyman's availability, free time plus confirmed time is constant. */
module TimeConservation {
  import opened Intervals
  import opened Events
  import opened Idempotency
  import opened FreeSlots
  import opened Protocol
  import opened Lifecycle
  import opened NoDoubleBooking
  import R = Reservations
  import A = Availability
  import B = Bookings

  /** The rule for the runs: nobody sets or clears the availability of h. */
  ghost function LeavesSlotsOf(h: Email): (System, Action) -> bool {
    (s: System, a: Action) => (a.SetAvailability? || a.ClearAvailability?) ==> a.handyman != h
  }

  /** The time of one emitted event's window if it confirms a booking of h. */
  function TimeConfirmedBy(e: Event, issued: seq<Request>, h: Email): int {
    if e.SlotConfirmed? && e.handyman == h && e.id < |issued| then issued[e.id].window.Length() else 0
  }

  function ConfirmedTime(out: seq<Event>, issued: seq<Request>, h: Email): int {
    if out == [] then 0
    else ConfirmedTime(out[..|out| - 1], issued, h) + TimeConfirmedBy(out[|out| - 1], issued, h)
  }

  function FreeTime(s: System, h: Email): int {
    TotalTime(A.SlotsOf(s.av, h))
  }

  function AccountedTime(s: System, h: Email): int {
    FreeTime(s, h) + ConfirmedTime(s.av.out, s.bk.issued, h)
  }

  lemma {:induction false} ConfirmedTimeAppend(out: seq<Event>, e: Event, issued: seq<Request>, h: Email)
    ensures ConfirmedTime(out + [e], issued, h) == ConfirmedTime(out, issued, h) + TimeConfirmedBy(e, issued, h)
  {
    assert (out + [e])[..|out|] == out;
  }

  lemma {:induction false} ConfirmedTimeOfConfirm(out: seq<Event>, updated: Event, b: BookingId, issued: seq<Request>, h: Email)
    requires updated.AvailabilityUpdated? && b < |issued|
    ensures ConfirmedTime(out + [updated] + [SlotConfirmed(b, issued[b].handyman)], issued, h)
            == ConfirmedTime(out, issued, h) + if issued[b].handyman == h then issued[b].window.Length() else 0
  {
    ConfirmedTimeAppend(out, updated, issued, h);
    ConfirmedTimeAppend(out + [updated], SlotConfirmed(b, issued[b].handyman), issued, h);
  }

  lemma {:induction false} ConfirmedTimeIssuing(out: seq<Event>, issued: seq<Request>, r: Request, h: Email)
    requires EmittedFacts(out, issued)
    ensures ConfirmedTime(out, issued + [r], h) == ConfirmedTime(out, issued, h)
  {
    if out != [] {
      var init, last := out[..|out| - 1], out[|out| - 1];
      assert forall e :: e in init ==> e in out;
      assert last in out;
      ConfirmedTimeIssuing(init, issued, r, h);
    }
  }

  // ---- Invariants ----

  /** Live reservations of every handyman are disjoint. */
  ghost predicate ReservationsApart(s: System) {
    Facts(s) && Safe(s.av, s.now, s.bk.issued, {})
  }

  /** Each live reservation of h sits inside one single free slot. */
  ghost predicate ReservationsInsideSlots(av: A.AvState, now: Instant, h: Email) {
    forall c: BookingId :: R.Live(av.res, now, c) && av.res.keys[c].request.handyman == h
      ==> HasSlot(A.SlotsOf(av, h), av.res.keys[c].request.window)
  }

  ghost predicate TidyFor(av: A.AvState, now: Instant, h: Email) {
    && Disjoint(A.SlotsOf(av, h))
    && ReservationsInsideSlots(av, now, h)
  }

  lemma NextKeepsReservationsApart(s: System, a: Action)
    requires ReservationsApart(s) && Enabled(s, a)
    ensures ReservationsApart(Next(s, a))
  {
    var t := Next(s, a);
    NextKeepsFacts(s, a);
    match a
    case DeliverToAvailability(e) =>
      ProcessKeepsSafe(s.av, s.now, s.bk.issued, {}, e);
      ShrinkingKeepsSafe(t.av, s.now, s.bk.issued, {} + if Confirms(s.av, s.now, e) then {e.id} else {}, t.av, s.now, s.bk.issued, {});
    case ExpiryPass(due) => ExpireKeepsSafe(s.av, s.now, s.bk.issued, {}, due);
    case SetAvailability(h, offered) => OfferKeepsSafe(s.av, s.now, s.bk.issued, {}, h, offered);
    case ClearAvailability(h) => OfferKeepsSafe(s.av, s.now, s.bk.issued, {}, h, []);
    case DeleteReservation(b) => DeleteKeepsSafe(s.av, s.now, s.bk.issued, {}, b, s.av.out);
    case _ => assert s.bk.issued <= t.bk.issued; ShrinkingKeepsSafe(s.av, s.now, s.bk.issued, {}, t.av, t.now, t.bk.issued, {});
  }

  lemma {:induction false} RunKeepsReservationsApart(s: System, actions: seq<Action>, t: System)
    requires ReservationsApart(s) && Run(Anything, s, actions, t)
    ensures ReservationsApart(t)
    decreases |actions|
  {
    if actions != [] {
      NextKeepsReservationsApart(s, actions[0]);
      RunKeepsReservationsApart(Next(s, actions[0]), actions[1..], t);
    }
  }

  // ---- One step ----

  /** Steps that leave the slots alone, confirm nothing and add no live reservation. */
  lemma {:induction false} QuietStepConserves(s: System, t: System, h: Email)
    requires TidyFor(s.av, s.now, h) && A.SlotsOf(t.av, h) == A.SlotsOf(s.av, h)
    requires forall c: BookingId :: R.Live(t.av.res, t.now, c) ==>
               R.Live(s.av.res, s.now, c) && t.av.res.keys[c].request == s.av.res.keys[c].request
    requires ConfirmedTime(t.av.out, t.bk.issued, h) == ConfirmedTime(s.av.out, s.bk.issued, h)
    ensures TidyFor(t.av, t.now, h) && AccountedTime(t, h) == AccountedTime(s, h)
  {
  }

  lemma RequestKeepsTidy(av: A.AvState, now: Instant, b: BookingId, r: Request, h: Email)
    requires TidyFor(av, now, h)
    ensures TidyFor(A.OnRequested(av, now, b, r), now, h) && A.OnRequested(av, now, b, r).slots == av.slots
  {
    var av' := A.OnRequested(av, now, b, r);
    assert forall c: BookingId :: R.Live(av'.res, now, c) ==>
             (R.Live(av.res, now, c) && av'.res.keys[c] == av.res.keys[c])
             || (av'.res.keys[c].request == r && HasSlot(A.SlotsOf(av, r.handyman), r.window));
  }

  lemma {:induction false} RequestConfirmsNothing(av: A.AvState, now: Instant, issued: seq<Request>, b: BookingId, r: Request, h: Email)
    ensures ConfirmedTime(A.OnRequested(av, now, b, r).out, issued, h) == ConfirmedTime(av.out, issued, h)
  {
    ConfirmedTimeAppend(av.out, SlotRejected(b, "no_matching_slot"), issued, h);
    ConfirmedTimeAppend(av.out, SlotRejected(b, "slot_conflict_reserved"), issued, h);
    ConfirmedTimeAppend(av.out, SlotReserved(b, r.handyman), issued, h);
  }

  /** The confirmed window leaves the one slot it sat in, and every other reservation of the
      handyman still sits inside one slot. */
  lemma {:induction false} ConfirmConserves(av: A.AvState, now: Instant, issued: seq<Request>, b: BookingId, r: Request, h: Email)
    requires AvailabilityFacts(av, now, issued) && R.LiveReservationsDisjoint(av.res, now) && TidyFor(av, now, h)
    requires b < |issued| && r == issued[b] && r.handyman != "" && R.Live(av.res, now, b)
    ensures var av' := A.OnConfirmRequested(av, now, b, r);
            && TidyFor(av', now, h)
            && TotalTime(A.SlotsOf(av', h)) + ConfirmedTime(av'.out, issued, h)
               == TotalTime(A.SlotsOf(av, h)) + ConfirmedTime(av.out, issued, h)
  {
    var av' := A.OnConfirmRequested(av, now, b, r);
    var slots := A.SlotsOf(av, r.handyman);
    var updated := AvailabilityUpdated(r.handyman, Subtract(slots, r.window));
    assert A.SlotsOf(av', r.handyman) == Subtract(slots, r.window);
    assert av'.out == av.out + [updated] + [SlotConfirmed(b, r.handyman)];
    ConfirmedTimeOfConfirm(av.out, updated, b, issued, h);
    assert forall c: BookingId :: R.Live(av'.res, now, c) ==> c != b && R.Live(av.res, now, c) && av'.res.keys[c] == av.res.keys[c];
    if r.handyman == h {
      ConfirmKeepsTidy(av, now, b, h);
      SubtractTakesExactlyTheWindow(slots, r.window);
    }
  }

  lemma ConfirmKeepsTidy(av: A.AvState, now: Instant, b: BookingId, h: Email)
    requires R.LiveReservationsDisjoint(av.res, now) && TidyFor(av, now, h)
    requires R.Live(av.res, now, b) && av.res.keys[b].request.handyman == h
    ensures var slots := Subtract(A.SlotsOf(av, h), av.res.keys[b].request.window);
            && Disjoint(slots)
            && forall c: BookingId :: c != b && R.Live(av.res, now, c) && av.res.keys[c].request.handyman == h
                 ==> HasSlot(slots, av.res.keys[c].request.window)
  {
    var slots, w := A.SlotsOf(av, h), av.res.keys[b].request.window;
    SubtractKeepsDisjoint(slots, w);
    forall c: BookingId | c != b && R.Live(av.res, now, c) && av.res.keys[c].request.handyman == h
      ensures HasSlot(Subtract(slots, w), av.res.keys[c].request.window)
    {
      SubtractKeepsOtherWindowsWhole(slots, w, av.res.keys[c].request.window);
    }
  }

  lemma RefusedConfirmConserves(s: System, t: System, e: Event, h: Email)
    requires TidyFor(s.av, s.now, h) && e.ConfirmRequested? && !Confirms(s.av, s.now, e)
    requires t == Next(s, DeliverToAvailability(e))
    ensures TidyFor(t.av, t.now, h) && AccountedTime(t, h) == AccountedTime(s, h)
  {
    ConfirmedTimeAppend(s.av.out, SlotRejected(e.id, "reservation_missing"), s.bk.issued, h);
    QuietStepConserves(s, t, h);
  }

  lemma DeliveryConserves(s: System, e: Event, h: Email)
    requires ReservationsApart(s) && TidyFor(s.av, s.now, h) && e in s.bk.out
    ensures var t := Next(s, DeliverToAvailability(e));
            TidyFor(t.av, t.now, h) && AccountedTime(t, h) == AccountedTime(s, h)
  {
    var t := Next(s, DeliverToAvailability(e));
    if IsBookingCommand(e) && !Marked(s.av.processed, s.now, e.eid) {
      var marked := A.SetMarker(s.av, s.now, e.eid);
      assert TidyFor(marked, s.now, h);
      match e
      case BookingRequested(_, b, r) =>
        RequestKeepsTidy(marked, s.now, b, r, h);
        RequestConfirmsNothing(marked, s.now, s.bk.issued, b, r, h);
      case ConfirmRequested(_, b, r) =>
        if Confirms(s.av, s.now, e) {
          ConfirmConserves(marked, s.now, s.bk.issued, b, r, h);
        } else {
          RefusedConfirmConserves(s, t, e, h);
        }
      case CancelRequested(_, b, reason) =>
        ConfirmedTimeAppend(s.av.out, SlotReleased(b, reason), s.bk.issued, h);
        QuietStepConserves(s, t, h);
    }
  }

  lemma {:induction false} ExpiryConserves(av: A.AvState, now: Instant, issued: seq<Request>, due: seq<BookingId>, h: Email)
    ensures ConfirmedTime(A.ExpireAll(av, now, due).out, issued, h) == ConfirmedTime(av.out, issued, h)
    ensures forall c: BookingId :: R.Live(A.ExpireAll(av, now, due).res, now, c) ==>
              R.Live(av.res, now, c) && A.ExpireAll(av, now, due).res.keys[c].request == av.res.keys[c].request
  {
    if due != [] {
      var before, b := A.ExpireAll(av, now, due[..|due| - 1]), due[|due| - 1];
      ExpiryConserves(av, now, issued, due[..|due| - 1], h);
      ConfirmedTimeAppend(before.out, SlotExpired(b), issued, h);
    }
  }

  lemma NextConserves(s: System, a: Action, h: Email)
    requires ReservationsApart(s) && TidyFor(s.av, s.now, h) && Enabled(s, a) && LeavesSlotsOf(h)(s, a)
    ensures TidyFor(Next(s, a).av, Next(s, a).now, h) && AccountedTime(Next(s, a), h) == AccountedTime(s, h)
  {
    var t := Next(s, a);
    match a
    case DeliverToAvailability(e) => DeliveryConserves(s, e, h);
    case CreateBooking(r) => ConfirmedTimeIssuing(s.av.out, s.bk.issued, r, h); QuietStepConserves(s, t, h);
    case ExpiryPass(due) =>
      ExpiryConserves(s.av, s.now, s.bk.issued, due, h);
      ExpireOnlyAppends(s.av, s.now, due);
      QuietStepConserves(s, t, h);
    case SetAvailability(other, offered) =>
      ConfirmedTimeAppend(s.av.out, AvailabilityUpdated(other, offered), s.bk.issued, h);
      QuietStepConserves(s, t, h);
    case ClearAvailability(other) =>
      ConfirmedTimeAppend(s.av.out, AvailabilityUpdated(other, []), s.bk.issued, h);
      QuietStepConserves(s, t, h);
    case _ => QuietStepConserves(s, t, h);
  }

  lemma {:induction false} RunConserves(s: System, actions: seq<Action>, t: System, h: Email)
    requires ReservationsApart(s) && TidyFor(s.av, s.now, h) && Run(LeavesSlotsOf(h), s, actions, t)
    ensures AccountedTime(t, h) == AccountedTime(s, h) && TidyFor(t.av, t.now, h)
    decreases |actions|
  {
    if actions != [] {
      NextConserves(s, actions[0], h);
      NextKeepsReservationsApart(s, actions[0]);
      RunConserves(Next(s, actions[0]), actions[1..], t, h);
    }
  }

  /** From any reachable state whose slots for h are disjoint and have no live reservation, free
      time plus confirmed time of h stays what it is until h's availability is set or cleared. */
  lemma {:induction false} TimeIsConserved(start: System, prefix: seq<Action>, s: System, actions: seq<Action>, t: System, h: Email)
    requires Init(start) && Run(Anything, start, prefix, s)
    requires Disjoint(A.SlotsOf(s.av, h))
    requires forall c: BookingId :: R.Live(s.av.res, s.now, c) ==> s.av.res.keys[c].request.handyman != h
    requires Run(LeavesSlotsOf(h), s, actions, t)
    ensures FreeTime(t, h) + ConfirmedTime(t.av.out, t.bk.issued, h)
            == FreeTime(s, h) + ConfirmedTime(s.av.out, s.bk.issued, h)
    ensures Disjoint(A.SlotsOf(t.av, h))
  {
    RunKeepsReservationsApart(start, prefix, s);
    RunConserves(s, actions, t, h);
  }
}
