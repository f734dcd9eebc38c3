/** How often a booking is settled, that is confirmed or expired by the availability service: at most
    once, exactly as long as nobody grants it again after it was settled. The account of
    reservations may balance all the same. */
module SettledOnce {
  import opened Intervals
  import opened Events
  import opened Options
  import opened Idempotency
  import opened FreeSlots
  import opened Protocol
  import opened Lifecycle
  import opened NoDoubleBooking
  import opened ReservationLedger
  import R = Reservations
  import A = Availability
  import B = Bookings

  function Settled(s: System, b: BookingId): nat {
    Confirmed(s, b) + Expired(s, b)
  }

  /** The rule: no booking.requested is granted for b once slot.confirmed or slot.expired was emitted. */
  ghost function GrantsOnlyUnsettled(b: BookingId): (System, Action) -> bool {
    (s: System, a: Action) => Grants(s, a, b) ==> Settled(s, b) == 0
  }

  ghost predicate Reaches(b: BookingId, s: System, t: System) {
    exists actions :: Run(GrantsOnlyUnsettled(b), s, actions, t)
  }

  lemma ReachesItself(b: BookingId, s: System)
    ensures Reaches(b, s, s)
  {
    assert Run(GrantsOnlyUnsettled(b), s, [], s);
  }

  lemma ReachesNext(b: BookingId, s: System, t: System, a: Action)
    requires Reaches(b, s, t) && Enabled(t, a) && !Grants(t, a, b)
    ensures Reaches(b, s, Next(t, a))
  {
    var actions :| Run(GrantsOnlyUnsettled(b), s, actions, t);
    RunExtends(GrantsOnlyUnsettled(b), s, actions, t, a);
  }

  // ---- At most once ----

  /** A step settles b only by taking its entry out of the expiry set. */
  lemma NextSettles(s: System, a: Action, b: BookingId)
    requires Facts(s) && Enabled(s, a)
    ensures Settled(Next(s, a), b) == Settled(s, b)
            || (Settled(Next(s, a), b) == Settled(s, b) + 1 && b in s.av.res.expiry && b !in Next(s, a).av.res.expiry)
    ensures b in Next(s, a).av.res.expiry ==> b in s.av.res.expiry || Grants(s, a, b)
  {
    NextBalances(s, a, b);
    NextReserves(s, a, b);
    if b in Next(s, a).av.res.expiry {
      EntriesComeFromGrants(s, a, b);
    }
    if Grants(s, a, b) {
      GrantPutsEntry(s, a, b);
    }
  }

  ghost predicate SettledInv(s: System, b: BookingId) {
    && Facts(s)
    && Settled(s, b) <= 1
    && (Settled(s, b) == 1 ==> b !in s.av.res.expiry)
  }

  lemma {:induction false} RunKeepsSettledInv(s: System, actions: seq<Action>, t: System, b: BookingId)
    requires SettledInv(s, b) && Run(GrantsOnlyUnsettled(b), s, actions, t)
    ensures SettledInv(t, b)
    decreases |actions|
  {
    if actions != [] {
      NextSettles(s, actions[0], b);
      NextKeepsFacts(s, actions[0]);
      RunKeepsSettledInv(Next(s, actions[0]), actions[1..], t, b);
    }
  }

  lemma ReachedIsSettledOnce(s: System, t: System, b: BookingId)
    requires SettledInv(s, b) && Reaches(b, s, t)
    ensures SettledInv(t, b)
  {
    var actions :| Run(GrantsOnlyUnsettled(b), s, actions, t);
    RunKeepsSettledInv(s, actions, t, b);
  }

  lemma InitIsUnsettled(s: System, b: BookingId)
    requires Init(s)
    ensures SettledInv(s, b)
  {
  }

  // ---- A grant after settlement settles again ----

  function OthersWaiting(s: System, b: BookingId): set<BookingId> {
    set c | c in s.av.res.expiry && c != b
  }

  /** Deleting another reservation by hand takes its entry and nothing else of note. */
  lemma DeletingAnother(s: System, c: BookingId, b: BookingId)
    requires c != b && c in s.av.res.expiry
    ensures var t := Next(s, DeleteReservation(c));
            && t.av.res.expiry == s.av.res.expiry - {c} && t.now == s.now && t.av.out == s.av.out
            && OthersWaiting(t, b) == OthersWaiting(s, b) - {c}
  {
  }

  /** All other entries are deleted by hand, so that b's is the only one. */
  lemma {:induction false} OthersAreDeleted(start: System, s: System, b: BookingId) returns (t: System)
    requires Reaches(b, start, s) && b in s.av.res.expiry
    ensures Reaches(b, start, t) && t.av.res.expiry == map[b := s.av.res.expiry[b]] && t.now == s.now && t.av.out == s.av.out
    decreases OthersWaiting(s, b)
  {
    if c :| c in OthersWaiting(s, b) {
      DeletingAnother(s, c, b);
      ReachesNext(b, start, s, DeleteReservation(c));
      t := OthersAreDeleted(start, Next(s, DeleteReservation(c)), b);
    } else {
      assert forall c :: c in s.av.res.expiry && c != b ==> c in OthersWaiting(s, b);
      t := s;
    }
  }

  lemma LonelyEntryExpires(s: System, b: BookingId)
    requires b in s.av.res.expiry && s.av.res.expiry == map[b := s.av.res.expiry[b]] && s.av.res.expiry[b] <= s.now
    ensures Enabled(s, ExpiryPass([b]))
    ensures var t := Next(s, ExpiryPass([b]));
            && t.av.out == s.av.out + [SlotExpired(b)] && t.av.slots == s.av.slots && t.av.processed == s.av.processed
            && t.av.res.keys == s.av.res.keys - {b} && t.av.res.expiry == map[] && t.now == s.now && t.bk == s.bk
  {
    assert [b][..0] == [];
    assert A.ExpireAll(s.av, s.now, [b]) == A.ExpireOne(A.ExpireAll(s.av, s.now, []), s.now, b);
  }

  /** A waiting entry can always be expired. */
  lemma WaitingEntryExpires(s: System, b: BookingId) returns (t: System)
    requires Facts(s) && b in s.av.res.expiry
    ensures Reaches(b, s, t) && Confirmed(t, b) == Confirmed(s, b) && Expired(t, b) == Expired(s, b) + 1
  {
    var wait := Tick(R.RES_TTL_SECONDS);
    ReachesItself(b, s);
    ReachesNext(b, s, s, wait);
    var s1 := OthersAreDeleted(s, Next(s, wait), b);
    LonelyEntryExpires(s1, b);
    ReachesNext(b, s, s1, ExpiryPass([b]));
    t := Next(s1, ExpiryPass([b]));
    CountsAppend(s1.av.out, SlotExpired(b), b);
  }

  lemma GrantSettlesNothing(s: System, a: Action, b: BookingId)
    requires Facts(s) && Enabled(s, a) && Grants(s, a, b)
    ensures b in Next(s, a).av.res.expiry && Facts(Next(s, a))
    ensures Confirmed(Next(s, a), b) == Confirmed(s, b) && Expired(Next(s, a), b) == Expired(s, b)
  {
    NextKeepsFacts(s, a);
    GrantPutsEntry(s, a, b);
    var answer := RequestAnswer(A.SetMarker(s.av, s.now, a.event.eid), s.now, b, a.event.request);
    CountsAppend(s.av.out, answer.value, b);
  }

  /** At most one slot.confirmed or slot.expired, and that once: the rule is exact. At every state
      reached under it, a step keeps all continuations settled at most once if and only if it is
      not a grant of a booking that is settled. */
  lemma StepSettlesOnceExactlyWithoutAGrant(start: System, s: System, a: Action, b: BookingId)
    requires Init(start) && Reaches(b, start, s) && Enabled(s, a)
    ensures (forall t :: Reaches(b, Next(s, a), t) ==> Settled(t, b) <= 1) <==> !(Grants(s, a, b) && Settled(s, b) > 0)
  {
    InitIsUnsettled(start, b);
    ReachedIsSettledOnce(start, s, b);
    if Grants(s, a, b) && Settled(s, b) > 0 {
      GrantSettlesNothing(s, a, b);
      var t := WaitingEntryExpires(Next(s, a), b);
    } else {
      NextSettles(s, a, b);
      NextKeepsFacts(s, a);
      forall t | Reaches(b, Next(s, a), t)
        ensures Settled(t, b) <= 1
      {
        ReachedIsSettledOnce(Next(s, a), t, b);
      }
    }
  }

  // ---- Confirmed and expired ----

  lemma NextConfirms(s: System, a: Action, b: BookingId)
    requires Enabled(s, a)
    ensures Confirmed(Next(s, a), b) == Confirmed(s, b)
            + if a.DeliverToAvailability? && Confirms(s.av, s.now, a.event) && a.event.id == b then 1 else 0
  {
    match a
    case DeliverToAvailability(e) => DeliveryConfirms(s, e, b);
    case ExpiryPass(due) => ExpiryConfirmsNothing(s.av, s.now, due, b);
    case SetAvailability(h, offered) => CountsAppend(s.av.out, AvailabilityUpdated(h, offered), b);
    case ClearAvailability(h) => CountsAppend(s.av.out, AvailabilityUpdated(h, []), b);
    case _ =>
  }

  lemma DeliveryConfirms(s: System, e: Event, b: BookingId)
    ensures Confirmed(Next(s, DeliverToAvailability(e)), b)
            == Confirmed(s, b) + if Confirms(s.av, s.now, e) && e.id == b then 1 else 0
  {
    if IsBookingCommand(e) && !Marked(s.av.processed, s.now, e.eid) {
      var marked := A.SetMarker(s.av, s.now, e.eid);
      match e
      case BookingRequested(_, c, r) =>
        var answer := RequestAnswer(marked, s.now, c, r);
        if answer.Some? {
          CountsAppend(s.av.out, answer.value, b);
        }
      case ConfirmRequested(_, c, r) => ConfirmationConfirms(marked, s.now, c, r, b);
      case CancelRequested(_, c, reason) => CountsAppend(s.av.out, SlotReleased(c, reason), b);
    }
  }

  lemma ConfirmationConfirms(av: A.AvState, now: Instant, c: BookingId, r: Request, b: BookingId)
    ensures CountOf(A.OnConfirmRequested(av, now, c, r).out, IsConfirmed(b))
            == CountOf(av.out, IsConfirmed(b)) + if r.handyman != "" && R.Live(av.res, now, c) && c == b then 1 else 0
    ensures CountOf(A.OnConfirmRequested(av, now, c, r).out, IsExpired(b)) == CountOf(av.out, IsExpired(b))
  {
    if r.handyman != "" {
      if R.Live(av.res, now, c) {
        var updated, confirmed := GrantedEvents(av, now, c, r);
        CountsAppend(av.out, updated, b);
        CountsAppend(av.out + [updated], confirmed, b);
      } else {
        CountsAppend(av.out, SlotRejected(c, "reservation_missing"), b);
      }
    }
  }

  lemma {:induction false} ExpiryConfirmsNothing(av: A.AvState, now: Instant, due: seq<BookingId>, b: BookingId)
    ensures CountOf(A.ExpireAll(av, now, due).out, IsConfirmed(b)) == CountOf(av.out, IsConfirmed(b))
  {
    if due != [] {
      var before := A.ExpireAll(av, now, due[..|due| - 1]);
      ExpiryConfirmsNothing(av, now, due[..|due| - 1], b);
      CountsAppend(before.out, SlotExpired(due[|due| - 1]), b);
    }
  }

  predicate Unconfirmed(bk: B.BkState, b: BookingId) {
    b in bk.rows && (bk.rows[b].status == B.Pending || bk.rows[b].status == B.Reserved)
  }

  ghost predicate CommandPending(s: System, b: BookingId, until: Instant) {
    exists e :: e in s.bk.out && e.ConfirmRequested? && e.id == b && !Marked(s.av.processed, until, e.eid)
  }

  /** A confirmation can still reach a reservation made now: one can be issued, or one that was
      issued is unmarked at the last second of the reservation's life. */
  ghost predicate CanStillBeConfirmed(s: System, b: BookingId) {
    Unconfirmed(s.bk, b) || CommandPending(s, b, s.now + R.RES_TTL_SECONDS - 1)
  }

  // ---- It can ----

  ghost predicate FreshlyReserved(start: System, s: System, b: BookingId) {
    && Facts(s) && Reaches(b, start, s) && b < |s.bk.issued| && s.bk.issued[b].handyman != ""
    && R.Live(s.av.res, s.now + R.RES_TTL_SECONDS - 1, b)
    && SlotReserved(b, s.bk.issued[b].handyman) in s.av.out
  }

  lemma GrantReservesFreshly(s: System, a: Action, b: BookingId)
    requires Facts(s) && Enabled(s, a) && Grants(s, a, b)
    ensures FreshlyReserved(Next(s, a), Next(s, a), b)
  {
    NextKeepsFacts(s, a);
    ReachesItself(b, Next(s, a));
    var answer := RequestAnswer(A.SetMarker(s.av, s.now, a.event.eid), s.now, b, a.event.request);
  }

  lemma CommandConfirms(start: System, s: System, e: Event) returns (t: System)
    requires e.ConfirmRequested? && Facts(s) && Reaches(e.id, start, s) && e in s.bk.out && Confirms(s.av, s.now, e)
    ensures Reaches(e.id, start, t) && Confirmed(t, e.id) == Confirmed(s, e.id) + 1
    ensures Expired(t, e.id) == Expired(s, e.id)
  {
    var deliver := DeliverToAvailability(e);
    ReachesNext(e.id, start, s, deliver);
    t := Next(s, deliver);
    ConfirmationConfirms(A.SetMarker(s.av, s.now, e.eid), s.now, e.id, e.request, e.id);
  }

  lemma PendingCommandConfirms(start: System, s: System, b: BookingId) returns (t: System)
    requires FreshlyReserved(start, s, b) && CommandPending(s, b, s.now + R.RES_TTL_SECONDS - 1)
    ensures Reaches(b, start, t) && Confirmed(t, b) == Confirmed(s, b) + 1 && Expired(t, b) == Expired(s, b)
  {
    var wait := Tick(R.RES_TTL_SECONDS - 1);
    var e :| e in s.bk.out && e.ConfirmRequested? && e.id == b && !Marked(s.av.processed, s.now + R.RES_TTL_SECONDS - 1, e.eid);
    NextKeepsFacts(s, wait);
    ReachesNext(b, start, s, wait);
    t := CommandConfirms(start, Next(s, wait), e);
  }

  lemma ReservedBookingConfirms(start: System, s: System, b: BookingId) returns (t: System)
    requires FreshlyReserved(start, s, b) && b in s.bk.rows && s.bk.rows[b].status == B.Reserved
    ensures Reaches(b, start, t) && Confirmed(t, b) == Confirmed(s, b) + 1 && Expired(t, b) == Expired(s, b)
  {
    var confirm := ConfirmBooking(b);
    NextKeepsFacts(s, confirm);
    ReachesNext(b, start, s, confirm);
    t := CommandConfirms(start, Next(s, confirm), ConfirmRequested(|s.bk.out|, b, s.bk.rows[b].request));
  }

  lemma PendingBookingConfirms(start: System, s: System, b: BookingId) returns (t: System)
    requires FreshlyReserved(start, s, b) && b in s.bk.rows && s.bk.rows[b].status == B.Pending
    ensures Reaches(b, start, t) && Confirmed(t, b) == Confirmed(s, b) + 1 && Expired(t, b) == Expired(s, b)
  {
    var tell := DeliverToBooking(SlotReserved(b, s.bk.issued[b].handyman));
    NextKeepsFacts(s, tell);
    ReachesNext(b, start, s, tell);
    t := ReservedBookingConfirms(start, Next(s, tell), b);
  }

  /** A grant of a booking that can still be confirmed can be followed by its slot.confirmed. */
  lemma GrantedBookingConfirms(s: System, a: Action, b: BookingId) returns (t: System)
    requires Facts(s) && Enabled(s, a) && Grants(s, a, b) && CanStillBeConfirmed(s, b)
    ensures Reaches(b, Next(s, a), t) && Confirmed(t, b) == Confirmed(s, b) + 1 && Expired(t, b) == Expired(s, b)
  {
    var u := Next(s, a);
    GrantReservesFreshly(s, a, b);
    GrantSettlesNothing(s, a, b);
    if Unconfirmed(s.bk, b) {
      if s.bk.rows[b].status == B.Reserved {
        t := ReservedBookingConfirms(u, u, b);
      } else {
        t := PendingBookingConfirms(u, u, b);
      }
    } else {
      GrantKeepsCommandPending(s, a, b);
      t := PendingCommandConfirms(u, u, b);
    }
  }

  lemma GrantKeepsCommandPending(s: System, a: Action, b: BookingId)
    requires Facts(s) && Enabled(s, a) && Grants(s, a, b) && CommandPending(s, b, s.now + R.RES_TTL_SECONDS - 1)
    ensures CommandPending(Next(s, a), b, s.now + R.RES_TTL_SECONDS - 1)
  {
    GrantPutsEntry(s, a, b);
    var e :| e in s.bk.out && e.ConfirmRequested? && e.id == b && !Marked(s.av.processed, s.now + R.RES_TTL_SECONDS - 1, e.eid);
    assert e.eid != a.event.eid;
  }

  // ---- It cannot ----

  /** Nothing can confirm b any more: no command can be issued, and the issued ones stay marked
      until `end`, when its reservation has lapsed. */
  ghost predicate Barred(s: System, b: BookingId, end: Instant) {
    && b < |s.bk.issued| && !Unconfirmed(s.bk, b)
    && (b in s.av.res.expiry ==> s.av.res.expiry[b] <= end)
    && (forall e :: e in s.bk.out && e.ConfirmRequested? && e.id == b ==> e.eid in s.av.processed && s.av.processed[e.eid] >= end)
  }

  lemma NewCommandNeedsReserved(s: System, a: Action, e: Event)
    requires e in Next(s, a).bk.out && e !in s.bk.out && e.ConfirmRequested?
    ensures Unconfirmed(s.bk, e.id)
  {
  }

  lemma NextKeepsBarred(s: System, a: Action, b: BookingId, end: Instant)
    requires StatusInv(s) && Enabled(s, a) && Barred(s, b, end) && !Grants(s, a, b)
    ensures Barred(Next(s, a), b, end) && Confirmed(Next(s, a), b) == Confirmed(s, b)
  {
    var t := Next(s, a);
    NextAdvancesRows(s, a);
    ProcessedGrows(s, a);
    BarredIsNotConfirmed(s, a, b, end);
    if b in t.av.res.expiry {
      EntriesComeFromGrants(s, a, b);
    }
    forall e | e in t.bk.out && e.ConfirmRequested? && e.id == b
      ensures e in s.bk.out
    {
      if e !in s.bk.out {
        NewCommandNeedsReserved(s, a, e);
      }
    }
  }

  lemma BarredIsNotConfirmed(s: System, a: Action, b: BookingId, end: Instant)
    requires Facts(s) && Enabled(s, a) && Barred(s, b, end)
    ensures Confirmed(Next(s, a), b) == Confirmed(s, b)
  {
    NextConfirms(s, a, b);
  }

  lemma {:induction false} RunKeepsBarred(s: System, actions: seq<Action>, t: System, b: BookingId, end: Instant)
    requires StatusInv(s) && Barred(s, b, end) && Settled(s, b) > 0 && Run(GrantsOnlyUnsettled(b), s, actions, t)
    ensures Confirmed(t, b) == Confirmed(s, b)
    decreases |actions|
  {
    if actions != [] {
      NextSettles(s, actions[0], b);
      NextKeepsBarred(s, actions[0], b, end);
      NextKeepsStatusInv(s, actions[0]);
      RunKeepsBarred(Next(s, actions[0]), actions[1..], t, b, end);
    }
  }

  lemma GrantOfBarredBooking(s: System, a: Action, b: BookingId)
    requires Facts(s) && Enabled(s, a) && Grants(s, a, b) && !CanStillBeConfirmed(s, b)
    ensures Barred(Next(s, a), b, s.now + R.RES_TTL_SECONDS)
  {
    GrantPutsEntry(s, a, b);
    EntriesComeFromGrants(s, a, b);
    ProcessedGrows(s, a);
    forall e | e in s.bk.out && e.ConfirmRequested? && e.id == b
      ensures Marked(s.av.processed, s.now + R.RES_TTL_SECONDS - 1, e.eid)
    {
    }
  }

  lemma BarredBookingStaysUnconfirmed(s: System, a: Action, b: BookingId, t: System)
    requires StatusInv(s) && Enabled(s, a) && Grants(s, a, b) && !CanStillBeConfirmed(s, b) && Settled(s, b) > 0
    requires Reaches(b, Next(s, a), t)
    ensures Confirmed(t, b) == Confirmed(s, b)
  {
    GrantOfBarredBooking(s, a, b);
    GrantSettlesNothing(s, a, b);
    NextKeepsStatusInv(s, a);
    var actions :| Run(GrantsOnlyUnsettled(b), Next(s, a), actions, t);
    RunKeepsBarred(Next(s, a), actions, t, b, s.now + R.RES_TTL_SECONDS);
  }

  lemma ReachedHasStatusInv(start: System, s: System, b: BookingId)
    requires Init(start) && Reaches(b, start, s)
    ensures StatusInv(s)
  {
    var actions :| Run(GrantsOnlyUnsettled(b), start, actions, s);
    InitHasStatusInv(start);
    RunKeepsStatusInv(GrantsOnlyUnsettled(b), start, actions, s);
  }

  ghost predicate NeverBoth(b: BookingId, s: System) {
    forall t :: Reaches(b, s, t) ==> !(Confirmed(t, b) > 0 && Expired(t, b) > 0)
  }

  /** slot.confirmed and slot.expired exclude each other: at every state reached under the rule, a
      step keeps all continuations free of both if and only if it is not a grant of a booking that
      was confirmed, or that has expired and can still be confirmed. */
  lemma StepExcludesBothExactly(start: System, s: System, a: Action, b: BookingId)
    requires Init(start) && Reaches(b, start, s) && Enabled(s, a)
    ensures NeverBoth(b, Next(s, a)) <==>
            !(Grants(s, a, b) && (Confirmed(s, b) > 0 || (Expired(s, b) > 0 && CanStillBeConfirmed(s, b))))
  {
    InitIsUnsettled(start, b);
    ReachedIsSettledOnce(start, s, b);
    ReachedHasStatusInv(start, s, b);
    if !Grants(s, a, b) || Settled(s, b) == 0 {
      StepSettlesOnceExactlyWithoutAGrant(start, s, a, b);
    } else {
      GrantSettlesNothing(s, a, b);
      if Confirmed(s, b) > 0 {
        var t := WaitingEntryExpires(Next(s, a), b);
      } else if CanStillBeConfirmed(s, b) {
        var t := GrantedBookingConfirms(s, a, b);
      } else {
        forall t | Reaches(b, Next(s, a), t)
          ensures Confirmed(t, b) == 0
        {
          BarredBookingStaysUnconfirmed(s, a, b, t);
        }
      }
    }
  }

  // ---- A run with both, in which the account balances ----

  const COMMAND := ConfirmRequested(1, 0, REQUEST.request)
  const TELL := DeliverToBooking(SlotReserved(0, "h"))

  /** Booking 0 was reserved and has expired, the booking service has heard of neither, and the marker
      of its request has lapsed. */
  ghost predicate ExpiredUntold(s: System) {
    && HasSlot(A.SlotsOf(s.av, "h"), REQUEST.request.window)
    && s.av.res.keys == map[] && s.av.res.expiry == map[]
    && s.av.processed.Keys == {0} && !Marked(s.av.processed, s.now, 0)
    && s.av.out == [] + [AvailabilityUpdated("h", OFFER)] + [SlotReserved(0, "h")] + [SlotExpired(0)]
    && s.bk == B.Create(B.EMPTY, REQUEST.request) && s.bk.out == [REQUEST]
  }

  /** Granted, expired 300 seconds later, and then the rest of the hour passes. */
  lemma GrantedThenExpired(start: System) returns (t: System)
    requires Init(start)
    ensures LeadsTo(start, t) && ExpiredUntold(t)
  {
    var s := OfferedAndRequested(start);
    UnmarkedRequestIsReserved(s, REQUEST);
    LeadsNext(start, s, DELIVER);
    var s1 := Next(s, DELIVER);
    LeadsNext(start, s1, Tick(R.RES_TTL_SECONDS));
    var s2 := Next(s1, Tick(R.RES_TTL_SECONDS));
    LonelyEntryExpires(s2, 0);
    LeadsNext(start, s2, ExpiryPass([0]));
    var s3 := Next(s2, ExpiryPass([0]));
    LeadsNext(start, s3, Tick(IDEMPOTENCY_TTL));
    t := Next(s3, Tick(IDEMPOTENCY_TTL));
  }

  lemma GrantedAgain(start: System, s: System) returns (t: System)
    requires LeadsTo(start, s) && ExpiredUntold(s)
    ensures LeadsTo(start, t) && t.bk == s.bk && t.av.out == s.av.out + [SlotReserved(0, "h")]
    ensures !Marked(t.av.processed, t.now, 1) && R.Live(t.av.res, t.now, 0) && t.av.res.expiry.Keys == {0}
  {
    UnmarkedRequestIsReserved(s, REQUEST);
    LeadsNext(start, s, DELIVER);
    t := Next(s, DELIVER);
  }

  /** Only now does the booking service hear of the first reservation, and it asks for confirmation. */
  lemma ToldAndCommanded(start: System, s: System) returns (t: System)
    requires LeadsTo(start, s) && s.bk == B.Create(B.EMPTY, REQUEST.request) && TELL.event in s.av.out
    ensures LeadsTo(start, t) && COMMAND in t.bk.out && t.av == s.av && t.now == s.now
  {
    LeadsNext(start, s, TELL);
    var s1 := Next(s, TELL);
    LeadsNext(start, s1, ConfirmBooking(0));
    t := Next(s1, ConfirmBooking(0));
    ToldBookingIsCommanded(s.bk);
  }

  lemma ToldBookingIsCommanded(bk: B.BkState)
    requires bk == B.Create(B.EMPTY, REQUEST.request)
    ensures COMMAND in B.Confirm(B.Consume(bk, TELL.event), 0).0.out
  {
    assert bk.out == [REQUEST] && bk.rows[0] == B.NewBooking(REQUEST.request);
    assert B.Consume(bk, TELL.event).rows[0].status == B.Reserved;
    assert B.Confirm(B.Consume(bk, TELL.event), 0).0.out == [REQUEST] + [COMMAND];
  }

  lemma {:induction false} CountsOfTheRun(out: seq<Event>, offered: Event, updated: Event, confirmed: Event)
    requires offered.AvailabilityUpdated? && updated.AvailabilityUpdated? && confirmed.SlotConfirmed? && confirmed.id == 0
    requires out == [] + [offered] + [SlotReserved(0, "h")] + [SlotExpired(0)] + [SlotReserved(0, "h")] + [updated] + [confirmed]
    ensures CountOf(out, IsReserved(0)) == 2 && CountOf(out, IsConfirmed(0)) == CountOf(out, IsExpired(0)) == 1
  {
    var first, reserved, expired := [] + [offered], SlotReserved(0, "h"), SlotExpired(0);
    CountsAppend([], offered, 0);
    CountsAppend(first, reserved, 0);
    CountsAppend(first + [reserved], expired, 0);
    CountsAppend(first + [reserved] + [expired], reserved, 0);
    CountsAppend(first + [reserved] + [expired] + [reserved], updated, 0);
    CountsAppend(first + [reserved] + [expired] + [reserved] + [updated], confirmed, 0);
  }

  /** The worker is in time and the account balances, yet a booking.requested redelivered after an
      hour lets one booking be expired and confirmed. */
  lemma LateRedeliveryConfirmsAnExpiredBooking(start: System) returns (actions: seq<Action>, t: System)
    requires Init(start)
    ensures Run(Anything, start, actions, t) && Regranted(start, actions, 0) == 0
    ensures Reserved(t, 0) == 2 && Confirmed(t, 0) == 1 && Expired(t, 0) == 1
    ensures Waiting(t, 0) == Withdrawn(start, actions, 0) == 0
  {
    var s := GrantedThenExpired(start);
    var s1 := GrantedAgain(start, s);
    s1 := ToldAndCommanded(start, s1);
    var deliver := DeliverToAvailability(COMMAND);
    var updated, confirmed := GrantedEvents(A.SetMarker(s1.av, s1.now, 1), s1.now, 0, REQUEST.request);
    LeadsNext(start, s1, deliver);
    t := Next(s1, deliver);
    CountsOfTheRun(t.av.out, AvailabilityUpdated("h", OFFER), updated, confirmed);
    actions :| Run(Anything, start, actions, t) && Withdrawn(start, actions, 0) == 0;
    AccountBalancesExactlyWithoutRegrants(start, actions, t, 0);
  }
}
