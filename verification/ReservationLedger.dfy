/** The account of reservations: what becomes of each reservation that is made, exactly when the
    account balances, and how often a booking is reserved. */
module ReservationLedger {
  import opened Intervals
  import opened Events
  import opened Options
  import opened Idempotency
  import opened FreeSlots
  import opened Protocol
  import R = Reservations
  import A = Availability
  import B = Bookings

  // ---- Counting ----

  function CountOf(out: seq<Event>, pick: Event -> bool): nat {
    if out == [] then 0 else CountOf(out[..|out| - 1], pick) + if pick(out[|out| - 1]) then 1 else 0
  }

  function IsReserved(b: BookingId): Event -> bool {
    (e: Event) => e.SlotReserved? && e.id == b
  }

  function IsConfirmed(b: BookingId): Event -> bool {
    (e: Event) => e.SlotConfirmed? && e.id == b
  }

  function IsExpired(b: BookingId): Event -> bool {
    (e: Event) => e.SlotExpired? && e.id == b
  }

  function Reserved(s: System, b: BookingId): nat {
    CountOf(s.av.out, IsReserved(b))
  }

  function Confirmed(s: System, b: BookingId): nat {
    CountOf(s.av.out, IsConfirmed(b))
  }

  function Expired(s: System, b: BookingId): nat {
    CountOf(s.av.out, IsExpired(b))
  }

  function Waiting(s: System, b: BookingId): nat {
    if b in s.av.res.expiry then 1 else 0
  }

  /** The step takes b out of the expiry set on behalf of a cancellation or a manual delete. */
  predicate Withdraws(s: System, a: Action, b: BookingId) {
    && b in s.av.res.expiry && b !in Next(s, a).av.res.expiry
    && (a.DeleteReservation? || (a.DeliverToAvailability? && a.event.CancelRequested?))
  }

  /** The request passes the guards of the requested branch. */
  predicate Grantable(av: A.AvState, now: Instant, r: Request) {
    && r.user != "" && r.handyman != ""
    && HasSlot(A.SlotsOf(av, r.handyman), r.window)
    && !R.IndexShowsConflict(av.res, now, r)
  }

  /** The step is the delivery of an unmarked booking.requested for b that passes the guards. */
  predicate Grants(s: System, a: Action, b: BookingId) {
    && a.DeliverToAvailability? && a.event.BookingRequested? && a.event.id == b
    && !Marked(s.av.processed, s.now, a.event.eid)
    && Grantable(s.av, s.now, a.event.request)
  }

  /** It does so while an earlier reservation of b still waits in the expiry set. */
  predicate Regrants(s: System, a: Action, b: BookingId) {
    Grants(s, a, b) && b in s.av.res.expiry
  }

  /** How many steps of a run are of a kind. */
  function Times(kind: (System, Action) -> bool, s: System, actions: seq<Action>): nat
    decreases |actions|
  {
    if actions == [] then 0
    else (if kind(s, actions[0]) then 1 else 0) + Times(kind, Next(s, actions[0]), actions[1..])
  }

  function WithdrawalOf(b: BookingId): (System, Action) -> bool {
    (s: System, a: Action) => Withdraws(s, a, b)
  }

  function GrantOf(b: BookingId): (System, Action) -> bool {
    (s: System, a: Action) => Grants(s, a, b)
  }

  function RegrantOf(b: BookingId): (System, Action) -> bool {
    (s: System, a: Action) => Regrants(s, a, b)
  }

  function Withdrawn(s: System, actions: seq<Action>, b: BookingId): nat {
    Times(WithdrawalOf(b), s, actions)
  }

  function Granted(s: System, actions: seq<Action>, b: BookingId): nat {
    Times(GrantOf(b), s, actions)
  }

  function Regranted(s: System, actions: seq<Action>, b: BookingId): nat {
    Times(RegrantOf(b), s, actions)
  }

  lemma {:induction false} CountAppend(out: seq<Event>, e: Event, pick: Event -> bool)
    ensures CountOf(out + [e], pick) == CountOf(out, pick) + if pick(e) then 1 else 0
  {
    assert (out + [e])[..|out|] == out;
  }

  lemma {:induction false} CountsAppend(out: seq<Event>, e: Event, b: BookingId)
    ensures CountOf(out + [e], IsReserved(b)) == CountOf(out, IsReserved(b)) + if IsReserved(b)(e) then 1 else 0
    ensures CountOf(out + [e], IsConfirmed(b)) == CountOf(out, IsConfirmed(b)) + if IsConfirmed(b)(e) then 1 else 0
    ensures CountOf(out + [e], IsExpired(b)) == CountOf(out, IsExpired(b)) + if IsExpired(b)(e) then 1 else 0
  {
    CountAppend(out, e, IsReserved(b));
    CountAppend(out, e, IsConfirmed(b));
    CountAppend(out, e, IsExpired(b));
  }

  function Entry(e: Event, b: BookingId): int {
    if e.SlotReserved? && e.id == b then 1
    else if (e.SlotConfirmed? || e.SlotExpired?) && e.id == b then -1
    else 0
  }

  function Outstanding(out: seq<Event>, b: BookingId): int {
    CountOf(out, IsReserved(b)) - CountOf(out, IsConfirmed(b)) - CountOf(out, IsExpired(b))
  }

  /** What the books owe: reservations made that are neither waiting, confirmed nor expired. */
  function Owed(av: A.AvState, b: BookingId): int {
    Outstanding(av.out, b) - if b in av.res.expiry then 1 else 0
  }

  lemma OutstandingAppend(out: seq<Event>, e: Event, b: BookingId)
    ensures Outstanding(out + [e], b) == Outstanding(out, b) + Entry(e, b)
  {
    CountsAppend(out, e, b);
  }

  // ---- One step ----

  /** A granted confirmation emits exactly two events. */
  lemma GrantedEvents(av: A.AvState, now: Instant, b: BookingId, r: Request) returns (updated: Event, confirmed: Event)
    requires r.handyman != "" && R.Live(av.res, now, b)
    ensures updated.AvailabilityUpdated? && confirmed.SlotConfirmed? && confirmed.id == b
    ensures A.OnConfirmRequested(av, now, b, r).out == av.out + [updated] + [confirmed]
    ensures A.OnConfirmRequested(av, now, b, r).res.expiry == av.res.expiry - {b}
  {
    var held := av.res.keys[b].request.handyman;
    var freed := A.WithSlots(av, r.handyman, Subtract(A.SlotsOf(av, r.handyman), r.window));
    updated := AvailabilityUpdated(r.handyman, A.SlotsOf(freed.(res := R.Delete(freed.res, now, b)), r.handyman));
    confirmed := SlotConfirmed(b, if held != "" then held else r.handyman);
  }

  /** A request is answered by at most one event, by slot.reserved exactly when it passes the
      guards, and only then is something added to the expiry set. */
  lemma RequestAnswer(av: A.AvState, now: Instant, b: BookingId, r: Request) returns (answer: Option<Event>)
    ensures answer.None? ==> A.OnRequested(av, now, b, r) == av
    ensures answer.Some? ==>
              && A.OnRequested(av, now, b, r).out == av.out + [answer.value]
              && (answer.value.SlotRejected? || answer.value == SlotReserved(b, r.handyman))
    ensures answer.Some? && answer.value.SlotReserved? <==> Grantable(av, now, r)
    ensures A.OnRequested(av, now, b, r).res == if Grantable(av, now, r) then R.Insert(av.res, now, b, r) else av.res
  {
    answer := if r.user == "" || r.handyman == "" then None
              else if !HasSlot(A.SlotsOf(av, r.handyman), r.window) then Some(SlotRejected(b, "no_matching_slot"))
              else if R.Create(av.res, now, b, r).1 then Some(SlotReserved(b, r.handyman))
              else Some(SlotRejected(b, "slot_conflict_reserved"));
  }

  lemma RequestBalances(av: A.AvState, now: Instant, b: BookingId, r: Request, c: BookingId)
    ensures Owed(A.OnRequested(av, now, b, r), c)
            == Owed(av, c) + if c == b && Grantable(av, now, r) && b in av.res.expiry then 1 else 0
  {
    var answer := RequestAnswer(av, now, b, r);
    if answer.Some? {
      OutstandingAppend(av.out, answer.value, c);
    }
  }

  lemma ConfirmBalances(av: A.AvState, now: Instant, b: BookingId, r: Request, c: BookingId)
    requires av.res.keys.Keys == av.res.expiry.Keys
    ensures Owed(A.OnConfirmRequested(av, now, b, r), c) == Owed(av, c)
  {
    if r.handyman != "" {
      if R.Live(av.res, now, b) {
        var updated, confirmed := GrantedEvents(av, now, b, r);
        OutstandingAppend(av.out, updated, c);
        OutstandingAppend(av.out + [updated], confirmed, c);
      } else {
        OutstandingAppend(av.out, SlotRejected(b, "reservation_missing"), c);
      }
    }
  }

  lemma CancelBalances(av: A.AvState, now: Instant, b: BookingId, reason: string, c: BookingId)
    ensures Owed(A.OnCancelRequested(av, now, b, reason), c)
            == Owed(av, c) + if c == b && b in av.res.expiry then 1 else 0
  {
    OutstandingAppend(av.out, SlotReleased(b, reason), c);
  }

  lemma {:induction false} ExpiryBalances(av: A.AvState, now: Instant, due: seq<BookingId>, c: BookingId)
    requires forall i :: 0 <= i < |due| ==> due[i] in av.res.expiry
    requires forall i, j :: 0 <= i < j < |due| ==> due[i] != due[j]
    ensures Owed(A.ExpireAll(av, now, due), c) == Owed(av, c)
    ensures forall b :: b in A.ExpireAll(av, now, due).res.expiry <==> b in av.res.expiry && b !in due
  {
    if due != [] {
      var init, b := due[..|due| - 1], due[|due| - 1];
      var before := A.ExpireAll(av, now, init);
      ExpiryBalances(av, now, init, c);
      assert b !in init && b in before.res.expiry;
      ExpireOneBalances(before, now, b, c);
      assert due == init + [b];
    }
  }

  lemma ExpireOneBalances(av: A.AvState, now: Instant, b: BookingId, c: BookingId)
    requires b in av.res.expiry
    ensures Owed(A.ExpireOne(av, now, b), c) == Owed(av, c)
    ensures A.ExpireOne(av, now, b).res.expiry == av.res.expiry - {b}
  {
    ExpireOneIsDelete(av, now, b);
    OutstandingAppend(av.out, SlotExpired(b), c);
  }

  lemma DeliveryBalances(s: System, e: Event, c: BookingId)
    requires s.av.res.keys.Keys == s.av.res.expiry.Keys
    ensures var a := DeliverToAvailability(e);
            Owed(Next(s, a).av, c)
            == Owed(s.av, c) + (if Withdraws(s, a, c) then 1 else 0) + if Regrants(s, a, c) then 1 else 0
  {
    if IsBookingCommand(e) && !Marked(s.av.processed, s.now, e.eid) {
      var marked := A.SetMarker(s.av, s.now, e.eid);
      if e.BookingRequested? {
        RequestDeliveryBalances(s, e, c);
      } else if e.ConfirmRequested? {
        ConfirmBalances(marked, s.now, e.id, e.request, c);
      } else {
        CancelDeliveryBalances(s, e, c);
      }
    }
  }

  lemma RequestDeliveryBalances(s: System, e: Event, c: BookingId)
    requires e.BookingRequested? && !Marked(s.av.processed, s.now, e.eid)
    ensures Owed(Next(s, DeliverToAvailability(e)).av, c)
            == Owed(s.av, c) + if Regrants(s, DeliverToAvailability(e), c) then 1 else 0
  {
    RequestBalances(A.SetMarker(s.av, s.now, e.eid), s.now, e.id, e.request, c);
  }

  lemma CancelDeliveryBalances(s: System, e: Event, c: BookingId)
    requires e.CancelRequested? && !Marked(s.av.processed, s.now, e.eid)
    ensures Owed(Next(s, DeliverToAvailability(e)).av, c)
            == Owed(s.av, c) + if Withdraws(s, DeliverToAvailability(e), c) then 1 else 0
  {
    CancelBalances(A.SetMarker(s.av, s.now, e.eid), s.now, e.id, e.reason, c);
  }

  lemma AnnouncingBalances(s: System, a: Action, c: BookingId)
    requires a.SetAvailability? || a.ClearAvailability?
    ensures Owed(Next(s, a).av, c) == Owed(s.av, c)
  {
    OutstandingAppend(s.av.out, AvailabilityUpdated(a.handyman, if a.SetAvailability? then a.offered else []), c);
  }

  lemma DeletingBalances(s: System, b: BookingId, c: BookingId)
    ensures Owed(Next(s, DeleteReservation(b)).av, c)
            == Owed(s.av, c) + if Withdraws(s, DeleteReservation(b), c) then 1 else 0
  {
  }

  /** A step leaves the account as it is, except that a withdrawal and a regrant each leave one
      reservation unaccounted for. */
  lemma NextBalances(s: System, a: Action, c: BookingId)
    requires s.av.res.keys.Keys == s.av.res.expiry.Keys && Enabled(s, a)
    ensures Owed(Next(s, a).av, c)
            == Owed(s.av, c) + (if Withdraws(s, a, c) then 1 else 0) + if Regrants(s, a, c) then 1 else 0
  {
    if a.DeliverToAvailability? {
      DeliveryBalances(s, a.event, c);
    } else if a.DeleteReservation? {
      DeletingBalances(s, a.id, c);
    } else if a.ExpiryPass? {
      ExpiryBalances(s.av, s.now, a.due, c);
    } else if a.SetAvailability? || a.ClearAvailability? {
      AnnouncingBalances(s, a, c);
    } else {
      OtherStepsLeaveAvailability(s, a);
    }
  }

  // ---- Reservations are grants ----

  lemma {:induction false} ExpiryReservesNothing(av: A.AvState, now: Instant, due: seq<BookingId>, c: BookingId)
    ensures CountOf(A.ExpireAll(av, now, due).out, IsReserved(c)) == CountOf(av.out, IsReserved(c))
  {
    if due != [] {
      var before, b := A.ExpireAll(av, now, due[..|due| - 1]), due[|due| - 1];
      ExpiryReservesNothing(av, now, due[..|due| - 1], c);
      CountsAppend(before.out, SlotExpired(b), c);
    }
  }

  lemma ConfirmReservesNothing(av: A.AvState, now: Instant, b: BookingId, r: Request, c: BookingId)
    ensures CountOf(A.OnConfirmRequested(av, now, b, r).out, IsReserved(c)) == CountOf(av.out, IsReserved(c))
  {
    if r.handyman != "" {
      if R.Live(av.res, now, b) {
        var updated, confirmed := GrantedEvents(av, now, b, r);
        CountsAppend(av.out, updated, c);
        CountsAppend(av.out + [updated], confirmed, c);
      } else {
        CountsAppend(av.out, SlotRejected(b, "reservation_missing"), c);
      }
    }
  }

  lemma RequestReserves(av: A.AvState, now: Instant, b: BookingId, r: Request, c: BookingId)
    ensures CountOf(A.OnRequested(av, now, b, r).out, IsReserved(c))
            == CountOf(av.out, IsReserved(c)) + if c == b && Grantable(av, now, r) then 1 else 0
  {
    var answer := RequestAnswer(av, now, b, r);
    if answer.Some? {
      CountsAppend(av.out, answer.value, c);
    }
  }

  /** A step reserves c exactly when it is a grant of c. */
  lemma NextReserves(s: System, a: Action, c: BookingId)
    requires Enabled(s, a)
    ensures Reserved(Next(s, a), c) == Reserved(s, c) + if Grants(s, a, c) then 1 else 0
  {
    match a
    case DeliverToAvailability(e) =>
      if IsBookingCommand(e) && !Marked(s.av.processed, s.now, e.eid) {
        var marked := A.SetMarker(s.av, s.now, e.eid);
        match e
        case BookingRequested(_, b, r) => RequestReserves(marked, s.now, b, r, c);
        case ConfirmRequested(_, b, r) => ConfirmReservesNothing(marked, s.now, b, r, c);
        case CancelRequested(_, b, reason) => CountsAppend(s.av.out, SlotReleased(b, reason), c);
      }
    case ExpiryPass(due) => ExpiryReservesNothing(s.av, s.now, due, c);
    case SetAvailability(h, offered) => CountsAppend(s.av.out, AvailabilityUpdated(h, offered), c);
    case ClearAvailability(h) => CountsAppend(s.av.out, AvailabilityUpdated(h, []), c);
    case DeleteReservation(b) =>
    case _ => OtherStepsLeaveAvailability(s, a);
  }

  // ---- Runs ----

  lemma {:induction false} RunBalances(allowed: (System, Action) -> bool, s: System, actions: seq<Action>, t: System, b: BookingId)
    requires Facts(s) && Run(allowed, s, actions, t)
    ensures Facts(t)
    ensures Owed(t.av, b) == Owed(s.av, b) + Withdrawn(s, actions, b) + Regranted(s, actions, b)
    ensures Reserved(t, b) == Reserved(s, b) + Granted(s, actions, b)
    decreases |actions|
  {
    if actions != [] {
      NextBalances(s, actions[0], b);
      NextReserves(s, actions[0], b);
      NextKeepsFacts(s, actions[0]);
      RunBalances(allowed, Next(s, actions[0]), actions[1..], t, b);
    }
  }

  /** In every run a booking's reservations are those waiting in the expiry set, confirmed, expired
      and withdrawn, and one more for each regrant. So the account balances exactly when no grant
      came while an earlier reservation was still waiting. */
  lemma {:induction false} AccountBalancesExactlyWithoutRegrants(start: System, actions: seq<Action>, t: System, b: BookingId)
    requires Init(start) && Run(Anything, start, actions, t)
    ensures Reserved(t, b) == Waiting(t, b) + Confirmed(t, b) + Expired(t, b) + Withdrawn(start, actions, b)
                              + Regranted(start, actions, b)
    ensures Reserved(t, b) == Waiting(t, b) + Confirmed(t, b) + Expired(t, b) + Withdrawn(start, actions, b)
            <==> Regranted(start, actions, b) == 0
  {
    RunBalances(Anything, start, actions, t, b);
  }

  /** A booking is reserved at most once exactly when the run grants it at most once, at any time. */
  lemma {:induction false} ReservedOnceExactlyWhenGrantedOnce(start: System, actions: seq<Action>, t: System, b: BookingId)
    requires Init(start) && Run(Anything, start, actions, t)
    ensures Reserved(t, b) <= 1 <==> Granted(start, actions, b) <= 1
    ensures Waiting(t, b) + Confirmed(t, b) + Expired(t, b) <= Granted(start, actions, b)
  {
    RunBalances(Anything, start, actions, t, b);
  }

  // ---- When grants and regrants happen ----

  ghost predicate RequestsUnique(out: seq<Event>) {
    forall i, j :: 0 <= i < j < |out| && out[i].BookingRequested? && out[j].BookingRequested? ==> out[i].id != out[j].id
  }

  /** While b waits in the expiry set, the marker of its request outlives the entry by 3300 seconds. */
  ghost predicate MarkersOutliveEntries(av: A.AvState, commands: seq<Event>) {
    forall e: Event :: e in commands && e.BookingRequested? && e.id in av.res.expiry ==>
      e.eid in av.processed && av.processed[e.eid] >= av.res.expiry[e.id] + IDEMPOTENCY_TTL - R.RES_TTL_SECONDS
  }

  /** A booking has one booking.requested event, and if it is reserved that event was processed. */
  ghost predicate LedgerInv(s: System) {
    && Facts(s)
    && RequestsUnique(s.bk.out)
    && (forall e: Event :: e in s.bk.out && e.BookingRequested? && Reserved(s, e.id) > 0 ==> e.eid in s.av.processed)
    && (forall b: BookingId :: b >= |s.bk.issued| ==> Reserved(s, b) == 0)
    && MarkersOutliveEntries(s.av, s.bk.out)
  }

  lemma NextKeepsRequestsUnique(s: System, a: Action)
    requires Facts(s) && RequestsUnique(s.bk.out)
    ensures RequestsUnique(Next(s, a).bk.out)
  {
    match a
    case CreateBooking(r) => NewRequestKeepsUnique(s.bk.out, s.bk.issued, BookingRequested(|s.bk.out|, |s.bk.issued|, r));
    case _ => OtherStepsRequestNothing(s, a);
  }

  lemma NewRequestKeepsUnique(out: seq<Event>, issued: seq<Request>, e: Event)
    requires RequestsUnique(out) && e.BookingRequested? && e.id >= |issued|
    requires forall f :: f in out ==> IsBookingEvent(f) && f.id < |issued|
    ensures RequestsUnique(out + [e])
  {
    assert forall i :: 0 <= i < |out| ==> out[i] in out;
  }

  lemma OtherStepsRequestNothing(s: System, a: Action)
    requires RequestsUnique(s.bk.out) && !a.CreateBooking?
    ensures RequestsUnique(Next(s, a).bk.out)
  {
  }

  lemma NextKeepsLedgerInv(s: System, a: Action)
    requires LedgerInv(s) && Enabled(s, a)
    ensures LedgerInv(Next(s, a))
  {
    var t := Next(s, a);
    NextKeepsFacts(s, a);
    NextKeepsRequestsUnique(s, a);
    forall b: BookingId | b >= |t.bk.issued|
      ensures Reserved(t, b) == 0
    {
      NextReserves(s, a, b);
    }
    forall e: Event | e in t.bk.out && e.BookingRequested? && Reserved(t, e.id) > 0
      ensures e.eid in t.av.processed
    {
      ReservedWasProcessed(s, a, e);
    }
    forall e: Event | e in t.bk.out && e.BookingRequested? && e.id in t.av.res.expiry
      ensures e.eid in t.av.processed && t.av.processed[e.eid] >= t.av.res.expiry[e.id] + IDEMPOTENCY_TTL - R.RES_TTL_SECONDS
    {
      EntryHasItsMarker(s, a, e);
    }
  }

  /** Markers only move forward, and an entry is new or later only by a grant. */
  lemma EntriesComeFromGrants(s: System, a: Action, b: BookingId)
    requires Enabled(s, a) && b in Next(s, a).av.res.expiry
    ensures Grants(s, a, b) ==> Next(s, a).av.res.expiry[b] == s.now + R.RES_TTL_SECONDS
    ensures !Grants(s, a, b) ==> b in s.av.res.expiry && Next(s, a).av.res.expiry[b] == s.av.res.expiry[b]
  {
    match a
    case DeliverToAvailability(e) => DeliveredEntriesComeFromGrants(s, e, b);
    case ExpiryPass(due) => ExpiryOnlyRemoves(s.av, s.now, due);
    case SetAvailability(_, _) =>
    case ClearAvailability(_) =>
    case DeleteReservation(_) =>
    case _ => OtherStepsLeaveAvailability(s, a);
  }

  lemma DeliveredEntriesComeFromGrants(s: System, e: Event, b: BookingId)
    requires b in A.Process(s.av, s.now, e).res.expiry
    ensures var expiry := A.Process(s.av, s.now, e).res.expiry;
            if Grants(s, DeliverToAvailability(e), b) then expiry[b] == s.now + R.RES_TTL_SECONDS
            else b in s.av.res.expiry && expiry[b] == s.av.res.expiry[b]
  {
    if IsBookingCommand(e) && !Marked(s.av.processed, s.now, e.eid) {
      var marked := A.SetMarker(s.av, s.now, e.eid);
      match e
      case BookingRequested(_, c, r) => var answer := RequestAnswer(marked, s.now, c, r);
      case ConfirmRequested(_, c, r) => ConfirmationOnlyRemoves(marked, s.now, c, r);
      case CancelRequested(_, _, _) =>
    }
  }

  lemma ConfirmationOnlyRemoves(av: A.AvState, now: Instant, b: BookingId, r: Request)
    ensures A.OnConfirmRequested(av, now, b, r).res.expiry
            == if r.handyman != "" && R.Live(av.res, now, b) then av.res.expiry - {b} else av.res.expiry
  {
  }

  lemma {:induction false} ExpiryOnlyRemoves(av: A.AvState, now: Instant, due: seq<BookingId>)
    ensures forall b :: b in A.ExpireAll(av, now, due).res.expiry ==>
              b in av.res.expiry && A.ExpireAll(av, now, due).res.expiry[b] == av.res.expiry[b]
  {
    if due != [] {
      ExpiryOnlyRemoves(av, now, due[..|due| - 1]);
    }
  }

  lemma GrantPutsEntry(s: System, a: Action, b: BookingId)
    requires Grants(s, a, b)
    ensures b in Next(s, a).av.res.expiry
    ensures Next(s, a).av.processed == Mark(s.av.processed, s.now, IDEMPOTENCY_TTL, a.event.eid)
  {
    var answer := RequestAnswer(A.SetMarker(s.av, s.now, a.event.eid), s.now, b, a.event.request);
  }

  lemma EntryHasItsMarker(s: System, a: Action, e: Event)
    requires LedgerInv(s) && Enabled(s, a) && Facts(Next(s, a))
    requires e in Next(s, a).bk.out && e.BookingRequested? && e.id in Next(s, a).av.res.expiry
    ensures var t := Next(s, a);
            e.eid in t.av.processed && t.av.processed[e.eid] >= t.av.res.expiry[e.id] + IDEMPOTENCY_TTL - R.RES_TTL_SECONDS
  {
    EntriesComeFromGrants(s, a, e.id);
    ProcessedGrows(s, a);
    if e in s.bk.out {
      if Grants(s, a, e.id) {
        SameRequest(s.bk.out, e, a.event);
        GrantPutsEntry(s, a, e.id);
      }
    } else {
      NewRequestIsFresh(s, a, e);
    }
  }

  lemma ProcessedGrows(s: System, a: Action)
    requires Enabled(s, a)
    ensures s.av.processed.Keys <= Next(s, a).av.processed.Keys
    ensures forall eid :: eid in s.av.processed ==> s.av.processed[eid] <= Next(s, a).av.processed[eid]
    ensures a.DeliverToAvailability? && IsBookingCommand(a.event) ==> a.event.eid in Next(s, a).av.processed
  {
    match a
    case DeliverToAvailability(e) => DeliveryMarks(s, e);
    case ExpiryPass(due) => ExpireOnlyAppends(s.av, s.now, due);
    case SetAvailability(_, _) =>
    case ClearAvailability(_) =>
    case DeleteReservation(_) =>
    case _ => OtherStepsLeaveAvailability(s, a);
  }

  lemma DeliveryMarks(s: System, e: Event)
    ensures A.Process(s.av, s.now, e).processed
            == if IsBookingCommand(e) && !Marked(s.av.processed, s.now, e.eid)
               then Mark(s.av.processed, s.now, IDEMPOTENCY_TTL, e.eid) else s.av.processed
  {
  }

  lemma ReservedWasProcessed(s: System, a: Action, e: Event)
    requires LedgerInv(s) && Enabled(s, a)
    requires e in Next(s, a).bk.out && e.BookingRequested? && Reserved(Next(s, a), e.id) > 0
    ensures e.eid in Next(s, a).av.processed
  {
    NextReserves(s, a, e.id);
    ProcessedGrows(s, a);
    if e in s.bk.out {
      if a.DeliverToAvailability? && a.event.BookingRequested? && a.event.id == e.id {
        SameRequest(s.bk.out, e, a.event);
      }
    } else {
      NewRequestIsFresh(s, a, e);
    }
  }

  lemma SameRequest(out: seq<Event>, e: Event, f: Event)
    requires RequestsUnique(out) && e in out && f in out && e.BookingRequested? && f.BookingRequested? && e.id == f.id
    ensures e == f
  {
    var i :| 0 <= i < |out| && out[i] == e;
    var j :| 0 <= j < |out| && out[j] == f;
  }

  lemma NewRequestIsFresh(s: System, a: Action, e: Event)
    requires Enabled(s, a) && e in Next(s, a).bk.out && e !in s.bk.out && e.BookingRequested?
    ensures a.CreateBooking? && e.id == |s.bk.issued|
  {
  }

  lemma InitHasLedgerInv(s: System)
    requires Init(s)
    ensures LedgerInv(s)
  {
  }

  lemma {:induction false} RunKeepsLedgerInv(allowed: (System, Action) -> bool, s: System, actions: seq<Action>, t: System)
    requires LedgerInv(s) && Run(allowed, s, actions, t)
    ensures LedgerInv(t)
    decreases |actions|
  {
    if actions != [] {
      NextKeepsLedgerInv(s, actions[0]);
      RunKeepsLedgerInv(allowed, Next(s, actions[0]), actions[1..], t);
    }
  }

  /** In a reachable state a second grant redelivers a booking.requested whose marker has lapsed, and
      a regrant also finds the entry of the first one at least 3300 seconds overdue. */
  lemma {:induction false} SecondGrantsAreLate(start: System, prefix: seq<Action>, s: System, a: Action, b: BookingId)
    requires Init(start) && Run(Anything, start, prefix, s) && Enabled(s, a) && Grants(s, a, b)
    ensures Reserved(s, b) > 0 ==> a.event.eid in s.av.processed && s.av.processed[a.event.eid] <= s.now
    ensures Regrants(s, a, b) ==> s.av.res.expiry[b] + IDEMPOTENCY_TTL - R.RES_TTL_SECONDS <= s.now
  {
    InitHasLedgerInv(start);
    RunKeepsLedgerInv(Anything, start, prefix, s);
  }

  /** A rule a run may follow: no booking.requested comes back after its marker has lapsed. */
  ghost predicate RequestsTakeEffectOnce(s: System, a: Action) {
    (a.DeliverToAvailability? && a.event.BookingRequested? && a.event.eid in s.av.processed)
    ==> Marked(s.av.processed, s.now, a.event.eid)
  }

  lemma {:induction false} RuleGrantsOnce(s: System, actions: seq<Action>, t: System, b: BookingId)
    requires LedgerInv(s) && Run(RequestsTakeEffectOnce, s, actions, t)
    requires Waiting(s, b) <= Reserved(s, b) <= 1
    ensures Reserved(t, b) <= 1 && Regranted(s, actions, b) == 0
    decreases |actions|
  {
    if actions != [] {
      NextReserves(s, actions[0], b);
      NextKeepsLedgerInv(s, actions[0]);
      ReservedCoversWaiting(s, actions[0], b);
      RuleGrantsOnce(Next(s, actions[0]), actions[1..], t, b);
    }
  }

  lemma ReservedCoversWaiting(s: System, a: Action, b: BookingId)
    requires Enabled(s, a) && Reserved(s, b) >= Waiting(s, b)
    ensures Reserved(Next(s, a), b) >= Waiting(Next(s, a), b)
  {
    NextReserves(s, a, b);
    if b in Next(s, a).av.res.expiry {
      EntriesComeFromGrants(s, a, b);
    }
  }

  /** Under that rule a booking is reserved at most once, and its reservation is at all times exactly
      one of: still waiting in the expiry set, confirmed, expired, or withdrawn. In particular
      slot.confirmed and slot.expired are never both emitted, each is emitted at most once, and a
      reservation whose key has lapsed stays in the set until it is expired or withdrawn. */
  lemma {:induction false} EveryReservationIsAccountedForOnce(start: System, actions: seq<Action>, t: System, b: BookingId)
    requires Init(start) && Run(RequestsTakeEffectOnce, start, actions, t)
    ensures Reserved(t, b) == Waiting(t, b) + Confirmed(t, b) + Expired(t, b) + Withdrawn(start, actions, b)
    ensures Reserved(t, b) <= 1
  {
    InitHasLedgerInv(start);
    RuleGrantsOnce(start, actions, t, b);
    RunBalances(RequestsTakeEffectOnce, start, actions, t, b);
  }

  /** Another rule: the expiry worker never leaves an entry waiting for 3300 seconds past its time. */
  ghost predicate WorkerKeepsUp(s: System, a: Action) {
    forall b :: b in s.av.res.expiry ==> s.now < s.av.res.expiry[b] + IDEMPOTENCY_TTL - R.RES_TTL_SECONDS
  }

  lemma {:induction false} WorkerPreventsRegrants(s: System, actions: seq<Action>, t: System, b: BookingId)
    requires LedgerInv(s) && Run(WorkerKeepsUp, s, actions, t)
    ensures Regranted(s, actions, b) == 0
    decreases |actions|
  {
    if actions != [] {
      NextKeepsLedgerInv(s, actions[0]);
      WorkerPreventsRegrants(Next(s, actions[0]), actions[1..], t, b);
    }
  }

  /** Whatever is redelivered, and however late, the account balances while the worker keeps up. */
  lemma {:induction false} AccountBalancesWhileTheWorkerKeepsUp(start: System, actions: seq<Action>, t: System, b: BookingId)
    requires Init(start) && Run(WorkerKeepsUp, start, actions, t)
    ensures Reserved(t, b) == Waiting(t, b) + Confirmed(t, b) + Expired(t, b) + Withdrawn(start, actions, b)
  {
    InitHasLedgerInv(start);
    WorkerPreventsRegrants(start, actions, t, b);
    RunBalances(WorkerKeepsUp, start, actions, t, b);
  }

  // ---- A run in which the account does not balance ----

  /** A request inside a free slot is reserved, once more, whenever its handyman has nothing live. */
  lemma UnmarkedRequestIsReserved(s: System, e: Event)
    requires e.BookingRequested? && !Marked(s.av.processed, s.now, e.eid) && e.request.user != "" && e.request.handyman != ""
    requires HasSlot(A.SlotsOf(s.av, e.request.handyman), e.request.window)
    requires forall c :: c in s.av.res.keys ==> !R.Live(s.av.res, s.now, c)
    ensures var t := Next(s, DeliverToAvailability(e));
            && t.av.out == s.av.out + [SlotReserved(e.id, e.request.handyman)] && t.av.slots == s.av.slots
            && t.av.res.keys == s.av.res.keys[e.id := R.Keyed(e.request, s.now + R.RES_TTL_SECONDS)]
            && t.av.processed == s.av.processed[e.eid := s.now + IDEMPOTENCY_TTL]
            && t.av.res.expiry == s.av.res.expiry[e.id := s.now + R.RES_TTL_SECONDS]
            && t.now == s.now && t.bk == s.bk
  {
    assert !R.IndexShowsConflict(s.av.res, s.now, e.request);
  }

  const OFFER := [Window(0, 10)]
  const REQUEST := BookingRequested(0, 0, Request("u", "h", Window(2, 4)))

  /** Some run that withdraws nothing of booking 0 leads from start to s. */
  ghost predicate LeadsTo(start: System, s: System) {
    exists actions :: Run(Anything, start, actions, s) && Withdrawn(start, actions, 0) == 0
  }

  lemma {:induction false} TimesExtends(kind: (System, Action) -> bool, s: System, actions: seq<Action>, t: System, a: Action)
    requires Run(Anything, s, actions, t)
    ensures Times(kind, s, actions + [a]) == Times(kind, s, actions) + if kind(t, a) then 1 else 0
    decreases |actions|
  {
    if actions == [] {
      assert [a][1..] == [] && actions + [a] == [a];
      assert Times(kind, Next(s, a), []) == 0;
    } else {
      TimesExtends(kind, Next(s, actions[0]), actions[1..], t, a);
      assert (actions + [a])[1..] == actions[1..] + [a];
    }
  }

  lemma LeadsNext(start: System, s: System, a: Action)
    requires LeadsTo(start, s) && Enabled(s, a) && !Withdraws(s, a, 0)
    ensures LeadsTo(start, Next(s, a))
  {
    var actions :| Run(Anything, start, actions, s) && Withdrawn(start, actions, 0) == 0;
    RunExtends(Anything, start, actions, s, a);
    TimesExtends(WithdrawalOf(0), start, actions, s, a);
  }

  /** The state after h offers [0, 10) and a booking asks for [2, 4). */
  lemma OfferedAndRequested(start: System) returns (s: System)
    requires Init(start)
    ensures LeadsTo(start, s)
    ensures HasSlot(A.SlotsOf(s.av, "h"), REQUEST.request.window)
    ensures s.bk == B.Create(B.EMPTY, REQUEST.request) && s.bk.out == [REQUEST]
    ensures s.av.res == R.Store(map[], map[], map[]) && s.av.processed == map[]
    ensures s.av.out == [] + [AvailabilityUpdated("h", OFFER)]
  {
    var offer, create := SetAvailability("h", OFFER), CreateBooking(REQUEST.request);
    var s1 := Next(start, offer);
    s := Next(s1, create);
    assert FullyContains(A.SlotsOf(s.av, "h")[0], REQUEST.request.window);
    assert Run(Anything, start, [], start) && Withdrawn(start, [], 0) == 0;
    LeadsNext(start, start, offer);
    LeadsNext(start, s1, create);
  }

  const DELIVER := DeliverToAvailability(REQUEST)

  lemma {:induction false} ReservedTwiceInARow(out: seq<Event>, first: Event, reserved: Event)
    requires out == [] + [first] + [reserved] + [reserved] && first.AvailabilityUpdated? && reserved == SlotReserved(0, "h")
    ensures CountOf(out, IsReserved(0)) == 2 && CountOf(out, IsConfirmed(0)) == CountOf(out, IsExpired(0)) == 0
  {
    CountsAppend([], first, 0);
    CountsAppend([] + [first], reserved, 0);
    CountsAppend([] + [first] + [reserved], reserved, 0);
  }

  /** With the expiry worker idle for an hour, a booking.requested redelivered after its marker has
      lapsed is a regrant: reserved twice while one entry waits. */
  lemma LateRedeliveryReservesTwice(start: System) returns (actions: seq<Action>, t: System)
    requires Init(start)
    ensures Run(Anything, start, actions, t) && Regranted(start, actions, 0) == 1
    ensures Reserved(t, 0) == 2 && Waiting(t, 0) + Confirmed(t, 0) + Expired(t, 0) + Withdrawn(start, actions, 0) == 1
  {
    var s := OfferedAndRequested(start);
    UnmarkedRequestIsReserved(s, REQUEST);
    LeadsNext(start, s, DELIVER);
    var s1 := Next(s, DELIVER);
    LeadsNext(start, s1, Tick(IDEMPOTENCY_TTL));
    var s2 := Next(s1, Tick(IDEMPOTENCY_TTL));
    UnmarkedRequestIsReserved(s2, REQUEST);
    LeadsNext(start, s2, DELIVER);
    t := Next(s2, DELIVER);
    actions :| Run(Anything, start, actions, t) && Withdrawn(start, actions, 0) == 0;
    ReservedTwiceInARow(t.av.out, AvailabilityUpdated("h", OFFER), SlotReserved(0, "h"));
    AccountBalancesExactlyWithoutRegrants(start, actions, t, 0);
  }
}
