/** What the availability service says: every command it takes up is answered, each step emits just
    the events that belong to it, and what it announces of a handyman's slots is what is stored. */
module Answers {
  import opened Intervals
  import opened Events
  import opened Options
  import opened Idempotency
  import opened FreeSlots
  import opened Protocol
  import R = Reservations
  import A = Availability

  // ---- One command ----

  /** The window is not empty and lies inside a single slot. */
  predicate FitsOneSlot(slots: seq<Window>, w: Window) {
    w.start < w.end && exists i :: 0 <= i < |slots| && slots[i].start <= w.start && w.end <= slots[i].end
  }

  /** The answer to a request: decided by the slots and by a scan of all live reservations. */
  ghost function AnswerTo(s: System, b: BookingId, r: Request): Event {
    if !FitsOneSlot(A.SlotsOf(s.av, r.handyman), r.window) then SlotRejected(b, "no_matching_slot")
    else if R.ScanShowsConflict(s.av.res, s.now, r) then SlotRejected(b, "slot_conflict_reserved")
    else SlotReserved(b, r.handyman)
  }

  /** An unmarked booking.requested is answered by exactly one event: reserved exactly when its window
      lies in one slot and overlaps no live reservation of the handyman, else rejected for the reason
      that applies. The reservation it names is then live for 300 seconds, and nothing else changes. */
  lemma RequestIsAnswered(s: System, e: Event)
    requires Facts(s) && e.BookingRequested? && !Marked(s.av.processed, s.now, e.eid)
    requires e.request.user != "" && e.request.handyman != ""
    ensures var av, answer := Next(s, DeliverToAvailability(e)).av, AnswerTo(s, e.id, e.request);
            && av.out == s.av.out + [answer] && av.slots == s.av.slots
            && (answer.SlotReserved? ==>
                  && e.id in av.res.keys && av.res.keys[e.id] == R.Keyed(e.request, s.now + 300)
                  && e.id in av.res.expiry && av.res.expiry[e.id] == s.now + 300
                  && R.Indexed(av.res, e.request.handyman, e.id) && av.res.index[e.request.handyman].deadline == s.now + 330)
            && (answer.SlotRejected? ==> av.res == s.av.res)
            && (forall c: BookingId :: c != e.id ==> (R.Live(av.res, s.now, c) <==> R.Live(s.av.res, s.now, c)))
  {
    R.IndexScanIsExact(s.av.res, s.now, s.bk.issued, e.request);
    var slots, w := A.SlotsOf(s.av, e.request.handyman), e.request.window;
    assert HasSlot(slots, w) <==> FitsOneSlot(slots, w) by {
      assert forall i :: 0 <= i < |slots| ==>
        (FullyContains(slots[i], w) <==> slots[i].start <= w.start && w.end <= slots[i].end);
    }
  }

  /** Without a user or a handyman the command is dropped. */
  lemma IncompleteRequestIsDropped(s: System, e: Event)
    requires e.BookingRequested? && (e.request.user == "" || e.request.handyman == "")
    ensures var av := Next(s, DeliverToAvailability(e)).av;
            av.out == s.av.out && av.slots == s.av.slots && av.res == s.av.res
  {
  }

  /** An unmarked booking.confirm_requested is answered by slot.confirmed exactly when its reservation
      is live, after the window has left the slots and these were announced as they then are. */
  lemma ConfirmationIsAnswered(s: System, e: Event)
    requires Facts(s) && e in s.bk.out && e.ConfirmRequested? && !Marked(s.av.processed, s.now, e.eid)
    requires e.request.handyman != ""
    ensures var av, h := Next(s, DeliverToAvailability(e)).av, e.request.handyman;
            if R.Live(s.av.res, s.now, e.id)
            then && av.out == s.av.out + [AvailabilityUpdated(h, A.SlotsOf(av, h)), SlotConfirmed(e.id, h)]
                 && A.SlotsOf(av, h) == Subtract(A.SlotsOf(s.av, h), e.request.window)
                 && !R.Live(av.res, s.now, e.id) && e.id !in av.res.expiry
            else && av.out == s.av.out + [SlotRejected(e.id, "reservation_missing")]
                 && av.slots == s.av.slots && av.res == s.av.res
  {
    var av, h := Next(s, DeliverToAvailability(e)).av, e.request.handyman;
    if R.Live(s.av.res, s.now, e.id) {
      var told := [AvailabilityUpdated(h, A.SlotsOf(av, h))];
      assert A.SlotsOf(av, h) == Subtract(A.SlotsOf(s.av, h), e.request.window);
      assert av.out == s.av.out + told + [SlotConfirmed(e.id, h)];
      assert s.av.out + told + [SlotConfirmed(e.id, h)] == s.av.out + [AvailabilityUpdated(h, A.SlotsOf(av, h)), SlotConfirmed(e.id, h)];
    }
  }

  /** An unmarked booking.cancel_requested is answered by slot.released with its reason, and the
      booking's reservation, if any, is gone. */
  lemma CancellationIsAnswered(s: System, e: Event)
    requires e.CancelRequested? && !Marked(s.av.processed, s.now, e.eid)
    ensures var av := Next(s, DeliverToAvailability(e)).av;
            && av.out == s.av.out + [SlotReleased(e.id, e.reason)] && av.slots == s.av.slots
            && e.id !in av.res.keys && e.id !in av.res.expiry
            && (forall c: BookingId :: c != e.id ==> (R.Live(av.res, s.now, c) <==> R.Live(s.av.res, s.now, c)))
  {
  }

  /** A command leaves its marker for an hour; a marked one, or a foreign event, changes nothing. */
  lemma DeliveryMarks(s: System, e: Event)
    ensures var av := Next(s, DeliverToAvailability(e)).av;
            if IsBookingCommand(e) && !Marked(s.av.processed, s.now, e.eid)
            then av.processed == s.av.processed[e.eid := s.now + 3600] else av == s.av
  {
  }

  // ---- The other steps ----

  /** An expiry pass emits slot.expired for each id of its batch, in order, and nothing else. */
  lemma {:induction false} PassEmits(av: A.AvState, now: Instant, due: seq<BookingId>)
    ensures A.ExpireAll(av, now, due).out == av.out + seq(|due|, i requires 0 <= i < |due| => SlotExpired(due[i]))
    ensures A.ExpireAll(av, now, due).slots == av.slots
  {
    if due != [] {
      PassEmits(av, now, due[..|due| - 1]);
    }
  }

  /** Setting a handyman's slots stores and announces just these; clearing stores and announces none. */
  lemma OfferIsStoredAndAnnounced(s: System, h: Email, offered: seq<Window>)
    ensures var av := Next(s, SetAvailability(h, offered)).av;
            && A.SlotsOf(av, h) == offered && av.out == s.av.out + [AvailabilityUpdated(h, offered)]
            && av.res == s.av.res && forall other :: other != h ==> A.SlotsOf(av, other) == A.SlotsOf(s.av, other)
    ensures var av := Next(s, ClearAvailability(h)).av;
            && A.SlotsOf(av, h) == [] && av.out == s.av.out + [AvailabilityUpdated(h, [])]
            && av.res == s.av.res && forall other :: other != h ==> A.SlotsOf(av, other) == A.SlotsOf(s.av, other)
  {
  }

  lemma DeletingIsSilent(s: System, b: BookingId)
    ensures var av := Next(s, DeleteReservation(b)).av;
            && av.out == s.av.out && av.slots == s.av.slots && b !in av.res.keys && b !in av.res.expiry
  {
  }

  // ---- Every command that was taken up is answered ----

  ghost predicate IsAnswered(e: Event, out: seq<Event>) {
    match e
    case BookingRequested(_, b, r) =>
      r.user != "" && r.handyman != "" ==>
        SlotReserved(b, r.handyman) in out || SlotRejected(b, "no_matching_slot") in out
        || SlotRejected(b, "slot_conflict_reserved") in out
    case ConfirmRequested(_, b, r) =>
      r.handyman != "" ==> SlotConfirmed(b, r.handyman) in out || SlotRejected(b, "reservation_missing") in out
    case CancelRequested(_, b, reason) => SlotReleased(b, reason) in out
    case _ => true
  }

  ghost predicate ProcessedAreAnswered(s: System) {
    forall e :: e in s.bk.out && IsBookingCommand(e) && e.eid in s.av.processed ==> IsAnswered(e, s.av.out)
  }

  lemma AnswersRemain(e: Event, out: seq<Event>, out': seq<Event>)
    requires IsAnswered(e, out) && out <= out'
    ensures IsAnswered(e, out')
  {
  }

  lemma DeliveredIsAnswered(s: System, e: Event)
    requires Facts(s) && e in s.bk.out && IsBookingCommand(e) && !Marked(s.av.processed, s.now, e.eid)
    ensures IsAnswered(e, Next(s, DeliverToAvailability(e)).av.out)
  {
    match e
    case BookingRequested(_, b, r) =>
      if r.user != "" && r.handyman != "" {
        RequestIsAnswered(s, e);
      }
    case ConfirmRequested(_, b, r) =>
      if r.handyman != "" {
        ConfirmationIsAnswered(s, e);
      }
    case CancelRequested(_, _, _) => CancellationIsAnswered(s, e);
  }

  lemma NextOnlyAppends(s: System, a: Action)
    requires Enabled(s, a)
    ensures s.av.out <= Next(s, a).av.out
  {
    match a
    case DeliverToAvailability(e) => ProcessOnlyAppends(s.av, s.now, e);
    case ExpiryPass(due) => ExpireOnlyAppends(s.av, s.now, due);
    case SetAvailability(_, _) =>
    case ClearAvailability(_) =>
    case DeleteReservation(_) =>
    case _ => OtherStepsLeaveAvailability(s, a);
  }

  lemma NextMarks(s: System, a: Action, eid: EventId)
    requires Enabled(s, a) && eid in Next(s, a).av.processed && eid !in s.av.processed
    ensures a.DeliverToAvailability? && IsBookingCommand(a.event) && a.event.eid == eid
    ensures !Marked(s.av.processed, s.now, eid)
  {
    match a
    case DeliverToAvailability(e) => DeliveryMarks(s, e);
    case ExpiryPass(due) => ExpireOnlyAppends(s.av, s.now, due);
    case SetAvailability(_, _) =>
    case ClearAvailability(_) =>
    case DeleteReservation(_) =>
    case _ => OtherStepsLeaveAvailability(s, a);
  }

  lemma CommandsRemain(s: System, a: Action)
    ensures s.bk.out <= Next(s, a).bk.out
  {
  }

  /** A marker that is there was set for the command that bears its id. */
  lemma SameId(out: seq<Event>, e: Event, f: Event)
    requires forall i :: 0 <= i < |out| ==> IsBookingEvent(out[i]) && out[i].eid == i
    requires e in out && f in out && IsBookingEvent(e) && IsBookingEvent(f) && e.eid == f.eid
    ensures e == f
  {
    var i :| 0 <= i < |out| && out[i] == e;
    var j :| 0 <= j < |out| && out[j] == f;
  }

  lemma OldIdIsOldEvent(out: seq<Event>, out': seq<Event>, e: Event)
    requires out <= out' && e in out' && IsBookingEvent(e) && e.eid < |out|
    requires forall i :: 0 <= i < |out'| ==> IsBookingEvent(out'[i]) && out'[i].eid == i
    ensures e in out
  {
    var i :| 0 <= i < |out'| && out'[i] == e;
    assert out[i] == e;
  }

  lemma NextKeepsAnswered(s: System, a: Action)
    requires Facts(s) && Enabled(s, a) && ProcessedAreAnswered(s)
    ensures ProcessedAreAnswered(Next(s, a))
  {
    var t := Next(s, a);
    NextKeepsFacts(s, a);
    CommandsRemain(s, a);
    NextOnlyAppends(s, a);
    forall e | e in t.bk.out && IsBookingCommand(e) && e.eid in t.av.processed
      ensures IsAnswered(e, t.av.out)
    {
      if e.eid in s.av.processed {
        OldIdIsOldEvent(s.bk.out, t.bk.out, e);
        AnswersRemain(e, s.av.out, t.av.out);
      } else {
        NextMarks(s, a, e.eid);
        OldIdIsOldEvent(s.bk.out, t.bk.out, e);
        SameId(s.bk.out, e, a.event);
        DeliveredIsAnswered(s, e);
      }
    }
  }

  lemma {:induction false} RunKeepsAnswered(s: System, actions: seq<Action>, t: System)
    requires Facts(s) && ProcessedAreAnswered(s) && Run(Anything, s, actions, t)
    ensures ProcessedAreAnswered(t)
    decreases |actions|
  {
    if actions != [] {
      NextKeepsAnswered(s, actions[0]);
      NextKeepsFacts(s, actions[0]);
      RunKeepsAnswered(Next(s, actions[0]), actions[1..], t);
    }
  }

  /** Over every run, a command that has been taken up has been answered: a complete request by
      slot.reserved or slot.rejected, a confirmation by slot.confirmed or slot.rejected, a
      cancellation by slot.released. */
  lemma {:induction false} EveryCommandIsAnswered(start: System, actions: seq<Action>, t: System, e: Event)
    requires Init(start) && Run(Anything, start, actions, t)
    requires e in t.bk.out && IsBookingCommand(e) && e.eid in t.av.processed
    ensures IsAnswered(e, t.av.out)
  {
    RunKeepsAnswered(start, actions, t);
  }

  // ---- Announced slots are stored slots ----

  /** The slots listed by the last availability.updated of h, if there is one. */
  function LastAnnounced(out: seq<Event>, h: Email): Option<seq<Window>> {
    if out == [] then None
    else
      var last := out[|out| - 1];
      if last.AvailabilityUpdated? && last.handyman == h then Some(last.slots) else LastAnnounced(out[..|out| - 1], h)
  }

  lemma {:induction false} LastAnnouncedAppend(out: seq<Event>, e: Event, h: Email)
    ensures LastAnnounced(out + [e], h)
            == if e.AvailabilityUpdated? && e.handyman == h then Some(e.slots) else LastAnnounced(out, h)
  {
    assert (out + [e])[..|out|] == out;
  }

  lemma {:induction false} LastAnnouncedQuiet(out: seq<Event>, more: seq<Event>, h: Email)
    requires forall i :: 0 <= i < |more| ==> !more[i].AvailabilityUpdated?
    ensures LastAnnounced(out + more, h) == LastAnnounced(out, h)
  {
    if more == [] {
      assert out + more == out;
    } else {
      var init, last := more[..|more| - 1], more[|more| - 1];
      assert out + more == (out + init) + [last];
      LastAnnouncedAppend(out + init, last, h);
      LastAnnouncedQuiet(out, init, h);
    }
  }

  /** What h was last announced to offer is what is stored; never announced, nothing is stored. */
  ghost predicate AnnouncedIsStored(av: A.AvState, h: Email) {
    match LastAnnounced(av.out, h)
    case None => A.SlotsOf(av, h) == []
    case Some(slots) => slots == A.SlotsOf(av, h)
  }

  lemma DeliveryKeepsAnnounced(s: System, e: Event, h: Email)
    requires Facts(s) && e in s.bk.out && AnnouncedIsStored(s.av, h)
    ensures AnnouncedIsStored(Next(s, DeliverToAvailability(e)).av, h)
  {
    DeliveryMarks(s, e);
    if IsBookingCommand(e) && !Marked(s.av.processed, s.now, e.eid) {
      match e
      case BookingRequested(_, b, r) =>
        if r.user != "" && r.handyman != "" {
          RequestIsAnswered(s, e);
          LastAnnouncedAppend(s.av.out, AnswerTo(s, b, r), h);
        }
      case ConfirmRequested(_, b, r) => ConfirmationKeepsAnnounced(s, e, h);
      case CancelRequested(_, b, reason) =>
        CancellationIsAnswered(s, e);
        LastAnnouncedAppend(s.av.out, SlotReleased(b, reason), h);
    }
  }

  lemma ConfirmationKeepsAnnounced(s: System, e: Event, h: Email)
    requires Facts(s) && e in s.bk.out && AnnouncedIsStored(s.av, h)
    requires e.ConfirmRequested? && !Marked(s.av.processed, s.now, e.eid)
    ensures AnnouncedIsStored(Next(s, DeliverToAvailability(e)).av, h)
  {
    var av := Next(s, DeliverToAvailability(e)).av;
    if e.request.handyman != "" {
      ConfirmationIsAnswered(s, e);
      if R.Live(s.av.res, s.now, e.id) {
        var updated := AvailabilityUpdated(e.request.handyman, A.SlotsOf(av, e.request.handyman));
        var confirmed := SlotConfirmed(e.id, e.request.handyman);
        assert av.out == (s.av.out + [updated]) + [confirmed];
        LastAnnouncedAppend(s.av.out, updated, h);
        LastAnnouncedAppend(s.av.out + [updated], confirmed, h);
        if h != e.request.handyman {
          ConfirmationTouchesOneHandyman(s, e, h);
        }
      } else {
        LastAnnouncedAppend(s.av.out, SlotRejected(e.id, "reservation_missing"), h);
      }
    }
  }

  lemma ConfirmationTouchesOneHandyman(s: System, e: Event, h: Email)
    requires e.ConfirmRequested? && h != e.request.handyman
    ensures A.SlotsOf(Next(s, DeliverToAvailability(e)).av, h) == A.SlotsOf(s.av, h)
  {
  }

  lemma OfferKeepsAnnounced(s: System, a: Action, h: Email)
    requires (a.SetAvailability? || a.ClearAvailability?) && AnnouncedIsStored(s.av, h)
    ensures AnnouncedIsStored(Next(s, a).av, h)
  {
    var offered := if a.SetAvailability? then a.offered else [];
    OfferIsStoredAndAnnounced(s, a.handyman, offered);
    LastAnnouncedAppend(s.av.out, AvailabilityUpdated(a.handyman, offered), h);
  }

  lemma PassKeepsAnnounced(s: System, due: seq<BookingId>, h: Email)
    requires AnnouncedIsStored(s.av, h)
    ensures AnnouncedIsStored(Next(s, ExpiryPass(due)).av, h)
  {
    PassEmits(s.av, s.now, due);
    LastAnnouncedQuiet(s.av.out, seq(|due|, i requires 0 <= i < |due| => SlotExpired(due[i])), h);
  }

  lemma NextKeepsAnnounced(s: System, a: Action, h: Email)
    requires Facts(s) && Enabled(s, a) && AnnouncedIsStored(s.av, h)
    ensures AnnouncedIsStored(Next(s, a).av, h)
  {
    if a.DeliverToAvailability? {
      DeliveryKeepsAnnounced(s, a.event, h);
    } else if a.ExpiryPass? {
      PassKeepsAnnounced(s, a.due, h);
    } else if a.SetAvailability? || a.ClearAvailability? {
      OfferKeepsAnnounced(s, a, h);
    } else if a.DeleteReservation? {
      DeletingIsSilent(s, a.id);
    } else {
      OtherStepsLeaveAvailability(s, a);
    }
  }

  lemma {:induction false} RunKeepsAnnounced(s: System, actions: seq<Action>, t: System, h: Email)
    requires Facts(s) && AnnouncedIsStored(s.av, h) && Run(Anything, s, actions, t)
    ensures Facts(t) && AnnouncedIsStored(t.av, h)
    decreases |actions|
  {
    if actions != [] {
      NextKeepsAnnounced(s, actions[0], h);
      NextKeepsFacts(s, actions[0]);
      RunKeepsAnnounced(Next(s, actions[0]), actions[1..], t, h);
    }
  }

  /** Over every run, the last availability.updated of a handyman lists exactly the slots that are
      stored, so no step changes them without announcing the result. */
  lemma {:induction false} LastAnnouncementIsStored(start: System, actions: seq<Action>, t: System, h: Email)
    requires Init(start) && Run(Anything, start, actions, t)
    ensures AnnouncedIsStored(t.av, h)
  {
    RunKeepsAnnounced(start, actions, t, h);
  }

  /** A step that changes the slots of h adds an availability.updated of h. */
  lemma {:induction false} SlotChangesAreAnnounced(start: System, actions: seq<Action>, s: System, a: Action, h: Email)
    requires Init(start) && Run(Anything, start, actions, s) && Enabled(s, a)
    requires A.SlotsOf(Next(s, a).av, h) != A.SlotsOf(s.av, h)
    ensures s.av.out <= Next(s, a).av.out
    ensures exists i :: |s.av.out| <= i < |Next(s, a).av.out| && Next(s, a).av.out[i] == AvailabilityUpdated(h, A.SlotsOf(Next(s, a).av, h))
  {
    RunKeepsAnnounced(start, actions, s, h);
    NextKeepsAnnounced(s, a, h);
    NextOnlyAppends(s, a);
    ChangeWasAnnounced(s.av, Next(s, a).av, h);
  }

  lemma ChangeWasAnnounced(av: A.AvState, av': A.AvState, h: Email)
    requires AnnouncedIsStored(av, h) && AnnouncedIsStored(av', h) && av.out <= av'.out
    requires A.SlotsOf(av', h) != A.SlotsOf(av, h)
    ensures exists i :: |av.out| <= i < |av'.out| && av'.out[i] == AvailabilityUpdated(h, A.SlotsOf(av', h))
  {
    var more := av'.out[|av.out|..];
    assert av'.out == av.out + more;
    NewAnnouncement(av.out, more, h);
    var i :| 0 <= i < |more| && more[i] == AvailabilityUpdated(h, LastAnnounced(av.out + more, h).value);
    assert av'.out[|av.out| + i] == more[i];
  }

  /** Where the last announcement differs, a new one was added, or there is none at all. */
  lemma {:induction false} NewAnnouncement(out: seq<Event>, more: seq<Event>, h: Email)
    requires LastAnnounced(out + more, h) != LastAnnounced(out, h)
    ensures LastAnnounced(out + more, h).Some?
    ensures exists i :: 0 <= i < |more| && more[i] == AvailabilityUpdated(h, LastAnnounced(out + more, h).value)
  {
    assert more == [] ==> out + more == out;
    if more != [] {
      var init, last := more[..|more| - 1], more[|more| - 1];
      assert out + more == (out + init) + [last];
      LastAnnouncedAppend(out + init, last, h);
      assert last == more[|more| - 1];
      if !(last.AvailabilityUpdated? && last.handyman == h) {
        NewAnnouncement(out, init, h);
        var i :| 0 <= i < |init| && init[i] == AvailabilityUpdated(h, LastAnnounced(out + init, h).value);
        assert more[i] == init[i];
      }
    }
  }
}
