/** The availability service: event consumer, reservations, expiry worker and endpoints.
    AvState is the content of its Redis database; the functions on it say what each handler
    does, and the class carries the handlers themselves. */
module Availability {
  import opened Intervals
  import opened FreeSlots
  import opened Events
  import opened Options
  import opened Idempotency
  import opened Reservations

  const EXPIRY_BATCH := 50

  /** `out` holds every event ever enqueued, oldest first. */
  datatype AvState = AvState(
    slots: map<Email, seq<Window>>,
    res: Store,
    processed: map<EventId, Instant>,
    out: seq<Event>)

  const EMPTY := AvState(map[], Store(map[], map[], map[]), map[], [])

  // ---- What the handlers do ----

  function SlotsOf(av: AvState, h: Email): seq<Window> {
    if h in av.slots then av.slots[h] else []
  }

  /** Delete the list, then push the new one unless it is empty. */
  function WithSlots(av: AvState, h: Email, slots: seq<Window>): AvState {
    av.(slots := if slots == [] then av.slots - {h} else av.slots[h := slots])
  }

  function Emit(av: AvState, e: Event): AvState {
    av.(out := av.out + [e])
  }

  function SetMarker(av: AvState, now: Instant, eid: EventId): AvState {
    av.(processed := Mark(av.processed, now, IDEMPOTENCY_TTL, eid))
  }

  function OnRequested(av: AvState, now: Instant, b: BookingId, r: Request): AvState {
    if r.user == "" || r.handyman == "" then av
    else if !HasSlot(SlotsOf(av, r.handyman), r.window) then Emit(av, SlotRejected(b, "no_matching_slot"))
    else
      var (res, ok) := Create(av.res, now, b, r);
      if ok then Emit(av.(res := res), SlotReserved(b, r.handyman))
      else Emit(av, SlotRejected(b, "slot_conflict_reserved"))
  }

  function OnConfirmRequested(av: AvState, now: Instant, b: BookingId, r: Request): AvState {
    if r.handyman == "" then av
    else match Get(av.res, now, b)
      case None => Emit(av, SlotRejected(b, "reservation_missing"))
      case Some(held) =>
        var freed := WithSlots(av, r.handyman, Subtract(SlotsOf(av, r.handyman), r.window));
        var done := freed.(res := Delete(freed.res, now, b));
        var told := Emit(done, AvailabilityUpdated(r.handyman, SlotsOf(done, r.handyman)));
        Emit(told, SlotConfirmed(b, if held.handyman != "" then held.handyman else r.handyman))
  }

  function OnCancelRequested(av: AvState, now: Instant, b: BookingId, reason: string): AvState {
    Emit(av.(res := Delete(av.res, now, b)), SlotReleased(b, reason))
  }

  function Process(av: AvState, now: Instant, e: Event): AvState {
    if !IsBookingCommand(e) || Marked(av.processed, now, e.eid) then av
    else
      var marked := SetMarker(av, now, e.eid);
      match e
      case BookingRequested(_, b, r) => OnRequested(marked, now, b, r)
      case ConfirmRequested(_, b, r) => OnConfirmRequested(marked, now, b, r)
      case CancelRequested(_, b, reason) => OnCancelRequested(marked, now, b, reason)
  }

  /** ZRANGEBYSCORE key 0 now LIMIT 0 50: distinct due ids by score, the lowest first, and no
      due id is passed over while a later one is taken or there is room. */
  ghost predicate IsDueBatch(expiry: map<BookingId, Instant>, now: Instant, due: seq<BookingId>) {
    && |due| <= EXPIRY_BATCH
    && (forall i :: 0 <= i < |due| ==> due[i] in expiry && expiry[due[i]] <= now)
    && (forall i, j :: 0 <= i < j < |due| ==> due[i] != due[j] && expiry[due[i]] <= expiry[due[j]])
    && (forall b :: b in expiry && expiry[b] <= now && b !in due ==>
          |due| == EXPIRY_BATCH && forall i :: 0 <= i < |due| ==> expiry[due[i]] <= expiry[b])
  }

  function ExpireOne(av: AvState, now: Instant, b: BookingId): AvState {
    var removed := av.(res := av.res.(expiry := av.res.expiry - {b}));
    Emit(removed.(res := Delete(removed.res, now, b)), SlotExpired(b))
  }

  function ExpireAll(av: AvState, now: Instant, due: seq<BookingId>): AvState {
    if due == [] then av
    else ExpireOne(ExpireAll(av, now, due[..|due| - 1]), now, due[|due| - 1])
  }

  function OnSetAvailability(av: AvState, h: Email, slots: seq<Window>): AvState {
    Emit(WithSlots(av, h, slots), AvailabilityUpdated(h, slots))
  }

  function OnClearAvailability(av: AvState, h: Email): AvState {
    Emit(av.(slots := av.slots - {h}), AvailabilityUpdated(h, []))
  }

  function OnDeleteReservation(av: AvState, now: Instant, b: BookingId): AvState {
    av.(res := Delete(av.res, now, b))
  }

  // ---- The handlers ----

  class AvailabilityService {
    var slots: map<Email, seq<Window>>
    var keys: map<BookingId, Keyed>
    var index: map<Email, IndexSet>
    var expiry: map<BookingId, Instant>
    var processed: map<EventId, Instant>
    var outbox: seq<Event>

    ghost function State(): AvState
      reads this
    {
      AvState(slots, Reservations(), processed, outbox)
    }

    ghost function Reservations(): Store
      reads this
    {
      Store(keys, index, expiry)
    }

    constructor ()
      ensures State() == EMPTY
    {
      slots, keys, index, expiry, processed, outbox := map[], map[], map[], map[], map[], [];
    }

    method ReadSlots(h: Email) returns (current: seq<Window>)
      ensures current == SlotsOf(State(), h)
    {
      current := if h in slots then slots[h] else [];
    }

    method Enqueue(e: Event)
      modifies this`outbox
      ensures State() == Emit(old(State()), e)
    {
      outbox := outbox + [e];
    }

    /** already_processed: SET NX EX, true when the marker was there. */
    method AlreadyProcessed(now: Instant, eid: EventId) returns (seen: bool)
      modifies this`processed
      ensures seen == Marked(old(processed), now, eid)
      ensures State() == if seen then old(State()) else SetMarker(old(State()), now, eid)
    {
      seen := eid in processed && now < processed[eid];
      if !seen {
        processed := processed[eid := now + IDEMPOTENCY_TTL];
      }
    }

    method HandymanHasSlot(h: Email, w: Window) returns (ok: bool)
      ensures ok == HasSlot(SlotsOf(State(), h), w)
    {
      if w.end <= w.start {
        return false;
      }
      var current := ReadSlots(h);
      for i := 0 to |current|
        invariant forall k :: 0 <= k < i ==> !FullyContains(current[k], w)
      {
        if FullyContains(current[i], w) {
          return true;
        }
      }
      return false;
    }

    method ApplyConfirmToSlots(h: Email, w: Window)
      modifies this`slots
      ensures State() == WithSlots(old(State()), h, Subtract(SlotsOf(old(State()), h), w))
    {
      var current := ReadSlots(h);
      var newSlots: seq<Window> := [];
      for i := 0 to |current|
        invariant slots == old(slots)
        invariant newSlots == Subtract(current[..i], w)
      {
        var slot := current[i];
        SubtractStep(current, i, w);
        ghost var kept := newSlots;
        if !Overlaps(slot, w) {
          newSlots := newSlots + [slot];
        } else {
          if slot.start < w.start {
            newSlots := newSlots + [Window(slot.start, w.start)];
          }
          if slot.end > w.end {
            newSlots := newSlots + [Window(w.end, slot.end)];
          }
        }
        assert newSlots == kept + Carve(slot, w);
      }
      assert current[..|current|] == current;
      slots := slots - {h};
      if newSlots != [] {
        slots := slots[h := newSlots];
      }
    }

    method GetReservation(now: Instant, b: BookingId) returns (found: Option<Request>)
      ensures found == Get(Reservations(), now, b)
    {
      found := if b in keys && now < keys[b].deadline then Some(keys[b].request) else None;
    }

    method CreateReservation(now: Instant, b: BookingId, r: Request) returns (ok: bool)
      modifies this`keys, this`index, this`expiry
      ensures (Reservations(), ok) == Create(old(Reservations()), now, b, r)
    {
      var h := r.handyman;
      var existing := if h in index && now < index[h].deadline then index[h].ids else {};
      var left := existing;
      while left != {}
        invariant left <= existing
        invariant forall c :: c in existing - left && Live(Reservations(), now, c) ==>
                    !Overlaps(keys[c].request.window, r.window)
      {
        var c :| c in left;
        left := left - {c};
        if c in keys && now < keys[c].deadline {
          if Overlaps(keys[c].request.window, r.window) {
            return false;
          }
        }
      }
      keys := keys[b := Keyed(r, now + RES_TTL_SECONDS)];
      index := index[h := IndexSet(existing + {b}, now + RES_TTL_SECONDS + INDEX_SLACK_SECONDS)];
      expiry := expiry[b := now + RES_TTL_SECONDS];
      ok := true;
    }

    method DeleteReservation(now: Instant, b: BookingId)
      modifies this`keys, this`index, this`expiry
      ensures Reservations() == Delete(old(Reservations()), now, b)
    {
      var found := GetReservation(now, b);
      keys := keys - {b};
      expiry := expiry - {b};
      if found.Some? && found.value.handyman in index {
        var ids := index[found.value.handyman];
        index := index[found.value.handyman := ids.(ids := ids.ids - {b})];
      }
    }

    method EmitAvailabilityUpdated(h: Email)
      modifies this`outbox
      ensures State() == Emit(old(State()), AvailabilityUpdated(h, SlotsOf(old(State()), h)))
    {
      var current := ReadSlots(h);
      Enqueue(AvailabilityUpdated(h, current));
    }

    method ProcessRequested(now: Instant, b: BookingId, r: Request)
      modifies this
      ensures State() == OnRequested(old(State()), now, b, r)
    {
      if r.user == "" || r.handyman == "" {
        return;
      }
      var okSlot := HandymanHasSlot(r.handyman, r.window);
      if !okSlot {
        Enqueue(SlotRejected(b, "no_matching_slot"));
        return;
      }
      var ok := CreateReservation(now, b, r);
      if ok {
        Enqueue(SlotReserved(b, r.handyman));
      } else {
        Enqueue(SlotRejected(b, "slot_conflict_reserved"));
      }
    }

    method ProcessConfirmRequested(now: Instant, b: BookingId, r: Request)
      modifies this
      ensures State() == OnConfirmRequested(old(State()), now, b, r)
    {
      if r.handyman == "" {
        return;
      }
      var held := GetReservation(now, b);
      if held.None? {
        Enqueue(SlotRejected(b, "reservation_missing"));
        return;
      }
      ApplyConfirmToSlots(r.handyman, r.window);
      DeleteReservation(now, b);
      EmitAvailabilityUpdated(r.handyman);
      Enqueue(SlotConfirmed(b, if held.value.handyman != "" then held.value.handyman else r.handyman));
    }

    method ProcessEvent(now: Instant, e: Event)
      modifies this
      ensures State() == Process(old(State()), now, e)
    {
      if !IsBookingCommand(e) {
        return;
      }
      var seen := AlreadyProcessed(now, e.eid);
      if seen {
        return;
      }
      match e
      case BookingRequested(_, b, r) =>
        ProcessRequested(now, b, r);
      case ConfirmRequested(_, b, r) =>
        ProcessConfirmRequested(now, b, r);
      case CancelRequested(_, b, reason) =>
        DeleteReservation(now, b);
        Enqueue(SlotReleased(b, reason));
    }

    /** One turn of expiry_loop, given the batch that the sorted set returned. */
    method ExpiryPass(now: Instant, due: seq<BookingId>)
      requires IsDueBatch(expiry, now, due)
      modifies this
      ensures State() == ExpireAll(old(State()), now, due)
    {
      for i := 0 to |due|
        invariant State() == ExpireAll(old(State()), now, due[..i])
      {
        assert due[..i + 1][..i] == due[..i];
        expiry := expiry - {due[i]};
        DeleteReservation(now, due[i]);
        Enqueue(SlotExpired(due[i]));
      }
      assert due[..|due|] == due;
    }

    method SetAvailability(h: Email, offered: seq<Window>)
      modifies this
      ensures State() == OnSetAvailability(old(State()), h, offered)
    {
      slots := slots - {h};
      if offered != [] {
        slots := slots[h := offered];
      }
      Enqueue(AvailabilityUpdated(h, offered));
    }

    method ClearAvailability(h: Email)
      modifies this
      ensures State() == OnClearAvailability(old(State()), h)
    {
      slots := slots - {h};
      Enqueue(AvailabilityUpdated(h, []));
    }

    method DeleteReservationEndpoint(now: Instant, b: BookingId)
      modifies this
      ensures State() == OnDeleteReservation(old(State()), now, b)
    {
      DeleteReservation(now, b);
    }
  }
}
