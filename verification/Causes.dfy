/** Why a booking has the status it has, in every reachable state: each status names the event that
    led to it, and each handler sends just the event that belongs to what it did. */
module Causes {
  import opened Events
  import opened Protocol
  import opened Lifecycle
  import A = Availability
  import B = Bookings

  // ---- What each handler does, by status ----

  /** The event is added to the outbox, under the next id, and the row becomes the given one. */
  ghost predicate Becomes(bk: B.BkState, after: B.BkState, b: BookingId, row: B.Booking, e: Event) {
    && after.out == bk.out + [e] && after.issued == bk.issued
    && b in after.rows && after.rows[b] == row
    && after.rows.Keys == bk.rows.Keys + {b}
    && forall c :: c in bk.rows && c != b ==> after.rows[c] == bk.rows[c]
  }

  /** A new booking is pending, and nobody has completed or rejected it. */
  lemma CreationIsPending(s: System, r: Request)
    ensures var b := |s.bk.issued|;
            && var after := Next(s, CreateBooking(r)).bk;
            && after.issued == s.bk.issued + [r] && after.out == s.bk.out + [BookingRequested(|s.bk.out|, b, r)]
            && b in after.rows && after.rows[b] == B.Booking(r, B.Pending, false, false, false, "", "", "")
            && forall c :: c in s.bk.rows && c != b ==> c in after.rows && after.rows[c] == s.bk.rows[c]
  {
  }

  /** Confirming sends the command for a RESERVED booking and changes no row. */
  lemma ConfirmSendsACommand(s: System, b: BookingId)
    ensures var after := Next(s, ConfirmBooking(b)).bk;
            if b in s.bk.rows && s.bk.rows[b].status == B.Reserved
            then Becomes(s.bk, after, b, s.bk.rows[b], ConfirmRequested(|s.bk.out|, b, s.bk.rows[b].request))
            else after == s.bk
  {
  }

  /** Canceling acts on PENDING, RESERVED, CONFIRMED and COMPLETED bookings. */
  lemma CancelCancels(s: System, b: BookingId, reason: string)
    ensures var after, why := Next(s, CancelBooking(b, reason)).bk, if reason == "" then "user_requested" else reason;
            if b in s.bk.rows && s.bk.rows[b].status in {B.Pending, B.Reserved, B.Confirmed, B.Completed}
            then Becomes(s.bk, after, b, s.bk.rows[b].(status := B.Canceled, cancellationReason := why),
                         CancelRequested(|s.bk.out|, b, why))
            else after == s.bk
  {
  }

  /** Rejecting acts on RESERVED and CONFIRMED bookings. */
  lemma RejectRejects(s: System, b: BookingId, reason: string)
    ensures var after := Next(s, RejectBooking(b, reason)).bk;
            if b in s.bk.rows && s.bk.rows[b].status in {B.Reserved, B.Confirmed}
            then Becomes(s.bk, after, b,
                         s.bk.rows[b].(status := B.Rejected, rejectedByHandyman := true, rejectionReason := reason),
                         BookingRejected(|s.bk.out|, b, reason))
            else after == s.bk
  {
  }

  /** Completing acts on CONFIRMED bookings: it records one side, and when the other side is recorded
      already the booking is COMPLETED and booking.completed is sent instead. */
  lemma CompletionCompletes(s: System, b: BookingId)
    ensures var after := Next(s, CompleteAsUser(b)).bk;
            if b !in s.bk.rows || s.bk.rows[b].status != B.Confirmed then after == s.bk
            else if s.bk.rows[b].completedByHandyman
            then Becomes(s.bk, after, b, s.bk.rows[b].(completedByUser := true, status := B.Completed), BookingCompleted(|s.bk.out|, b))
            else Becomes(s.bk, after, b, s.bk.rows[b].(completedByUser := true), CompletedByUser(|s.bk.out|, b))
    ensures var after := Next(s, CompleteAsHandyman(b)).bk;
            if b !in s.bk.rows || s.bk.rows[b].status != B.Confirmed then after == s.bk
            else if s.bk.rows[b].completedByUser
            then Becomes(s.bk, after, b, s.bk.rows[b].(completedByHandyman := true, status := B.Completed), BookingCompleted(|s.bk.out|, b))
            else Becomes(s.bk, after, b, s.bk.rows[b].(completedByHandyman := true), CompletedByHandyman(|s.bk.out|, b))
  {
  }

  /** A missing booking is not found, and a booking of the wrong status is a bad request, except that
      canceling answers as if it had been done. */
  lemma HandlersAnswer(bk: B.BkState, b: BookingId, reason: string)
    ensures b !in bk.rows ==>
              B.Confirm(bk, b).1 == B.Cancel(bk, b, reason).1 == B.Reject(bk, b, reason).1 == B.CompleteAsUser(bk, b).1
              == B.CompleteAsHandyman(bk, b).1 == B.AdminDelete(bk, b).1 == B.NotFound
    ensures b in bk.rows ==>
              var status := bk.rows[b].status;
              && B.Confirm(bk, b).1 == (if status == B.Reserved then B.Accepted else B.BadRequest)
              && B.Reject(bk, b, reason).1 == (if status in {B.Reserved, B.Confirmed} then B.Accepted else B.BadRequest)
              && B.CompleteAsUser(bk, b).1 == (if status == B.Confirmed then B.Accepted else B.BadRequest)
              && B.CompleteAsHandyman(bk, b).1 == (if status == B.Confirmed then B.Accepted else B.BadRequest)
              && B.Cancel(bk, b, reason).1 == B.AdminDelete(bk, b).1 == B.Accepted
  {
  }

  /** Deleting takes the one row and sends nothing. */
  lemma DeletionDeletes(s: System, b: BookingId)
    ensures var after := Next(s, AdminDeleteBooking(b)).bk;
            && after.out == s.bk.out && after.issued == s.bk.issued && after.rows.Keys == s.bk.rows.Keys - {b}
            && forall c :: c in after.rows ==> after.rows[c] == s.bk.rows[c]
  {
  }

  /** The statuses a slot event applies to, and the one it leads to. */
  function AppliesTo(e: Event): set<B.Status>
    requires IsSlotEvent(e)
  {
    if e.SlotReserved? then {B.Pending}
    else if e.SlotConfirmed? then {B.Reserved}
    else if e.SlotReleased? then {B.Pending, B.Reserved, B.Confirmed, B.Completed, B.Failed, B.Expired}
    else {B.Pending, B.Reserved}
  }

  function LeadsTo(e: Event): B.Status
    requires IsSlotEvent(e)
  {
    if e.SlotReserved? then B.Reserved
    else if e.SlotConfirmed? then B.Confirmed
    else if e.SlotReleased? then B.Canceled
    else if e.SlotExpired? then B.Expired
    else B.Failed
  }

  /** A slot event moves a row of a status it applies to, with the reason that belongs to the move, and
      leaves any other row as it is. */
  lemma SlotEventMoves(row: B.Booking, e: Event)
    requires IsSlotEvent(e)
    ensures row.status !in AppliesTo(e) ==> B.OnSlotEvent(row, e) == row
    ensures row.status in AppliesTo(e) ==>
              B.OnSlotEvent(row, e) == B.Booking(
                row.request, LeadsTo(e), row.completedByUser, row.completedByHandyman, row.rejectedByHandyman,
                if !e.SlotRejected? then row.failureReason else if e.reason == "" then "slot_rejected" else e.reason,
                if !e.SlotReleased? || row.cancellationReason != "" then row.cancellationReason else "released",
                row.rejectionReason)
  {
  }

  /** Consuming an event acts on the one row it names, and sends nothing. */
  lemma ConsumptionTouchesOneRow(s: System, e: Event)
    ensures var after := Next(s, DeliverToBooking(e)).bk;
            && after.out == s.bk.out && after.issued == s.bk.issued && after.rows.Keys == s.bk.rows.Keys
            && (forall c :: c in s.bk.rows && !(IsSlotEvent(e) && e.id == c) ==> after.rows[c] == s.bk.rows[c])
            && (IsSlotEvent(e) && e.id in s.bk.rows ==> after.rows[e.id] == B.OnSlotEvent(s.bk.rows[e.id], e))
  {
  }

  // ---- What a status says about the past ----

  /** The slot.rejected that was consumed gave the reason that is stored. */
  predicate FailedBy(e: Event, b: BookingId, row: B.Booking) {
    e.SlotRejected? && e.id == b && row.failureReason == if e.reason == "" then "slot_rejected" else e.reason
  }

  predicate ReservedBy(e: Event, b: BookingId) {
    e.SlotReserved? && e.id == b
  }

  predicate ConfirmedBy(e: Event, b: BookingId) {
    e.SlotConfirmed? && e.id == b
  }

  predicate CompletedBy(e: Event, b: BookingId) {
    e.BookingCompleted? && e.id == b
  }

  predicate CanceledBy(e: Event, b: BookingId, row: B.Booking) {
    e.CancelRequested? && e.id == b && e.reason == row.cancellationReason
  }

  predicate RejectedBy(e: Event, b: BookingId, row: B.Booking) {
    e.BookingRejected? && e.id == b && e.reason == row.rejectionReason
  }

  ghost predicate Caused(b: BookingId, row: B.Booking, out: seq<Event>, seen: set<Event>) {
    match row.status
    case Pending => true
    case Reserved => exists e :: e in seen && ReservedBy(e, b)
    case Confirmed => exists e :: e in seen && ConfirmedBy(e, b)
    case Completed => exists e :: e in out && CompletedBy(e, b)
    case Failed => exists e :: e in seen && FailedBy(e, b, row)
    case Expired => SlotExpired(b) in seen
    case Canceled => exists e :: e in out && CanceledBy(e, b, row)
    case Rejected => row.rejectedByHandyman && exists e :: e in out && RejectedBy(e, b, row)
  }

  ghost predicate AllCaused(bk: B.BkState, seen: set<Event>) {
    forall b :: b in bk.rows ==> Caused(b, bk.rows[b], bk.out, seen)
  }

  lemma CausesRemain(b: BookingId, row: B.Booking, out: seq<Event>, seen: set<Event>, out': seq<Event>, seen': set<Event>)
    requires Caused(b, row, out, seen) && out <= out' && seen <= seen'
    ensures Caused(b, row, out', seen')
  {
    assert forall e :: e in out ==> e in out';
  }

  lemma LastIsIn(out: seq<Event>, e: Event)
    ensures e in out + [e]
  {
    assert (out + [e])[|out|] == e;
  }

  /** A step of one booking, with its event, leaves the others caused as they were. */
  lemma BecomingKeepsCaused(bk: B.BkState, after: B.BkState, b: BookingId, row: B.Booking, e: Event, seen: set<Event>)
    requires AllCaused(bk, seen) && Becomes(bk, after, b, row, e) && Caused(b, row, after.out, seen)
    ensures AllCaused(after, seen)
  {
    forall c | c in after.rows
      ensures Caused(c, after.rows[c], after.out, seen)
    {
      if c != b {
        CausesRemain(c, bk.rows[c], bk.out, seen, after.out, seen);
      }
    }
  }

  lemma ConfirmKeepsCaused(s: System, b: BookingId)
    requires AllCaused(s.bk, s.seen)
    ensures AllCaused(Next(s, ConfirmBooking(b)).bk, s.seen)
  {
    ConfirmSendsACommand(s, b);
    var after := Next(s, ConfirmBooking(b)).bk;
    if b in s.bk.rows && s.bk.rows[b].status == B.Reserved {
      var e := ConfirmRequested(|s.bk.out|, b, s.bk.rows[b].request);
      CausesRemain(b, s.bk.rows[b], s.bk.out, s.seen, after.out, s.seen);
      BecomingKeepsCaused(s.bk, after, b, s.bk.rows[b], e, s.seen);
    }
  }

  lemma CancelKeepsCaused(s: System, b: BookingId, reason: string)
    requires AllCaused(s.bk, s.seen)
    ensures AllCaused(Next(s, CancelBooking(b, reason)).bk, s.seen)
  {
    CancelCancels(s, b, reason);
    var after := Next(s, CancelBooking(b, reason)).bk;
    if after != s.bk {
      var e := CancelRequested(|s.bk.out|, b, after.rows[b].cancellationReason);
      LastIsIn(s.bk.out, e);
      assert CanceledBy(e, b, after.rows[b]);
      BecomingKeepsCaused(s.bk, after, b, after.rows[b], e, s.seen);
    }
  }

  lemma RejectKeepsCaused(s: System, b: BookingId, reason: string)
    requires AllCaused(s.bk, s.seen)
    ensures AllCaused(Next(s, RejectBooking(b, reason)).bk, s.seen)
  {
    RejectRejects(s, b, reason);
    var after := Next(s, RejectBooking(b, reason)).bk;
    if after != s.bk {
      var e := BookingRejected(|s.bk.out|, b, reason);
      LastIsIn(s.bk.out, e);
      assert RejectedBy(e, b, after.rows[b]);
      BecomingKeepsCaused(s.bk, after, b, after.rows[b], e, s.seen);
    }
  }

  lemma CompletionKeepsCaused(s: System, a: Action, b: BookingId)
    requires AllCaused(s.bk, s.seen) && (a == CompleteAsUser(b) || a == CompleteAsHandyman(b))
    ensures AllCaused(Next(s, a).bk, s.seen)
  {
    CompletionCompletes(s, b);
    var after := Next(s, a).bk;
    if after != s.bk {
      var e := after.out[|s.bk.out|];
      LastIsIn(s.bk.out, e);
      if after.rows[b].status == B.Completed {
        assert CompletedBy(e, b);
      }
      BecomingKeepsCaused(s.bk, after, b, after.rows[b], e, s.seen);
    }
  }

  lemma CreationKeepsCaused(s: System, r: Request)
    requires AllCaused(s.bk, s.seen)
    ensures AllCaused(Next(s, CreateBooking(r)).bk, s.seen)
  {
    CreationIsPending(s, r);
    var b, after := |s.bk.issued|, Next(s, CreateBooking(r)).bk;
    forall c | c in after.rows && c != b
      ensures Caused(c, after.rows[c], after.out, s.seen)
    {
      CausesRemain(c, s.bk.rows[c], s.bk.out, s.seen, after.out, s.seen);
    }
  }

  /** Consuming an event: the row keeps its status and its reasons, or the event is the cause. */
  lemma ConsumedIsCause(row: B.Booking, e: Event, b: BookingId, out: seq<Event>, seen: set<Event>)
    requires IsSlotEvent(e) && e.id == b && Caused(b, row, out, seen) && e in seen
    requires e.SlotReleased? ==> row.status == B.Canceled
    ensures Caused(b, B.OnSlotEvent(row, e), out, seen)
  {
    match e
    case SlotReserved(_, _) => assert ReservedBy(e, b);
    case SlotRejected(_, _) => assert row.status in {B.Pending, B.Reserved} ==> FailedBy(e, b, B.OnSlotEvent(row, e));
    case SlotConfirmed(_, _) => assert ConfirmedBy(e, b);
    case _ =>
  }

  lemma ConsumingKeepsCaused(s: System, e: Event)
    requires StatusInv(s) && AllCaused(s.bk, s.seen) && e in s.av.out
    ensures AllCaused(Next(s, DeliverToBooking(e)).bk, Next(s, DeliverToBooking(e)).seen)
  {
    var t := Next(s, DeliverToBooking(e));
    forall c | c in t.bk.rows
      ensures Caused(c, t.bk.rows[c], t.bk.out, t.seen)
    {
      CausesRemain(c, s.bk.rows[c], s.bk.out, s.seen, s.bk.out, t.seen);
      if IsSlotEvent(e) && e.id == c {
        assert Implied(e, s.bk.rows[c].status);
        ConsumedIsCause(s.bk.rows[c], e, c, s.bk.out, t.seen);
      }
    }
  }

  lemma NextKeepsCaused(s: System, a: Action)
    requires StatusInv(s) && Enabled(s, a) && AllCaused(s.bk, s.seen)
    ensures AllCaused(Next(s, a).bk, Next(s, a).seen)
  {
    match a
    case CreateBooking(r) => CreationKeepsCaused(s, r);
    case ConfirmBooking(b) => ConfirmKeepsCaused(s, b);
    case CancelBooking(b, reason) => CancelKeepsCaused(s, b, reason);
    case RejectBooking(b, reason) => RejectKeepsCaused(s, b, reason);
    case CompleteAsUser(b) => CompletionKeepsCaused(s, a, b);
    case CompleteAsHandyman(b) => CompletionKeepsCaused(s, a, b);
    case DeliverToBooking(e) => ConsumingKeepsCaused(s, e);
    case AdminDeleteBooking(_) =>
    case _ =>
  }

  lemma {:induction false} RunKeepsCaused(s: System, actions: seq<Action>, t: System)
    requires StatusInv(s) && AllCaused(s.bk, s.seen) && Run(Anything, s, actions, t)
    ensures AllCaused(t.bk, t.seen)
    decreases |actions|
  {
    if actions != [] {
      NextKeepsCaused(s, actions[0]);
      NextKeepsStatusInv(s, actions[0]);
      RunKeepsCaused(Next(s, actions[0]), actions[1..], t);
    }
  }

  /** In every reachable state a row's status has its cause: RESERVED, CONFIRMED, FAILED and EXPIRED
      rows have consumed the slot event that says so, FAILED with its reason; COMPLETED, CANCELED
      and REJECTED rows have the event of the handler that did it, with the reason that is stored. */
  lemma {:induction false} EveryStatusHasItsCause(start: System, actions: seq<Action>, t: System, b: BookingId)
    requires Init(start) && Run(Anything, start, actions, t) && b in t.bk.rows
    ensures Caused(b, t.bk.rows[b], t.bk.out, t.seen)
  {
    InitHasStatusInv(start);
    RunKeepsCaused(start, actions, t);
  }
}
