# Booking and availability: a model and its proofs

The system matches users with handymen. A booking service and an availability service share no
database and agree only through events; a match service keeps projections and a result cache; a
handyman service owns the skills catalog; outboxes, a retrying consumer, a notification list and a
rate limiter carry the rest. This project models the parts where these pieces have to agree and
proves what they keep over whole runs.

`dafny verify dfyconfig.toml` checks everything.

## How the model is laid out

- `Intervals`, `FreeSlots`: half-open windows over integer instants, and the slot list a
  confirmation cuts a window out of.
- `Events`, `Reservations`, `Availability`, `Bookings`: the two services. What a handler does is a
  function on the service's whole stored state; the class beside it has the handlers themselves,
  loops and updates in place, each proved equal to its function.
- `Protocol`: the two services composed. A state holds both, the clock and the set of events the
  booking service has consumed. A step is an HTTP call, a delivery, an expiry pass, a clock tick or
  an availability edit.
- `Lifecycle`, `NoDoubleBooking`, `OfferRule`, `TimeConservation`, `ReservationLedger`, `SettledOnce`,
  `ExpiryWorker`, `Answers`, `Causes`: what holds over every run of that system.
- `SqlOutbox`, `RedisOutbox`, `RetryConsumer`: delivery.
- `MatchCache`, `MatchProjections`, `MatchEvents`: the match service.
- `SkillsCatalog`, `Pagination`, `RateLimiter`: three smaller cores.
- `Options`, `Idempotency`, `Text` and `Division`: shared by the others.

## What is assumed

- **Handlers are atomic.** Each handler is one step. The code awaits between check and write
  (`services/availability-service/app/reservations.py:43-71`) with a prefetch of 50, so the claims
  hold at the granularity of handlers.
- **The network may do anything but forge.** An emitted event may be delivered at any later moment,
  any number of times, in any order, or never. A service's outbox is therefore modelled as the
  history of what it emitted.
- **One clock**, in whole seconds for the services and in milliseconds for the rate limiter.
- **Fresh ids.** A booking's id is its position in the list of bookings ever created, and a command's
  id its position in the booking outbox; this stands for the uniqueness of UUIDs.
- **Runs of the composed system leave out** `admin_update_booking`, which can set any status. Deleting
  a booking as an administrator is included, and no endpoint edits a booking's handyman or window.
- **Safety needs one rule about availability edits**: an offer must not cover an instant of a *held*
  window, one whose `slot.confirmed` was emitted while its booking is neither terminal nor deleted.
  The code does not enforce it. `OfferRule` proves that the rule is exact: at any reachable state, an
  offer leaves every continuation free of overlapping bookings if and only if it respects the rule.
- **The reservation ledger needs nothing.** In every run a booking's reservations are those waiting,
  confirmed, expired and withdrawn, plus one for each *regrant*: a `booking.requested` granted while an
  earlier reservation of the booking still waits in the expiry set. The account balances exactly when
  there is none, and a regrant is only possible when the expiry worker is 3300 seconds behind.
- **Each booking settles once under one rule**: no `booking.requested` is granted again after
  `slot.confirmed` or `slot.expired` was emitted for the booking. This needs a redelivery after the
  3600-second marker has lapsed. `SettledOnce` proves that the rule is exact, and exactly which grants
  let a booking be both confirmed and expired.

## Where the code differs from what it says

- `create_reservation` is documented as idempotent (`services/availability-service/app/reservations.py:36`).
  It is so only when the first call was refused and the conflict persists, or when the first
  reservation has lapsed: until then the booking conflicts with itself (`RepeatAgreesExactly`).
- A late `booking.requested` can be granted twice. With the expiry worker behind, one reservation is
  then never accounted for (`LateRedeliveryReservesTwice`); with the worker in time, a booking can be
  expired and confirmed (`LateRedeliveryConfirmsAnExpiredBooking`).
- `README.md:475` speaks of an overlapping slot. `handyman_has_slot` asks for one slot that contains
  the whole window; the model follows the code.
- The Redis outbox publishes the newest event first (`NewestArePublishedFirst`).
- The idempotency marker is set before the effect, so an effect happens at most once and possibly never:
  a retry starts it again only if the marker has lapsed (`RetryStartsExactlyAfterTheMarker`).
- `handyman.created` drops cached results near the new profile only. Delivered after an update that
  moved the handyman, it leaves results near the stored profile (`CreatedAfterMoveLeavesOldResult`);
  whatever is cached, it leaves none exactly when the new profile covers the stored one
  (`CreationCleansStoredProfileExactly`).
- Cutting a window that ends before it starts would leave overlapping pieces, and two confirms would
  then not commute. `handyman_has_slot` refuses such windows first (`CommutesExactlyWhenNotReversed`).
- The notification cursor is a bare creation time, so rows that share one across a page boundary are
  skipped (`TiesAcrossPagesAreSkipped`); the exact condition is proved.

## Model

| member | source | states |
|---|---|---|
| Intervals.OverlapsIffShareAnInstant | shared/shared/intervals.py:6-9 | two nonempty windows overlap exactly when some instant lies in both |
| Intervals.ContainsIffInclusion | shared/shared/intervals.py:12-18 | containment of a nonempty window is inclusion of instants |
| FreeSlots.SubtractCoversExactly | services/availability-service/app/event_consumer.py:74-99 | confirming is exact set subtraction: an instant is free afterwards iff it was free and is outside the window, for every slot list and window |
| FreeSlots.PiecesStayInside | services/availability-service/app/event_consumer.py:88-95 | every resulting piece lies inside one of the old slots |
| FreeSlots.SubtractKeepsDisjoint | services/availability-service/app/event_consumer.py:74-99 | disjoint slots stay disjoint, whatever malformed slots are among them |
| FreeSlots.SubtractKeepsOrdered | services/availability-service/app/event_consumer.py:74-99 | sorted slots stay sorted, whatever malformed slots are among them |
| FreeSlots.SubtractKeepsWellFormed | services/availability-service/app/event_consumer.py:92-95 | no empty or reversed slot is ever written |
| FreeSlots.SubtractGrowsByAtMostOne | services/availability-service/app/event_consumer.py:81-95 | a disjoint list gains at most one slot |
| FreeSlots.SubtractIdempotent | services/availability-service/app/event_consumer.py:74-99 | confirming a window twice gives the list that confirming it once gives |
| FreeSlots.SubtractCommutes | services/availability-service/app/event_consumer.py:74-99 | two windows, neither reversed, can be confirmed in either order with the same resulting list |
| FreeSlots.CommutesExactlyWhenNotReversed | services/availability-service/app/event_consumer.py:59-60 | a window commutes with every nonempty window on every list iff it does not end before it starts, which is the guard of the reservation check |
| FreeSlots.SubtractTakesExactlyTheWindow | services/availability-service/app/event_consumer.py:74-99 | a window inside one slot of a disjoint list takes exactly its own length off the total free time |
| FreeSlots.SubtractKeepsOtherWindowsWhole | services/availability-service/app/event_consumer.py:74-99 | any other window that sat inside one slot still sits inside one slot after a confirm it does not overlap |
| Reservations.IndexScanIsExact | services/availability-service/app/reservations.py:42-55 | reading only the TTL'd id set of the handyman finds a conflict iff a scan of all live reservations would |
| Reservations.CreateIsExact | services/availability-service/app/reservations.py:28-72 | the answer is True iff no live reservation of the handyman overlaps; afterwards all live reservations are still disjoint and nobody else's changed |
| Reservations.InsertKeepsConsistent | services/availability-service/app/reservations.py:66-71 | adding a key keeps it in its handyman's set, the set outliving the key by 30 s, and the expiry entry equal to its deadline |
| Reservations.DeleteKeepsConsistent | services/availability-service/app/reservations.py:85-92 | deleting, also after the key has lapsed, keeps the three structures in agreement and touches no other booking; a readable booking leaves every id set |
| Reservations.RepeatAgreesExactly | services/availability-service/app/reservations.py:35-72 | a repeat at any later time gives the same answer iff the refused conflict is still there or the stored reservation has lapsed |
| Availability.AvailabilityService.HandymanHasSlot | services/availability-service/app/event_consumer.py:55-71 | true iff a single slot contains the whole nonempty window |
| Availability.AvailabilityService.ApplyConfirmToSlots | services/availability-service/app/event_consumer.py:74-99 | the loop and the rewrite of the list leave exactly the subtraction of the window, and nothing else changes |
| Availability.AvailabilityService.CreateReservation | services/availability-service/app/reservations.py:28-72 | the loop over the id set and the pipeline have the effect and answer of the reservation step |
| Availability.AvailabilityService.DeleteReservation | services/availability-service/app/reservations.py:85-92 | key, expiry entry and, while readable, set membership are gone; nothing else changes |
| Availability.AvailabilityService.ProcessRequested | services/availability-service/app/event_consumer.py:119-171 | the reserve branch: dropped without a user or handyman, else reserved, or rejected for no slot or for a conflict, with the state that goes with each |
| Availability.AvailabilityService.ProcessConfirmRequested | services/availability-service/app/event_consumer.py:173-209 | the confirm branch: rejected without a live reservation, otherwise slots cut, reservation gone, two events in order |
| Availability.AvailabilityService.ProcessEvent | services/availability-service/app/event_consumer.py:102-229 | the whole new state for every event, marked ones and foreign ones included |
| Availability.AvailabilityService.ExpiryPass | services/availability-service/app/expiry_worker.py:13-31 | one pass over a batch of due ids removes each and emits one slot.expired each, in order |
| ExpiryWorker.PassClearsABatch | services/availability-service/app/expiry_worker.py:15-19 | a pass clears 50 of the entries that were due at a time, or all of them |
| ExpiryWorker.DueEntriesAreGoneInTime | services/availability-service/app/expiry_worker.py:12-31 | n due entries are all gone after n div 50 + 1 passes, whatever happens in between |
| Availability.AvailabilityService.SetAvailability | services/availability-service/app/routes.py:33-42 | the list becomes the offer and the update is announced |
| Availability.AvailabilityService.ClearAvailability | services/availability-service/app/routes.py:61-66 | the list is emptied and the update is announced |
| Answers.RequestIsAnswered | services/availability-service/app/event_consumer.py:119-171 | one event: reserved iff the window lies in one slot and a scan finds no overlap, else rejected for the reason that applies; the reservation is live for 300 s and indexed for 330 s |
| Answers.IncompleteRequestIsDropped | services/availability-service/app/event_consumer.py:126-127 | a request without user or handyman leaves no trace but its marker |
| Answers.ConfirmationIsAnswered | services/availability-service/app/event_consumer.py:173-209 | with a live reservation the window leaves the slots, these are announced as they then are, and slot.confirmed follows; otherwise slot.rejected and nothing changes |
| Answers.CancellationIsAnswered | services/availability-service/app/event_consumer.py:211-229 | the reservation is gone and slot.released carries the reason |
| Answers.DeliveryMarks | services/availability-service/app/event_consumer.py:109-117 | a command is marked for an hour; a marked or foreign event changes nothing |
| Answers.PassEmits | services/availability-service/app/expiry_worker.py:18-31 | a pass emits one slot.expired for each id of its batch, in order, and nothing else |
| Answers.OfferIsStoredAndAnnounced | services/availability-service/app/routes.py:33-66 | the offer, or nothing, is stored for the one handyman and announced as stored |
| Answers.EveryCommandIsAnswered | services/availability-service/app/event_consumer.py:102-229 | over every run each command taken up is answered: requests by slot.reserved or slot.rejected, confirmations by slot.confirmed or slot.rejected, cancellations by slot.released |
| Answers.LastAnnouncementIsStored | services/availability-service/app/event_consumer.py:44-52 | over every run the last availability.updated of a handyman lists exactly the stored slots; before the first, nothing is stored |
| Answers.SlotChangesAreAnnounced | services/availability-service/app/event_consumer.py:196-198 | a step that changes a handyman's slots adds an availability.updated of what is then stored |
| Bookings.BookingService.CreateBooking | services/booking-service/app/routes.py:51-87 | a new pending row under a fresh id, with its command in the outbox |
| Bookings.BookingService.ConfirmBooking | services/booking-service/app/routes.py:97-120 | only a RESERVED booking queues a confirmation; its status stays; missing and wrong status answered as such |
| Bookings.BookingService.CancelBooking | services/booking-service/app/routes.py:123-160 | four statuses return early with nothing changed, all others become CANCELED with a reason and a command |
| Bookings.BookingService.CompleteBookingAsUser | services/booking-service/app/routes.py:163-211 | only CONFIRMED; the second side to complete moves the row to COMPLETED and decides which event is sent |
| Bookings.BookingService.CompleteBookingAsHandyman | services/booking-service/app/routes.py:214-262 | the same for the handyman's side |
| Bookings.BookingService.RejectBooking | services/booking-service/app/routes.py:265-302 | only RESERVED or CONFIRMED; flag, reason, status and event |
| Bookings.BookingService.AdminDeleteBooking | services/booking-service/app/routes.py:352-359 | the row is gone, nothing is sent |
| Bookings.BookingService.ProcessEvent | services/booking-service/app/event_consumer.py:25-61 | the guarded transition of the one booking named, for every slot event |
| Protocol.NextKeepsFacts | services/availability-service/app/event_consumer.py:102-229 | every step keeps bookings, reservations and all events in flight agreed on each booking's handyman and window |
| Lifecycle.NextAdvancesRows | services/booking-service/app/event_consumer.py:39-59 | no step of the composed system lowers a booking's rank or leaves a terminal status, slot.released included |
| Lifecycle.NextKeepsStatusInv | services/booking-service/app/event_consumer.py:39-59 | what events in flight say of a booking stays true: a slot.released means CANCELED, a slot.confirmed means no longer PENDING, and a booked row has its slot.confirmed |
| Lifecycle.StatusOnlyMovesForward | services/booking-service/app/routes.py:97-302 | over any run, whatever is delivered, a booking's status stays or strictly rises, and a deleted id never returns |
| Lifecycle.TerminalStatusesAreFinal | services/booking-service/app/routes.py:123-160 | CANCELED, FAILED, EXPIRED and REJECTED are absorbing in every run |
| Lifecycle.RedeliveryChangesNothing | services/booking-service/app/event_consumer.py:25-61 | redelivering any event the booking service consumed before, at any later state, changes nothing, although it stores no event ids |
| Lifecycle.CompletedExactlyWhenBothAgree | services/booking-service/app/routes.py:163-262 | a booked job is COMPLETED iff both sides completed it, and its slot.confirmed was emitted |
| Causes.ConfirmSendsACommand | services/booking-service/app/routes.py:102-117 | only a RESERVED booking sends its command, with its own request; no row changes |
| Causes.CancelCancels | services/booking-service/app/routes.py:128-152 | exactly PENDING, RESERVED, CONFIRMED and COMPLETED bookings become CANCELED, with the reason or user_requested, and the command carries that reason |
| Causes.RejectRejects | services/booking-service/app/routes.py:270-290 | exactly RESERVED and CONFIRMED bookings become REJECTED, and the event carries the stored reason |
| Causes.CompletionCompletes | services/booking-service/app/routes.py:168-251 | one side is recorded and told; the second side completes the booking, and booking.completed is told instead |
| Causes.HandlersAnswer | services/booking-service/app/routes.py:97-302 | missing bookings are not found and wrong statuses are bad requests, but for canceling |
| Causes.CreationIsPending | services/booking-service/app/routes.py:67-84 | a new booking is PENDING, completed and rejected by nobody, and its request is sent |
| Causes.DeletionDeletes | services/booking-service/app/routes.py:352-359 | the one row is gone and nothing is sent |
| Causes.SlotEventMoves | services/booking-service/app/event_consumer.py:39-59 | each slot event moves rows of just the statuses it applies to, to its status and with its reason, and leaves all else in the row |
| Causes.ConsumptionTouchesOneRow | services/booking-service/app/event_consumer.py:33-61 | only the row named is touched and nothing is sent |
| Causes.EveryStatusHasItsCause | services/booking-service/app/event_consumer.py:39-59 | in every reachable state RESERVED, CONFIRMED, FAILED and EXPIRED rows have consumed the event that says so, FAILED with its reason; COMPLETED, CANCELED and REJECTED rows have the event of the handler, with the stored reason |
| NoDoubleBooking.RequestedKeepsSafe | services/availability-service/app/event_consumer.py:129-149 | a reservation is made away from all held windows and all other live reservations |
| NoDoubleBooking.ConfirmKeepsSafe | services/availability-service/app/event_consumer.py:182-208 | confirming turns a reservation into a held window that free slots, live reservations and other held windows all avoid |
| NoDoubleBooking.NextKeepsSafetyInv | services/availability-service/app/event_consumer.py:102-229 | every step that respects the offer rule keeps held windows apart from slots, reservations and one another |
| NoDoubleBooking.NoTwoBookingsOverlap | services/booking-service/app/event_consumer.py:48-50 | in every reachable state, under reordering, duplication and loss, no two CONFIRMED or COMPLETED bookings of one handyman overlap |
| OfferRule.CoveredInstantIsBooked | services/availability-service/app/event_consumer.py:119-209 | from any reachable state, any instant a slot covers can be booked and confirmed by a new booking without touching another row |
| OfferRule.UncoveredHeldWindowIsBookedTwice | services/availability-service/app/routes.py:33-42 | if a slot covers an instant of a held window, a continuation with two overlapping bookings exists |
| OfferRule.OfferIsSafeExactlyWhenItAvoidsHeld | services/availability-service/app/routes.py:33-42 | an offer leaves all continuations free of overlapping bookings iff it covers no instant of a held window |
| TimeConservation.ConfirmConserves | services/availability-service/app/event_consumer.py:196-208 | free time plus confirmed time is unchanged by a confirm, and every other live reservation still sits in one slot |
| TimeConservation.TimeIsConserved | services/availability-service/app/event_consumer.py:55-99 | from any reachable state with disjoint slots and no live reservation of the handyman, free plus confirmed time stays constant until the next availability edit |
| ReservationLedger.NextReserves | services/availability-service/app/event_consumer.py:112-171 | a step adds a reservation of a booking iff it delivers its unmarked booking.requested and every guard passes |
| ReservationLedger.NextBalances | services/availability-service/app/reservations.py:66-92 | a step moves a reservation at most from waiting to one of confirmed and expired; only a withdrawal and a regrant change the account |
| ReservationLedger.AccountBalancesExactlyWithoutRegrants | services/availability-service/app/expiry_worker.py:13-31 | in every run reserved = waiting + confirmed + expired + withdrawn + regranted, so the account balances iff no grant came while an entry waited |
| ReservationLedger.ReservedOnceExactlyWhenGrantedOnce | services/availability-service/app/event_consumer.py:119-159 | in every run a booking is reserved at most once iff it is granted at most once; waiting, confirmed and expired never exceed the grants |
| ReservationLedger.SecondGrantsAreLate | services/availability-service/app/event_consumer.py:112-117 | in reachable states a second grant follows a lapsed marker, and a regrant finds the waiting entry at least 3300 s overdue |
| ReservationLedger.AccountBalancesWhileTheWorkerKeepsUp | services/availability-service/app/expiry_worker.py:12-31 | whatever is redelivered and however late, the account balances while no entry waits 3300 s past its time |
| ReservationLedger.EveryReservationIsAccountedForOnce | services/availability-service/app/reservations.py:66-92 | when each booking.requested takes effect once, a booking is reserved at most once and the account balances, so slot.confirmed and slot.expired exclude each other and a lapsed key is never lost |
| ReservationLedger.LateRedeliveryReservesTwice | services/availability-service/app/event_consumer.py:112-117 | a run with an idle worker in which a redelivery is a regrant and the account does not balance |
| SettledOnce.NextSettles | services/availability-service/app/event_consumer.py:182-208 | a booking is confirmed or expired only by the step that takes its entry out of the expiry set |
| SettledOnce.StepSettlesOnceExactlyWithoutAGrant | services/availability-service/app/event_consumer.py:119-209 | a step keeps all continuations at one slot.confirmed or slot.expired in all iff it does not grant a settled booking |
| SettledOnce.StepExcludesBothExactly | services/availability-service/app/event_consumer.py:119-209 | a step keeps all continuations free of both events for a booking iff it does not grant one that was confirmed, or that has expired and can still be confirmed |
| SettledOnce.GrantedBookingConfirms | services/booking-service/app/routes.py:97-120 | a granted booking that is PENDING or RESERVED, or has a command unmarked within its 300 s, can be confirmed |
| SettledOnce.BarredBookingStaysUnconfirmed | services/booking-service/app/routes.py:102-103 | otherwise no continuation confirms it |
| SettledOnce.LateRedeliveryConfirmsAnExpiredBooking | services/availability-service/app/event_consumer.py:112-117 | a run with the worker in time in which the account balances and a booking is both expired and confirmed |
| SqlOutbox.ClaimBatch | shared/shared/outbox_worker.py:14-25 | the batch is exactly the pending rows of the lowest ids, in order, as many as fit |
| SqlOutbox.OutboxTable.AddOutboxEvent | shared/shared/outbox_helpers.py:4-13 | one pending row is appended |
| SqlOutbox.OutboxTable.PollOnce | shared/shared/outbox_worker.py:89-106 | one committed turn gives each claimed row its publish and mark, and changes no other row |
| SqlOutbox.CommittedRoundsStayAccurate | shared/shared/outbox_worker.py:28-57 | without rollbacks, SENT means published exactly once, FAILED never published, PENDING unpublished with attempts left |
| SqlOutbox.AttemptsAreFailures | shared/shared/outbox_worker.py:40-57 | over any rounds, attempts are the row's failed publishes in committed polls; FAILED iff they reached max_attempts, SENT iff a committed poll published it, else PENDING |
| SqlOutbox.SentWasPublished | shared/shared/outbox_worker.py:91-106 | with any rollbacks, SENT still means published at least once |
| SqlOutbox.EveryPublishCounts | shared/shared/outbox_worker.py:89-106 | a row's event was handed to the broker once for each successful turn, those in polls rolled back later included |
| SqlOutbox.SettledRowsNeverChange | shared/shared/outbox_worker.py:17-21 | SENT and FAILED are final, rollbacks or not |
| SqlOutbox.BlockSettles | shared/shared/outbox_worker.py:89-106 | after one round of attempts a row has at least batch_size fewer pending rows ahead of it |
| SqlOutbox.PendingRowsSettleInTime | shared/shared/outbox_worker.py:76-106 | a row with j pending rows ahead is SENT or FAILED after max_attempts * (j div batch_size + 1) polls, whatever publishes succeed and whatever is added |
| RedisOutbox.OutboxWorker.EnqueueDomainEvent | services/availability-service/app/outbox_worker.py:31-48 | a blank event type is dead-lettered, everything else becomes pending |
| RedisOutbox.OutboxWorker.DrainOnce | services/availability-service/app/outbox_worker.py:99-136 | one drain moves the tail entry to published, dead-letter or back, and leaves the processing list as it was |
| RedisOutbox.EventsAreConserved | services/availability-service/app/outbox_worker.py:31-48 | over any run, the multiset of pending, dead-lettered and published events is what was enqueued |
| RedisOutbox.EachEventIsInOnePlace | services/availability-service/app/outbox_worker.py:99-136 | an event enqueued once is in exactly one of the three places |
| RedisOutbox.AttemptsStayBounded | services/availability-service/app/outbox_worker.py:124-134 | pending entries have fewer than 25 failures, dead-lettered readable ones exactly 25 |
| RedisOutbox.FailingEntryIsRetriedFirst | services/availability-service/app/outbox_worker.py:124-136 | each failing drain adds one attempt and puts the entry back on top, the 25th dead-letters it, and no entry below has a turn meanwhile |
| RedisOutbox.NewEventGetsAllItsTries | services/availability-service/app/outbox_worker.py:43-48 | a new event is pending under its trimmed type and gets 25 tries; one of a blank type is dead-lettered at once |
| RedisOutbox.PendingEmptiesInTime | services/availability-service/app/outbox_worker.py:99-136 | n pending entries are gone after 25 * n drains without enqueueing |
| RedisOutbox.NewestArePublishedFirst | services/availability-service/app/outbox_worker.py:48-100 | the list is a stack: n successful drains publish the n entries enqueued last, newest first, and leave the rest in place |
| RedisOutbox.FromTailAt | services/availability-service/app/outbox_worker.py:100 | newest first means position by position from the tail |
| RetryConsumer.Consumer.AlreadyProcessed | shared/shared/idempotency.py:6-14 | the marker is set exactly when it was not live, and its absence is reported |
| RetryConsumer.Consumer.ConsumeOne | shared/shared/consumer.py:103-129 | one delivery ends as acknowledged, parked with an incremented header, or dead-lettered |
| RetryConsumer.EveryMessageIsSettledInTime | shared/shared/consumer.py:103-129 | at most max_retries + 1 handler calls; always in exactly one place; header = failed calls; dead-lettered only after max_retries + 1 failures |
| RetryConsumer.SettledMessagesStaySettled | shared/shared/consumer.py:107-129 | acknowledged or dead-lettered, a message is never handled again |
| RetryConsumer.EffectStartsOncePerMarker | shared/shared/idempotency.py:6-14 | two starts of one event's effect are at least the marker's lifetime apart, over all copies and retries |
| RetryConsumer.RetryStartsExactlyAfterTheMarker | services/availability-service/app/event_consumer.py:112-117 | after a failure past the marker the retry starts the effect iff the marker has lapsed, and is acknowledged unless it starts and fails |
| MatchCache.PutKeepsIndexed | services/match-service/app/services.py:457-471 | every live result is in its bucket's set and the set outlives it, in both modes with their own TTLs |
| MatchCache.ResultLives | services/match-service/app/routes.py:116-129 | a strict result can be hit for 60 s and a degraded one for 15 s, their sets live 30 s longer, other results are untouched |
| MatchCache.InvalidateIsExact | services/match-service/app/services.py:125-144 | invalidating a bucket removes all its live results and its set, and no other |
| MatchCache.CellsBetweenAreMet | services/match-service/app/services.py:73-74 | every cell between those of two points holds a point between them |
| MatchProjections.ProjectionStore.UpsertHandyman | services/match-service/app/services.py:180-200 | profile, index and the differences of the skill sets, and nothing else |
| MatchProjections.ProjectionStore.DeleteHandyman | services/match-service/app/services.py:203-216 | the old profile is returned and every trace of it is gone |
| MatchProjections.ProjectionStore.UpsertAvailabilitySlots | services/match-service/app/services.py:251-281 | only slots that end after they start are stored; none left means deletion |
| MatchProjections.ProjectionStore.ListBySkill | services/match-service/app/services.py:219-241 | equals filtering all stored profiles by the normalized skill |
| MatchProjections.UpsertKeepsIndexesExact | services/match-service/app/services.py:147-200 | an email is in a skill's set iff its stored profile lists the skill, and in the global index iff it is stored |
| MatchProjections.DeleteKeepsIndexesExact | services/match-service/app/services.py:203-216 | the same after deletion |
| MatchProjections.AvailabilityKeepsIndexesExact | services/match-service/app/services.py:251-290 | the availability index matches the stored lists, which are nonempty and hold only slots with start < end |
| MatchProjections.SlotIsKeptExactly | services/match-service/app/services.py:255-270 | a slot is kept, in its place, iff it ends after it starts |
| MatchProjections.AvailabilityStoresKeptSlots | services/match-service/app/services.py:272-281 | slots are stored iff one is kept, and no other handyman's change |
| MatchEvents.MatchConsumer.BucketsInRadius | services/match-service/app/services.py:104-122 | the nested loops list exactly the cells of the box |
| MatchEvents.MatchConsumer.InvalidateForHandymanProfile | services/match-service/app/event_consumer.py:40-61 | the three nested loops clear what the profile calls for, or nothing for an incomplete profile |
| MatchEvents.MatchConsumer.ProcessEvent | services/match-service/app/event_consumer.py:69-128 | projections, cache and marker after every event |
| MatchEvents.BoxPointsAreListed | services/match-service/app/services.py:104-122 | the cell of every point of the box is listed |
| MatchEvents.ListedCellsMeetTheBox | services/match-service/app/services.py:104-122 | conversely, every listed cell holds a point of the box |
| MatchEvents.ClearProfileIsExact | services/match-service/app/event_consumer.py:40-61 | exactly the live results under the profile's skills and cells go, in both modes |
| MatchEvents.ReachableStatesAreIndexed | services/match-service/app/services.py:457-471 | in every reachable state indexes match projections and every live result can be found through its bucket |
| MatchEvents.StoredProfilesAreInvolved | services/match-service/app/event_consumer.py:86-128 | what lies under the profile stored before an event other than a creation, or after any event, lies under a profile handed to invalidation |
| MatchEvents.NoStaleResultInTheBox | services/match-service/app/event_consumer.py:86-128 | after an event, no request in the box of the profile stored before it (except for a creation) or after it, for one of its skills, in either mode, hits the cache |
| MatchEvents.UpdateKeepsOtherFields | services/match-service/app/event_consumer.py:107-118 | after an update each stored field is the event's when carried, else the one stored before, skills compared after normalization |
| MatchEvents.CreationStoresTheEvent | services/match-service/app/event_consumer.py:102-105 | after a creation the stored profile is the event's alone |
| MatchEvents.OtherEventsStore | services/match-service/app/event_consumer.py:86-128 | a deletion leaves neither profile nor slots; an availability event stores the kept slots and no profile changes |
| MatchEvents.OthersAreLeftAlone | services/match-service/app/event_consumer.py:86-128 | an event changes no other handyman's profile or slots |
| MatchEvents.MovedHandymanKeepsSkills | services/match-service/app/event_consumer.py:107-118 | in reachable states a move keeps the radius and the set of every skill that is not blank |
| MatchEvents.MoveClearsTheNewPlace | services/match-service/app/event_consumer.py:107-118 | after a move no request near the new place, with the stored radius and for a stored skill, hits the cache |
| MatchEvents.OtherResultsSurvive | services/match-service/app/event_consumer.py:64-66 | a cached result survives an event iff the event was marked or no involved profile covers its bucket |
| MatchEvents.CreationCleansStoredProfileExactly | services/match-service/app/event_consumer.py:102-105 | a creation leaves nothing under the stored profile, whatever is cached, iff the new profile covers every bucket of the stored one |
| MatchEvents.CoversAsMuchExactly | services/match-service/app/event_consumer.py:40-61 | covering means listing every skill and touching every cell |
| MatchEvents.CreatedAfterMoveLeavesOldResult | services/match-service/app/event_consumer.py:102-105 | a run in which a complete handyman.created, delivered after the update that moved the handyman, leaves a result in the stored box |
| SkillsCatalog.NormalizeSkills | services/handyman-service/app/skills_catalog.py:292-303 | the result is distinct, blank-free and normalized |
| Text.StripTakesOnlySpace | services/handyman-service/app/skills_catalog.py:102-103 | trimming a key takes white space off both ends and nothing else |
| SkillsCatalog.NormalizedSkillsAreAll | services/handyman-service/app/skills_catalog.py:292-303 | a key is kept iff some input normalizes to it |
| SkillsCatalog.NormalizeSkillsKeepsOrder | services/handyman-service/app/skills_catalog.py:292-303 | skills keep the order of their first mention |
| SkillsCatalog.PairSurvivesExactly | services/handyman-service/app/skills_catalog.py:106-127 | a category lists a skill after normalization iff its last entry that names any skill names this one |
| SkillsCatalog.NoBlankKeys | services/handyman-service/app/skills_catalog.py:109-125 | no blank category, no empty category and no blank skill remains |
| SkillsCatalog.NormalizeSkillsInput | services/handyman-service/app/skills_catalog.py:292-303 | the loop with its seen set computes that normal form |
| SkillsCatalog.ValidateCatalogShape | services/handyman-service/app/skills_catalog.py:130-145 | the nested loops accept iff some category is left and no skill is listed twice in the whole payload |
| SkillsCatalog.CatalogStore.PatchCatalog | services/handyman-service/app/skills_catalog.py:358-465 | upserts and the four flag updates in the code's order, with the counts of added rows |
| SkillsCatalog.CatalogStore.ReplaceCatalog | services/handyman-service/app/skills_catalog.py:313-355 | refused, nothing changes; accepted, both tables are rewritten from the payload, with the counts of rows |
| SkillsCatalog.PatchKeepsWellformed | services/handyman-service/app/skills_catalog.py:358-457 | skill and category keys stay unique and every item's category stays present |
| SkillsCatalog.FlagsFollowPrecedence | services/handyman-service/app/skills_catalog.py:391-455 | the final flag follows deactivate skill, activate skill, deactivate category, activate category, upsert, old flag; the category is the last one upserted |
| SkillsCatalog.CategoryFlagsFollowPrecedence | services/handyman-service/app/skills_catalog.py:369-441 | the final flag of a category follows deactivate, activate, upsert, old flag |
| SkillsCatalog.PatchListsExactly | services/handyman-service/app/skills_catalog.py:369-417 | a patch drops nothing and adds just the categories and skills it upserts |
| SkillsCatalog.NewCategoriesAreNumbered | services/handyman-service/app/skills_catalog.py:375-385 | new categories come last, numbered by their place |
| SkillsCatalog.NewSkillIsNumbered | services/handyman-service/app/skills_catalog.py:397-412 | a new skill comes last, numbered by how many its category has |
| SkillsCatalog.PatchRelabels | services/handyman-service/app/skills_catalog.py:386-417 | existing rows keep key and number; an upserted skill is relabeled, a category only if it had no label |
| SkillsCatalog.LabelOfKey | services/handyman-service/app/skills_catalog.py:98-99 | the label of a key of words has a blank for each underscore and each word capitalized |
| SkillsCatalog.TitleAt | services/handyman-service/app/skills_catalog.py:98-99 | in a label a letter is upper case iff it follows no letter |
| SkillsCatalog.PatchIdempotent | services/handyman-service/app/skills_catalog.py:358-457 | the same patch twice leaves what it leaves once |
| SkillsCatalog.FreshCatalogMirrorsPayload | services/handyman-service/app/skills_catalog.py:324-347 | a replaced catalog lists the payload's categories and skills, in order, all active |
| SkillsCatalog.ShapeCheckIsExact | services/handyman-service/app/skills_catalog.py:130-145 | a replaced catalog is well formed iff the duplicate check passes |
| Pagination.FollowIsWalk | services/notification-service/app/repository.py:77-88 | re-querying with each cursor is walking the rows that are left |
| Pagination.MatchingSelects | services/notification-service/app/repository.py:66-75 | the query selects just the user's rows of the asked status, or the unarchived ones, each as often as the table has it |
| Pagination.FollowingTheCursorSeesAllExactlyWithoutTies | services/notification-service/app/repository.py:58-88 | following the cursor yields all matching rows once, newest first, iff no two of one creation time straddle a page boundary |
| Pagination.DistinctTimesAreListedCompletely | services/notification-service/app/repository.py:58-88 | with distinct times the walk is complete and takes ceil(n / limit) pages, one for n = 0 |
| Pagination.TiesAcrossPagesAreSkipped | services/notification-service/app/repository.py:77-86 | a row that shares its time with the last row of the first page, but is not on it, is never listed by following the cursor |
| RateLimiter.Limiter.Admit | services/gateway-service/app/middleware.py:42-62 | counting, expiring and deciding for one request, exempt paths included |
| RateLimiter.SharesCounterExactly | services/gateway-service/app/middleware.py:48-53 | requests share a counter iff they fall in one epoch minute and come from one user, or both from no user and one address |
| RateLimiter.UncountedExactly | services/gateway-service/app/middleware.py:43-46 | a request goes uncounted iff its path is exempt, and then it passes |
| RateLimiter.CounterIsExactAndOutlivesItsMinute | services/gateway-service/app/middleware.py:52-57 | a minute's counter counts that minute's requests and expires 70 s after one of them, so never inside the minute |
| RateLimiter.MinuteAdmitsExactly | services/gateway-service/app/middleware.py:52-60 | exactly the first max_per_minute requests of a minute are admitted |
| RateLimiter.SlidingWindowBound | services/gateway-service/app/middleware.py:52-60 | any 60-second window of any trace admits at most 2 * max_per_minute |
| RateLimiter.SlidingWindowBoundIsAttained | services/gateway-service/app/middleware.py:52-60 | and that many do pass around the turn of a minute |

## Left out

- Interleaving inside a handler: handlers await between check and write, so two of them can interleave in ways the atomic steps do not show.
- Job descriptions, user emails in the events that answer a booking, and the timestamps and error texts stored with rows; an absent reason is the empty string.
- Malformed payloads and stored slots, JSON and datetime parsing, time zones.
- RabbitMQ, Redis, SQLAlchemy, HTTP and asyncio themselves: keys with deadlines, sequences and atomic steps stand for them. SMEMBERS order is arbitrary; the batch of due ids is any one the sorted set may return.
- Several outbox workers at once, rows that commit later with a smaller id, and transactions that fail half way other than by rolling back.
- Failures of acknowledging or of republishing a retry, redelivery after a crash, and recovery of the Redis processing list.
- Returning confirmed time to the slots when a booking is canceled or rejected: the code never does.
- Unicode in trimming, lower-casing and titles (ASCII here); cache keys are structured values, not strings.
- Haversine and cosine: the half-width of the box in degrees of longitude is a given function of radius and latitude, and coordinates are reals. That the box holds the disc is not claimed.
- The content of match results, and that a hit equals a fresh result: the key drops the end time and the exact position. Convergence of the availability projection: its events carry no version.
- Reading the catalog (`get_catalog_flat`, `get_grouped_catalog`), `find_invalid_skills` and seeding.
- Creating, marking and archiving notifications; `ORDER BY` is the order of the given table.
- Circuit breaker, authentication, gateway proxies, server-sent events, the search service, user and handyman records, ratings: thin wrappers or easy facts.
