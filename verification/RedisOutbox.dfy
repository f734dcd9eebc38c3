/** The availability service's Redis outbox (availability-service/app/outbox_worker.py): three lists,
    one of which holds the entry being published. */
module RedisOutbox {
  import Text

  const MAX_ATTEMPTS := 25

  /** A list entry. The id names the event inside, so that it can be followed. */
  datatype Raw =
    | Unreadable(id: nat)
    | Envelope(id: nat, routingKey: string, hasPayload: bool, attempts: nat)

  /** `published` lists the ids handed to the broker. The first element of a list is its head. */
  datatype Lists = Lists(pending: seq<Raw>, processing: seq<Raw>, dlq: seq<Raw>, published: seq<nat>)

  const EMPTY := Lists([], [], [], [])

  // ---- What enqueueing and draining do ----

  /** enqueue_domain_event; an absent event_type is "". */
  function Enqueue(st: Lists, id: nat, eventType: string): Lists {
    if Text.Strip(eventType) == "" then st.(dlq := st.dlq + [Unreadable(id)])
    else st.(pending := st.pending + [Envelope(id, Text.Strip(eventType), true, 0)])
  }

  predicate Publishable(raw: Raw) {
    raw.Envelope? && raw.routingKey != "" && raw.hasPayload
  }

  /** Where an entry goes after its turn. */
  function Settle(st: Lists, raw: Raw, up: bool): Lists {
    if !Publishable(raw) then st.(dlq := st.dlq + [raw])
    else if up then st.(published := st.published + [raw.id])
    else
      var failed := raw.(attempts := raw.attempts + 1);
      if failed.attempts >= MAX_ATTEMPTS then st.(dlq := st.dlq + [failed])
      else st.(pending := st.pending + [failed])
  }

  /** _drain_once, when publishing would succeed exactly if `up`: the tail of the pending list has its turn. */
  function Drain(st: Lists, up: bool): Lists {
    if st.pending == [] then st
    else Settle(st.(pending := st.pending[..|st.pending| - 1]), st.pending[|st.pending| - 1], up)
  }

  /** LREM list 1 raw: drop the first occurrence from the head. */
  function RemoveFirst(list: seq<Raw>, raw: Raw): seq<Raw> {
    if list == [] then []
    else if list[0] == raw then list[1..]
    else [list[0]] + RemoveFirst(list[1..], raw)
  }

  class OutboxWorker {
    var pending: seq<Raw>
    var processing: seq<Raw>
    var dlq: seq<Raw>
    var published: seq<nat>

    ghost function State(): Lists
      reads this
    {
      Lists(pending, processing, dlq, published)
    }

    constructor ()
      ensures State() == EMPTY
    {
      pending, processing, dlq, published := [], [], [], [];
    }

    method EnqueueDomainEvent(id: nat, eventType: string)
      modifies this
      ensures State() == Enqueue(old(State()), id, eventType)
    {
      if eventType == "" {
        dlq := dlq + [Unreadable(id)];
        return;
      }
      var rk := Text.Strip(eventType);
      if rk == "" {
        dlq := dlq + [Unreadable(id)];
        return;
      }
      pending := pending + [Envelope(id, rk, true, 0)];
    }

    /** The entry passes through the processing list and leaves nothing there. */
    method DrainOnce(up: bool) returns (drained: bool)
      modifies this
      ensures drained <==> old(pending) != []
      ensures State() == Drain(old(State()), up)
    {
      if pending == [] {
        return false;
      }
      var raw := pending[|pending| - 1];
      pending := pending[..|pending| - 1];
      processing := [raw] + processing;
      assert RemoveFirst(processing, raw) == old(processing);
      drained := true;
      if raw.Unreadable? {
        processing := RemoveFirst(processing, raw);
        dlq := dlq + [raw];
        return;
      }
      var attempts := raw.attempts;
      if raw.routingKey == "" || !raw.hasPayload {
        processing := RemoveFirst(processing, raw);
        dlq := dlq + [raw];
        return;
      }
      if up {
        published := published + [raw.id];
        processing := RemoveFirst(processing, raw);
        return;
      }
      attempts := attempts + 1;
      var failed := raw.(attempts := attempts);
      processing := RemoveFirst(processing, raw);
      if attempts >= MAX_ATTEMPTS {
        dlq := dlq + [failed];
      } else {
        pending := pending + [failed];
      }
    }
  }

  // ---- Runs ----

  datatype Step = EnqueueEvent(id: nat, eventType: string) | DrainOnce(up: bool)

  function Next(st: Lists, step: Step): Lists {
    match step
    case EnqueueEvent(id, eventType) => Enqueue(st, id, eventType)
    case DrainOnce(up) => Drain(st, up)
  }

  function After(st: Lists, steps: seq<Step>): Lists
    decreases |steps|
  {
    if steps == [] then st else After(Next(st, steps[0]), steps[1..])
  }

  function Enqueued(steps: seq<Step>): multiset<nat> {
    if steps == [] then multiset{}
    else (if steps[0].EnqueueEvent? then multiset{steps[0].id} else multiset{}) + Enqueued(steps[1..])
  }

  function Ids(list: seq<Raw>): multiset<nat> {
    if list == [] then multiset{} else Ids(list[..|list| - 1]) + multiset{list[|list| - 1].id}
  }

  /** Every id, wherever it is. */
  function Everywhere(st: Lists): multiset<nat> {
    Ids(st.pending) + Ids(st.processing) + Ids(st.dlq) + multiset(st.published)
  }

  lemma {:induction false} IdsAppend(list: seq<Raw>, raw: Raw)
    ensures Ids(list + [raw]) == Ids(list) + multiset{raw.id}
  {
    assert (list + [raw])[..|list|] == list;
  }

  lemma DeadLetteringAdds(st: Lists, raw: Raw)
    ensures Everywhere(st.(dlq := st.dlq + [raw])) == Everywhere(st) + multiset{raw.id}
  {
    IdsAppend(st.dlq, raw);
  }

  lemma QueueingAdds(st: Lists, raw: Raw)
    ensures Everywhere(st.(pending := st.pending + [raw])) == Everywhere(st) + multiset{raw.id}
  {
    IdsAppend(st.pending, raw);
  }

  lemma PublishingAdds(st: Lists, id: nat)
    ensures Everywhere(st.(published := st.published + [id])) == Everywhere(st) + multiset{id}
  {
  }

  lemma SettleConserves(st: Lists, raw: Raw, up: bool)
    ensures Everywhere(Settle(st, raw, up)) == Everywhere(st) + multiset{raw.id}
    ensures Settle(st, raw, up).processing == st.processing
  {
    if !Publishable(raw) {
      DeadLetteringAdds(st, raw);
    } else if up {
      PublishingAdds(st, raw.id);
    } else {
      var failed := raw.(attempts := raw.attempts + 1);
      DeadLetteringAdds(st, failed);
      QueueingAdds(st, failed);
    }
  }

  lemma TakingOff(st: Lists, init: seq<Raw>, raw: Raw)
    requires st.pending == init + [raw]
    ensures Everywhere(st.(pending := init)) + multiset{raw.id} == Everywhere(st)
  {
    QueueingAdds(st.(pending := init), raw);
  }

  lemma TurnConserves(st: Lists, init: seq<Raw>, raw: Raw, up: bool)
    requires st.pending == init + [raw]
    ensures Everywhere(Settle(st.(pending := init), raw, up)) == Everywhere(st)
    ensures Settle(st.(pending := init), raw, up).processing == st.processing
  {
    SettleConserves(st.(pending := init), raw, up);
    TakingOff(st, init, raw);
  }

  lemma DrainConserves(st: Lists, up: bool)
    ensures Everywhere(Drain(st, up)) == Everywhere(st)
    ensures Drain(st, up).processing == st.processing
  {
    if st.pending != [] {
      TurnConserves(st, st.pending[..|st.pending| - 1], st.pending[|st.pending| - 1], up);
    }
  }

  lemma EnqueueConserves(st: Lists, id: nat, eventType: string)
    ensures Everywhere(Enqueue(st, id, eventType)) == Everywhere(st) + multiset{id}
    ensures Enqueue(st, id, eventType).processing == st.processing
  {
    DeadLetteringAdds(st, Unreadable(id));
    QueueingAdds(st, Envelope(id, Text.Strip(eventType), true, 0));
  }

  lemma NextConserves(st: Lists, step: Step)
    ensures Everywhere(Next(st, step)) == Everywhere(st) + if step.EnqueueEvent? then multiset{step.id} else multiset{}
    ensures Next(st, step).processing == st.processing
  {
    match step
    case EnqueueEvent(id, eventType) => EnqueueConserves(st, id, eventType);
    case DrainOnce(up) => DrainConserves(st, up);
  }

  /** No event is lost or doubled: whatever was enqueued is, once per enqueueing, pending,
      dead-lettered or published, and nothing is left in the processing list between drains. */
  lemma {:induction false} EventsAreConserved(st: Lists, steps: seq<Step>)
    ensures Everywhere(After(st, steps)) == Everywhere(st) + Enqueued(steps)
    ensures After(st, steps).processing == st.processing
    decreases |steps|
  {
    if steps != [] {
      NextConserves(st, steps[0]);
      EventsAreConserved(Next(st, steps[0]), steps[1..]);
    }
  }

  /** An event enqueued once, starting from empty lists, is in exactly one place. */
  lemma {:induction false} EachEventIsInOnePlace(steps: seq<Step>, id: nat)
    requires Enqueued(steps)[id] == 1
    ensures var st := After(EMPTY, steps);
            Ids(st.pending)[id] + Ids(st.dlq)[id] + multiset(st.published)[id] == 1
  {
    EventsAreConserved(EMPTY, steps);
    assert Everywhere(EMPTY) == multiset{};
    var st := After(EMPTY, steps);
    assert Everywhere(st)[id] == 1;
  }

  // ---- Attempts ----

  ghost predicate AttemptsBounded(st: Lists) {
    && (forall i :: 0 <= i < |st.pending| ==> Publishable(st.pending[i]) && st.pending[i].attempts < MAX_ATTEMPTS)
    && (forall i :: 0 <= i < |st.dlq| ==> st.dlq[i].Unreadable? || st.dlq[i].attempts == MAX_ATTEMPTS)
  }

  /** Pending entries have failed fewer than 25 times; a readable entry is dead-lettered after exactly 25. */
  lemma {:induction false} AttemptsStayBounded(st: Lists, steps: seq<Step>)
    requires AttemptsBounded(st)
    ensures AttemptsBounded(After(st, steps))
    decreases |steps|
  {
    if steps != [] {
      assert AttemptsBounded(Next(st, steps[0]));
      AttemptsStayBounded(Next(st, steps[0]), steps[1..]);
    }
  }

  // ---- Termination ----

  /** The drains that can still fail before the pending list is empty. */
  function Left(pending: seq<Raw>): nat {
    if pending == [] then 0
    else
      var last := pending[|pending| - 1];
      Left(pending[..|pending| - 1])
      + if last.Envelope? && last.attempts < MAX_ATTEMPTS then MAX_ATTEMPTS - last.attempts else 1
  }

  lemma {:induction false} LeftAppend(pending: seq<Raw>, raw: Raw)
    ensures Left(pending + [raw])
            == Left(pending) + if raw.Envelope? && raw.attempts < MAX_ATTEMPTS then MAX_ATTEMPTS - raw.attempts else 1
  {
    assert (pending + [raw])[..|pending|] == pending;
  }

  lemma {:induction false} LeftBounded(pending: seq<Raw>)
    ensures |pending| <= Left(pending) <= MAX_ATTEMPTS * |pending|
  {
    if pending != [] {
      LeftBounded(pending[..|pending| - 1]);
    }
  }

  lemma DrainUsesOneUp(st: Lists, up: bool)
    requires st.pending != []
    ensures Left(Drain(st, up).pending) < Left(st.pending)
  {
    var init, raw := st.pending[..|st.pending| - 1], st.pending[|st.pending| - 1];
    if Publishable(raw) {
      LeftAppend(init, raw.(attempts := raw.attempts + 1));
    }
  }

  ghost predicate OnlyDrains(steps: seq<Step>) {
    forall k :: 0 <= k < |steps| ==> steps[k].DrainOnce?
  }

  lemma {:induction false} EnoughDrainsEmpty(st: Lists, steps: seq<Step>)
    requires OnlyDrains(steps) && |steps| >= Left(st.pending)
    ensures After(st, steps).pending == []
    decreases |steps|
  {
    LeftBounded(st.pending);
    if steps != [] {
      if st.pending != [] {
        DrainUsesOneUp(st, steps[0].up);
      }
      EnoughDrainsEmpty(Next(st, steps[0]), steps[1..]);
    }
  }

  /** Whatever publishes fail, n pending entries are gone after 25 * n drains with no enqueueing. */
  lemma {:induction false} PendingEmptiesInTime(st: Lists, steps: seq<Step>)
    requires OnlyDrains(steps) && |steps| >= 25 * |st.pending|
    ensures After(st, steps).pending == []
  {
    LeftBounded(st.pending);
    EnoughDrainsEmpty(st, steps);
  }

  // ---- Retries ----

  ghost predicate OnlyFailures(steps: seq<Step>) {
    forall k :: 0 <= k < |steps| ==> steps[k] == DrainOnce(false)
  }

  /** A failing entry goes back to the tail, so it is tried again at once: after k failing drains it is
      there with k more failures, and with its 25th it is dead-lettered. The entries below it have had
      no turn. */
  lemma {:induction false} FailingEntryIsRetriedFirst(st: Lists, below: seq<Raw>, raw: Raw, steps: seq<Step>)
    requires OnlyFailures(steps) && st.pending == below + [raw] && Publishable(raw)
    requires raw.attempts + |steps| <= 25 && 1 <= |steps|
    ensures var after, failed := After(st, steps), raw.(attempts := raw.attempts + |steps|);
            && after.published == st.published && after.processing == st.processing
            && (failed.attempts < 25 ==> after.pending == below + [failed] && after.dlq == st.dlq)
            && (failed.attempts == 25 ==> after.pending == below && after.dlq == st.dlq + [failed])
    decreases |steps|
  {
    var st1, again := Next(st, steps[0]), raw.(attempts := raw.attempts + 1);
    TopFails(st, below, raw);
    if |steps| > 1 {
      FailingEntryIsRetriedFirst(st1, below, again, steps[1..]);
    }
  }

  /** A new event is pending under its trimmed type, and gets 25 tries: after k failing drains, it has k
      failures, and with the 25th it is dead-lettered. An event of a blank type is so at once. */
  lemma {:induction false} NewEventGetsAllItsTries(st: Lists, id: nat, eventType: string, steps: seq<Step>)
    requires OnlyFailures(steps) && 1 <= |steps| <= 25
    ensures var after := After(Next(st, EnqueueEvent(id, eventType)), steps);
            Text.Strip(eventType) != "" ==>
              && after.published == st.published
              && var tried := Envelope(id, Text.Strip(eventType), true, |steps|);
              if |steps| < 25 then after.pending == st.pending + [tried] && after.dlq == st.dlq
              else after.pending == st.pending && after.dlq == st.dlq + [tried]
    ensures Text.Strip(eventType) == "" ==> Next(st, EnqueueEvent(id, eventType)) == st.(dlq := st.dlq + [Unreadable(id)])
  {
    if Text.Strip(eventType) != "" {
      FailingEntryIsRetriedFirst(Next(st, EnqueueEvent(id, eventType)), st.pending,
                                 Envelope(id, Text.Strip(eventType), true, 0), steps);
    }
  }

  lemma TopFails(st: Lists, below: seq<Raw>, raw: Raw)
    requires st.pending == below + [raw] && Publishable(raw) && raw.attempts < 25
    ensures var again := raw.(attempts := raw.attempts + 1);
            Drain(st, false) == if again.attempts == 25 then st.(pending := below, dlq := st.dlq + [again])
                                else st.(pending := below + [again])
  {
    assert st.pending[..|st.pending| - 1] == below;
  }

  // ---- Order ----

  ghost predicate OnlySuccesses(steps: seq<Step>) {
    forall k :: 0 <= k < |steps| ==> steps[k] == DrainOnce(true)
  }

  /** The ids of a list from its tail to its head. */
  function FromTail(list: seq<Raw>): seq<nat> {
    if list == [] then [] else [list[|list| - 1].id] + FromTail(list[..|list| - 1])
  }

  lemma {:induction false} FromTailAt(list: seq<Raw>, i: nat)
    requires i < |list|
    ensures |FromTail(list)| == |list| && FromTail(list)[i] == list[|list| - 1 - i].id
  {
    var init := list[..|list| - 1];
    if i > 0 {
      FromTailAt(init, i - 1);
    } else if init != [] {
      FromTailAt(init, 0);
    }
  }

  /** The list is a stack: as many successful drains as there are entries on top of the older ones
      publish just those, the newest first, and leave the older ones where they were. */
  lemma {:induction false} NewestArePublishedFirst(st: Lists, older: seq<Raw>, newer: seq<Raw>, steps: seq<Step>)
    requires OnlySuccesses(steps) && |steps| == |newer| && st.pending == older + newer
    requires forall i :: 0 <= i < |newer| ==> Publishable(newer[i])
    ensures After(st, steps).published == st.published + FromTail(newer)
    ensures After(st, steps).pending == older
    decreases |steps|
  {
    if steps != [] {
      var init, last := newer[..|newer| - 1], newer[|newer| - 1];
      var st1 := Next(st, steps[0]);
      TopIsPublished(st, older + init, last);
      NewestArePublishedFirst(st1, older, init, steps[1..]);
    }
  }

  lemma TopIsPublished(st: Lists, init: seq<Raw>, last: Raw)
    requires Publishable(last) && st.pending == init + [last]
    ensures Drain(st, true).pending == init && Drain(st, true).published == st.published + [last.id]
  {
  }
}
