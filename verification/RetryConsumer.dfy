/** The shared consumer: retries through a delay queue, a dead-letter queue, and the marker that
    makes handlers idempotent (shared/shared/consumer.py, shared/shared/idempotency.py). */
module RetryConsumer {
  import opened Idempotency

  type Instant = int
  type MessageId = nat
  type EventId = nat

  /** A message carries an event and its x-retry-count header. */
  datatype Message = Message(event: EventId, header: int)

  /** One call of the handler: whether the effect body started, and whether the call returned. */
  datatype Call = Call(message: MessageId, event: EventId, time: Instant, started: bool, ok: bool)

  /** Where every message of one consumer is, the markers, and the log of handler calls. */
  datatype Broker = Broker(
    now: Instant,
    main: map<MessageId, Message>,
    retry: map<MessageId, Message>,
    dlq: map<MessageId, Message>,
    acked: map<MessageId, Message>,
    markers: map<EventId, Instant>,
    calls: seq<Call>)

  // ---- One message ----

  /** already_processed, then the effect body unless the marker was there. With ttl 0 no marker is
      ever found, which is a handler that keeps none. */
  function Handle(markers: map<EventId, Instant>, now: Instant, ttl: nat, e: EventId, bodyOk: bool): (map<EventId, Instant>, bool, bool) {
    if Marked(markers, now, e) then (markers, false, true) else (Mark(markers, now, ttl, e), true, bodyOk)
  }

  /** _on_message: acknowledge, park for a retry, or dead-letter. */
  function OnMessage(bk: Broker, m: MessageId, msg: Message, ok: bool, maxRetries: int): Broker {
    if ok then bk.(acked := bk.acked[m := msg])
    else if msg.header >= maxRetries then bk.(dlq := bk.dlq[m := msg])
    else bk.(retry := bk.retry[m := msg.(header := msg.header + 1)])
  }

  /** Deliver one message: it leaves the main queue, the handler runs, the consumer decides. */
  function Deliver(bk: Broker, m: MessageId, bodyOk: bool, ttl: nat, maxRetries: int): Broker
    requires m in bk.main
  {
    var msg := bk.main[m];
    var (markers, started, ok) := Handle(bk.markers, bk.now, ttl, msg.event, bodyOk);
    OnMessage(
      bk.(main := bk.main - {m}, markers := markers, calls := bk.calls + [Call(m, msg.event, bk.now, started, ok)]),
      m, msg, ok, maxRetries)
  }

  class Consumer {
    var now: Instant
    var main: map<MessageId, Message>
    var retry: map<MessageId, Message>
    var dlq: map<MessageId, Message>
    var acked: map<MessageId, Message>
    var markers: map<EventId, Instant>
    var calls: seq<Call>
    const ttl: nat
    const maxRetries: int

    ghost function State(): Broker
      reads this
    {
      Broker(now, main, retry, dlq, acked, markers, calls)
    }

    constructor (now: Instant, published: map<MessageId, Message>, ttl: nat, maxRetries: int)
      ensures State() == Broker(now, published, map[], map[], map[], map[], [])
      ensures this.ttl == ttl && this.maxRetries == maxRetries
    {
      this.now, main, retry, dlq, acked, markers, calls := now, published, map[], map[], map[], map[], [];
      this.ttl, this.maxRetries := ttl, maxRetries;
    }

    /** SET key NX EX ttl: true when the marker was already there. */
    method AlreadyProcessed(e: EventId) returns (seen: bool)
      modifies this`markers
      ensures seen == Marked(old(markers), now, e)
      ensures markers == if seen then old(markers) else Mark(old(markers), now, ttl, e)
    {
      seen := e in markers && now < markers[e];
      if !seen {
        markers := markers[e := now + ttl];
      }
    }

    method ConsumeOne(m: MessageId, bodyOk: bool)
      requires m in main
      modifies this
      ensures State() == Deliver(old(State()), m, bodyOk, ttl, maxRetries)
    {
      var msg := main[m];
      main := main - {m};
      var seen := AlreadyProcessed(msg.event);
      var ok := seen || bodyOk;
      calls := calls + [Call(m, msg.event, now, !seen, ok)];
      if ok {
        acked := acked[m := msg];
      } else if msg.header >= maxRetries {
        dlq := dlq[m := msg];
      } else {
        retry := retry[m := msg.(header := msg.header + 1)];
      }
    }
  }

  // ---- Runs ----

  datatype Step =
    | Tick(delta: nat)
    | DeliverOne(message: MessageId, bodyOk: bool)
    | DelayElapsed(message: MessageId)

  predicate Enabled(bk: Broker, step: Step) {
    match step
    case Tick(_) => true
    case DeliverOne(m, _) => m in bk.main
    case DelayElapsed(m) => m in bk.retry
  }

  function Next(bk: Broker, step: Step, ttl: nat, maxRetries: int): Broker
    requires Enabled(bk, step)
  {
    match step
    case Tick(d) => bk.(now := bk.now + d)
    case DeliverOne(m, bodyOk) => Deliver(bk, m, bodyOk, ttl, maxRetries)
    case DelayElapsed(m) => bk.(main := bk.main[m := bk.retry[m]], retry := bk.retry - {m})
  }

  ghost predicate Run(bk: Broker, steps: seq<Step>, end: Broker, ttl: nat, maxRetries: int)
    decreases |steps|
  {
    if steps == [] then bk == end
    else Enabled(bk, steps[0]) && Run(Next(bk, steps[0], ttl, maxRetries), steps[1..], end, ttl, maxRetries)
  }

  ghost predicate Init(bk: Broker) {
    && (forall m :: m in bk.main ==> bk.main[m].header == 0)
    && bk.retry == map[] && bk.dlq == map[] && bk.acked == map[] && bk.markers == map[] && bk.calls == []
  }

  function CallsOf(calls: seq<Call>, m: MessageId): nat {
    if calls == [] then 0 else CallsOf(calls[..|calls| - 1], m) + if calls[|calls| - 1].message == m then 1 else 0
  }

  function FailuresOf(calls: seq<Call>, m: MessageId): nat {
    if calls == [] then 0
    else FailuresOf(calls[..|calls| - 1], m) + if calls[|calls| - 1].message == m && !calls[|calls| - 1].ok then 1 else 0
  }

  lemma {:induction false} CountsAppend(calls: seq<Call>, c: Call, m: MessageId)
    ensures CallsOf(calls + [c], m) == CallsOf(calls, m) + if c.message == m then 1 else 0
    ensures FailuresOf(calls + [c], m) == FailuresOf(calls, m) + if c.message == m && !c.ok then 1 else 0
  {
    assert (calls + [c])[..|calls|] == calls;
  }

  function Limit(maxRetries: int): nat {
    if maxRetries < 0 then 0 else maxRetries
  }

  // ---- One message, whatever the handler does ----

  ghost predicate InOnePlace(bk: Broker, all: set<MessageId>) {
    && bk.main.Keys + bk.retry.Keys + bk.dlq.Keys + bk.acked.Keys == all
    && bk.main.Keys !! bk.retry.Keys !! bk.dlq.Keys !! bk.acked.Keys
  }

  /** The header counts the failures so far. */
  ghost predicate Waiting(bk: Broker, m: MessageId, msg: Message, limit: nat) {
    CallsOf(bk.calls, m) == FailuresOf(bk.calls, m) == msg.header <= limit
  }

  ghost predicate Accounted(bk: Broker, maxRetries: int) {
    && (forall m :: m in bk.main ==> Waiting(bk, m, bk.main[m], Limit(maxRetries)))
    && (forall m :: m in bk.retry ==> Waiting(bk, m, bk.retry[m], Limit(maxRetries)))
    && (forall m :: m in bk.acked ==>
          && FailuresOf(bk.calls, m) == bk.acked[m].header <= Limit(maxRetries)
          && CallsOf(bk.calls, m) == bk.acked[m].header + 1)
    && (forall m :: m in bk.dlq ==>
          && bk.dlq[m].header == Limit(maxRetries)
          && CallsOf(bk.calls, m) == FailuresOf(bk.calls, m) == Limit(maxRetries) + 1)
  }

  lemma DeliverKeepsInOnePlace(bk: Broker, m: MessageId, bodyOk: bool, ttl: nat, maxRetries: int, all: set<MessageId>)
    requires InOnePlace(bk, all) && m in bk.main
    ensures InOnePlace(Deliver(bk, m, bodyOk, ttl, maxRetries), all)
  {
  }

  lemma {:induction false} AckKeepsAccounted(bk: Broker, m: MessageId, msg: Message, maxRetries: int)
    requires Accounted(bk, maxRetries) && 0 <= msg.header <= Limit(maxRetries)
    requires CallsOf(bk.calls, m) == msg.header + 1 && FailuresOf(bk.calls, m) == msg.header
    ensures Accounted(bk.(acked := bk.acked[m := msg]), maxRetries)
  {
  }

  lemma {:induction false} ParkKeepsAccounted(bk: Broker, m: MessageId, msg: Message, maxRetries: int)
    requires Accounted(bk, maxRetries) && 0 <= msg.header < maxRetries
    requires CallsOf(bk.calls, m) == FailuresOf(bk.calls, m) == msg.header + 1
    ensures Accounted(bk.(retry := bk.retry[m := msg.(header := msg.header + 1)]), maxRetries)
  {
  }

  lemma {:induction false} DeadLetterKeepsAccounted(bk: Broker, m: MessageId, msg: Message, maxRetries: int)
    requires Accounted(bk, maxRetries) && msg.header == Limit(maxRetries)
    requires CallsOf(bk.calls, m) == FailuresOf(bk.calls, m) == msg.header + 1
    ensures Accounted(bk.(dlq := bk.dlq[m := msg]), maxRetries)
  {
  }

  lemma {:induction false} OnMessageKeepsAccounted(bk: Broker, m: MessageId, msg: Message, ok: bool, maxRetries: int)
    requires Accounted(bk, maxRetries)
    requires 0 <= msg.header <= Limit(maxRetries)
    requires CallsOf(bk.calls, m) == msg.header + 1
    requires FailuresOf(bk.calls, m) == msg.header + if ok then 0 else 1
    ensures Accounted(OnMessage(bk, m, msg, ok, maxRetries), maxRetries)
  {
    if ok {
      AckKeepsAccounted(bk, m, msg, maxRetries);
    } else if msg.header >= maxRetries {
      DeadLetterKeepsAccounted(bk, m, msg, maxRetries);
    } else {
      ParkKeepsAccounted(bk, m, msg, maxRetries);
    }
  }

  lemma DeliverKeepsAccounted(bk: Broker, m: MessageId, bodyOk: bool, ttl: nat, maxRetries: int, all: set<MessageId>)
    requires InOnePlace(bk, all) && Accounted(bk, maxRetries) && m in bk.main
    ensures Accounted(Deliver(bk, m, bodyOk, ttl, maxRetries), maxRetries)
  {
    var msg := bk.main[m];
    var (markers, started, ok) := Handle(bk.markers, bk.now, ttl, msg.event, bodyOk);
    var called := bk.(main := bk.main - {m}, markers := markers, calls := bk.calls + [Call(m, msg.event, bk.now, started, ok)]);
    forall n
      ensures CallsOf(called.calls, n) == CallsOf(bk.calls, n) + if m == n then 1 else 0
      ensures FailuresOf(called.calls, n) == FailuresOf(bk.calls, n) + if m == n && !ok then 1 else 0
    {
      CountsAppend(bk.calls, Call(m, msg.event, bk.now, started, ok), n);
    }
    assert Waiting(bk, m, msg, Limit(maxRetries));
    assert m !in bk.retry && m !in bk.dlq && m !in bk.acked;
    OnMessageKeepsAccounted(called, m, msg, ok, maxRetries);
  }

  lemma ReturnKeepsAccounted(bk: Broker, m: MessageId, maxRetries: int, all: set<MessageId>)
    requires InOnePlace(bk, all) && Accounted(bk, maxRetries) && m in bk.retry
    ensures var back := bk.(main := bk.main[m := bk.retry[m]], retry := bk.retry - {m});
            InOnePlace(back, all) && Accounted(back, maxRetries)
  {
    assert Waiting(bk, m, bk.retry[m], Limit(maxRetries));
  }

  lemma NextKeepsAccounted(bk: Broker, step: Step, ttl: nat, maxRetries: int, all: set<MessageId>)
    requires InOnePlace(bk, all) && Accounted(bk, maxRetries) && Enabled(bk, step)
    ensures InOnePlace(Next(bk, step, ttl, maxRetries), all) && Accounted(Next(bk, step, ttl, maxRetries), maxRetries)
  {
    match step
    case Tick(_) =>
    case DelayElapsed(m) => ReturnKeepsAccounted(bk, m, maxRetries, all);
    case DeliverOne(m, bodyOk) =>
      DeliverKeepsInOnePlace(bk, m, bodyOk, ttl, maxRetries, all);
      DeliverKeepsAccounted(bk, m, bodyOk, ttl, maxRetries, all);
  }

  lemma {:induction false} RunKeepsAccounted(bk: Broker, steps: seq<Step>, end: Broker, ttl: nat, maxRetries: int, all: set<MessageId>)
    requires InOnePlace(bk, all) && Accounted(bk, maxRetries) && Run(bk, steps, end, ttl, maxRetries)
    ensures InOnePlace(end, all) && Accounted(end, maxRetries)
    decreases |steps|
  {
    if steps != [] {
      NextKeepsAccounted(bk, steps[0], ttl, maxRetries, all);
      RunKeepsAccounted(Next(bk, steps[0], ttl, maxRetries), steps[1..], end, ttl, maxRetries, all);
    }
  }

  /** For any handler outcomes, a message reaches the handler at most max_retries + 1 times and is
      always in exactly one place; waiting or acknowledged, its header is the number of its failed
      calls; it is dead-lettered only after max_retries + 1 failures. */
  lemma {:induction false} EveryMessageIsSettledInTime(start: Broker, steps: seq<Step>, end: Broker, ttl: nat, maxRetries: int, m: MessageId)
    requires Init(start) && m in start.main && Run(start, steps, end, ttl, maxRetries)
    ensures CallsOf(end.calls, m) <= Limit(maxRetries) + 1
    ensures CallsOf(end.calls, m) == Limit(maxRetries) + 1 ==> m in end.acked || m in end.dlq
    ensures InOnePlace(end, start.main.Keys)
    ensures m in end.main ==> FailuresOf(end.calls, m) == end.main[m].header == CallsOf(end.calls, m)
    ensures m in end.retry ==> FailuresOf(end.calls, m) == end.retry[m].header == CallsOf(end.calls, m)
    ensures m in end.acked ==> FailuresOf(end.calls, m) == end.acked[m].header == CallsOf(end.calls, m) - 1
    ensures m in end.dlq ==> FailuresOf(end.calls, m) == CallsOf(end.calls, m) == Limit(maxRetries) + 1
  {
    RunKeepsAccounted(start, steps, end, ttl, maxRetries, start.main.Keys);
    assert m in start.main.Keys;
  }

  lemma {:induction false} NextLeavesSettledAlone(bk: Broker, step: Step, ttl: nat, maxRetries: int, all: set<MessageId>, m: MessageId)
    requires InOnePlace(bk, all) && Enabled(bk, step) && (m in bk.acked || m in bk.dlq)
    ensures var next := Next(bk, step, ttl, maxRetries);
            && (m in bk.acked ==> m in next.acked && next.acked[m] == bk.acked[m])
            && (m in bk.dlq ==> m in next.dlq && next.dlq[m] == bk.dlq[m])
            && CallsOf(next.calls, m) == CallsOf(bk.calls, m)
  {
    if step.DeliverOne? {
      assert step.message != m;
      CountsAppend(bk.calls, Next(bk, step, ttl, maxRetries).calls[|bk.calls|], m);
    }
  }

  /** Acknowledged or dead-lettered, a message stays there and the handler never sees it again. */
  lemma {:induction false} SettledMessagesStaySettled(bk: Broker, steps: seq<Step>, end: Broker, ttl: nat, maxRetries: int,
                                                      all: set<MessageId>, m: MessageId)
    requires InOnePlace(bk, all) && Accounted(bk, maxRetries) && Run(bk, steps, end, ttl, maxRetries)
    requires m in bk.acked || m in bk.dlq
    ensures m in bk.acked ==> m in end.acked && end.acked[m] == bk.acked[m]
    ensures m in bk.dlq ==> m in end.dlq && end.dlq[m] == bk.dlq[m]
    ensures CallsOf(end.calls, m) == CallsOf(bk.calls, m)
    decreases |steps|
  {
    if steps != [] {
      var next := Next(bk, steps[0], ttl, maxRetries);
      NextKeepsAccounted(bk, steps[0], ttl, maxRetries, all);
      NextLeavesSettledAlone(bk, steps[0], ttl, maxRetries, all, m);
      SettledMessagesStaySettled(next, steps[1..], end, ttl, maxRetries, all, m);
    }
  }

  // ---- One event, however often it is delivered ----

  /** The log is in time order, and markers cover every start that is recent enough. */
  ghost predicate MarkersRemember(bk: Broker, ttl: nat) {
    && (forall i :: 0 <= i < |bk.calls| ==> bk.calls[i].time <= bk.now)
    && (forall i :: 0 <= i < |bk.calls| && bk.calls[i].started ==>
          bk.calls[i].event in bk.markers && bk.calls[i].time + ttl <= bk.markers[bk.calls[i].event])
  }

  ghost predicate StartsApart(calls: seq<Call>, ttl: nat) {
    forall i, j :: 0 <= i < j < |calls| && calls[i].event == calls[j].event && calls[i].started && calls[j].started
      ==> calls[i].time + ttl <= calls[j].time
  }

  lemma CallKeepsStartsApart(bk: Broker, c: Call, ttl: nat)
    requires MarkersRemember(bk, ttl) && StartsApart(bk.calls, ttl) && c.time == bk.now
    requires c.started ==> !Marked(bk.markers, bk.now, c.event)
    ensures StartsApart(bk.calls + [c], ttl)
  {
  }

  lemma DeliverKeepsMarkersRemember(bk: Broker, m: MessageId, bodyOk: bool, ttl: nat, maxRetries: int)
    requires MarkersRemember(bk, ttl) && m in bk.main
    ensures MarkersRemember(Deliver(bk, m, bodyOk, ttl, maxRetries), ttl)
  {
  }

  lemma {:induction false} RunKeepsStartsApart(bk: Broker, steps: seq<Step>, end: Broker, ttl: nat, maxRetries: int)
    requires MarkersRemember(bk, ttl) && StartsApart(bk.calls, ttl) && Run(bk, steps, end, ttl, maxRetries)
    ensures MarkersRemember(end, ttl) && StartsApart(end.calls, ttl)
    decreases |steps|
  {
    if steps != [] {
      if steps[0].DeliverOne? {
        var m, bodyOk := steps[0].message, steps[0].bodyOk;
        var (_, started, ok) := Handle(bk.markers, bk.now, ttl, bk.main[m].event, bodyOk);
        CallKeepsStartsApart(bk, Call(m, bk.main[m].event, bk.now, started, ok), ttl);
        DeliverKeepsMarkersRemember(bk, m, bodyOk, ttl, maxRetries);
      }
      RunKeepsStartsApart(Next(bk, steps[0], ttl, maxRetries), steps[1..], end, ttl, maxRetries);
    }
  }

  /** Any two starts of one event's effect are at least the marker's lifetime apart, over all
      copies and retries of its messages. */
  lemma {:induction false} EffectStartsOncePerMarker(start: Broker, steps: seq<Step>, end: Broker, ttl: nat, maxRetries: int)
    requires Init(start) && Run(start, steps, end, ttl, maxRetries)
    ensures StartsApart(end.calls, ttl)
  {
    RunKeepsStartsApart(start, steps, end, ttl, maxRetries);
  }

  /** A failure after the marker was set: the retry starts the effect again exactly when the marker
      has lapsed by then. Before that it skips the effect and is acknowledged, so the failure is not
      repaired: the effect runs at most once, never at least once. */
  lemma RetryStartsExactlyAfterTheMarker(bk: Broker, m: MessageId, ttl: nat, maxRetries: int, delay: nat, bodyOk: bool)
    requires m in bk.main && !Marked(bk.markers, bk.now, bk.main[m].event)
    requires bk.main[m].header < maxRetries
    ensures var failed := Deliver(bk, m, false, ttl, maxRetries);
            m in failed.retry && m !in failed.main &&
            var back := failed.(main := failed.main[m := failed.retry[m]], retry := failed.retry - {m}, now := failed.now + delay);
            var retried := Deliver(back, m, bodyOk, ttl, maxRetries);
            && (retried.calls[|bk.calls| + 1].started <==> delay >= ttl)
            && (m in retried.acked <==> delay < ttl || bodyOk || m in bk.acked)
  {
  }
}
