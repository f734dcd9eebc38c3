/** The gateway's fixed-window rate limiter (gateway-service/app/middleware.py). Times are
    milliseconds since the epoch. */
module RateLimiter {
  import opened Options

  type Millis = int

  const MINUTE := 60000
  const COUNTER_TTL := 70000

  datatype Request = Request(path: string, user: Option<string>, ip: string, time: Millis)

  /** rl:{identity}:{epoch_minute} */
  datatype Key = Key(identity: string, minute: int)

  datatype Counter = Counter(count: nat, deadline: Millis)

  predicate Exempt(path: string) {
    path in ["/docs", "/openapi.json", "/health"] || "/docs/" <= path
  }

  function Identity(r: Request): string {
    if r.user.Some? && r.user.value != "" then "user:" + r.user.value else "ip:" + r.ip
  }

  function EpochMinute(time: Millis): int {
    time / MINUTE
  }

  function KeyOf(r: Request): Key {
    Key(Identity(r), EpochMinute(r.time))
  }

  /** INCR: an expired counter starts again from zero. */
  function CountOf(counters: map<Key, Counter>, key: Key, now: Millis): nat {
    if key in counters && now < counters[key].deadline then counters[key].count else 0
  }

  function Bump(counters: map<Key, Counter>, r: Request): map<Key, Counter> {
    var key := KeyOf(r);
    var count := CountOf(counters, key, r.time) + 1;
    counters[key := Counter(count, if count == 1 then r.time + COUNTER_TTL else counters[key].deadline)]
  }

  function Dispatch(counters: map<Key, Counter>, r: Request, maxPerMinute: int): (map<Key, Counter>, bool) {
    if Exempt(r.path) then (counters, true)
    else (Bump(counters, r), CountOf(counters, KeyOf(r), r.time) + 1 <= maxPerMinute)
  }

  class Limiter {
    var counters: map<Key, Counter>
    const maxPerMinute: int

    constructor (maxPerMinute: int)
      ensures counters == map[] && this.maxPerMinute == maxPerMinute
    {
      counters, this.maxPerMinute := map[], maxPerMinute;
    }

    method Admit(r: Request) returns (admitted: bool)
      modifies this
      ensures (counters, admitted) == Dispatch(old(counters), r, maxPerMinute)
    {
      if Exempt(r.path) {
        return true;
      }
      var key := KeyOf(r);
      var count := if key in counters && r.time < counters[key].deadline then counters[key].count + 1 else 1;
      var deadline := if count == 1 then r.time + COUNTER_TTL else counters[key].deadline;
      counters := counters[key := Counter(count, deadline)];
      admitted := count <= maxPerMinute;
    }
  }

  // ---- Traces ----

  /** The counters after a trace that started with none. */
  function After(trace: seq<Request>, maxPerMinute: int): map<Key, Counter> {
    if trace == [] then map[]
    else Dispatch(After(trace[..|trace| - 1], maxPerMinute), trace[|trace| - 1], maxPerMinute).0
  }

  /** Whether the last request of the trace is admitted. */
  predicate LastAdmitted(trace: seq<Request>, maxPerMinute: int)
    requires trace != []
  {
    Dispatch(After(trace[..|trace| - 1], maxPerMinute), trace[|trace| - 1], maxPerMinute).1
  }

  predicate Counted(r: Request, key: Key) {
    !Exempt(r.path) && KeyOf(r) == key
  }

  function Requests(trace: seq<Request>, key: Key): nat {
    if trace == [] then 0
    else Requests(trace[..|trace| - 1], key) + if Counted(trace[|trace| - 1], key) then 1 else 0
  }

  function Admitted(trace: seq<Request>, key: Key, maxPerMinute: int): nat {
    if trace == [] then 0
    else
      Admitted(trace[..|trace| - 1], key, maxPerMinute)
      + if Counted(trace[|trace| - 1], key) && LastAdmitted(trace, maxPerMinute) then 1 else 0
  }

  predicate InWindow(r: Request, identity: string, from: Millis) {
    !Exempt(r.path) && Identity(r) == identity && from <= r.time < from + 60000
  }

  function AdmittedInWindow(trace: seq<Request>, identity: string, from: Millis, maxPerMinute: int): nat {
    if trace == [] then 0
    else
      AdmittedInWindow(trace[..|trace| - 1], identity, from, maxPerMinute)
      + if InWindow(trace[|trace| - 1], identity, from) && LastAdmitted(trace, maxPerMinute) then 1 else 0
  }

  // ---- Which requests share a counter ----

  /** Requests share a counter exactly when they fall in one minute since the epoch and come from one
      user, or both from no user and from one address. */
  lemma SharesCounterExactly(r: Request, q: Request)
    ensures KeyOf(r) == KeyOf(q) <==>
            && r.time / 60000 == q.time / 60000
            && var known, known' := r.user.Some? && r.user.value != "", q.user.Some? && q.user.value != "";
            if known && known' then r.user == q.user else !known && !known' && r.ip == q.ip
  {
    assert "user:"[0] == 'u' && "ip:"[0] == 'i';
    assert Identity(r)[0] == (if r.user.Some? && r.user.value != "" then 'u' else 'i');
    assert Identity(q)[0] == (if q.user.Some? && q.user.value != "" then 'u' else 'i');
    if r.user.Some? && q.user.Some? {
      PrefixCancels("user:", r.user.value, q.user.value);
    }
    PrefixCancels("ip:", r.ip, q.ip);
  }

  lemma PrefixCancels(prefix: string, a: string, b: string)
    ensures prefix + a == prefix + b <==> a == b
  {
    assert (prefix + a)[|prefix|..] == a && (prefix + b)[|prefix|..] == b;
  }

  /** A request is counted unless it asks for the documentation, the schema or the health check, and
      one that is not counted always passes. */
  lemma UncountedExactly(counters: map<Key, Counter>, r: Request, maxPerMinute: int)
    ensures var (after, admitted) := Dispatch(counters, r, maxPerMinute);
            && (after == counters <==> r.path == "/docs" || r.path == "/openapi.json" || r.path == "/health" || "/docs/" <= r.path)
            && (after == counters ==> admitted)
  {
    if !Exempt(r.path) {
      var key := KeyOf(r);
      assert Bump(counters, r)[key] != if key in counters then counters[key] else Counter(0, 0);
    }
  }

  lemma MinuteContains(time: Millis)
    ensures EpochMinute(time) * MINUTE <= time < EpochMinute(time) * MINUTE + MINUTE
  {
  }

  /** The counter of a minute counts that minute's requests and outlives the minute: no request of
      the minute ever finds it expired. */
  lemma {:induction false} CounterIsExactAndOutlivesItsMinute(trace: seq<Request>, key: Key, maxPerMinute: int)
    ensures var counters := After(trace, maxPerMinute);
            if Requests(trace, key) == 0 then key !in counters
            else && key in counters && counters[key].count == Requests(trace, key)
                 && key.minute * 60000 <= counters[key].deadline - 70000 < key.minute * 60000 + 60000
  {
    if trace != [] {
      CounterIsExactAndOutlivesItsMinute(trace[..|trace| - 1], key, maxPerMinute);
      MinuteContains(trace[|trace| - 1].time);
    }
  }

  /** In an epoch minute exactly the first max_per_minute requests of an identity are admitted. */
  lemma {:induction false} MinuteAdmitsExactly(trace: seq<Request>, key: Key, maxPerMinute: int)
    ensures Admitted(trace, key, maxPerMinute)
            == if maxPerMinute < 0 then 0 else if Requests(trace, key) <= maxPerMinute then Requests(trace, key) else maxPerMinute
  {
    if trace != [] {
      var init, last := trace[..|trace| - 1], trace[|trace| - 1];
      MinuteAdmitsExactly(init, key, maxPerMinute);
      CounterIsExactAndOutlivesItsMinute(init, key, maxPerMinute);
      MinuteContains(last.time);
    }
  }

  /** A 60-second window touches at most two epoch minutes. */
  lemma WindowTouchesTwoMinutes(from: Millis, time: Millis)
    requires from <= time < from + MINUTE
    ensures EpochMinute(time) == EpochMinute(from) || EpochMinute(time) == EpochMinute(from) + 1
  {
  }

  lemma {:induction false} WindowSplitsOverMinutes(trace: seq<Request>, identity: string, from: Millis, maxPerMinute: int)
    ensures AdmittedInWindow(trace, identity, from, maxPerMinute)
            <= Admitted(trace, Key(identity, EpochMinute(from)), maxPerMinute)
               + Admitted(trace, Key(identity, EpochMinute(from) + 1), maxPerMinute)
  {
    if trace != [] {
      var last := trace[|trace| - 1];
      WindowSplitsOverMinutes(trace[..|trace| - 1], identity, from, maxPerMinute);
      if InWindow(last, identity, from) {
        WindowTouchesTwoMinutes(from, last.time);
      }
    }
  }

  /** In any 60-second window of any trace at most 2 * max_per_minute requests of an identity pass. */
  lemma {:induction false} SlidingWindowBound(trace: seq<Request>, identity: string, from: Millis, maxPerMinute: nat)
    ensures AdmittedInWindow(trace, identity, from, maxPerMinute) <= 2 * maxPerMinute
  {
    WindowSplitsOverMinutes(trace, identity, from, maxPerMinute);
    MinuteAdmitsExactly(trace, Key(identity, EpochMinute(from)), maxPerMinute);
    MinuteAdmitsExactly(trace, Key(identity, EpochMinute(from) + 1), maxPerMinute);
  }

  // ---- The bound is attained ----

  /** n requests at the last instant of a minute, then n at the first instant of the next. */
  function Burst(r: Request, n: nat, first: Millis): seq<Request> {
    seq(n, _ => r.(time := first)) + seq(n, _ => r.(time := first + 1))
  }

  lemma {:induction false} RequestsInUniformTrace(trace: seq<Request>, k: nat, n: nat, r: Request, first: Millis)
    requires !Exempt(r.path) && EpochMinute(first + 1) == EpochMinute(first) + 1
    requires k <= 2 * n && trace == Burst(r, n, first)[..k]
    ensures Requests(trace, KeyOf(r.(time := first))) == if k <= n then k else n
    ensures Requests(trace, KeyOf(r.(time := first + 1))) == if k <= n then 0 else k - n
    decreases k
  {
    if k > 0 {
      var init := trace[..|trace| - 1];
      assert init == Burst(r, n, first)[..k - 1];
      RequestsInUniformTrace(init, k - 1, n, r, first);
      assert trace[k - 1] == if k <= n then r.(time := first) else r.(time := first + 1);
    }
  }

  lemma {:induction false} WindowCoversBothMinutes(trace: seq<Request>, identity: string, from: Millis, maxPerMinute: int)
    requires forall i :: 0 <= i < |trace| ==> InWindow(trace[i], identity, from)
    ensures AdmittedInWindow(trace, identity, from, maxPerMinute)
            == Admitted(trace, Key(identity, EpochMinute(from)), maxPerMinute)
               + Admitted(trace, Key(identity, EpochMinute(from) + 1), maxPerMinute)
  {
    if trace != [] {
      WindowCoversBothMinutes(trace[..|trace| - 1], identity, from, maxPerMinute);
      assert InWindow(trace[|trace| - 1], identity, from);
      WindowTouchesTwoMinutes(from, trace[|trace| - 1].time);
    }
  }

  /** Around the turn of any minute 2 * max_per_minute requests do pass within 60 seconds. */
  lemma {:induction false} SlidingWindowBoundIsAttained(r: Request, maxPerMinute: nat, minute: int)
    requires !Exempt(r.path)
    ensures var first := minute * MINUTE + MINUTE - 1;
            AdmittedInWindow(Burst(r, maxPerMinute, first), Identity(r), first, maxPerMinute) == 2 * maxPerMinute
  {
    var first := minute * MINUTE + MINUTE - 1;
    var trace := Burst(r, maxPerMinute, first);
    assert EpochMinute(first) == minute && EpochMinute(first + 1) == minute + 1;
    assert trace[..2 * maxPerMinute] == trace;
    RequestsInUniformTrace(trace, 2 * maxPerMinute, maxPerMinute, r, first);
    WindowCoversBothMinutes(trace, Identity(r), first, maxPerMinute);
    MinuteAdmitsExactly(trace, Key(Identity(r), minute), maxPerMinute);
    MinuteAdmitsExactly(trace, Key(Identity(r), minute + 1), maxPerMinute);
  }
}
