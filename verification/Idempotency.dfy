/** The markers that let a consumer recognize an event it has handled before
    (shared/shared/idempotency.py). A marker whose deadline has passed is gone. */
module Idempotency {

  type Markers = map<nat, int>

  /** IDEMPOTENCY_TTL of the consumers, in seconds. */
  const IDEMPOTENCY_TTL := 3600

  predicate Marked(markers: Markers, now: int, eid: nat) {
    eid in markers && now < markers[eid]
  }

  function Mark(markers: Markers, now: int, ttl: nat, eid: nat): Markers {
    markers[eid := now + ttl]
  }
}
