/** Reservations in Redis: one TTL'd key per booking, one TTL'd id set per handyman and
    one sorted set that drives the expiry worker (availability-service/app/reservations.py). */
module Reservations {
  import opened Intervals
  import opened Events
  import opened Options

  const RES_TTL_SECONDS := 300
  const INDEX_SLACK_SECONDS := 30

  datatype Keyed = Keyed(request: Request, deadline: Instant)

  datatype IndexSet = IndexSet(ids: set<BookingId>, deadline: Instant)

  /** A key or set whose deadline has passed is gone, whether or not it is still in the map. */
  datatype Store = Store(keys: map<BookingId, Keyed>, index: map<Email, IndexSet>, expiry: map<BookingId, Instant>)

  predicate Live(st: Store, now: Instant, b: BookingId) {
    b in st.keys && now < st.keys[b].deadline
  }

  /** get_reservation */
  function Get(st: Store, now: Instant, b: BookingId): Option<Request> {
    if Live(st, now, b) then Some(st.keys[b].request) else None
  }

  /** SMEMBERS of the handyman's set. */
  function Members(st: Store, now: Instant, h: Email): set<BookingId> {
    if h in st.index && now < st.index[h].deadline then st.index[h].ids else {}
  }

  /** The overlap that the loop of create_reservation looks for: only ids in the handyman's set are read. */
  predicate IndexShowsConflict(st: Store, now: Instant, r: Request) {
    exists c :: c in Members(st, now, r.handyman) && Live(st, now, c) && Overlaps(st.keys[c].request.window, r.window)
  }

  /** The pipeline at the end of create_reservation. */
  function Insert(st: Store, now: Instant, b: BookingId, r: Request): Store {
    Store(
      st.keys[b := Keyed(r, now + RES_TTL_SECONDS)],
      st.index[r.handyman := IndexSet(Members(st, now, r.handyman) + {b}, now + RES_TTL_SECONDS + INDEX_SLACK_SECONDS)],
      st.expiry[b := now + RES_TTL_SECONDS])
  }

  function Create(st: Store, now: Instant, b: BookingId, r: Request): (Store, bool) {
    if IndexShowsConflict(st, now, r) then (st, false) else (Insert(st, now, b, r), true)
  }

  /** delete_reservation: the id is taken out of the handyman's set only while the key is readable. */
  function Delete(st: Store, now: Instant, b: BookingId): Store {
    Store(st.keys - {b}, IndexWithout(st, now, b), st.expiry - {b})
  }

  function IndexWithout(st: Store, now: Instant, b: BookingId): map<Email, IndexSet> {
    match Get(st, now, b)
    case None => st.index
    case Some(r) =>
      if r.handyman in st.index
      then st.index[r.handyman := st.index[r.handyman].(ids := st.index[r.handyman].ids - {b})]
      else st.index
  }

  // ---- Invariants ----

  /** Every key has its expiry entry with the same deadline, and belongs to an issued booking. */
  ghost predicate KeysMatchExpiry(st: Store, now: Instant, issued: seq<Request>) {
    && st.keys.Keys == st.expiry.Keys
    && forall b :: b in st.keys ==>
         && st.expiry[b] == st.keys[b].deadline <= now + RES_TTL_SECONDS
         && b < |issued| && st.keys[b].request == issued[b]
         && issued[b].window.Nonempty()
  }

  /** An id set only ever holds bookings of its handyman. It may hold stale ids. */
  ghost predicate IndexOwned(st: Store, issued: seq<Request>) {
    forall h, b: BookingId :: Indexed(st, h, b) ==> b < |issued| && issued[b].handyman == h
  }

  predicate Indexed(st: Store, h: Email, b: BookingId) {
    h in st.index && b in st.index[h].ids
  }

  /** A live reservation is in its handyman's set, and the set outlives it. */
  ghost predicate IndexOutlives(st: Store, now: Instant) {
    forall b: BookingId :: Live(st, now, b) ==>
      var h := st.keys[b].request.handyman;
      && Indexed(st, h, b)
      && st.index[h].deadline >= st.keys[b].deadline + INDEX_SLACK_SECONDS
  }

  ghost predicate Consistent(st: Store, now: Instant, issued: seq<Request>) {
    KeysMatchExpiry(st, now, issued) && IndexOwned(st, issued) && IndexOutlives(st, now)
  }

  /** The naive scan: some live reservation of the handyman overlaps the request. */
  ghost predicate ScanShowsConflict(st: Store, now: Instant, r: Request) {
    exists c: BookingId :: Live(st, now, c) && st.keys[c].request.handyman == r.handyman
                && Overlaps(st.keys[c].request.window, r.window)
  }

  /** No two live reservations of one handyman overlap. */
  ghost predicate LiveReservationsDisjoint(st: Store, now: Instant) {
    forall b: BookingId, c: BookingId :: Live(st, now, b) && Live(st, now, c) && b != c
      && st.keys[b].request.handyman == st.keys[c].request.handyman
      ==> !Overlaps(st.keys[b].request.window, st.keys[c].request.window)
  }

  /** Reading only the TTL'd id set gives the same answer as scanning every live reservation:
      nothing live is missed and no stale id causes a refusal. */
  lemma IndexScanIsExact(st: Store, now: Instant, issued: seq<Request>, r: Request)
    requires Consistent(st, now, issued)
    ensures IndexShowsConflict(st, now, r) <==> ScanShowsConflict(st, now, r)
  {
    if ScanShowsConflict(st, now, r) {
      var c: BookingId :| Live(st, now, c) && st.keys[c].request.handyman == r.handyman
               && Overlaps(st.keys[c].request.window, r.window);
      assert c in Members(st, now, r.handyman);
    }
    if IndexShowsConflict(st, now, r) {
      var c :| c in Members(st, now, r.handyman) && Live(st, now, c) && Overlaps(st.keys[c].request.window, r.window);
      assert Indexed(st, r.handyman, c);
    }
  }

  /** create_reservation answers True exactly when the naive scan finds no overlap, and then
      every live reservation of the handyman, old and new, is disjoint from every other. */
  lemma CreateIsExact(st: Store, now: Instant, issued: seq<Request>, b: BookingId, r: Request)
    requires Consistent(st, now, issued) && LiveReservationsDisjoint(st, now)
    requires b < |issued| && issued[b] == r && r.window.Nonempty()
    ensures Create(st, now, b, r).1 <==> !ScanShowsConflict(st, now, r)
    ensures Consistent(Create(st, now, b, r).0, now, issued)
    ensures LiveReservationsDisjoint(Create(st, now, b, r).0, now)
    ensures forall c: BookingId :: c != b ==> (Live(Create(st, now, b, r).0, now, c) <==> Live(st, now, c))
  {
    IndexScanIsExact(st, now, issued, r);
    if !IndexShowsConflict(st, now, r) {
      InsertKeepsConsistent(st, now, issued, b, r);
      InsertKeepsDisjoint(st, now, b, r);
    }
  }

  lemma InsertKeepsDisjoint(st: Store, now: Instant, b: BookingId, r: Request)
    requires LiveReservationsDisjoint(st, now) && !ScanShowsConflict(st, now, r)
    ensures LiveReservationsDisjoint(Insert(st, now, b, r), now)
  {
    var st' := Insert(st, now, b, r);
    assert forall c: BookingId :: c != b && Live(st', now, c) ==> Live(st, now, c) && st'.keys[c] == st.keys[c];
  }

  lemma InsertKeepsConsistent(st: Store, now: Instant, issued: seq<Request>, b: BookingId, r: Request)
    requires Consistent(st, now, issued)
    requires b < |issued| && issued[b] == r && r.window.Nonempty()
    ensures Consistent(Insert(st, now, b, r), now, issued)
  {
    var st' := Insert(st, now, b, r);
    assert forall h, c: BookingId :: Indexed(st', h, c) ==> Indexed(st, h, c) || (h == r.handyman && c == b);
    forall c: BookingId | Live(st', now, c)
      ensures var h := st'.keys[c].request.handyman;
              && Indexed(st', h, c)
              && st'.index[h].deadline >= st'.keys[c].deadline + INDEX_SLACK_SECONDS
    {
      if c != b {
        assert Live(st, now, c);
        assert c in Members(st, now, st.keys[c].request.handyman);
      }
    }
  }

  lemma DeleteKeepsConsistent(st: Store, now: Instant, issued: seq<Request>, b: BookingId)
    requires Consistent(st, now, issued)
    ensures Consistent(Delete(st, now, b), now, issued)
    ensures b !in Delete(st, now, b).keys && b !in Delete(st, now, b).expiry
    ensures Live(st, now, b) ==> forall h :: !Indexed(Delete(st, now, b), h, b)
    ensures forall c: BookingId :: c != b ==>
              && (c in Delete(st, now, b).keys <==> c in st.keys)
              && (c in st.keys ==> Delete(st, now, b).keys[c] == st.keys[c])
  {
    var st' := Delete(st, now, b);
    assert forall h, c: BookingId :: Indexed(st', h, c) ==> Indexed(st, h, c);
    forall c: BookingId | Live(st', now, c)
      ensures var h := st'.keys[c].request.handyman;
              && Indexed(st', h, c)
              && st'.index[h].deadline >= st'.keys[c].deadline + INDEX_SLACK_SECONDS
    {
      assert Live(st, now, c);
    }
  }

  lemma TimePassingKeepsConsistent(st: Store, now: Instant, later: Instant, issued: seq<Request>)
    requires Consistent(st, now, issued) && now <= later
    ensures Consistent(st, later, issued)
  {
    forall b: BookingId | Live(st, later, b)
      ensures Live(st, now, b)
    {
    }
  }

  lemma IssuingKeepsConsistent(st: Store, now: Instant, issued: seq<Request>, r: Request)
    requires Consistent(st, now, issued)
    ensures Consistent(st, now, issued + [r])
  {
    assert forall b: BookingId :: b < |issued| ==> (issued + [r])[b] == issued[b];
  }

  // ---- Calling create_reservation twice ----

  /** After a call that stored the reservation, only its own key stands in the way of a repeat. */
  lemma RepeatAfterSuccess(st: Store, now: Instant, later: Instant, issued: seq<Request>, b: BookingId, r: Request)
    requires Consistent(st, now, issued) && b < |issued| && issued[b] == r && r.window.Nonempty() && now <= later
    requires !ScanShowsConflict(st, now, r)
    ensures Create(Insert(st, now, b, r), later, b, r).1 <==> later >= now + RES_TTL_SECONDS
  {
    var st' := Insert(st, now, b, r);
    InsertKeepsConsistent(st, now, issued, b, r);
    TimePassingKeepsConsistent(st', now, later, issued);
    IndexScanIsExact(st', later, issued, r);
    if later < now + RES_TTL_SECONDS {
      assert Live(st', later, b) && Overlaps(st'.keys[b].request.window, r.window);
    } else {
      assert forall c: BookingId :: !Live(st', later, c);
    }
  }

  /** The docstring calls create_reservation idempotent. A repeat gives the same answer exactly when
      the first call was refused and the conflict is still there, or the first call stored the
      reservation and its 300 seconds are over: until then the booking conflicts with itself. */
  lemma RepeatAgreesExactly(st: Store, now: Instant, later: Instant, issued: seq<Request>, b: BookingId, r: Request)
    requires Consistent(st, now, issued) && b < |issued| && issued[b] == r && r.window.Nonempty() && now <= later
    ensures Create(Create(st, now, b, r).0, later, b, r).1 == Create(st, now, b, r).1 <==>
            if ScanShowsConflict(st, now, r) then ScanShowsConflict(st, later, r) else later >= now + RES_TTL_SECONDS
  {
    IndexScanIsExact(st, now, issued, r);
    if ScanShowsConflict(st, now, r) {
      TimePassingKeepsConsistent(st, now, later, issued);
      IndexScanIsExact(st, later, issued, r);
    } else {
      RepeatAfterSuccess(st, now, later, issued, b, r);
    }
  }
}
