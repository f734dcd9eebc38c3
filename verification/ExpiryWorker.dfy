/** How fast the expiry worker (availability-service/app/expiry_worker.py) clears the entries that
    are due: each pass takes at most 50, the oldest first. */
module ExpiryWorker {
  import opened Intervals
  import opened Events
  import opened Protocol
  import opened ReservationLedger
  import R = Reservations
  import A = Availability

  /** The entries whose time is up at T. */
  function DueBy(s: System, T: Instant): set<BookingId> {
    set b | b in s.av.res.expiry && s.av.res.expiry[b] <= T
  }

  function Members(due: seq<BookingId>): set<BookingId> {
    set b | b in due
  }

  lemma {:induction false} DistinctMembers(due: seq<BookingId>)
    requires forall i, j :: 0 <= i < j < |due| ==> due[i] != due[j]
    ensures |Members(due)| == |due|
  {
    if due != [] {
      var init, last := due[..|due| - 1], due[|due| - 1];
      DistinctMembers(init);
      assert Members(due) == Members(init) + {last};
    }
  }

  /** No step adds an entry that is due already: new entries are due 300 seconds later. */
  lemma NextAddsNothingDue(s: System, a: Action, T: Instant)
    requires Enabled(s, a) && T <= s.now
    ensures DueBy(Next(s, a), T) <= DueBy(s, T)
  {
    forall b | b in DueBy(Next(s, a), T)
      ensures b in DueBy(s, T)
    {
      EntriesComeFromGrants(s, a, b);
    }
  }

  lemma {:induction false} PassRemovesBatch(av: A.AvState, now: Instant, due: seq<BookingId>)
    ensures forall b :: b in due ==> b !in A.ExpireAll(av, now, due).res.expiry
  {
    if due != [] {
      PassRemovesBatch(av, now, due[..|due| - 1]);
    }
  }

  /** A pass clears 50 of the entries due by T, or all of them. */
  lemma PassClearsABatch(s: System, due: seq<BookingId>, T: Instant)
    requires Enabled(s, ExpiryPass(due)) && T <= s.now
    ensures var left := DueBy(Next(s, ExpiryPass(due)), T);
            left == {} || |left| + 50 <= |DueBy(s, T)|
  {
    var left := DueBy(Next(s, ExpiryPass(due)), T);
    NextAddsNothingDue(s, ExpiryPass(due), T);
    PassRemovesBatch(s.av, s.now, due);
    if b :| b in left {
      assert b in s.av.res.expiry && s.av.res.expiry[b] <= s.now && b !in due;
      assert Members(due) <= DueBy(s, T);
      DistinctMembers(due);
      BatchAndRest(left, Members(due), DueBy(s, T));
    }
  }

  lemma BatchAndRest(left: set<BookingId>, batch: set<BookingId>, all: set<BookingId>)
    requires left <= all && batch <= all && left !! batch
    ensures |left| + |batch| <= |all|
  {
    assert |left + batch| == |left| + |batch|;
    SubsetIsSmaller(left + batch, all);
  }

  lemma SubsetIsSmaller(small: set<BookingId>, large: set<BookingId>)
    requires small <= large
    ensures |small| <= |large|
  {
    assert small + (large - small) == large;
  }

  function Passes(actions: seq<Action>): nat {
    if actions == [] then 0 else (if actions[0].ExpiryPass? then 1 else 0) + Passes(actions[1..])
  }

  lemma {:induction false} EnoughPassesClear(allowed: (System, Action) -> bool, s: System, actions: seq<Action>, t: System, T: Instant)
    requires Run(allowed, s, actions, t) && T <= s.now
    requires |DueBy(s, T)| < 50 * Passes(actions) || DueBy(s, T) == {}
    ensures DueBy(t, T) == {}
    decreases |actions|
  {
    if actions != [] {
      NextAddsNothingDue(s, actions[0], T);
      SubsetIsSmaller(DueBy(Next(s, actions[0]), T), DueBy(s, T));
      if actions[0].ExpiryPass? {
        PassClearsABatch(s, actions[0].due, T);
      }
      EnoughPassesClear(allowed, Next(s, actions[0]), actions[1..], t, T);
    }
  }

  /** Whatever else happens in between, n entries that are due are all gone after n div 50 + 1 passes. */
  lemma {:induction false} DueEntriesAreGoneInTime(s: System, actions: seq<Action>, t: System)
    requires Run(Anything, s, actions, t)
    requires Passes(actions) >= |DueBy(s, s.now)| / 50 + 1
    ensures forall b :: b in t.av.res.expiry ==> t.av.res.expiry[b] > s.now
  {
    EnoughPassesClear(Anything, s, actions, t, s.now);
    forall b | b in t.av.res.expiry
      ensures t.av.res.expiry[b] > s.now
    {
      assert b !in DueBy(t, s.now);
    }
  }
}
