/** The match service's event consumer (match-service/app/event_consumer.py): it updates the
    projections and then drops every cached result near the profiles involved. */
module MatchEvents {
  import opened Intervals
  import opened Options
  import opened Idempotency
  import opened MatchCache
  import opened MatchProjections
  import Text

  type EventId = nat

  /** A field of an event's data may be missing; present, it may still be null. */
  datatype Field<+T> = Absent | Present(value: T)

  datatype Doc = Doc(skills: Field<seq<string>>, radius: Field<Option<real>>, lat: Field<Option<real>>, lon: Field<Option<real>>)

  datatype Event =
    | AvailabilityUpdated(eid: EventId, email: Email, slots: seq<Window>)
    | HandymanCreated(eid: EventId, email: Email, doc: Doc)
    | HandymanUpdated(eid: EventId, email: Email, doc: Doc)
    | HandymanDeleted(eid: EventId, email: Email)

  datatype MatchState = MatchState(pr: Projections, cache: Cache, processed: map<EventId, Instant>)

  /** The size of a grid cell, and the half-width in degrees of longitude for a radius at a latitude. */
  datatype Geometry = Geometry(grid: real, lonHalf: (real, real) -> real)

  function GetOr<T>(f: Field<T>, default: T): T {
    if f.Present? then f.value else default
  }

  const NO_PROFILE := Profile([], None, None, None)

  /** dict(old or {}) updated with the event's data; an absent old profile has no fields. */
  function Merge(prior: Profile, doc: Doc): Profile {
    Profile(GetOr(doc.skills, prior.skills), GetOr(doc.radius, prior.radius), GetOr(doc.lat, prior.lat), GetOr(doc.lon, prior.lon))
  }

  function ProfileOf(pr: Projections, email: Email): Option<Profile> {
    if email != "" && email in pr.handymen then Some(pr.handymen[email]) else None
  }

  // ---- Cells ----

  /** The cells of one row in the columns [west, east). */
  function Row(lat: int, west: int, east: int): seq<(int, int)>
    decreases east - west
  {
    if east <= west then [] else Row(lat, west, east - 1) + [(lat, east - 1)]
  }

  /** The cells of the rows [south, north). */
  function Rows(south: int, north: int, west: int, east: int): seq<(int, int)>
    decreases north - south
  {
    if north <= south then [] else Rows(south, north - 1, west, east) + Row(north - 1, west, east)
  }

  function LatHalf(radius: real): real {
    radius / 111.0
  }

  ghost predicate ValidGeometry(g: Geometry) {
    g.grid > 0.0
  }

  /** buckets_in_radius */
  function Cells(lat: real, lon: real, radius: real, g: Geometry): seq<(int, int)>
    requires ValidGeometry(g)
  {
    var dLat, dLon := LatHalf(radius), g.lonHalf(radius, lat);
    var south, north := Cell(lat - dLat, g.grid), Cell(lat + dLat, g.grid);
    var west, east := Cell(lon - dLon, g.grid), Cell(lon + dLon, g.grid);
    Rows(south, north + 1, west, east + 1)
  }

  predicate InBox(x: real, y: real, lat: real, lon: real, radius: real, g: Geometry) {
    && lat - radius / 111.0 <= x <= lat + radius / 111.0
    && lon - g.lonHalf(radius, lat) <= y <= lon + g.lonHalf(radius, lat)
  }

  lemma {:induction false} RowMembers(lat: int, west: int, east: int, a: int, b: int)
    ensures (a, b) in Row(lat, west, east) <==> a == lat && west <= b < east
    decreases east - west
  {
    if west < east {
      RowMembers(lat, west, east - 1, a, b);
    }
  }

  lemma {:induction false} RowsMembers(south: int, north: int, west: int, east: int, a: int, b: int)
    ensures (a, b) in Rows(south, north, west, east) <==> south <= a < north && west <= b < east
    decreases north - south
  {
    if south < north {
      RowsMembers(south, north - 1, west, east, a, b);
      RowMembers(north - 1, west, east, a, b);
    }
  }

  lemma ListedCells(a: int, b: int, lat: real, lon: real, radius: real, g: Geometry)
    requires ValidGeometry(g)
    ensures var dLat, dLon := LatHalf(radius), g.lonHalf(radius, lat);
            (a, b) in Cells(lat, lon, radius, g) <==>
            && Cell(lat - dLat, g.grid) <= a <= Cell(lat + dLat, g.grid)
            && Cell(lon - dLon, g.grid) <= b <= Cell(lon + dLon, g.grid)
  {
    var dLat, dLon := LatHalf(radius), g.lonHalf(radius, lat);
    RowsMembers(Cell(lat - dLat, g.grid), Cell(lat + dLat, g.grid) + 1, Cell(lon - dLon, g.grid), Cell(lon + dLon, g.grid) + 1, a, b);
  }

  lemma CellWithin(low: real, x: real, high: real, grid: real)
    requires grid > 0.0 && low <= x <= high
    ensures Cell(low, grid) <= Cell(x, grid) <= Cell(high, grid)
  {
    CellMonotone(low, x, grid);
    CellMonotone(x, high, grid);
  }

  /** The cell of every point of the box is listed. */
  lemma BoxPointsAreListed(x: real, y: real, lat: real, lon: real, radius: real, g: Geometry)
    requires ValidGeometry(g) && InBox(x, y, lat, lon, radius, g)
    ensures (Cell(x, g.grid), Cell(y, g.grid)) in Cells(lat, lon, radius, g)
  {
    CellWithin(lat - LatHalf(radius), x, lat + LatHalf(radius), g.grid);
    CellWithin(lon - g.lonHalf(radius, lat), y, lon + g.lonHalf(radius, lat), g.grid);
    ListedCells(Cell(x, g.grid), Cell(y, g.grid), lat, lon, radius, g);
  }

  /** Every listed cell holds a point of the box, unless the box is empty. */
  lemma ListedCellsMeetTheBox(cell: (int, int), lat: real, lon: real, radius: real, g: Geometry) returns (x: real, y: real)
    requires ValidGeometry(g) && radius >= 0.0 && g.lonHalf(radius, lat) >= 0.0 && cell in Cells(lat, lon, radius, g)
    ensures InBox(x, y, lat, lon, radius, g) && cell == (Cell(x, g.grid), Cell(y, g.grid))
  {
    var dLat, dLon := LatHalf(radius), g.lonHalf(radius, lat);
    var (a, b) := cell;
    ListedCells(a, b, lat, lon, radius, g);
    x := CellsBetweenAreMet(lat - dLat, lat + dLat, a, g.grid);
    y := CellsBetweenAreMet(lon - dLon, lon + dLon, b, g.grid);
  }

  // ---- Invalidation ----

  function ClearCells(c: Cache, now: Instant, mode: Mode, skill: string, cells: seq<(int, int)>): Cache {
    if cells == [] then c
    else
      var last := cells[|cells| - 1];
      Invalidate(ClearCells(c, now, mode, skill, cells[..|cells| - 1]), now, Bucket(mode, skill, last.0, last.1))
  }

  function ClearSkill(c: Cache, now: Instant, skill: string, cells: seq<(int, int)>): Cache {
    ClearCells(ClearCells(c, now, Strict, skill, cells), now, Degraded, skill, cells)
  }

  function ClearSkills(c: Cache, now: Instant, skills: seq<string>, cells: seq<(int, int)>): Cache {
    if skills == [] then c
    else ClearSkill(ClearSkills(c, now, skills[..|skills| - 1], cells), now, skills[|skills| - 1], cells)
  }

  /** _invalidate_for_handyman_profile */
  function ClearProfile(c: Cache, now: Instant, p: Option<Profile>, g: Geometry): Cache
    requires ValidGeometry(g)
  {
    if p.None? || p.value.lat.None? || p.value.lon.None? || p.value.radius.None? then c
    else ClearSkills(c, now, NormAll(p.value.skills), Cells(p.value.lat.value, p.value.lon.value, p.value.radius.value, g))
  }

  lemma {:induction false} ClearCellsIsExact(c: Cache, now: Instant, mode: Mode, skill: string, cells: seq<(int, int)>)
    requires Indexed(c, now)
    ensures Indexed(ClearCells(c, now, mode, skill, cells), now)
    ensures forall key :: Hit(ClearCells(c, now, mode, skill, cells), now, key) <==>
              Hit(c, now, key) && !(key.bucket.mode == mode && key.bucket.skill == skill && (key.bucket.lat, key.bucket.lon) in cells)
  {
    if cells != [] {
      var init, last := cells[..|cells| - 1], cells[|cells| - 1];
      var before := ClearCells(c, now, mode, skill, init);
      ClearCellsIsExact(c, now, mode, skill, init);
      InvalidateIsExact(before, now, Bucket(mode, skill, last.0, last.1));
      InvalidateKeepsIndexed(before, now, Bucket(mode, skill, last.0, last.1));
      assert forall cell :: cell in cells <==> cell in init || cell == last;
    }
  }

  lemma {:induction false} ClearSkillsIsExact(c: Cache, now: Instant, skills: seq<string>, cells: seq<(int, int)>)
    requires Indexed(c, now)
    ensures Indexed(ClearSkills(c, now, skills, cells), now)
    ensures forall key :: Hit(ClearSkills(c, now, skills, cells), now, key) <==>
              Hit(c, now, key) && !(key.bucket.skill in skills && (key.bucket.lat, key.bucket.lon) in cells)
  {
    if skills != [] {
      var init, last := skills[..|skills| - 1], skills[|skills| - 1];
      var before := ClearSkills(c, now, init, cells);
      ClearSkillsIsExact(c, now, init, cells);
      ClearCellsIsExact(before, now, Strict, last, cells);
      ClearCellsIsExact(ClearCells(before, now, Strict, last, cells), now, Degraded, last, cells);
      assert forall s :: s in skills <==> s in init || s == last;
    }
  }

  /** The bucket lies under the profile: one of its skills, a cell its box touches. */
  ghost predicate Under(b: Bucket, p: Option<Profile>, g: Geometry)
    requires ValidGeometry(g)
  {
    && p.Some? && p.value.lat.Some? && p.value.lon.Some? && p.value.radius.Some?
    && b.skill in NormAll(p.value.skills)
    && (b.lat, b.lon) in Cells(p.value.lat.value, p.value.lon.value, p.value.radius.value, g)
  }

  /** Exactly the live results under the profile are dropped, in both modes. */
  lemma ClearProfileIsExact(c: Cache, now: Instant, p: Option<Profile>, g: Geometry)
    requires Indexed(c, now) && ValidGeometry(g)
    ensures Indexed(ClearProfile(c, now, p, g), now)
    ensures forall key :: Hit(ClearProfile(c, now, p, g), now, key) <==> Hit(c, now, key) && !Under(key.bucket, p, g)
  {
    if p.Some? && p.value.lat.Some? && p.value.lon.Some? && p.value.radius.Some? {
      ClearSkillsIsExact(c, now, NormAll(p.value.skills), Cells(p.value.lat.value, p.value.lon.value, p.value.radius.value, g));
    }
  }

  // ---- Events ----

  /** What an event does to the projections. */
  function Project(pr: Projections, e: Event): Projections {
    match e
    case AvailabilityUpdated(_, email, slots) =>
      if email == "" then pr
      else if slots != [] then UpsertAvailability(pr, email, slots) else DeleteAvailability(pr, email)
    case HandymanCreated(_, email, doc) => Upsert(pr, email, Merge(NO_PROFILE, doc))
    case HandymanUpdated(_, email, doc) =>
      if email == "" then pr else Upsert(pr, email, Merged(pr, email, doc))
    case HandymanDeleted(_, email) =>
      if email == "" then pr else DeleteAvailability(Delete(pr, email), email)
  }

  function Merged(pr: Projections, email: Email, doc: Doc): Profile {
    Merge(if ProfileOf(pr, email).Some? then ProfileOf(pr, email).value else NO_PROFILE, doc)
  }

  /** The profiles handed to _invalidate_profiles, given the projections before the event. */
  function Involved(pr: Projections, e: Event): seq<Option<Profile>> {
    match e
    case AvailabilityUpdated(_, email, _) => if email == "" then [] else [ProfileOf(pr, email)]
    case HandymanCreated(_, _, doc) => [Some(Merge(NO_PROFILE, doc))]
    case HandymanUpdated(_, email, doc) => if email == "" then [] else [ProfileOf(pr, email), Some(Merged(pr, email, doc))]
    case HandymanDeleted(_, email) => if email == "" then [] else [ProfileOf(pr, email)]
  }

  function ClearProfiles(c: Cache, now: Instant, ps: seq<Option<Profile>>, g: Geometry): Cache
    requires ValidGeometry(g)
  {
    if ps == [] then c
    else ClearProfile(ClearProfiles(c, now, ps[..|ps| - 1], g), now, ps[|ps| - 1], g)
  }

  function Process(st: MatchState, now: Instant, e: Event, g: Geometry): MatchState
    requires ValidGeometry(g)
  {
    if Marked(st.processed, now, e.eid) then st
    else MatchState(Project(st.pr, e), ClearProfiles(st.cache, now, Involved(st.pr, e), g), Mark(st.processed, now, IDEMPOTENCY_TTL, e.eid))
  }

  class MatchConsumer {
    const store: ProjectionStore
    const geometry: Geometry
    var entries: map<CacheKey, Instant>
    var sets: map<Bucket, BucketSet>
    var processed: map<EventId, Instant>

    ghost function State(): MatchState
      reads this, store
    {
      MatchState(store.State(), CacheState(), processed)
    }

    ghost function CacheState(): Cache
      reads this
    {
      Cache(entries, sets)
    }

    constructor (geometry: Geometry)
      ensures State() == MatchState(MatchProjections.EMPTY, MatchCache.EMPTY, map[])
      ensures this.geometry == geometry && fresh(store)
    {
      store := new ProjectionStore();
      this.geometry := geometry;
      entries, sets, processed := map[], map[], map[];
    }

    method SetCacheWithIndex(now: Instant, key: CacheKey)
      modifies this`entries, this`sets
      ensures CacheState() == Put(old(CacheState()), now, key)
    {
      var ttl := Ttl(key.bucket.mode);
      var listed := if key.bucket in sets && now < sets[key.bucket].deadline then sets[key.bucket].keys else {};
      entries := entries[key := now + ttl];
      sets := sets[key.bucket := BucketSet(listed + {key}, now + ttl + INDEX_SLACK)];
    }

    method InvalidateBucket(now: Instant, b: Bucket)
      modifies this`entries, this`sets
      ensures CacheState() == Invalidate(old(CacheState()), now, b)
    {
      var keys := if b in sets && now < sets[b].deadline then sets[b].keys else {};
      if keys == {} {
        sets := sets - {b};
        assert entries - keys == entries;
        return;
      }
      entries := entries - keys;
      sets := sets - {b};
    }

    method BucketsInRadius(lat: real, lon: real, radius: real) returns (out: seq<(int, int)>)
      requires ValidGeometry(geometry)
      ensures out == Cells(lat, lon, radius, geometry)
    {
      var dLat, dLon := radius / 111.0, geometry.lonHalf(radius, lat);
      var south, north := Cell(lat - dLat, geometry.grid), Cell(lat + dLat, geometry.grid);
      var west, east := Cell(lon - dLon, geometry.grid), Cell(lon + dLon, geometry.grid);
      out := [];
      var i := south;
      while i <= north
        invariant out == Rows(south, i, west, east + 1)
        invariant i > north ==> out == Rows(south, north + 1, west, east + 1)
      {
        ghost var before := out;
        var j := west;
        while j <= east
          invariant out == before + Row(i, west, j)
          invariant j > east ==> out == before + Row(i, west, east + 1)
        {
          out := out + [(i, j)];
          j := j + 1;
        }
        i := i + 1;
      }
    }

    method ClearCellsOf(now: Instant, mode: Mode, skill: string, cells: seq<(int, int)>)
      modifies this`entries, this`sets
      ensures CacheState() == ClearCells(old(CacheState()), now, mode, skill, cells)
    {
      for i := 0 to |cells|
        invariant CacheState() == ClearCells(old(CacheState()), now, mode, skill, cells[..i])
      {
        assert cells[..i + 1][..i] == cells[..i];
        InvalidateBucket(now, Bucket(mode, skill, cells[i].0, cells[i].1));
      }
      assert cells[..|cells|] == cells;
    }

    method InvalidateForHandymanProfile(now: Instant, p: Option<Profile>)
      requires ValidGeometry(geometry)
      modifies this`entries, this`sets
      ensures CacheState() == ClearProfile(old(CacheState()), now, p, geometry)
    {
      if p.None? || p.value.lat.None? || p.value.lon.None? || p.value.radius.None? {
        return;
      }
      var skills := NormAll(p.value.skills);
      if skills == [] {
        return;
      }
      var cells := BucketsInRadius(p.value.lat.value, p.value.lon.value, p.value.radius.value);
      for i := 0 to |skills|
        invariant CacheState() == ClearSkills(old(CacheState()), now, skills[..i], cells)
      {
        assert skills[..i + 1][..i] == skills[..i];
        ClearCellsOf(now, Strict, skills[i], cells);
        ClearCellsOf(now, Degraded, skills[i], cells);
      }
      assert skills[..|skills|] == skills;
    }

    method InvalidateProfiles(now: Instant, ps: seq<Option<Profile>>)
      requires ValidGeometry(geometry)
      modifies this`entries, this`sets
      ensures CacheState() == ClearProfiles(old(CacheState()), now, ps, geometry)
    {
      for i := 0 to |ps|
        invariant CacheState() == ClearProfiles(old(CacheState()), now, ps[..i], geometry)
      {
        assert ps[..i + 1][..i] == ps[..i];
        InvalidateForHandymanProfile(now, ps[i]);
      }
      assert ps[..|ps|] == ps;
    }

    method ProcessEvent(now: Instant, e: Event)
      requires ValidGeometry(geometry)
      modifies this, store
      ensures State() == Process(old(State()), now, e, geometry)
    {
      if e.eid in processed && now < processed[e.eid] {
        return;
      }
      processed := processed[e.eid := now + IDEMPOTENCY_TTL];
      if !e.HandymanCreated? && e.email == "" {
        return;
      }
      var prior := if e.email != "" && e.email in store.handymen then Some(store.handymen[e.email]) else None;
      match e
      case AvailabilityUpdated(_, email, slots) =>
        if slots != [] {
          store.UpsertAvailabilitySlots(email, slots);
        } else {
          store.DeleteAvailabilitySlots(email);
        }
        InvalidateProfiles(now, [prior]);
      case HandymanCreated(_, email, doc) =>
        store.UpsertHandyman(email, Merge(NO_PROFILE, doc));
        InvalidateProfiles(now, [Some(Merge(NO_PROFILE, doc))]);
      case HandymanUpdated(_, email, doc) =>
        var merged := Merge(if prior.Some? then prior.value else NO_PROFILE, doc);
        store.UpsertHandyman(email, merged);
        InvalidateProfiles(now, [prior, Some(merged)]);
      case HandymanDeleted(_, email) =>
        var was := store.DeleteHandyman(email);
        store.DeleteAvailabilitySlots(email);
        InvalidateProfiles(now, [was]);
    }
  }

  // ---- Runs ----

  /** Besides events, requests cache results and refresh projections over HTTP. */
  datatype Action =
    | Tick(delta: nat)
    | CacheResult(mode: Mode, skill: string, x: real, y: real, time: int)
    | RefreshHandyman(email: Email, profile: Profile)
    | RefreshAvailability(email: Email, slots: seq<Window>)
    | Consume(event: Event)

  datatype Clocked = Clocked(now: Instant, st: MatchState)

  /** The key a request at (x, y) for the skill reads and writes. */
  function KeyFor(mode: Mode, skill: string, x: real, y: real, time: int, g: Geometry): CacheKey
    requires ValidGeometry(g)
  {
    CacheKey(Bucket(mode, Text.Normalize(skill), Cell(x, g.grid), Cell(y, g.grid)), time)
  }

  function Next(s: Clocked, a: Action, g: Geometry): Clocked
    requires ValidGeometry(g)
  {
    match a
    case Tick(d) => s.(now := s.now + d)
    case CacheResult(mode, skill, x, y, time) =>
      s.(st := s.st.(cache := Put(s.st.cache, s.now, KeyFor(mode, skill, x, y, time, g))))
    case RefreshHandyman(email, p) => s.(st := s.st.(pr := Upsert(s.st.pr, email, p)))
    case RefreshAvailability(email, slots) => s.(st := s.st.(pr := UpsertAvailability(s.st.pr, email, slots)))
    case Consume(e) => s.(st := Process(s.st, s.now, e, g))
  }

  function After(s: Clocked, actions: seq<Action>, g: Geometry): Clocked
    requires ValidGeometry(g)
    decreases |actions|
  {
    if actions == [] then s else After(Next(s, actions[0], g), actions[1..], g)
  }

  ghost predicate Init(s: Clocked) {
    s.st == MatchState(MatchProjections.EMPTY, MatchCache.EMPTY, map[])
  }

  ghost predicate Inv(s: Clocked) {
    Indexed(s.st.cache, s.now) && IndexesExact(s.st.pr)
  }

  lemma {:induction false} ClearProfilesIsExact(c: Cache, now: Instant, ps: seq<Option<Profile>>, g: Geometry)
    requires Indexed(c, now) && ValidGeometry(g)
    ensures Indexed(ClearProfiles(c, now, ps, g), now)
    ensures forall key :: Hit(ClearProfiles(c, now, ps, g), now, key) <==>
              Hit(c, now, key) && forall i :: 0 <= i < |ps| ==> !Under(key.bucket, ps[i], g)
  {
    if ps != [] {
      var init := ps[..|ps| - 1];
      ClearProfilesIsExact(c, now, init, g);
      ClearProfileIsExact(ClearProfiles(c, now, init, g), now, ps[|ps| - 1], g);
      assert forall i :: 0 <= i < |init| ==> init[i] == ps[i];
    }
  }

  lemma ProjectKeepsIndexesExact(pr: Projections, e: Event)
    requires IndexesExact(pr)
    ensures IndexesExact(Project(pr, e))
  {
    match e
    case AvailabilityUpdated(_, email, slots) => AvailabilityKeepsIndexesExact(pr, email, slots);
    case HandymanCreated(_, email, doc) => UpsertKeepsIndexesExact(pr, email, Merge(NO_PROFILE, doc));
    case HandymanUpdated(_, email, doc) => UpsertKeepsIndexesExact(pr, email, Merged(pr, email, doc));
    case HandymanDeleted(_, email) =>
      DeleteKeepsIndexesExact(pr, email);
      AvailabilityKeepsIndexesExact(Delete(pr, email), email, []);
  }

  lemma NextKeepsInv(s: Clocked, a: Action, g: Geometry)
    requires Inv(s) && ValidGeometry(g)
    ensures Inv(Next(s, a, g))
  {
    match a
    case Tick(d) => TimePassingKeepsIndexed(s.st.cache, s.now, s.now + d);
    case CacheResult(mode, skill, x, y, time) => PutKeepsIndexed(s.st.cache, s.now, KeyFor(mode, skill, x, y, time, g));
    case RefreshHandyman(email, p) => UpsertKeepsIndexesExact(s.st.pr, email, p);
    case RefreshAvailability(email, slots) => AvailabilityKeepsIndexesExact(s.st.pr, email, slots);
    case Consume(e) =>
      ClearProfilesIsExact(s.st.cache, s.now, Involved(s.st.pr, e), g);
      ProjectKeepsIndexesExact(s.st.pr, e);
  }

  /** In every reachable state the indexes list exactly the stored projections, and every live
      result is listed in its bucket's set. */
  lemma {:induction false} ReachableStatesAreIndexed(s: Clocked, actions: seq<Action>, g: Geometry)
    requires Inv(s) && ValidGeometry(g)
    ensures Inv(After(s, actions, g))
    decreases |actions|
  {
    if actions != [] {
      NextKeepsInv(s, actions[0], g);
      ReachableStatesAreIndexed(Next(s, actions[0], g), actions[1..], g);
    }
  }

  /** The stored profile normalizes the merged one, so it covers no bucket that one does not. */
  lemma NormalizedCoversNoMore(b: Bucket, p: Profile, g: Geometry)
    requires ValidGeometry(g) && Under(b, Some(NormalizeProfile(p)), g)
    ensures Under(b, Some(p), g)
  {
    NormAllIsNormal(p.skills);
    NormAllOfNormal(Dedup(NormAll(p.skills)));
  }

  lemma {:induction false} NormAllIsNormal(skills: seq<string>)
    ensures forall skill :: skill in NormAll(skills) ==> Text.Normalize(skill) == skill
  {
    if skills != [] {
      NormAllIsNormal(skills[..|skills| - 1]);
      Text.NormalizeIdempotent(skills[|skills| - 1]);
    }
  }

  lemma {:induction false} NormAllOfNormal(skills: seq<string>)
    requires forall skill :: skill in skills ==> Text.Normalize(skill) == skill
    ensures forall skill :: skill in NormAll(skills) ==> skill in skills
  {
    if skills != [] {
      NormAllOfNormal(skills[..|skills| - 1]);
    }
  }

  /** The profile stored before the event, unless it is a creation, and the one stored after it are
      among those handed to invalidation, up to normalization. */
  lemma StoredProfilesAreInvolved(pr: Projections, e: Event, b: Bucket, g: Geometry)
    requires ValidGeometry(g)
    requires (!e.HandymanCreated? && Under(b, ProfileOf(pr, e.email), g)) || Under(b, ProfileOf(Project(pr, e), e.email), g)
    ensures exists i :: 0 <= i < |Involved(pr, e)| && Under(b, Involved(pr, e)[i], g)
  {
    var ps := Involved(pr, e);
    match e
    case AvailabilityUpdated(_, _, _) => assert Under(b, ps[0], g);
    case HandymanCreated(_, _, doc) =>
      NormalizedCoversNoMore(b, Merge(NO_PROFILE, doc), g);
      assert Under(b, ps[0], g);
    case HandymanUpdated(_, email, doc) =>
      if Under(b, ProfileOf(pr, email), g) {
        assert Under(b, ps[0], g);
      } else {
        NormalizedCoversNoMore(b, Merged(pr, email, doc), g);
        assert Under(b, ps[1], g);
      }
    case HandymanDeleted(_, _) => assert Under(b, ps[0], g);
  }

  lemma InBoxIsUnder(p: Profile, k: nat, mode: Mode, x: real, y: real, time: int, g: Geometry)
    requires ValidGeometry(g) && k < |p.skills| && p.skills[k] != "" && Reaches(p, x, y, g)
    ensures Under(KeyFor(mode, p.skills[k], x, y, time, g).bucket, Some(p), g)
  {
    BoxPointsAreListed(x, y, p.lat.value, p.lon.value, p.radius.value, g);
    NormAllContains(p.skills, k);
  }

  /** The profile has a place and a radius, and the point lies in its box. */
  predicate Reaches(p: Profile, x: real, y: real, g: Geometry) {
    p.lat.Some? && p.lon.Some? && p.radius.Some? && InBox(x, y, p.lat.value, p.lon.value, p.radius.value, g)
  }

  /** After an event has been processed, no request in the box of the handyman's profile, as stored
      before the event or after it, and for one of its skills finds a cached result, in either mode
      and for any time. For a creation this holds of the profile stored after it. */
  lemma {:induction false} NoStaleResultInTheBox(start: Clocked, actions: seq<Action>, e: Event, g: Geometry, stored: Profile,
                              k: nat, mode: Mode, x: real, y: real, time: int)
    requires ValidGeometry(g) && Init(start)
    requires var s := After(start, actions, g);
             && !Marked(s.st.processed, s.now, e.eid)
             && (Some(stored) == ProfileOf(Project(s.st.pr, e), e.email)
                 || (!e.HandymanCreated? && Some(stored) == ProfileOf(s.st.pr, e.email)))
    requires k < |stored.skills| && stored.skills[k] != "" && Reaches(stored, x, y, g)
    ensures var s := After(start, actions, g);
            !Hit(Process(s.st, s.now, e, g).cache, s.now, KeyFor(mode, stored.skills[k], x, y, time, g))
  {
    var s := After(start, actions, g);
    ReachableStatesAreIndexed(start, actions, g);
    InBoxIsUnder(stored, k, mode, x, y, time, g);
    StoredProfilesAreInvolved(s.st.pr, e, KeyFor(mode, stored.skills[k], x, y, time, g).bucket, g);
    ClearProfilesIsExact(s.st.cache, s.now, Involved(s.st.pr, e), g);
  }

  lemma {:induction false} NormAllContains(skills: seq<string>, k: nat)
    requires k < |skills| && skills[k] != ""
    ensures Text.Normalize(skills[k]) in NormAll(skills)
  {
    if k < |skills| - 1 {
      NormAllContains(skills[..|skills| - 1], k);
    }
  }

  /** Nothing else is dropped: a result survives the event unless its cell touches the box of an
      involved profile that lists its skill. */
  lemma OtherResultsSurvive(s: Clocked, e: Event, g: Geometry, key: CacheKey)
    requires Inv(s) && ValidGeometry(g) && Hit(s.st.cache, s.now, key)
    ensures Hit(Process(s.st, s.now, e, g).cache, s.now, key) <==>
            Marked(s.st.processed, s.now, e.eid) || forall i :: 0 <= i < |Involved(s.st.pr, e)| ==> !Under(key.bucket, Involved(s.st.pr, e)[i], g)
  {
    ClearProfilesIsExact(s.st.cache, s.now, Involved(s.st.pr, e), g);
  }

  // ---- What an event keeps and takes of the stored profile ----

  /** Skills are compared after normalization; blank ones do not count. */
  ghost predicate Names(skills: seq<string>, skill: string) {
    exists k :: 0 <= k < |skills| && skills[k] != "" && Text.Normalize(skills[k]) == skill
  }

  lemma NamesStep(init: seq<string>, last: string, skill: string)
    ensures Names(init + [last], skill) <==> Names(init, skill) || (last != "" && Text.Normalize(last) == skill)
  {
    var skills := init + [last];
    assert skills[|init|] == last && forall k :: 0 <= k < |init| ==> skills[k] == init[k];
  }

  lemma {:induction false} NormAllNames(skills: seq<string>, skill: string)
    ensures skill in NormAll(skills) <==> Names(skills, skill)
  {
    if skills != [] {
      var init, last := skills[..|skills| - 1], skills[|skills| - 1];
      NormAllNames(init, skill);
      NamesStep(init, last, skill);
      assert skills == init + [last];
    }
  }

  /** A field of the stored profile: the event's when it is there, else the one stored before. */
  function Newer<T>(field: Field<T>, stored: T): T {
    match field
    case Present(value) => value
    case Absent => stored
  }

  /** After an update, or a move, each field of the stored profile is the event's when the event
      carries it, and otherwise what was stored before, or nothing. */
  lemma UpdateKeepsOtherFields(pr: Projections, e: Event)
    requires e.HandymanUpdated? && e.email != ""
    ensures var before := if e.email in pr.handymen then pr.handymen[e.email] else Profile([], None, None, None);
            ProfileOf(Project(pr, e), e.email).Some? &&
            var after := ProfileOf(Project(pr, e), e.email).value;
            && after.radius == Newer(e.doc.radius, before.radius)
            && after.lat == Newer(e.doc.lat, before.lat) && after.lon == Newer(e.doc.lon, before.lon)
            && forall skill :: skill in after.skills <==> Names(Newer(e.doc.skills, before.skills), skill)
  {
    var before := if e.email in pr.handymen then pr.handymen[e.email] else Profile([], None, None, None);
    forall skill
      ensures skill in NormAll(Newer(e.doc.skills, before.skills)) <==> Names(Newer(e.doc.skills, before.skills), skill)
    {
      NormAllNames(Newer(e.doc.skills, before.skills), skill);
    }
  }

  /** After a creation the stored profile is the event's alone. */
  lemma CreationStoresTheEvent(pr: Projections, e: Event)
    requires e.HandymanCreated? && e.email != ""
    ensures ProfileOf(Project(pr, e), e.email).Some? &&
            var after := ProfileOf(Project(pr, e), e.email).value;
            && after.radius == Newer(e.doc.radius, None)
            && after.lat == Newer(e.doc.lat, None) && after.lon == Newer(e.doc.lon, None)
            && forall skill :: skill in after.skills <==> Names(Newer(e.doc.skills, []), skill)
  {
    forall skill
      ensures skill in NormAll(Newer(e.doc.skills, [])) <==> Names(Newer(e.doc.skills, []), skill)
    {
      NormAllNames(Newer(e.doc.skills, []), skill);
    }
  }

  /** A deletion leaves neither profile nor slots. Slots are stored as they are sent, but for those that
      do not end after they start, and an availability event leaves every profile alone. */
  lemma OtherEventsStore(pr: Projections, e: Event)
    requires e.email != ""
    ensures e.HandymanDeleted? ==>
              ProfileOf(Project(pr, e), e.email) == None && e.email !in Project(pr, e).availability
    ensures e.AvailabilityUpdated? ==>
              && Project(pr, e).handymen == pr.handymen
              && (e.email in Project(pr, e).availability <==> SomeEndAfterStart(e.slots))
              && (e.email in Project(pr, e).availability ==> Project(pr, e).availability[e.email] == Clean(e.slots))
  {
    if e.AvailabilityUpdated? {
      AvailabilityStoresKeptSlots(pr, e.email, e.slots);
    }
  }

  /** An event concerns one handyman. */
  lemma OthersAreLeftAlone(pr: Projections, e: Event)
    ensures Project(pr, e).handymen - {e.email} == pr.handymen - {e.email}
    ensures Project(pr, e).availability - {e.email} == pr.availability - {e.email}
  {
  }

  ghost predicate StoredNormal(pr: Projections) {
    forall email, skill :: email in pr.handymen && skill in pr.handymen[email].skills ==> Text.Normalize(skill) == skill
  }

  lemma UpsertKeepsNormal(pr: Projections, email: Email, p: Profile)
    requires StoredNormal(pr)
    ensures StoredNormal(Upsert(pr, email, p))
  {
    NormAllIsNormal(p.skills);
  }

  lemma NextKeepsNormal(s: Clocked, a: Action, g: Geometry)
    requires StoredNormal(s.st.pr) && ValidGeometry(g)
    ensures StoredNormal(Next(s, a, g).st.pr)
  {
    match a
    case RefreshHandyman(email, p) => UpsertKeepsNormal(s.st.pr, email, p);
    case Consume(e) => ProjectKeepsNormal(s.st.pr, e);
    case _ =>
  }

  lemma ProjectKeepsNormal(pr: Projections, e: Event)
    requires StoredNormal(pr)
    ensures StoredNormal(Project(pr, e))
  {
    match e
    case HandymanCreated(_, email, doc) => UpsertKeepsNormal(pr, email, Merge(NO_PROFILE, doc));
    case HandymanUpdated(_, email, doc) => UpsertKeepsNormal(pr, email, Merged(pr, email, doc));
    case _ =>
  }

  lemma {:induction false} ReachableProfilesAreNormal(s: Clocked, actions: seq<Action>, g: Geometry)
    requires StoredNormal(s.st.pr) && ValidGeometry(g)
    ensures StoredNormal(After(s, actions, g).st.pr)
    decreases |actions|
  {
    if actions != [] {
      NextKeepsNormal(s, actions[0], g);
      ReachableProfilesAreNormal(Next(s, actions[0], g), actions[1..], g);
    }
  }

  /** A move, which carries only a place. */
  function Move(eid: EventId, email: Email, lat: real, lon: real): Event {
    HandymanUpdated(eid, email, Doc(Absent, Absent, Present(Some(lat)), Present(Some(lon))))
  }

  /** A handyman who moves keeps the radius and stays in the set of every skill that is not blank. */
  lemma {:induction false} MovedHandymanKeepsSkills(start: Clocked, actions: seq<Action>, g: Geometry,
                                 eid: EventId, email: Email, lat: real, lon: real, skill: string)
    requires ValidGeometry(g) && Init(start) && email != "" && skill != ""
    requires email in After(start, actions, g).st.pr.handymen
    ensures var pr := After(start, actions, g).st.pr;
            var moved := Project(pr, Move(eid, email, lat, lon));
            && email in moved.handymen && moved.handymen[email].radius == pr.handymen[email].radius
            && moved.handymen[email].lat == Some(lat) && moved.handymen[email].lon == Some(lon)
            && (skill in moved.handymen[email].skills <==> skill in pr.handymen[email].skills)
            && ((skill, email) in moved.bySkill <==> (skill, email) in pr.bySkill)
  {
    var pr := After(start, actions, g).st.pr;
    ReachableProfilesAreNormal(start, actions, g);
    ReachableStatesAreIndexed(start, actions, g);
    UpdateKeepsOtherFields(pr, Move(eid, email, lat, lon));
    NormalNames(pr.handymen[email].skills, skill);
    ProjectKeepsIndexesExact(pr, Move(eid, email, lat, lon));
  }

  lemma NormalNames(skills: seq<string>, skill: string)
    requires skill != "" && forall s :: s in skills ==> Text.Normalize(s) == s
    ensures Names(skills, skill) <==> skill in skills
  {
    if skill in skills {
      var k :| 0 <= k < |skills| && skills[k] == skill;
      assert skills[k] != "" && Text.Normalize(skills[k]) == skill;
    }
  }

  /** After a move no request in the box around the new place, with the radius stored before, and for a
      skill stored before, finds a cached result. */
  lemma {:induction false} MoveClearsTheNewPlace(start: Clocked, actions: seq<Action>, g: Geometry, eid: EventId, email: Email,
                              lat: real, lon: real, skill: string, mode: Mode, x: real, y: real, time: int)
    requires ValidGeometry(g) && Init(start) && email != "" && skill != ""
    requires var s := After(start, actions, g);
             && !Marked(s.st.processed, s.now, eid) && email in s.st.pr.handymen
             && skill in s.st.pr.handymen[email].skills && s.st.pr.handymen[email].radius.Some?
             && InBox(x, y, lat, lon, s.st.pr.handymen[email].radius.value, g)
    ensures var s := After(start, actions, g);
            !Hit(Process(s.st, s.now, Move(eid, email, lat, lon), g).cache, s.now, KeyFor(mode, skill, x, y, time, g))
  {
    var s, e := After(start, actions, g), Move(eid, email, lat, lon);
    MovedHandymanKeepsSkills(start, actions, g, eid, email, lat, lon, skill);
    var stored := Project(s.st.pr, e).handymen[email];
    var k :| 0 <= k < |stored.skills| && stored.skills[k] == skill;
    NoStaleResultInTheBox(start, actions, e, g, stored, k, mode, x, y, time);
  }

  // ---- Creating a handyman who is stored already ----

  /** No live result is left in a bucket under the profile. */
  ghost predicate CleanUnder(c: Cache, now: Instant, p: Option<Profile>, g: Geometry)
    requires ValidGeometry(g)
  {
    forall key :: Hit(c, now, key) ==> !Under(key.bucket, p, g)
  }

  ghost predicate CoversAsMuch(wide: Option<Profile>, narrow: Option<Profile>, g: Geometry)
    requires ValidGeometry(g)
  {
    forall b: Bucket :: Under(b, narrow, g) ==> Under(b, wide, g)
  }

  function OneResult(now: Instant, b: Bucket): Cache {
    Put(MatchCache.EMPTY, now, CacheKey(b, 0))
  }

  /** A cache with a single result, in the given bucket. */
  lemma OneResultIsHit(now: Instant, b: Bucket)
    ensures Indexed(OneResult(now, b), now) && Hit(OneResult(now, b), now, CacheKey(b, 0))
  {
    PutKeepsIndexed(MatchCache.EMPTY, now, CacheKey(b, 0));
  }

  function Created(doc: Doc): Option<Profile> {
    Some(Merge(NO_PROFILE, doc))
  }

  function WithCache(st: MatchState, c: Cache): MatchState {
    st.(cache := c)
  }

  /** handyman.created drops what lies under the new profile only. It leaves nothing under the stored
      profile, whatever is cached, exactly when the new profile covers all that the stored one does. */
  lemma CreationCleansStoredProfileExactly(st: MatchState, now: Instant, e: Event, g: Geometry)
    requires ValidGeometry(g) && e.HandymanCreated? && !Marked(st.processed, now, e.eid)
    ensures (forall c :: Indexed(c, now) ==>
               CleanUnder(Process(WithCache(st, c), now, e, g).cache, now, ProfileOf(st.pr, e.email), g))
            <==> CoversAsMuch(Created(e.doc), ProfileOf(st.pr, e.email), g)
  {
    var stored := ProfileOf(st.pr, e.email);
    if CoversAsMuch(Created(e.doc), stored, g) {
      forall c | Indexed(c, now)
        ensures CleanUnder(Process(WithCache(st, c), now, e, g).cache, now, stored, g)
      {
        CreationIsExact(WithCache(st, c), now, e, g);
      }
    } else {
      var b: Bucket :| Under(b, stored, g) && !Under(b, Created(e.doc), g);
      OneResultIsHit(now, b);
      CreationIsExact(WithCache(st, OneResult(now, b)), now, e, g);
      assert Hit(Process(WithCache(st, OneResult(now, b)), now, e, g).cache, now, CacheKey(b, 0));
    }
  }

  lemma CreationIsExact(st: MatchState, now: Instant, e: Event, g: Geometry)
    requires ValidGeometry(g) && e.HandymanCreated? && !Marked(st.processed, now, e.eid) && Indexed(st.cache, now)
    ensures forall key :: Hit(Process(st, now, e, g).cache, now, key) <==>
              Hit(st.cache, now, key) && !Under(key.bucket, Created(e.doc), g)
  {
    assert Involved(st.pr, e) == [Created(e.doc)];
    ClearProfilesIsExact(st.cache, now, [Created(e.doc)], g);
  }

  /** What covering means: the new profile lists every skill of the stored one, and its box touches
      every cell the stored one's box touches. */
  lemma CoversAsMuchExactly(wide: Profile, narrow: Profile, g: Geometry)
    requires ValidGeometry(g) && narrow.lat.Some? && narrow.lon.Some? && narrow.radius.Some? && NormAll(narrow.skills) != []
    requires var cells := Cells(narrow.lat.value, narrow.lon.value, narrow.radius.value, g); cells != []
    ensures CoversAsMuch(Some(wide), Some(narrow), g) <==>
            && wide.lat.Some? && wide.lon.Some? && wide.radius.Some?
            && (forall skill :: skill in NormAll(narrow.skills) ==> skill in NormAll(wide.skills))
            && (forall cell :: cell in Cells(narrow.lat.value, narrow.lon.value, narrow.radius.value, g)
                  ==> cell in Cells(wide.lat.value, wide.lon.value, wide.radius.value, g))
  {
    var cells := Cells(narrow.lat.value, narrow.lon.value, narrow.radius.value, g);
    var skill, cell := NormAll(narrow.skills)[0], cells[0];
    if CoversAsMuch(Some(wide), Some(narrow), g) {
      forall other | other in NormAll(narrow.skills)
        ensures Under(Bucket(Strict, other, cell.0, cell.1), Some(wide), g)
      {
        assert Under(Bucket(Strict, other, cell.0, cell.1), Some(narrow), g);
      }
      forall other | other in cells
        ensures Under(Bucket(Strict, skill, other.0, other.1), Some(wide), g)
      {
        assert Under(Bucket(Strict, skill, other.0, other.1), Some(narrow), g);
      }
      assert Under(Bucket(Strict, skill, cell.0, cell.1), Some(wide), g);
    }
  }

  function FullDoc(p: Profile): Doc {
    Doc(Present(p.skills), Present(p.radius), Present(p.lat), Present(p.lon))
  }

  lemma OneSkillIsNormal(p: Profile)
    requires p.skills == ["a"]
    ensures NormalizeProfile(p) == p && Text.Normalize("a") == "a"
  {
    Text.StripOfTrimmed("a");
    assert Text.Lower("a") == "a";
    assert NormAll([]) == [] && NormAll(["a"]) == [] + ["a"];
    assert Dedup([]) == [] && Dedup(["a"]) == ["a"];
  }

  /** The profile a handyman moved to, at (0, 0), and the one of its creation, north of it by more
      than a cell. */
  lemma MovedSouth(g: Geometry) returns (moved: Profile, original: Profile)
    requires ValidGeometry(g) && g.lonHalf(1.0, 0.0) >= 0.0
    ensures moved.skills == original.skills == ["a"] && Reaches(moved, 0.0, 0.0, g)
    ensures moved.radius == original.radius == Some(1.0)
    ensures moved.lat == Some(0.0) && original.lat == Some(g.grid + 1.0) && moved.lon == original.lon == Some(0.0)
    ensures !Under(KeyFor(Strict, "a", 0.0, 0.0, 0, g).bucket, Some(original), g)
  {
    var lat := g.grid + 1.0;
    moved, original := Profile(["a"], Some(1.0), Some(0.0), Some(0.0)), Profile(["a"], Some(1.0), Some(lat), Some(0.0));
    ListedCells(Cell(0.0, g.grid), Cell(0.0, g.grid), lat, 0.0, 1.0, g);
    CellEdge(0, g.grid);
    CellEdge(1, g.grid);
    assert lat - LatHalf(1.0) >= g.grid;
    CellMonotone(g.grid, lat - LatHalf(1.0), g.grid);
  }

  const RESULT := CacheResult(Strict, "a", 0.0, 0.0, 0)

  lemma {:induction false} AfterTwo(start: Clocked, first: Action, second: Action, g: Geometry)
    requires ValidGeometry(g)
    ensures After(start, [first, second], g) == Next(Next(start, first, g), second, g)
  {
    assert [first, second][1..] == [second] && [second][1..] == [];
    assert After(Next(start, first, g), [second], g) == After(Next(Next(start, first, g), second, g), [], g);
  }

  lemma CachingHits(s: Clocked, time: int, g: Geometry)
    requires ValidGeometry(g)
    ensures var t := Next(s, CacheResult(Strict, "a", 0.0, 0.0, time), g);
            && Hit(t.st.cache, t.now, KeyFor(Strict, "a", 0.0, 0.0, time, g))
            && t.st.pr == s.st.pr && t.st.processed == s.st.processed
  {
  }

  lemma MergingAFullDoc(prior: Profile, p: Profile)
    ensures Merge(prior, FullDoc(p)) == p
  {
  }

  lemma UpdateStoresProfile(s: Clocked, p: Profile, g: Geometry)
    requires ValidGeometry(g) && NormalizeProfile(p) == p && 1 !in s.st.processed && 0 !in s.st.processed
    ensures var t := Next(s, Consume(HandymanUpdated(1, "h", FullDoc(p))), g);
            ProfileOf(t.st.pr, "h") == Some(p) && 0 !in t.st.processed
  {
    MergingAFullDoc(if ProfileOf(s.st.pr, "h").Some? then ProfileOf(s.st.pr, "h").value else NO_PROFILE, p);
  }

  lemma {:induction false} UpdatedAndCached(start: Clocked, p: Profile, g: Geometry)
    requires ValidGeometry(g) && Init(start) && NormalizeProfile(p) == p
    ensures var s := After(start, [Consume(HandymanUpdated(1, "h", FullDoc(p))), RESULT], g);
            && 0 !in s.st.processed && ProfileOf(s.st.pr, "h") == Some(p)
            && Hit(s.st.cache, s.now, KeyFor(Strict, "a", 0.0, 0.0, 0, g))
  {
    var update := Consume(HandymanUpdated(1, "h", FullDoc(p)));
    UpdateStoresProfile(start, p, g);
    AfterTwo(start, update, RESULT, g);
    CachingHits(Next(start, update, g), 0, g);
  }

  /** A complete handyman.created, delivered after the update that moved the handyman: the result
      cached in the box of the stored profile and for its skill survives. */
  lemma CreatedAfterMoveLeavesOldResult(start: Clocked, g: Geometry)
    returns (moved: Profile, original: Profile, actions: seq<Action>, e: Event)
    requires ValidGeometry(g) && Init(start) && g.lonHalf(1.0, 0.0) >= 0.0
    ensures actions == [Consume(HandymanUpdated(1, "h", FullDoc(moved))), RESULT]
    ensures e == HandymanCreated(0, "h", FullDoc(original)) && original.skills == moved.skills == ["a"]
    ensures original.lat.Some? && original.lon.Some? && original.radius.Some?
    ensures Reaches(moved, 0.0, 0.0, g)
    ensures var s := After(start, actions, g);
            && !Marked(s.st.processed, s.now, e.eid) && ProfileOf(s.st.pr, e.email) == Some(moved)
            && Hit(Process(s.st, s.now, e, g).cache, s.now, KeyFor(Strict, "a", 0.0, 0.0, 0, g))
  {
    moved, original := MovedSouth(g);
    actions := [Consume(HandymanUpdated(1, "h", FullDoc(moved))), RESULT];
    e := HandymanCreated(0, "h", FullDoc(original));
    OneSkillIsNormal(moved);
    UpdatedAndCached(start, moved, g);
    ReachableStatesAreIndexed(start, actions, g);
    MergingAFullDoc(NO_PROFILE, original);
    CreationSparesOthers(After(start, actions, g), e, g, KeyFor(Strict, "a", 0.0, 0.0, 0, g));
  }

  lemma CreationSparesOthers(s: Clocked, e: Event, g: Geometry, key: CacheKey)
    requires ValidGeometry(g) && Inv(s) && e.HandymanCreated? && !Marked(s.st.processed, s.now, e.eid)
    requires Hit(s.st.cache, s.now, key) && !Under(key.bucket, Created(e.doc), g)
    ensures Hit(Process(s.st, s.now, e, g).cache, s.now, key)
  {
    CreationIsExact(s.st, s.now, e, g);
  }
}
