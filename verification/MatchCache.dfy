/** The match service's result cache and the bucket sets that make it possible to invalidate it by
    place (match-service/app/services.py). Coordinates are reals. */
module MatchCache {

  type Instant = int

  datatype Mode = Strict | Degraded

  datatype Bucket = Bucket(mode: Mode, skill: string, lat: int, lon: int)

  /** match:{mode}:{skill}:lat={lat}:lon={lon}:t={t} */
  datatype CacheKey = CacheKey(bucket: Bucket, time: int)

  datatype BucketSet = BucketSet(keys: set<CacheKey>, deadline: Instant)

  /** Entries and sets whose deadline has passed are gone. */
  datatype Cache = Cache(entries: map<CacheKey, Instant>, sets: map<Bucket, BucketSet>)

  const EMPTY := Cache(map[], map[])

  const INDEX_SLACK := 30

  /** The lifetime of a result depends on its mode only. */
  function Ttl(mode: Mode): Instant {
    if mode == Degraded then 15 else 60
  }

  predicate Hit(c: Cache, now: Instant, key: CacheKey) {
    key in c.entries && now < c.entries[key]
  }

  function Members(c: Cache, now: Instant, b: Bucket): set<CacheKey> {
    if b in c.sets && now < c.sets[b].deadline then c.sets[b].keys else {}
  }

  /** set_cache_with_index */
  function Put(c: Cache, now: Instant, key: CacheKey): Cache {
    var ttl := Ttl(key.bucket.mode);
    Cache(c.entries[key := now + ttl],
          c.sets[key.bucket := BucketSet(Members(c, now, key.bucket) + {key}, now + ttl + INDEX_SLACK)])
  }

  /** invalidate_bucket: only the keys listed in the set are deleted. */
  function Invalidate(c: Cache, now: Instant, b: Bucket): Cache {
    Cache(c.entries - Members(c, now, b), c.sets - {b})
  }

  predicate Listed(c: Cache, b: Bucket, key: CacheKey) {
    b in c.sets && key in c.sets[b].keys
  }

  /** A live result is listed in its bucket's set, and the set outlives it. */
  ghost predicate HitsListed(c: Cache, now: Instant) {
    forall key :: Hit(c, now, key) ==>
      Listed(c, key.bucket, key) && c.entries[key] + INDEX_SLACK <= c.sets[key.bucket].deadline
  }

  ghost predicate EntriesFresh(c: Cache, now: Instant) {
    forall key :: key in c.entries ==> c.entries[key] <= now + Ttl(key.bucket.mode)
  }

  /** A set only lists results of its own bucket. */
  ghost predicate SetsPure(c: Cache) {
    forall b, key :: Listed(c, b, key) ==> key.bucket == b
  }

  ghost predicate Indexed(c: Cache, now: Instant) {
    HitsListed(c, now) && EntriesFresh(c, now) && SetsPure(c)
  }

  lemma PutKeepsHitsListed(c: Cache, now: Instant, key: CacheKey)
    requires Indexed(c, now)
    ensures HitsListed(Put(c, now, key), now)
  {
    var c' := Put(c, now, key);
    forall k | Hit(c', now, k)
      ensures Listed(c', k.bucket, k) && c'.entries[k] + INDEX_SLACK <= c'.sets[k.bucket].deadline
    {
      if k != key {
        assert Hit(c, now, k);
        if k.bucket == key.bucket {
          assert k in Members(c, now, k.bucket);
        }
      }
    }
  }

  lemma PutKeepsSetsPure(c: Cache, now: Instant, key: CacheKey)
    requires SetsPure(c)
    ensures SetsPure(Put(c, now, key))
  {
    var c' := Put(c, now, key);
    forall b, k | Listed(c', b, k)
      ensures k.bucket == b
    {
      assert Listed(c, b, k) || k == key;
    }
  }

  /** A strict result can be hit for 60 seconds and a degraded one for 15, its set stays 30 seconds
      longer, and no other result is touched. */
  lemma ResultLives(c: Cache, now: Instant, later: Instant, key: CacheKey)
    requires now <= later
    ensures Hit(Put(c, now, key), later, key) <==> later < now + if key.bucket.mode == Strict then 60 else 15
    ensures Put(c, now, key).sets[key.bucket].deadline == now + if key.bucket.mode == Strict then 90 else 45
    ensures forall other :: other != key ==> (Hit(Put(c, now, key), later, other) <==> Hit(c, later, other))
  {
  }

  lemma PutKeepsIndexed(c: Cache, now: Instant, key: CacheKey)
    requires Indexed(c, now)
    ensures Indexed(Put(c, now, key), now)
  {
    PutKeepsHitsListed(c, now, key);
    PutKeepsSetsPure(c, now, key);
  }

  /** Invalidating a bucket removes exactly the live results of that bucket. */
  lemma InvalidateIsExact(c: Cache, now: Instant, b: Bucket)
    requires Indexed(c, now)
    ensures forall key :: Hit(Invalidate(c, now, b), now, key) <==> Hit(c, now, key) && key.bucket != b
    ensures forall key, other :: Listed(Invalidate(c, now, b), other, key) <==> Listed(c, other, key) && other != b
  {
    forall key
      ensures Hit(Invalidate(c, now, b), now, key) <==> Hit(c, now, key) && key.bucket != b
    {
      if key in Members(c, now, b) {
        assert Listed(c, b, key);
      }
    }
  }

  lemma InvalidateKeepsIndexed(c: Cache, now: Instant, b: Bucket)
    requires Indexed(c, now)
    ensures Indexed(Invalidate(c, now, b), now)
  {
    var c' := Invalidate(c, now, b);
    InvalidateIsExact(c, now, b);
    assert forall b', key :: Listed(c', b', key) ==> Listed(c, b', key);
    forall key | Hit(c', now, key)
      ensures Listed(c', key.bucket, key) && c'.entries[key] + INDEX_SLACK <= c'.sets[key.bucket].deadline
    {
      assert Hit(c, now, key);
    }
  }

  lemma TimePassingKeepsIndexed(c: Cache, now: Instant, later: Instant)
    requires Indexed(c, now) && now <= later
    ensures Indexed(c, later)
  {
    forall key | Hit(c, later, key)
      ensures Hit(c, now, key)
    {
    }
  }

  // ---- Places ----

  /** floor(x / grid) */
  function Cell(x: real, grid: real): int
    requires grid > 0.0
  {
    (x / grid).Floor
  }

  lemma DivisionCancels(x: real, grid: real)
    requires grid > 0.0
    ensures x / grid * grid == x
  {
  }

  lemma ScalingKeepsOrder(a: real, b: real, grid: real)
    requires grid > 0.0
    ensures a <= b <==> a * grid <= b * grid
  {
  }

  lemma DivisionMonotone(x: real, y: real, grid: real)
    requires grid > 0.0
    ensures x <= y <==> x / grid <= y / grid
  {
    DivisionCancels(x, grid);
    DivisionCancels(y, grid);
    ScalingKeepsOrder(x / grid, y / grid, grid);
  }

  lemma CellMonotone(x: real, y: real, grid: real)
    requires grid > 0.0 && x <= y
    ensures Cell(x, grid) <= Cell(y, grid)
  {
    DivisionMonotone(x, y, grid);
  }

  /** The lower edge of a cell lies in it. */
  lemma CellEdge(k: int, grid: real)
    requires grid > 0.0
    ensures Cell(k as real * grid, grid) == k
  {
    var x := k as real * grid;
    DivisionCancels(x, grid);
    ScalingKeepsOrder(x / grid, k as real, grid);
    ScalingKeepsOrder(k as real, x / grid, grid);
  }

  lemma EdgeBelow(x: real, k: int, grid: real)
    requires grid > 0.0 && k <= Cell(x, grid)
    ensures k as real * grid <= x
  {
    DivisionCancels(x, grid);
    ScalingKeepsOrder(k as real, x / grid, grid);
  }

  /** Every cell between the cells of two points holds a point between them. */
  lemma CellsBetweenAreMet(low: real, high: real, k: int, grid: real) returns (x: real)
    requires grid > 0.0 && low <= high && Cell(low, grid) <= k <= Cell(high, grid)
    ensures low <= x <= high && Cell(x, grid) == k
  {
    if k == Cell(low, grid) {
      x := low;
    } else {
      x := k as real * grid;
      CellEdge(k, grid);
      EdgeBelow(high, k, grid);
      if x < low {
        CellMonotone(x, low, grid);
      }
    }
  }
}
