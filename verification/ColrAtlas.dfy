/** The tile allocator of colour glyphs (src/ColrAtlas.h, src/ColrAtlas.cpp:20-173): grid
    slots in one square atlas per size bucket, evicted by generation, grown when all
    tiles are in use.  The bucket of a font size is an input. */
module ColrAtlases {
  import opened Arithmetic

  const BUCKET_SIZES: seq<nat> := [32, 64, 128, 256, 512]

  const NUM_BUCKETS := 5

  const INITIAL_DIM := 2048

  const MAX_DIM := 8192

  datatype Tile = Tile(x: nat, y: nat, generation: nat)

  datatype CacheKey = CacheKey(glyph: nat, bucket: nat)

  datatype BucketState = BucketState(nextSlot: nat, maxSlots: nat, atlasDim: nat)

  datatype State = State(cache: map<CacheKey, Tile>, buckets: seq<BucketState>, gen: nat)

  function Size(b: nat): (s: nat)
    requires b < NUM_BUCKETS
    ensures 32 <= s <= 512
  {
    BUCKET_SIZES[b]
  }

  predicate IsDim(d: nat) { d == 2048 || d == 4096 || d == 8192 }

  function PerRow(b: nat, dim: nat): (n: nat)
    requires b < NUM_BUCKETS
    ensures IsDim(dim) ==> n >= 4 && n % 2 == 0
  {
    dim / Size(b)
  }

  /** The tile of a slot, with the stride of the atlas as it is now. */
  function TileAt(b: nat, dim: nat, slot: nat, gen: nat): Tile
    requires b < NUM_BUCKETS && IsDim(dim)
  {
    var tpr := PerRow(b, dim);
    Tile((slot % tpr) * Size(b), (slot / tpr) * Size(b), gen)
  }

  /** The slot index derived from a position, with the stride as it is now. */
  function SlotOf(b: nat, dim: nat, t: Tile): nat
    requires b < NUM_BUCKETS && IsDim(dim)
  {
    (t.y / Size(b)) * PerRow(b, dim) + t.x / Size(b)
  }

  function InBucket(cache: map<CacheKey, Tile>, b: nat): set<CacheKey> {
    set k | k in cache && k.bucket == b
  }

  predicate Apart(t: Tile, u: Tile, size: nat) {
    t.x + size <= u.x || u.x + size <= t.x || t.y + size <= u.y || u.y + size <= t.y
  }

  // ---------------------------------------------------------------- invariant

  predicate BucketSound(b: nat, bs: BucketState)
    requires b < NUM_BUCKETS
  {
    && IsDim(bs.atlasDim)
    && bs.nextSlot <= bs.maxSlots
    && (bs.maxSlots == PerRow(b, bs.atlasDim) * PerRow(b, bs.atlasDim) || (bs.maxSlots == 0 && bs.atlasDim == INITIAL_DIM))
  }

  predicate Shaped(s: State) {
    && |s.buckets| == NUM_BUCKETS
    && (forall b :: 0 <= b < NUM_BUCKETS ==> BucketSound(b, s.buckets[b]))
    && (forall k :: k in s.cache ==> k.bucket < NUM_BUCKETS)
  }

  /** As many tiles are cached as slots were handed out. */
  predicate Counted(s: State)
    requires |s.buckets| == NUM_BUCKETS
  {
    forall b :: 0 <= b < NUM_BUCKETS ==> |InBucket(s.cache, b)| == s.buckets[b].nextSlot
  }

  /** A tile stands at a grid position inside the atlas. */
  predicate Gridded(b: nat, dim: nat, t: Tile)
    requires b < NUM_BUCKETS && IsDim(dim)
  {
    && t.x / Size(b) < PerRow(b, dim) && t.y / Size(b) < PerRow(b, dim)
    && t.x == t.x / Size(b) * Size(b) && t.y == t.y / Size(b) * Size(b)
  }

  predicate Placed(s: State)
    requires Shaped(s)
  {
    forall k :: k in s.cache ==> Gridded(k.bucket, s.buckets[k.bucket].atlasDim, s.cache[k])
  }

  /** As long as a bucket has not grown its tiles hold different slots. */
  predicate OwnSlots(s: State)
    requires Shaped(s)
  {
    && (forall k :: k in s.cache && s.buckets[k.bucket].atlasDim == INITIAL_DIM ==>
          SlotOf(k.bucket, INITIAL_DIM, s.cache[k]) < s.buckets[k.bucket].nextSlot)
    && (forall j, k :: j in s.cache && k in s.cache && j != k && j.bucket == k.bucket && s.buckets[k.bucket].atlasDim == INITIAL_DIM ==>
          SlotOf(k.bucket, INITIAL_DIM, s.cache[j]) != SlotOf(k.bucket, INITIAL_DIM, s.cache[k]))
  }

  /** No tile is of a generation to come. */
  predicate Aged(s: State) { forall k :: k in s.cache ==> s.cache[k].generation <= s.gen }

  predicate Inv(s: State) {
    Shaped(s) && Counted(s) && Placed(s) && OwnSlots(s) && Aged(s)
  }

  // ---------------------------------------------------------------- arithmetic

  /** A slot and the position it stands for tell each other. */
  lemma SlotRoundTrip(b: nat, dim: nat, slot: nat, gen: nat)
    requires b < NUM_BUCKETS && IsDim(dim) && slot < PerRow(b, dim) * PerRow(b, dim)
    ensures var t := TileAt(b, dim, slot, gen); SlotOf(b, dim, t) == slot && Gridded(b, dim, t)
  {
    hide PerRow, Size;
    var tpr, size := PerRow(b, dim), Size(b);
    QuotientUnique(slot % tpr * size, slot % tpr, 0, size);
    QuotientUnique(slot / tpr * size, slot / tpr, 0, size);
    RowBelow(slot, tpr);
    assert slot == slot / tpr * tpr + slot % tpr;
  }

  lemma RowBelow(slot: nat, tpr: nat)
    requires tpr > 0 && slot < tpr * tpr
    ensures slot / tpr < tpr
  {
    assert slot == slot / tpr * tpr + slot % tpr;
    if slot / tpr > tpr { TimesMonotone(tpr, slot / tpr, tpr); }
  }

  /** A tile evicted and placed again by its slot gets its rectangle back exactly, with
      whatever stride the atlas has now. */
  lemma PositionRoundTrip(b: nat, dim: nat, t: Tile, gen: nat)
    requires b < NUM_BUCKETS && IsDim(dim) && Gridded(b, dim, t)
    ensures TileAt(b, dim, SlotOf(b, dim, t), gen) == Tile(t.x, t.y, gen)
  {
    QuotientUnique(SlotOf(b, dim, t), t.y / Size(b), t.x / Size(b), PerRow(b, dim));
  }

  /** Tiles in different slots do not overlap. */
  lemma SlotsApart(b: nat, dim: nat, t: Tile, u: Tile)
    requires b < NUM_BUCKETS && IsDim(dim) && Gridded(b, dim, t) && Gridded(b, dim, u)
    requires SlotOf(b, dim, t) != SlotOf(b, dim, u)
    ensures Apart(t, u, Size(b))
  {
    var n := Size(b);
    var tx, ty, ux, uy := t.x / n, t.y / n, u.x / n, u.y / n;
    assert tx != ux || ty != uy;
    if tx < ux { TimesMonotone(tx, ux, n); }
    else if ux < tx { TimesMonotone(ux, tx, n); }
    else if ty < uy { TimesMonotone(ty, uy, n); }
    else { TimesMonotone(uy, ty, n); }
  }

  /** In every state of a bucket that has not grown since the atlas was last cleared, no
      two of its tiles overlap. */
  lemma UngrownTilesApart(s: State, j: CacheKey, k: CacheKey)
    requires Inv(s) && j in s.cache && k in s.cache && j != k && j.bucket == k.bucket
    requires s.buckets[k.bucket].atlasDim == INITIAL_DIM
    ensures Apart(s.cache[j], s.cache[k], Size(k.bucket))
  {
    SlotsApart(k.bucket, INITIAL_DIM, s.cache[j], s.cache[k]);
  }

  // ---------------------------------------------------------------- acquire

  /** The bucket with its slot count computed, as on first use. */
  function Opened(b: nat, bs: BucketState): BucketState
    requires b < NUM_BUCKETS
  {
    if bs.maxSlots == 0 then bs.(maxSlots := PerRow(b, bs.atlasDim) * PerRow(b, bs.atlasDim)) else bs
  }

  function WithOpened(s: State, b: nat): State
    requires b < NUM_BUCKETS == |s.buckets|
  {
    s.(buckets := s.buckets[b := Opened(b, s.buckets[b])])
  }

  predicate Full(bs: BucketState) { bs.nextSlot >= bs.maxSlots }

  /** A tile that may be evicted: older than this generation, and no older one is in its
      bucket. */
  predicate Evictable(s: State, v: CacheKey) {
    && v in s.cache && s.cache[v].generation < s.gen
    && forall k :: k in s.cache && k.bucket == v.bucket ==> s.cache[v].generation <= s.cache[k].generation
  }

  predicate AnyOlder(s: State, b: nat) {
    exists k :: k in s.cache && k.bucket == b && s.cache[k].generation < s.gen
  }

  /** The next slot of the bucket goes to the glyph. */
  function Allotted(s: State, key: CacheKey): State
    requires |s.buckets| == NUM_BUCKETS && key.bucket < NUM_BUCKETS && IsDim(s.buckets[key.bucket].atlasDim)
  {
    var bs := s.buckets[key.bucket];
    s.(cache := s.cache[key := TileAt(key.bucket, bs.atlasDim, bs.nextSlot, s.gen)],
       buckets := s.buckets[key.bucket := bs.(nextSlot := bs.nextSlot + 1)])
  }

  /** The rectangle of the victim goes to the glyph. */
  function Recycled(s: State, key: CacheKey, victim: CacheKey): State
    requires victim in s.cache
  {
    s.(cache := (s.cache - {victim})[key := s.cache[victim].(generation := s.gen)])
  }

  function Grown(s: State, b: nat): State
    requires b < NUM_BUCKETS == |s.buckets|
  {
    var bs := s.buckets[b];
    s.(buckets := s.buckets[b := bs.(atlasDim := bs.atlasDim * 2, maxSlots := PerRow(b, bs.atlasDim * 2) * PerRow(b, bs.atlasDim * 2))])
  }

  function Touched(s: State, key: CacheKey): State
    requires key in s.cache
  {
    s.(cache := s.cache[key := s.cache[key].(generation := s.gen)])
  }

  lemma CountAdd(cache: map<CacheKey, Tile>, key: CacheKey, t: Tile, b: nat)
    requires key !in cache
    ensures |InBucket(cache[key := t], b)| == |InBucket(cache, b)| + if key.bucket == b then 1 else 0
  {
    if key.bucket == b {
      assert InBucket(cache[key := t], b) == InBucket(cache, b) + {key};
    } else {
      assert InBucket(cache[key := t], b) == InBucket(cache, b);
    }
  }

  lemma CountTake(cache: map<CacheKey, Tile>, v: CacheKey, b: nat)
    requires v in cache
    ensures |InBucket(cache - {v}, b)| == |InBucket(cache, b)| - if v.bucket == b then 1 else 0
  {
    if v.bucket == b {
      assert InBucket(cache - {v}, b) == InBucket(cache, b) - {v};
      assert v in InBucket(cache, b);
    } else {
      assert InBucket(cache - {v}, b) == InBucket(cache, b);
    }
  }

  lemma TouchedKeeps(s: State, key: CacheKey)
    requires Inv(s) && key in s.cache
    ensures Inv(Touched(s, key))
  {
    hide SlotOf, Gridded, BucketSound, Placed, OwnSlots, Counted;
    BucketKnown(s, key.bucket);
    TouchedCounts(s, key);
    TouchedPlaces(s, key);
  }

  lemma TouchedCounts(s: State, key: CacheKey)
    requires Shaped(s) && Counted(s) && key in s.cache
    ensures Counted(Touched(s, key))
  {
    hide BucketSound;
    forall b | 0 <= b < NUM_BUCKETS ensures InBucket(Touched(s, key).cache, b) == InBucket(s.cache, b) {
    }
  }

  lemma TouchedPlaces(s: State, key: CacheKey)
    requires Shaped(s) && Placed(s) && OwnSlots(s) && key in s.cache
    ensures Shaped(Touched(s, key)) && Placed(Touched(s, key)) && OwnSlots(Touched(s, key))
  {
    hide SlotOf, Gridded, BucketSound;
    var t := Touched(s, key);
    BucketsKnown(s);
    forall k | k in s.cache
      ensures Gridded(k.bucket, s.buckets[k.bucket].atlasDim, t.cache[k])
      ensures s.buckets[k.bucket].atlasDim == INITIAL_DIM ==> SlotOf(k.bucket, INITIAL_DIM, t.cache[k]) == SlotOf(k.bucket, INITIAL_DIM, s.cache[k])
    {
      AgeMovesNothing(k.bucket, s.buckets[k.bucket].atlasDim, s.cache[k], t.cache[k].generation);
    }
  }

  lemma BucketsKnown(s: State)
    requires Shaped(s)
    ensures forall b :: 0 <= b < NUM_BUCKETS ==> IsDim(s.buckets[b].atlasDim)
  {
  }

  lemma OpenedKeeps(s: State, b: nat)
    requires Inv(s) && b < NUM_BUCKETS
    ensures Inv(WithOpened(s, b)) && WithOpened(s, b).buckets[b].maxSlots >= 16
  {
    var tpr := PerRow(b, s.buckets[b].atlasDim);
    assert tpr * tpr >= 16;
  }

  lemma AllottedCounts(s: State, key: CacheKey)
    requires Inv(s) && key !in s.cache && key.bucket < NUM_BUCKETS && !Full(s.buckets[key.bucket])
    ensures Shaped(Allotted(s, key)) && Counted(Allotted(s, key)) && Aged(Allotted(s, key))
  {
    forall b | 0 <= b < NUM_BUCKETS ensures |InBucket(Allotted(s, key).cache, b)| == Allotted(s, key).buckets[b].nextSlot {
      CountAdd(s.cache, key, Allotted(s, key).cache[key], b);
    }
  }

  lemma SlotInside(s: State, b: nat)
    requires Shaped(s) && b < NUM_BUCKETS && !Full(s.buckets[b])
    ensures IsDim(s.buckets[b].atlasDim)
    ensures s.buckets[b].nextSlot < PerRow(b, s.buckets[b].atlasDim) * PerRow(b, s.buckets[b].atlasDim)
  {
  }

  lemma AllottedKeeps(s: State, key: CacheKey)
    requires Inv(s) && key !in s.cache && key.bucket < NUM_BUCKETS && !Full(s.buckets[key.bucket])
    ensures Inv(Allotted(s, key))
  {
    hide BucketSound, InBucket, Counted, TileAt, SlotOf, Gridded, Placed, OwnSlots, Aged;
    AllottedCounts(s, key);
    AllottedPlaces(s, key);
  }

  lemma AllottedPlaces(s: State, key: CacheKey)
    requires Shaped(s) && Placed(s) && OwnSlots(s) && key !in s.cache && key.bucket < NUM_BUCKETS && !Full(s.buckets[key.bucket])
    requires Shaped(Allotted(s, key))
    ensures Placed(Allotted(s, key)) && OwnSlots(Allotted(s, key))
  {
    hide BucketSound, TileAt, SlotOf, Gridded, PerRow;
    SlotInside(s, key.bucket);
    SlotRoundTrip(key.bucket, s.buckets[key.bucket].atlasDim, s.buckets[key.bucket].nextSlot, s.gen);
  }

  lemma RecycledKeeps(s: State, key: CacheKey, victim: CacheKey)
    requires Inv(s) && key !in s.cache && Evictable(s, victim) && victim.bucket == key.bucket
    ensures Inv(Recycled(s, key, victim))
  {
    var t := Recycled(s, key, victim);
    forall b | 0 <= b < NUM_BUCKETS ensures |InBucket(t.cache, b)| == s.buckets[b].nextSlot {
      CountTake(s.cache, victim, b);
      CountAdd(s.cache - {victim}, key, t.cache[key], b);
    }
    RecycledPlaces(s, key, victim);
  }

  lemma AgeMovesNothing(b: nat, dim: nat, t: Tile, gen: nat)
    requires b < NUM_BUCKETS && IsDim(dim)
    ensures SlotOf(b, dim, t.(generation := gen)) == SlotOf(b, dim, t)
    ensures Gridded(b, dim, t.(generation := gen)) == Gridded(b, dim, t)
  {
  }

  lemma RecycledPlaces(s: State, key: CacheKey, victim: CacheKey)
    requires Inv(s) && key !in s.cache && Evictable(s, victim) && victim.bucket == key.bucket
    ensures Shaped(Recycled(s, key, victim)) && Placed(Recycled(s, key, victim)) && OwnSlots(Recycled(s, key, victim)) && Aged(Recycled(s, key, victim))
  {
    hide Counted, SlotOf, Gridded, BucketSound;
    BucketKnown(s, key.bucket);
    AgeMovesNothing(key.bucket, s.buckets[key.bucket].atlasDim, s.cache[victim], s.gen);
  }

  lemma BucketKnown(s: State, b: nat)
    requires Shaped(s) && b < NUM_BUCKETS
    ensures IsDim(s.buckets[b].atlasDim)
  {
  }

  lemma TwiceTheRow(b: nat, dim: nat)
    requires b < NUM_BUCKETS && IsDim(dim) && dim * 2 <= MAX_DIM
    ensures IsDim(dim * 2) && PerRow(b, dim * 2) == 2 * PerRow(b, dim)
    ensures PerRow(b, dim * 2) * PerRow(b, dim * 2) == 4 * (PerRow(b, dim) * PerRow(b, dim)) >= 64
  {
    var p := PerRow(b, dim);
    assert (2 * p) * (2 * p) == 4 * (p * p) && p * p >= 16;
  }

  lemma StillGridded(b: nat, dim: nat, t: Tile)
    requires b < NUM_BUCKETS && IsDim(dim) && dim * 2 <= MAX_DIM && Gridded(b, dim, t)
    ensures IsDim(dim * 2) && Gridded(b, dim * 2, t)
  {
    TwiceTheRow(b, dim);
  }

  lemma GrownKeeps(s: State, b: nat)
    requires Inv(s) && b < NUM_BUCKETS && Full(s.buckets[b]) && s.buckets[b].maxSlots > 0 && s.buckets[b].atlasDim * 2 <= MAX_DIM
    ensures Inv(Grown(s, b)) && !Full(Grown(s, b).buckets[b])
  {
    hide PerRow, SlotOf, Gridded, InBucket;
    TwiceTheRow(b, s.buckets[b].atlasDim);
    forall k | k in s.cache && k.bucket == b ensures Gridded(b, s.buckets[b].atlasDim * 2, s.cache[k]) {
      StillGridded(b, s.buckets[b].atlasDim, s.cache[k]);
    }
  }

  /** Growing from the first size is what makes tiles overlap: the first slot handed out
      after it stands, with the new stride, where an old slot already stands. */
  lemma GrowthOverlaps(s: State, key: CacheKey)
    requires Inv(s) && key !in s.cache && key.bucket < NUM_BUCKETS && Full(s.buckets[key.bucket])
    requires s.buckets[key.bucket].maxSlots > 0 && s.buckets[key.bucket].atlasDim == INITIAL_DIM
    ensures Inv(Grown(s, key.bucket)) && IsDim(Grown(s, key.bucket).buckets[key.bucket].atlasDim)
    ensures Overlapping(Allotted(Grown(s, key.bucket), key), key.bucket)
  {
    hide PerRow, Size, SlotOf, Gridded, TileAt, InBucket;
    var b := key.bucket;
    var p, n := PerRow(b, INITIAL_DIM), Size(b);
    GrownKeeps(s, b);
    TwiceTheRow(b, INITIAL_DIM);
    EverySlotUsed(s, b);
    HalfRow(p);
    assert SlotUsed(s, b, p / 2 * p);
    var k :| k in s.cache && k.bucket == b && SlotOf(b, INITIAL_DIM, s.cache[k]) == p / 2 * p;
    OldCorner(s, b, k);
    NewCorner(b, s.gen);
    var t := Allotted(Grown(s, b), key);
    assert t.cache[key] == TileAt(b, 2 * INITIAL_DIM, p * p, s.gen);
    assert t.cache[k] == s.cache[k];
    assert t.cache[k].x == t.cache[key].x && t.cache[k].y == t.cache[key].y;
  }

  lemma OldCorner(s: State, b: nat, k: CacheKey)
    requires Inv(s) && b < NUM_BUCKETS && s.buckets[b].atlasDim == INITIAL_DIM && k in s.cache && k.bucket == b
    requires var p := PerRow(b, INITIAL_DIM); SlotOf(b, INITIAL_DIM, s.cache[k]) == p / 2 * p
    ensures s.cache[k].x == 0 && s.cache[k].y == PerRow(b, INITIAL_DIM) / 2 * Size(b)
  {
    hide PerRow, Size, SlotOf;
    var p := PerRow(b, INITIAL_DIM);
    QuotientUnique(p / 2 * p, p / 2, 0, p);
    PositionRoundTrip(b, INITIAL_DIM, s.cache[k], s.cache[k].generation);
  }

  lemma NewCorner(b: nat, gen: nat)
    requires b < NUM_BUCKETS
    ensures var p := PerRow(b, INITIAL_DIM);
      TileAt(b, 2 * INITIAL_DIM, p * p, gen) == Tile(0, p / 2 * Size(b), gen)
  {
    var p := PerRow(b, INITIAL_DIM);
    TwiceTheRow(b, INITIAL_DIM);
    HalfRow(p);
    QuotientUnique(p / 2 * (2 * p), p / 2, 0, 2 * p);
  }

  lemma HalfRow(p: nat)
    requires p % 2 == 0 && p >= 4
    ensures p / 2 * p < p * p && p / 2 * (2 * p) == p * p
  {
    var h := p / 2;
    assert p == 2 * h;
    assert h * (2 * p) == (2 * h) * p;
    assert p * p == h * p + h * p && h * p > 0;
  }

  predicate SlotUsed(s: State, b: nat, slot: nat)
    requires b < NUM_BUCKETS
  {
    exists k :: k in s.cache && k.bucket == b && SlotOf(b, INITIAL_DIM, s.cache[k]) == slot
  }

  /** In a full bucket that has not grown every slot is in use. */
  lemma EverySlotUsed(s: State, b: nat)
    requires Inv(s) && b < NUM_BUCKETS && s.buckets[b].atlasDim == INITIAL_DIM
    ensures forall slot: nat :: slot < s.buckets[b].nextSlot ==> SlotUsed(s, b, slot)
  {
    var keys := InBucket(s.cache, b);
    var used := set k | k in keys :: SlotOf(b, INITIAL_DIM, s.cache[k]);
    ImageSize(s, b, keys);
    forall slot: nat | slot < s.buckets[b].nextSlot
      ensures SlotUsed(s, b, slot)
    {
      if slot !in used {
        FewerBelow(used, s.buckets[b].nextSlot, slot);
      }
    }
  }

  lemma {:induction false} ImageSize(s: State, b: nat, keys: set<CacheKey>)
    requires Inv(s) && b < NUM_BUCKETS && s.buckets[b].atlasDim == INITIAL_DIM && keys <= InBucket(s.cache, b)
    ensures |set k | k in keys :: SlotOf(b, INITIAL_DIM, s.cache[k])| == |keys|
    decreases |keys|
  {
    var used := set k | k in keys :: SlotOf(b, INITIAL_DIM, s.cache[k]);
    if keys == {} {
      assert used == {};
    } else {
      var j :| j in keys;
      ImageSize(s, b, keys - {j});
      var rest := set k | k in keys - {j} :: SlotOf(b, INITIAL_DIM, s.cache[k]);
      var slot := SlotOf(b, INITIAL_DIM, s.cache[j]);
      assert used == rest + {slot};
      assert slot !in rest;
    }
  }

  lemma {:induction false} FewerBelow(used: set<nat>, n: nat, gap: nat)
    requires (forall x :: x in used ==> x < n) && gap < n && gap !in used
    ensures |used| < n
    decreases n
  {
    if n - 1 in used {
      FewerBelow(used - {n - 1}, n - 1, gap);
    } else if gap == n - 1 {
      AtMost(used, n - 1);
    } else {
      FewerBelow(used, n - 1, gap);
    }
  }

  lemma {:induction false} AtMost(used: set<nat>, n: nat)
    requires forall x :: x in used ==> x < n
    ensures |used| <= n
    decreases n
  {
    if n == 0 {
      assert used == {};
    } else if n - 1 in used {
      AtMost(used - {n - 1}, n - 1);
    } else {
      AtMost(used, n - 1);
    }
  }

  /** What acquiring a tile for an uncached glyph does. */
  ghost predicate Acquired(s: State, t: State, key: CacheKey, placed: bool, grew: bool, victim: CacheKey)
    requires |s.buckets| == NUM_BUCKETS && key.bucket < NUM_BUCKETS
  {
    var bs := s.buckets[key.bucket];
    if !Full(bs) then placed && !grew && IsDim(bs.atlasDim) && t == Allotted(s, key)
    else if AnyOlder(s, key.bucket) then
      placed && !grew && Evictable(s, victim) && victim.bucket == key.bucket && t == Recycled(s, key, victim)
    else if bs.atlasDim * 2 <= MAX_DIM then
      placed && grew && IsDim(bs.atlasDim * 2) && t == Allotted(Grown(s, key.bucket), key)
    else !placed && !grew && t == s
  }

  predicate Overlapping(t: State, b: nat)
    requires b < NUM_BUCKETS
  {
    exists j, k :: j in t.cache && k in t.cache && j != k && j.bucket == b && k.bucket == b && !Apart(t.cache[j], t.cache[k], Size(b))
  }

  /** With the bucket's slots counted, the tiles come to overlap exactly when it grows. */
  lemma OpenedOverlaps(s: State, t: State, key: CacheKey, placed: bool, grew: bool, victim: CacheKey)
    requires Inv(s) && key !in s.cache && key.bucket < NUM_BUCKETS && s.buckets[key.bucket].maxSlots > 0
    requires s.buckets[key.bucket].atlasDim == INITIAL_DIM && Acquired(s, t, key, placed, grew, victim)
    ensures Overlapping(t, key.bucket) <==> Full(s.buckets[key.bucket]) && !AnyOlder(s, key.bucket)
  {
    hide Counted, Placed, OwnSlots, Aged, BucketSound, TileAt, PerRow, Apart;
    if grew {
      GrowthOverlaps(s, key);
    } else {
      if !Full(s.buckets[key.bucket]) { AllottedKeeps(s, key); }
      else { RecycledKeeps(s, key, victim); }
      forall j, k | j in t.cache && k in t.cache && j != k && j.bucket == key.bucket && k.bucket == key.bucket
        ensures Apart(t.cache[j], t.cache[k], Size(key.bucket))
      {
        UngrownTilesApart(t, j, k);
      }
    }
  }

  /** In a bucket that has not grown, acquiring a tile for an uncached glyph makes tiles
      overlap if and only if, before the call, every slot is handed out and every tile of
      the bucket is of the current generation. */
  lemma OverlapIffFull(s: State, t: State, key: CacheKey, placed: bool, grew: bool, victim: CacheKey)
    requires Inv(s) && key !in s.cache && key.bucket < NUM_BUCKETS && s.buckets[key.bucket].atlasDim == INITIAL_DIM
    requires Acquired(WithOpened(s, key.bucket), t, key, placed, grew, victim)
    ensures Overlapping(t, key.bucket) <==>
      s.buckets[key.bucket].nextSlot == PerRow(key.bucket, INITIAL_DIM) * PerRow(key.bucket, INITIAL_DIM)
      && forall k :: k in s.cache && k.bucket == key.bucket ==> s.cache[k].generation == s.gen
  {
    hide Counted, Placed, OwnSlots, PerRow, Apart, Size, Acquired;
    OpenedKeeps(s, key.bucket);
    BucketKnown(s, key.bucket);
    OpenedOverlaps(WithOpened(s, key.bucket), t, key, placed, grew, victim);
    hide Overlapping;
  }

  // ---------------------------------------------------------------- a run that overlaps

  /** The atlas before the first glyph. */
  function Empty(): State {
    State(map[], seq(NUM_BUCKETS, _ => BucketState(0, 0, INITIAL_DIM)), 0)
  }

  lemma EmptySound()
    ensures Inv(Empty())
  {
    forall b: nat ensures InBucket(Empty().cache, b) == {} {
    }
  }

  /** A call that places a tile for an uncached glyph leads from one state to the other. */
  ghost predicate Places(s: State, t: State, key: CacheKey) {
    && Inv(s) && key !in s.cache && key.bucket < NUM_BUCKETS
    && exists grew, victim :: Acquired(WithOpened(s, key.bucket), t, key, true, grew, victim)
  }

  /** Calls for one glyph after the other of a bucket, all in the first generation. */
  ghost predicate Drawn(states: seq<State>, b: nat) {
    && states != [] && states[0] == Empty()
    && forall i :: 0 <= i < |states| - 1 ==> Places(states[i], states[i + 1], CacheKey(i, b))
  }

  /** `n` glyphs of the bucket have the first `n` slots of the atlas it starts with. */
  predicate Filled(s: State, b: nat, n: nat) {
    && b < NUM_BUCKETS == |s.buckets| && s.buckets[b].nextSlot == n && s.buckets[b].atlasDim == INITIAL_DIM
    && s.gen == 0 && forall k :: k in s.cache ==> k.bucket == b && k.glyph < n && s.cache[k].generation == 0
  }

  function Slots(b: nat): nat
    requires b < NUM_BUCKETS
  {
    PerRow(b, INITIAL_DIM) * PerRow(b, INITIAL_DIM)
  }

  lemma OpenedSlots(s: State, b: nat)
    requires Inv(s) && b < NUM_BUCKETS && s.buckets[b].atlasDim == INITIAL_DIM
    ensures Inv(WithOpened(s, b)) && WithOpened(s, b).buckets[b] == s.buckets[b].(maxSlots := Slots(b))
  {
    hide Counted, Placed, OwnSlots, Aged, PerRow;
    OpenedKeeps(s, b);
  }

  lemma FillsNext(s: State, b: nat, n: nat)
    requires b < NUM_BUCKETS && Inv(s) && Filled(s, b, n) && n < Slots(b)
    ensures var key := CacheKey(n, b); var t := Allotted(WithOpened(s, b), key);
      Inv(t) && Filled(t, b, n + 1) && Places(s, t, key)
  {
    hide Inv, Slots, PerRow;
    var key := CacheKey(n, b);
    assert key !in s.cache;
    OpenedSlots(s, b);
    AllottedKeeps(WithOpened(s, b), key);
    assert Acquired(WithOpened(s, b), Allotted(WithOpened(s, b), key), key, true, false, key);
  }

  lemma UngrownApart(s: State, b: nat)
    requires b < NUM_BUCKETS && Inv(s) && s.buckets[b].atlasDim == INITIAL_DIM
    ensures !Overlapping(s, b)
  {
    hide Inv, Apart;
    forall j, k | j in s.cache && k in s.cache && j != k && j.bucket == b && k.bucket == b
      ensures Apart(s.cache[j], s.cache[k], Size(b))
    {
      UngrownTilesApart(s, j, k);
    }
  }

  lemma {:induction false} Fills(b: nat, n: nat) returns (states: seq<State>)
    requires b < NUM_BUCKETS && n <= Slots(b)
    ensures |states| == n + 1 && Drawn(states, b) && Inv(states[n]) && Filled(states[n], b, n)
    ensures forall i :: 0 <= i <= n ==> !Overlapping(states[i], b)
  {
    hide Inv, Places, Slots, Overlapping;
    if n == 0 {
      EmptySound();
      states := [Empty()];
    } else {
      var before := Fills(b, n - 1);
      FillsNext(before[n - 1], b, n - 1);
      states := before + [Allotted(WithOpened(before[n - 1], b), CacheKey(n - 1, b))];
    }
    UngrownApart(states[n], b);
  }

  lemma GrowsNext(s: State, b: nat)
    requires b < NUM_BUCKETS && Inv(s) && Filled(s, b, Slots(b))
    ensures var key := CacheKey(Slots(b), b); var full := WithOpened(s, b);
      && Inv(full) && IsDim(full.buckets[b].atlasDim * 2) && var t := Allotted(Grown(full, b), key);
      && Places(s, t, key) && Overlapping(t, b)
  {
    hide Inv, Slots, Overlapping, TileAt, Apart;
    var key := CacheKey(Slots(b), b);
    OpenedSlots(s, b);
    var full := WithOpened(s, b);
    GrowthOverlaps(full, key);
    assert !AnyOlder(full, b);
    assert Acquired(full, Allotted(Grown(full, b), key), key, true, true, key);
  }

  /** Every bucket comes to that: one glyph more than it has slots, all drawn in the first
      generation, and two tiles overlap; none did before the last call. */
  lemma OverlapReachable(b: nat) returns (states: seq<State>)
    requires b < NUM_BUCKETS
    ensures |states| == Slots(b) + 2 && Drawn(states, b)
    ensures (forall i :: 0 <= i <= Slots(b) ==> !Overlapping(states[i], b)) && Overlapping(states[Slots(b) + 1], b)
  {
    hide Inv, Places, Slots, Overlapping;
    var before := Fills(b, Slots(b));
    GrowsNext(before[Slots(b)], b);
    states := before + [Allotted(Grown(WithOpened(before[Slots(b)], b), b), CacheKey(Slots(b), b))];
  }

  // ---------------------------------------------------------------- runs

  datatype Op = Find(key: CacheKey) | Acquire(key: CacheKey) | Advance | Drop

  /** One call of a run. */
  ghost predicate Step(s: State, op: Op, t: State)
    requires |s.buckets| == NUM_BUCKETS
  {
    match op
    case Find(key) => t == if key in s.cache then Touched(s, key) else s
    case Acquire(key) =>
      && key.bucket < NUM_BUCKETS
      && if key in s.cache then t == Touched(s, key)
         else exists placed, grew, victim :: Acquired(WithOpened(s, key.bucket), t, key, placed, grew, victim)
    case Advance => t == s.(gen := s.gen + 1)
    case Drop => t == Empty().(gen := s.gen)
  }

  ghost predicate Run(states: seq<State>, ops: seq<Op>) {
    && |states| == |ops| + 1 && states[0] == Empty()
    && forall i :: 0 <= i < |ops| ==> |states[i].buckets| == NUM_BUCKETS && Step(states[i], ops[i], states[i + 1])
  }

  lemma AcquiredKeeps(s: State, t: State, key: CacheKey, placed: bool, grew: bool, victim: CacheKey)
    requires Inv(s) && key !in s.cache && key.bucket < NUM_BUCKETS && s.buckets[key.bucket].maxSlots > 0
    requires Acquired(s, t, key, placed, grew, victim)
    ensures Inv(t)
  {
    hide Counted, Placed, OwnSlots, Aged, BucketSound, TileAt, PerRow, InBucket;
    var bs := s.buckets[key.bucket];
    if !Full(bs) {
      AllottedKeeps(s, key);
    } else if AnyOlder(s, key.bucket) {
      RecycledKeeps(s, key, victim);
    } else if bs.atlasDim * 2 <= MAX_DIM {
      GrownKeeps(s, key.bucket);
      AllottedKeeps(Grown(s, key.bucket), key);
    }
  }

  lemma DroppedSound(gen: nat)
    ensures Inv(Empty().(gen := gen))
  {
    forall b: nat ensures InBucket(Empty().cache, b) == {} {
    }
  }

  lemma AdvancedSound(s: State)
    requires Inv(s)
    ensures Inv(s.(gen := s.gen + 1))
  {
    hide BucketSound, SlotOf, Gridded, InBucket;
  }

  lemma StepKeepsInv(s: State, op: Op, t: State)
    requires Inv(s) && Step(s, op, t)
    ensures Inv(t)
  {
    hide Counted, Placed, OwnSlots, BucketSound, Acquired, Touched, InBucket;
    match op
    case Find(key) => if key in s.cache { TouchedKeeps(s, key); }
    case Acquire(key) =>
      if key in s.cache {
        TouchedKeeps(s, key);
      } else {
        OpenedKeeps(s, key.bucket);
        var placed, grew, victim :| Acquired(WithOpened(s, key.bucket), t, key, placed, grew, victim);
        AcquiredKeeps(WithOpened(s, key.bucket), t, key, placed, grew, victim);
      }
    case Advance => AdvancedSound(s);
    case Drop => DroppedSound(s.gen);
  }

  lemma {:induction false} RunKeepsInv(states: seq<State>, ops: seq<Op>, n: nat)
    requires Run(states, ops) && n < |states|
    ensures Inv(states[n])
  {
    hide Inv, Step;
    if n == 0 {
      EmptySound();
    } else {
      RunKeepsInv(states, ops, n - 1);
      StepKeepsInv(states[n - 1], ops[n - 1], states[n]);
    }
  }

  /** A call evicts one tile at most: only when every slot is handed out, only one that was not
      used in this generation, and none of its bucket was used longer ago; its place goes to
      the glyph asked for. */
  lemma OldestGoes(s: State, op: Op, t: State, gone: CacheKey)
    requires Inv(s) && Step(s, op, t) && !op.Drop? && gone in s.cache && gone !in t.cache
    ensures op.Acquire? && op.key !in s.cache && op.key.bucket == gone.bucket
    ensures t.cache.Keys == s.cache.Keys - {gone} + {op.key} && t.cache[op.key] == Tile(s.cache[gone].x, s.cache[gone].y, s.gen)
    ensures s.cache[gone].generation < s.gen
    ensures forall k :: k in s.cache && k.bucket == gone.bucket ==> s.cache[gone].generation <= s.cache[k].generation
    ensures var tpr := PerRow(gone.bucket, s.buckets[gone.bucket].atlasDim); s.buckets[gone.bucket].nextSlot == tpr * tpr
  {
    hide Counted, Placed, OwnSlots, TileAt, PerRow, Aged;
  }

  /** The glyph has its tile at this place, and it is in use in this generation. */
  predicate InUse(s: State, key: CacheKey, x: nat, y: nat) {
    key in s.cache && s.cache[key] == Tile(x, y, s.gen)
  }

  /** A tile that is found or asked for again keeps its place and is in use, and one that was
      placed is in use. */
  lemma UseMarks(s: State, op: Op, t: State)
    requires Inv(s) && (op.Find? || op.Acquire?) && Step(s, op, t)
    ensures op.key in s.cache ==> InUse(t, op.key, s.cache[op.key].x, s.cache[op.key].y)
    ensures op.key in t.cache ==> InUse(t, op.key, t.cache[op.key].x, t.cache[op.key].y)
  {
    hide Counted, Placed, OwnSlots, BucketSound;
  }

  /** No call takes the place of a tile in use away. */
  lemma UseStays(s: State, op: Op, t: State, key: CacheKey, x: nat, y: nat)
    requires Inv(s) && Step(s, op, t) && !op.Advance? && !op.Drop? && InUse(s, key, x, y)
    ensures InUse(t, key, x, y)
  {
    hide Counted, Placed, OwnSlots, BucketSound, TileAt, PerRow, Aged;
  }

  /** Over every run: a glyph found or placed keeps its tile, at the same place, whatever else
      is drawn, until the generation advances or the atlas is cleared. */
  lemma {:induction false} TileKept(states: seq<State>, ops: seq<Op>, i: nat, k: nat)
    requires Run(states, ops) && i < k < |states| && (ops[i].Find? || ops[i].Acquire?) && ops[i].key in states[i + 1].cache
    requires forall j :: i < j < k ==> !ops[j].Advance? && !ops[j].Drop?
    ensures var tile := states[i + 1].cache[ops[i].key];
      InUse(states[k], ops[i].key, tile.x, tile.y)
    ensures ops[i].key in states[i].cache ==>
      InUse(states[k], ops[i].key, states[i].cache[ops[i].key].x, states[i].cache[ops[i].key].y)
    decreases k
  {
    hide Inv, Step, InUse;
    RunKeepsInv(states, ops, k - 1);
    if k == i + 1 {
      UseMarks(states[i], ops[i], states[k]);
    } else {
      TileKept(states, ops, i, k - 1);
      var tile := states[i + 1].cache[ops[i].key];
      UseStays(states[k - 1], ops[k - 1], states[k], ops[i].key, tile.x, tile.y);
      if ops[i].key in states[i].cache {
        UseStays(states[k - 1], ops[k - 1], states[k], ops[i].key, states[i].cache[ops[i].key].x, states[i].cache[ops[i].key].y);
      }
    }
  }

  // ---------------------------------------------------------------- the allocator

  class ColrAtlas {
    var cache: map<CacheKey, Tile>
    var buckets: seq<BucketState>
    var currentGen: nat

    ghost function St(): State
      reads this
    {
      State(cache, buckets, currentGen)
    }

    constructor ()
      ensures Inv(St()) && St() == Empty()
    {
      cache, currentGen := map[], 0;
      buckets := seq(NUM_BUCKETS, _ => BucketState(0, 0, INITIAL_DIM));
      new;
      assert forall b :: InBucket(cache, b) == {};
    }

    method AdvanceGeneration()
      requires Inv(St())
      modifies this`currentGen
      ensures Inv(St()) && currentGen == old(currentGen) + 1
    {
      currentGen := currentGen + 1;
    }

    /** A cached tile is kept alive by being found. */
    method FindTile(key: CacheKey) returns (found: bool, tile: Tile)
      requires Inv(St())
      modifies this`cache
      ensures Inv(St()) && found == (key in old(cache))
      ensures found ==> St() == Touched(old(St()), key) && tile == cache[key]
      ensures !found ==> cache == old(cache)
    {
      found, tile := key in cache, Tile(0, 0, 0);
      if found {
        TouchedKeeps(St(), key);
        cache := cache[key := cache[key].(generation := currentGen)];
        tile := cache[key];
      }
    }

    /** A tile for the glyph: the one it has (then nothing is placed), the next free
        slot, the rectangle of an evicted tile, or the next slot after growing; nothing
        when the bucket is at its largest with every tile in use. */
    method AcquireTile(key: CacheKey) returns (placed: bool, grew: bool, ghost victim: CacheKey)
      requires Inv(St()) && key.bucket < NUM_BUCKETS
      modifies this`cache, this`buckets
      ensures Inv(St())
      ensures key in old(cache) ==> !placed && !grew && St() == Touched(old(St()), key)
      ensures key !in old(cache) ==> Acquired(WithOpened(old(St()), key.bucket), St(), key, placed, grew, victim)
    {
      hide Counted, Placed, OwnSlots, Aged, BucketSound, Acquired;
      victim := key;
      if key in cache {
        TouchedKeeps(St(), key);
        cache := cache[key := cache[key].(generation := currentGen)];
        return false, false, victim;
      }
      OpenedKeeps(St(), key.bucket);
      if buckets[key.bucket].maxSlots == 0 { UpdateBucketSlots(key.bucket); }
      assert buckets == WithOpened(old(St()), key.bucket).buckets;
      placed, grew, victim := AcquireNew(key);
    }

    method AcquireNew(key: CacheKey) returns (placed: bool, grew: bool, ghost victim: CacheKey)
      requires Inv(St()) && key.bucket < NUM_BUCKETS && key !in cache && buckets[key.bucket].maxSlots > 0
      modifies this`cache, this`buckets
      ensures Inv(St()) && Acquired(old(St()), St(), key, placed, grew, victim)
    {
      hide Counted, Placed, OwnSlots, Aged, BucketSound;
      victim := key;
      grew := false;
      BucketKnown(St(), key.bucket);
      if buckets[key.bucket].nextSlot >= buckets[key.bucket].maxSlots {
        var evicted;
        evicted, victim := ReuseOldest(key);
        if evicted { return true, false, victim; }
        var ok := GrowBucket(key.bucket);
        if !ok { return false, false, victim; }
        grew := true;
      }
      TakeNextSlot(key);
      placed := true;
    }

    method TakeNextSlot(key: CacheKey)
      requires Inv(St()) && key.bucket < NUM_BUCKETS && key !in cache && !Full(buckets[key.bucket])
      modifies this`cache, this`buckets
      ensures IsDim(old(buckets)[key.bucket].atlasDim) && St() == Allotted(old(St()), key) && Inv(St())
    {
      hide Counted, Placed, OwnSlots, Aged, BucketSound;
      AllottedKeeps(St(), key);
      BucketKnown(St(), key.bucket);
      var slot := buckets[key.bucket].nextSlot;
      buckets := buckets[key.bucket := buckets[key.bucket].(nextSlot := slot + 1)];
      PlaceTile(key, slot);
    }

    /** Give the slot of the oldest tile to the glyph, unless every tile is in use. */
    method ReuseOldest(key: CacheKey) returns (done: bool, ghost victim: CacheKey)
      requires Inv(St()) && key.bucket < NUM_BUCKETS && key !in cache
      modifies this`cache
      ensures Inv(St()) && done == AnyOlder(old(St()), key.bucket)
      ensures done ==> Evictable(old(St()), victim) && victim.bucket == key.bucket && St() == Recycled(old(St()), key, victim)
      ensures !done ==> cache == old(cache)
    {
      hide Counted, OwnSlots, Aged, BucketSound, Gridded, SlotOf, TileAt;
      ghost var s := St();
      BucketKnown(s, key.bucket);
      var evicted;
      evicted, victim := EvictOldest(key.bucket);
      if evicted < 0 { return false, victim; }
      PositionRoundTrip(key.bucket, s.buckets[key.bucket].atlasDim, s.cache[victim], s.gen);
      PlaceTile(key, evicted);
      RecycledKeeps(s, key, victim);
      done := true;
    }

    method PlaceTile(key: CacheKey, slot: nat)
      requires key.bucket < NUM_BUCKETS == |buckets| && IsDim(buckets[key.bucket].atlasDim)
      modifies this`cache
      ensures cache == old(cache)[key := TileAt(key.bucket, buckets[key.bucket].atlasDim, slot, currentGen)]
    {
      var tpr := PerRow(key.bucket, buckets[key.bucket].atlasDim);
      var tileSize := Size(key.bucket);
      cache := cache[key := Tile((slot % tpr) * tileSize, (slot / tpr) * tileSize, currentGen)];
    }

    /** Erase a tile of the oldest generation in the bucket, never one of the current
        generation; the result is its slot, or -1. */
    method EvictOldest(b: nat) returns (slot: int, ghost victim: CacheKey)
      requires b < NUM_BUCKETS == |buckets| && IsDim(buckets[b].atlasDim)
      modifies this`cache
      ensures slot == -1 || slot >= 0
      ensures slot >= 0 <==> AnyOlder(old(St()), b)
      ensures slot >= 0 ==> Evictable(old(St()), victim) && victim.bucket == b && cache == old(cache) - {victim}
      ensures slot >= 0 ==> slot == SlotOf(b, buckets[b].atlasDim, old(cache)[victim])
      ensures slot < 0 ==> cache == old(cache)
    {
      var any, oldestGen, oldestKey, oldestSlot := false, 0, CacheKey(0, 0), 0;
      var todo := cache.Keys;
      while todo != {}
        invariant todo <= cache.Keys
        invariant any ==> oldestKey in cache && oldestKey.bucket == b && cache[oldestKey].generation == oldestGen
        invariant any ==> oldestSlot == SlotOf(b, buckets[b].atlasDim, cache[oldestKey])
        invariant forall k :: k in cache && k.bucket == b && k !in todo ==> any && oldestGen <= cache[k].generation
        decreases todo
      {
        var k :| k in todo;
        if k.bucket == b && (!any || cache[k].generation < oldestGen) {
          any, oldestGen, oldestKey := true, cache[k].generation, k;
          oldestSlot := (cache[k].y / Size(b)) * PerRow(b, buckets[b].atlasDim) + cache[k].x / Size(b);
        }
        todo := todo - {k};
      }
      victim := oldestKey;
      if !any || oldestGen >= currentGen { return -1, victim; }
      slot := oldestSlot;
      cache := cache - {oldestKey};
    }

    method GrowBucket(b: nat) returns (ok: bool)
      requires Inv(St()) && b < NUM_BUCKETS && Full(buckets[b]) && buckets[b].maxSlots > 0
      modifies this`buckets
      ensures ok == (old(buckets)[b].atlasDim * 2 <= MAX_DIM)
      ensures Inv(St()) && St() == if ok then Grown(old(St()), b) else old(St())
      ensures ok ==> !Full(buckets[b])
    {
      hide Counted, Placed, OwnSlots, Aged;
      var newDim := buckets[b].atlasDim * 2;
      if newDim > MAX_DIM { return false; }
      GrownKeeps(St(), b);
      buckets := buckets[b := buckets[b].(atlasDim := newDim)];
      UpdateBucketSlots(b);
      assert buckets == Grown(old(St()), b).buckets;
      ok := true;
    }

    method UpdateBucketSlots(b: nat)
      requires b < NUM_BUCKETS == |buckets|
      modifies this`buckets
      ensures buckets == old(buckets)[b := old(buckets)[b].(maxSlots := PerRow(b, old(buckets)[b].atlasDim) * PerRow(b, old(buckets)[b].atlasDim))]
    {
      var tpr := PerRow(b, buckets[b].atlasDim);
      buckets := buckets[b := buckets[b].(maxSlots := tpr * tpr)];
    }

    method Clear()
      modifies this`cache, this`buckets
      ensures Inv(St()) && cache == map[] && forall b :: 0 <= b < NUM_BUCKETS ==> buckets[b] == BucketState(0, 0, INITIAL_DIM)
    {
      cache := map[];
      buckets := seq(NUM_BUCKETS, _ => BucketState(0, 0, INITIAL_DIM));
      assert forall b :: InBucket(cache, b) == {};
    }
  }
}
