/** Evicting cold glyphs and packing the rest back to back
    (src/text.cpp:541-646), as a relation between the atlas before and after. */
module AtlasCompaction {
  import opened GlyphAtlas

  function Texels(g: map<Key, GlyphInfo>, s: seq<Key>): nat {
    if s == [] then 0
    else Texels(g, s[..|s| - 1]) + if s[|s| - 1] in g then g[s[|s| - 1]].numTexels else 0
  }

  /** Where the j-th kept glyph goes: behind the ones kept before it. */
  function Place(g: map<Key, GlyphInfo>, kept: seq<Key>, j: nat): nat
    requires j <= |kept|
  {
    2 * (1 + Weigh(g, kept[..j]))
  }

  function UsedAfter(g: map<Key, GlyphInfo>, kept: seq<Key>, n: nat): nat
    requires n <= |kept| && forall k :: k in kept ==> k in g
  {
    if n == 0 then 1 else Place(g, kept, n - 1) + g[kept[n - 1]].numTexels
  }

  /** The first `n` kept glyphs have their words at their new places in `data`. */
  ghost predicate Copied(a: Atlas, kept: seq<Key>, data: seq<int>, n: nat)
    requires n <= |kept| && AllLive(a, kept) && Backed(a) && InBounds(a)
  {
    forall j :: 0 <= j < n ==>
      var first := Place(a.glyphs, kept, j) / 2;
      var words := Storage(a, kept[j]);
      first * 4 + |words| <= |data| && data[first * 4..first * 4 + |words|] == words
  }

  /** Nothing but zeros from the place of the n-th kept glyph on. */
  predicate BlankPast(g: map<Key, GlyphInfo>, kept: seq<Key>, data: seq<int>, n: nat)
    requires n <= |kept|
  {
    forall i :: Place(g, kept, n) / 2 * 4 <= i < |data| ==> data[i] == 0
  }

  /** `b` is `a` with exactly the listed glyphs kept and packed in that order. */
  ghost predicate Packed(a: Atlas, b: Atlas, kept: seq<Key>)
    requires Backed(a) && InBounds(a)
  {
    && Distinct(kept) && AllLive(a, kept)
    && b.gen == a.gen && |b.data| == |a.data|
    && (forall k :: k in b.glyphs <==> k in a.glyphs && (Live(a, k) ==> k in kept))
    && (forall k :: k in a.glyphs && !Live(a, k) ==> b.glyphs[k] == a.glyphs[k])
    && (forall j :: 0 <= j < |kept| ==> b.glyphs[kept[j]] == a.glyphs[kept[j]].(atlasOffset := Place(a.glyphs, kept, j)))
    && b.used == UsedAfter(a.glyphs, kept, |kept|)
    && Copied(a, kept, b.data, |kept|) && BlankPast(a.glyphs, kept, b.data, |kept|)
  }

  /** The kept glyphs are the newest ones, as many as the target admits. */
  ghost predicate Newest(a: Atlas, kept: seq<Key>, target: nat) {
    && (forall x, y :: x in kept && Live(a, x) && Live(a, y) && y !in kept ==> a.glyphs[x].lastUsedGen >= a.glyphs[y].lastUsedGen)
    && (kept == [] || 1 + Texels(a.glyphs, kept) <= target)
    && ((exists y :: Live(a, y) && y !in kept) ==> exists y :: Next(a, kept, y) && 1 + Texels(a.glyphs, kept) + a.glyphs[y].numTexels > target)
  }

  /** `y` is a newest glyph of those evicted. */
  ghost predicate Next(a: Atlas, kept: seq<Key>, y: Key) {
    && Live(a, y) && y !in kept
    && forall z :: Live(a, z) && z !in kept ==> a.glyphs[y].lastUsedGen >= a.glyphs[z].lastUsedGen
  }

  // ---------------------------------------------------------------- facts

  lemma PlaceRoom(a: Atlas, kept: seq<Key>, j: nat)
    requires AtlasInv(a) && Distinct(kept) && AllLive(a, kept) && j < |kept|
    ensures Place(a.glyphs, kept, j) / 2 * 4 + 4 * Halved(a.glyphs[kept[j]].numTexels) <= |a.data|
  {
    hide InBounds, Separate;
    assert Live(a, kept[j]);
    WeighPrefix(a.glyphs, kept, j, |kept|);
    UsedForLive(a, kept, j);
  }

  lemma UsedForLive(a: Atlas, kept: seq<Key>, j: nat)
    requires Backed(a) && InBounds(a) && AllLive(a, kept) && j < |kept|
    ensures Halved(a.used) * 4 <= |a.data|
  {
    assert Live(a, kept[j]);
  }

  lemma WeighStep(g: map<Key, GlyphInfo>, kept: seq<Key>, j: nat)
    requires j < |kept| && kept[j] in g
    ensures Place(g, kept, j + 1) == Place(g, kept, j) + 2 * Halved(g[kept[j]].numTexels)
  {
    assert kept[..j + 1][..j] == kept[..j];
  }

  lemma PlacesApart(g: map<Key, GlyphInfo>, kept: seq<Key>, i: nat, j: nat)
    requires i < j < |kept| && kept[i] in g
    ensures Place(g, kept, i) + 2 * Halved(g[kept[i]].numTexels) <= Place(g, kept, j)
  {
    WeighPrefix(g, kept, i, j);
  }

  /** How many of the glyphs have an odd number of texels; each but the last wastes one. */
  function OddOnes(g: map<Key, GlyphInfo>, s: seq<Key>): (n: nat)
    ensures n <= |s|
  {
    if s == [] then 0
    else OddOnes(g, s[..|s| - 1]) + if s[|s| - 1] in g then g[s[|s| - 1]].numTexels % 2 else 0
  }

  lemma {:induction false} PlaceIs(g: map<Key, GlyphInfo>, kept: seq<Key>, n: nat)
    requires n <= |kept| && forall k :: k in kept ==> k in g
    ensures Place(g, kept, n) == 2 + Texels(g, kept[..n]) + OddOnes(g, kept[..n])
  {
    if n > 0 {
      PlaceIs(g, kept, n - 1);
      WeighStep(g, kept, n - 1);
      assert kept[..n][..n - 1] == kept[..n - 1];
    }
  }

  /** The used mark is the two sentinel texels, what was kept, and one texel for each odd
      glyph kept but the last; without a glyph it is 1. */
  lemma UsedIs(a: Atlas, b: Atlas, kept: seq<Key>)
    requires AtlasInv(a) && Packed(a, b, kept)
    ensures b.used == if kept == [] then 1 else 2 + Texels(a.glyphs, kept) + OddOnes(a.glyphs, kept[..|kept| - 1])
  {
    hide Fits, Separate, Copied, InBounds, Backed;
    var n := |kept|;
    if n > 0 {
      KeptKnown(a, kept);
      PlaceIs(a.glyphs, kept, n - 1);
    }
  }

  /** Against the target: the budget counts one sentinel texel and no padding, so the mark
      meets it if and only if the room it leaves takes the other sentinel and the padding;
      it ends above it by at most one texel per kept glyph. */
  lemma UsedWithinTargetIff(a: Atlas, b: Atlas, kept: seq<Key>, target: nat)
    requires AtlasInv(a) && Packed(a, b, kept) && Newest(a, kept, target)
    ensures kept == [] ==> (b.used <= target <==> target >= 1)
    ensures kept != [] ==>
      var room := target - (1 + Texels(a.glyphs, kept));
      room >= 0 && (b.used <= target <==> 1 + OddOnes(a.glyphs, kept[..|kept| - 1]) <= room)
    ensures b.used <= (if target < 1 then 1 else target) + |kept|
  {
    hide AtlasInv, Packed, Texels, OddOnes;
    UsedIs(a, b, kept);
  }

  lemma KeptIndex(a: Atlas, b: Atlas, kept: seq<Key>, k: Key) returns (j: nat)
    requires Backed(a) && InBounds(a) && Packed(a, b, kept) && Live(b, k)
    ensures j < |kept| && kept[j] == k && Live(a, k)
    ensures b.glyphs[k] == a.glyphs[k].(atlasOffset := Place(a.glyphs, kept, j))
  {
    hide Copied, UsedAfter;
    j :| 0 <= j < |kept| && kept[j] == k;
    assert Live(a, kept[j]);
  }

  lemma PackedUsed(a: Atlas, b: Atlas, kept: seq<Key>)
    requires Backed(a) && InBounds(a) && Packed(a, b, kept)
    ensures AllLive(a, kept) && |b.data| == |a.data|
    ensures if kept == [] then b.used == 1
      else b.used == Place(a.glyphs, kept, |kept| - 1) + a.glyphs[kept[|kept| - 1]].numTexels
  {
    hide Backed, InBounds, Copied, Place;
  }

  lemma PlaceEven(g: map<Key, GlyphInfo>, kept: seq<Key>, j: nat)
    requires j <= |kept|
    ensures Place(g, kept, j) % 2 == 0 && Place(g, kept, j) >= 2
  {
  }

  lemma PackedInBounds(a: Atlas, b: Atlas, kept: seq<Key>)
    requires AtlasInv(a) && Packed(a, b, kept)
    ensures InBounds(b)
  {
    hide Fits, Separate, InBounds, Copied, Backed, Packed, Place;
    PackedUsed(a, b, kept);
    forall k | Live(b, k)
      ensures b.glyphs[k].atlasOffset % 2 == 0 && b.glyphs[k].atlasOffset >= 2
      ensures b.glyphs[k].atlasOffset + b.glyphs[k].numTexels <= b.used
    {
      var j := KeptIndex(a, b, kept, k);
      PlaceEven(a.glyphs, kept, j);
      if j < |kept| - 1 { PlacesApart(a.glyphs, kept, j, |kept| - 1); }
    }
    InBoundsKnown(b);
  }

  lemma PackedSeparate(a: Atlas, b: Atlas, kept: seq<Key>)
    requires AtlasInv(a) && Packed(a, b, kept)
    ensures Separate(b)
  {
    hide Fits, Separate, InBounds, Copied, Backed, UsedAfter;
    forall x, y | Live(b, x) && Live(b, y) && x != y
      ensures Last(b.glyphs[x]) <= First(b.glyphs[y]) || Last(b.glyphs[y]) <= First(b.glyphs[x])
    {
      var i := KeptIndex(a, b, kept, x);
      var j := KeptIndex(a, b, kept, y);
      if i < j { PlacesApart(a.glyphs, kept, i, j); } else { PlacesApart(a.glyphs, kept, j, i); }
    }
    SeparateKnown(b);
  }

  lemma PackedBacked(a: Atlas, b: Atlas, kept: seq<Key>)
    requires AtlasInv(a) && Packed(a, b, kept)
    ensures Backed(b)
  {
    hide Fits, Separate, InBounds, Copied, Packed, Place, Halved;
    PackedUsed(a, b, kept);
    if kept != [] {
      var last := |kept| - 1;
      KeptDistinct(a, b, kept);
      PlaceRoom(a, kept, last);
      PlaceEven(a.glyphs, kept, last);
      HalvedEven(Place(a.glyphs, kept, last), a.glyphs[kept[last]].numTexels);
    }
  }

  lemma KeptDistinct(a: Atlas, b: Atlas, kept: seq<Key>)
    requires Backed(a) && InBounds(a) && Packed(a, b, kept)
    ensures Distinct(kept)
  {
  }

  lemma HalvedEven(x: nat, n: nat)
    requires x % 2 == 0
    ensures Halved(x + n) == x / 2 + Halved(n)
  {
  }

  lemma InBoundsKnown(b: Atlas)
    requires forall k :: Live(b, k) ==>
      && b.glyphs[k].atlasOffset % 2 == 0 && b.glyphs[k].atlasOffset >= 2
      && b.glyphs[k].atlasOffset + b.glyphs[k].numTexels <= b.used
    ensures InBounds(b)
  {
  }

  lemma SeparateKnown(b: Atlas)
    requires forall x, y :: Live(b, x) && Live(b, y) && x != y ==>
      Last(b.glyphs[x]) <= First(b.glyphs[y]) || Last(b.glyphs[y]) <= First(b.glyphs[x])
    ensures Separate(b)
  {
  }

  lemma PackedFits(a: Atlas, b: Atlas, kept: seq<Key>)
    requires AtlasInv(a) && Packed(a, b, kept)
    ensures Fits(b)
  {
    hide Fits, Separate, InBounds, Copied;
    forall s: seq<Key> | Distinct(s) && AllLive(b, s) ensures 1 + Weigh(b.glyphs, s) <= Halved(b.used) {
      forall k | k in s ensures k in kept && k in b.glyphs && k in a.glyphs && a.glyphs[k].numTexels == b.glyphs[k].numTexels {
        var i :| 0 <= i < |s| && s[i] == k;
        assert Live(b, s[i]);
        var j := KeptIndex(a, b, kept, k);
      }
      WeighSame(a.glyphs, b.glyphs, s);
      KeptKnown(a, kept);
      WeighSubset(a.glyphs, s, kept);
      WeighUsed(a, kept);
    }
    FitsKnown(b);
  }

  lemma FitsKnown(b: Atlas)
    requires forall s: seq<Key> :: Distinct(s) && AllLive(b, s) ==> 1 + Weigh(b.glyphs, s) <= Halved(b.used)
    ensures Fits(b)
  {
  }

  lemma KeptKnown(a: Atlas, kept: seq<Key>)
    requires AllLive(a, kept)
    ensures forall k :: k in kept ==> k in a.glyphs && Live(a, k)
  {
    forall k | k in kept ensures Live(a, k) {
      var j :| 0 <= j < |kept| && kept[j] == k;
    }
  }

  lemma WeighUsed(a: Atlas, kept: seq<Key>)
    requires AllLive(a, kept) && forall k :: k in kept ==> k in a.glyphs
    ensures 1 + Weigh(a.glyphs, kept) <= Halved(UsedAfter(a.glyphs, kept, |kept|))
  {
    if kept != [] {
      assert kept[..|kept|] == kept;
      WeighStep(a.glyphs, kept, |kept| - 1);
    }
  }

  /** Compaction keeps the atlas invariant. */
  lemma PackedKeepsInv(a: Atlas, b: Atlas, kept: seq<Key>)
    requires AtlasInv(a) && Packed(a, b, kept)
    ensures AtlasInv(b)
  {
    hide Fits, Separate, InBounds, Packed, Backed;
    PackedInBounds(a, b, kept);
    PackedSeparate(a, b, kept);
    PackedBacked(a, b, kept);
    PackedFits(a, b, kept);
  }

  lemma LiveInside(a: Atlas, k: Key)
    requires Backed(a) && InBounds(a) && Live(a, k)
    ensures Last(a.glyphs[k]) * 4 <= |a.data|
  {
  }

  lemma PackedStorage(a: Atlas, b: Atlas, kept: seq<Key>, k: Key)
    requires AtlasInv(a) && Packed(a, b, kept) && Live(b, k)
    ensures Live(a, k) && b.glyphs[k].numTexels == a.glyphs[k].numTexels
    ensures Last(a.glyphs[k]) * 4 <= |a.data| && Last(b.glyphs[k]) * 4 <= |b.data|
    ensures Storage(b, k) == Storage(a, k)
  {
    hide Fits, Separate, InBounds, Backed, Weigh;
    var j := KeptIndex(a, b, kept, k);
    LiveInside(a, k);
    PlaceRoom(a, kept, j);
  }

  /** Both atlases give the same value for every texel and component of a glyph. */
  ghost predicate ReadAlike(a: Atlas, b: Atlas, k: Key)
    requires Live(a, k) && Live(b, k)
    requires Last(a.glyphs[k]) * 4 <= |a.data| && a.glyphs[k].atlasOffset % 2 == 0
    requires Last(b.glyphs[k]) * 4 <= |b.data| && b.glyphs[k].atlasOffset % 2 == 0
  {
    && b.glyphs[k].numTexels == a.glyphs[k].numTexels
    && forall t: nat, c: nat :: c < 4 && t < 2 * Halved(a.glyphs[k].numTexels) ==>
         SameFetch(a.data, a.glyphs[k].atlasOffset, b.data, b.glyphs[k].atlasOffset, t, c)
  }

  /** Texel `t`, component `c` past one offset is the same as past the other. */
  predicate SameFetch(data: seq<int>, offset: nat, other: seq<int>, otherOffset: nat, t: nat, c: nat)
    requires c < 4
  {
    && (offset + t) / 2 * 4 + c < |data|
    && (otherOffset + t) / 2 * 4 + c < |other|
    && Fetch(other, otherOffset + t, c) == Fetch(data, offset + t, c)
  }

  /** Every kept glyph reads at its new offset what it read at its old one. */
  lemma KeptGlyphReadsSame(a: Atlas, b: Atlas, kept: seq<Key>, k: Key)
    requires AtlasInv(a) && Packed(a, b, kept) && Live(b, k)
    ensures Live(a, k) && Last(a.glyphs[k]) * 4 <= |a.data| && Last(b.glyphs[k]) * 4 <= |b.data|
    ensures a.glyphs[k].atlasOffset % 2 == 0 && b.glyphs[k].atlasOffset % 2 == 0
    ensures ReadAlike(a, b, k)
  {
    hide Fits, Separate, Packed, Backed, First, Last, Halved;
    PackedStorage(a, b, kept, k);
    PackedInBounds(a, b, kept);
    SameStorageAlike(a, b, k);
  }

  lemma SameStorageAlike(a: Atlas, b: Atlas, k: Key)
    requires Live(a, k) && Live(b, k) && b.glyphs[k].numTexels == a.glyphs[k].numTexels
    requires Last(a.glyphs[k]) * 4 <= |a.data| && a.glyphs[k].atlasOffset % 2 == 0
    requires Last(b.glyphs[k]) * 4 <= |b.data| && b.glyphs[k].atlasOffset % 2 == 0
    requires Storage(b, k) == Storage(a, k)
    ensures ReadAlike(a, b, k)
  {
    forall t: nat, c: nat | c < 4 && t < 2 * Halved(a.glyphs[k].numTexels)
      ensures SameFetch(a.data, a.glyphs[k].atlasOffset, b.data, b.glyphs[k].atlasOffset, t, c)
    {
      FetchInStorage(a, k, t, c);
      FetchInStorage(b, k, t, c);
    }
  }

  lemma FetchInStorage(a: Atlas, k: Key, t: nat, c: nat)
    requires Live(a, k) && Last(a.glyphs[k]) * 4 <= |a.data| && a.glyphs[k].atlasOffset % 2 == 0
    requires c < 4 && t < 2 * Halved(a.glyphs[k].numTexels)
    ensures (a.glyphs[k].atlasOffset + t) / 2 * 4 + c < |a.data|
    ensures Fetch(a.data, a.glyphs[k].atlasOffset + t, c) == Fetch(Storage(a, k), t, c)
  {
    assert (a.glyphs[k].atlasOffset + t) / 2 == First(a.glyphs[k]) + t / 2;
  }

  lemma SameStorageReads(a: Atlas, b: Atlas, k: Key, src: seq<Int16>)
    requires Backed(a) && InBounds(a) && Backed(b) && InBounds(b) && Live(a, k) && Live(b, k)
    requires Last(a.glyphs[k]) * 4 <= |a.data| && Last(b.glyphs[k]) * 4 <= |b.data|
    requires Storage(b, k) == Storage(a, k) && b.glyphs[k].numTexels == a.glyphs[k].numTexels && ReadsBack(a, k, src)
    ensures ReadsBack(b, k, src)
  {
    hide Spells, InBounds, Backed;
  }

  lemma PackedKeepsFaithful(a: Atlas, b: Atlas, kept: seq<Key>, blobs: map<Key, seq<Int16>>)
    requires AtlasInv(a) && Faithful(a, blobs) && Packed(a, b, kept)
    ensures AtlasInv(b) && Faithful(b, blobs)
  {
    hide Fits, Separate, InBounds, Packed, Backed;
    PackedKeepsInv(a, b, kept);
    forall k | Live(b, k) ensures k in blobs && ReadsBack(b, k, blobs[k]) {
      PackedStorage(a, b, kept, k);
      SameStorageReads(a, b, k, blobs[k]);
    }
  }

  // ---------------------------------------------------------------- the steps

  predicate NewestFirst(g: map<Key, GlyphInfo>, s: seq<Key>) {
    && (forall i :: 0 <= i < |s| ==> s[i] in g)
    && forall i, j :: 0 <= i < j < |s| ==> g[s[i]].lastUsedGen >= g[s[j]].lastUsedGen
  }

  lemma Inserted(g: map<Key, GlyphInfo>, r: seq<Key>, i: nat, k: Key)
    requires Distinct(r) && NewestFirst(g, r) && i <= |r| && k !in r && k in g
    requires forall j :: 0 <= j < i ==> g[r[j]].lastUsedGen > g[k].lastUsedGen
    requires i < |r| ==> g[r[i]].lastUsedGen <= g[k].lastUsedGen
    ensures var s := r[..i] + [k] + r[i..];
      Distinct(s) && NewestFirst(g, s) && forall x :: x in s <==> x in r || x == k
  {
    assert r == r[..i] + r[i..];
  }

  /** A prefix of the sorted list that the next glyph would push over the target. */
  lemma PrefixNewest(a: Atlas, entries: seq<Key>, i: nat, target: nat)
    requires Distinct(entries) && (forall k :: k in entries <==> Live(a, k)) && NewestFirst(a.glyphs, entries)
    requires i <= |entries| && (i == 0 || 1 + Texels(a.glyphs, entries[..i]) <= target)
    requires i < |entries| ==> 1 + Texels(a.glyphs, entries[..i]) + a.glyphs[entries[i]].numTexels > target
    ensures Newest(a, entries[..i], target)
  {
    hide Texels, Outlined;
    var kept := entries[..i];
    forall x, y | x in kept && Live(a, x) && Live(a, y) && y !in kept ensures a.glyphs[x].lastUsedGen >= a.glyphs[y].lastUsedGen {
      var p :| 0 <= p < i && entries[p] == x;
      LaterInList(entries, i, y);
    }
    if y :| Live(a, y) && y !in kept {
      LaterInList(entries, i, y);
      forall z | Live(a, z) && z !in kept ensures a.glyphs[entries[i]].lastUsedGen >= a.glyphs[z].lastUsedGen {
        LaterInList(entries, i, z);
      }
      PrefixMember(entries, kept, i);
      assert entries[i] in entries;
      assert Next(a, kept, entries[i]);
    }
  }

  lemma LaterInList(entries: seq<Key>, i: nat, y: Key)
    requires i <= |entries| && y in entries && y !in entries[..i]
    ensures exists q :: i <= q < |entries| && entries[q] == y
  {
    assert entries == entries[..i] + entries[i..];
    var r :| 0 <= r < |entries[i..]| && entries[i..][r] == y;
    assert entries[i + r] == y;
  }

  /** A list without repetition meets its prefix only in the prefix. */
  lemma PrefixMember(entries: seq<Key>, kept: seq<Key>, n: nat)
    requires Distinct(entries) && kept <= entries && n < |entries|
    ensures entries[n] in kept <==> n < |kept|
    ensures n < |kept| ==> entries[n] == kept[n]
  {
    if entries[n] in kept {
      var p :| 0 <= p < |kept| && kept[p] == entries[n];
      assert entries[p] == kept[p];
    }
  }

  lemma PrefixDistinct(entries: seq<Key>, kept: seq<Key>)
    requires Distinct(entries) && kept <= entries
    ensures Distinct(kept)
  {
    assert forall i :: 0 <= i < |kept| ==> kept[i] == entries[i];
  }

  lemma KeptLive(a: Atlas, entries: seq<Key>, kept: seq<Key>)
    requires kept <= entries && forall k :: k in entries <==> Live(a, k)
    ensures AllLive(a, kept)
  {
    forall i | 0 <= i < |kept| ensures Live(a, kept[i]) {
      assert entries[i] == kept[i] && entries[i] in entries;
    }
  }

  function Upto(n: nat, m: nat): nat { if n < m then n else m }

  /** The first `n` kept glyphs know their new places; the others are untouched. */
  ghost predicate Replaced(g: map<Key, GlyphInfo>, h: map<Key, GlyphInfo>, kept: seq<Key>, n: nat) {
    && n <= |kept| && h.Keys == g.Keys
    && (forall j :: 0 <= j < n ==> kept[j] in g && h[kept[j]] == g[kept[j]].(atlasOffset := Place(g, kept, j)))
    && (forall k :: k in g && k !in kept[..n] ==> h[k] == g[k])
  }

  /** The glyph table with every outline gone that is not in `keep`. */
  function Surviving(g: map<Key, GlyphInfo>, keep: set<Key>): map<Key, GlyphInfo> {
    map k | k in g && (!Outlined(g[k]) || k in keep) :: g[k]
  }

  lemma StartPacking(a: Atlas, kept: seq<Key>, data: seq<int>)
    requires Backed(a) && InBounds(a) && AllLive(a, kept)
    requires forall i :: 0 <= i < |data| ==> data[i] == 0
    ensures Replaced(a.glyphs, a.glyphs, kept, 0) && Copied(a, kept, data, 0) && BlankPast(a.glyphs, kept, data, 0)
    ensures (forall k :: k in kept ==> k in a.glyphs) && UsedAfter(a.glyphs, kept, 0) == 1
  {
    KeptKnown(a, kept);
  }

  /** Rounding the used mark up gives the next place. */
  lemma NextPlace(g: map<Key, GlyphInfo>, kept: seq<Key>, n: nat)
    requires n < |kept| && forall k :: k in kept ==> k in g
    ensures Aligned(UsedAfter(g, kept, n)) == Place(g, kept, n)
    ensures UsedAfter(g, kept, n + 1) == Place(g, kept, n) + g[kept[n]].numTexels
  {
    if n > 0 { WeighStep(g, kept, n - 1); }
  }

  lemma CopiedOne(a: Atlas, kept: seq<Key>, n: nat, data: seq<int>, next: seq<int>)
    requires Backed(a) && InBounds(a) && Distinct(kept) && AllLive(a, kept) && n < |kept| && |data| == |a.data|
    requires Copied(a, kept, data, n)
    requires Last(a.glyphs[kept[n]]) * 4 <= |a.data|
    requires var dst, words := Place(a.glyphs, kept, n) / 2 * 4, Storage(a, kept[n]);
      dst + |words| <= |data| && next == data[..dst] + words + data[dst + |words|..]
    ensures Copied(a, kept, next, n + 1)
  {
    hide InBounds, Backed, Place, Halved, BlankPast;
    var dst := Place(a.glyphs, kept, n) / 2 * 4;
    forall j | 0 <= j < n
      ensures var first := Place(a.glyphs, kept, j) / 2 * 4;
        LastInside(a, kept[j]) && first + |Storage(a, kept[j])| <= |next| && next[first..first + |Storage(a, kept[j])|] == Storage(a, kept[j])
    {
      assert Live(a, kept[j]);
      LiveInside(a, kept[j]);
      PlacesApart(a.glyphs, kept, j, n);
      PlaceEven(a.glyphs, kept, j);
      PlaceEven(a.glyphs, kept, n);
      var first := Place(a.glyphs, kept, j) / 2 * 4;
      assert first + |Storage(a, kept[j])| <= dst;
      assert data[first..first + |Storage(a, kept[j])|] == Storage(a, kept[j]);
    }
    LiveInside(a, kept[n]);
  }

  lemma BlankAfterOne(a: Atlas, kept: seq<Key>, n: nat, data: seq<int>, next: seq<int>)
    requires n < |kept| && Live(a, kept[n]) && Last(a.glyphs[kept[n]]) * 4 <= |a.data|
    requires BlankPast(a.glyphs, kept, data, n)
    requires var dst, words := Place(a.glyphs, kept, n) / 2 * 4, Storage(a, kept[n]);
      dst + |words| <= |data| && next == data[..dst] + words + data[dst + |words|..]
    ensures BlankPast(a.glyphs, kept, next, n + 1)
  {
    WeighStep(a.glyphs, kept, n);
  }

  predicate LastInside(a: Atlas, k: Key)
  {
    Live(a, k) && Last(a.glyphs[k]) * 4 <= |a.data|
  }

  /** Moving the kept glyphs and erasing the rest packs the atlas. */
  lemma PackedNow(a: Atlas, b: Atlas, moved: map<Key, GlyphInfo>, keep: set<Key>, kept: seq<Key>)
    requires Backed(a) && InBounds(a) && Distinct(kept) && AllLive(a, kept) && forall k :: k in keep <==> k in kept
    requires forall k :: k in kept ==> k in a.glyphs
    requires Replaced(a.glyphs, moved, kept, |kept|) && b.glyphs == Surviving(moved, keep)
    requires b.gen == a.gen && |b.data| == |a.data| && b.used == UsedAfter(a.glyphs, kept, |kept|)
    requires Copied(a, kept, b.data, |kept|) && BlankPast(a.glyphs, kept, b.data, |kept|)
    ensures Packed(a, b, kept)
  {
    hide InBounds, Backed, Copied, UsedAfter, Place, BlankPast;
    assert kept[..|kept|] == kept;
    forall k | k in a.glyphs ensures moved[k].numTexels == a.glyphs[k].numTexels && Outlined(moved[k]) == Outlined(a.glyphs[k]) {
      if k in kept { var j :| 0 <= j < |kept| && kept[j] == k; }
    }
    forall j | 0 <= j < |kept| ensures kept[j] in keep {
    }
  }

  // ---------------------------------------------------------------- colour outlines

  /** Whatever has texels, colour graph or not, starts at an even texel past the reserved
      one. */
  ghost predicate Anchored(g: map<Key, GlyphInfo>) {
    forall k :: k in g && g[k].numTexels > 0 ==> g[k].atlasOffset % 2 == 0 && g[k].atlasOffset >= 2
  }

  lemma StoredAnchored(a: Atlas, data: seq<int>, k: Key, src: seq<Int16>)
    requires AtlasInv(a) && Anchored(a.glyphs)
    ensures Anchored(Stored(a, data, k, src, false).glyphs)
  {
    hide Fits, Separate, InBounds;
  }

  /** The two glyphs share a storage texel. */
  predicate Meet(g: GlyphInfo, h: GlyphInfo) { First(g) < Last(h) && First(h) < Last(g) }

  lemma KeptSpan(a: Atlas, b: Atlas, kept: seq<Key>, j: nat)
    requires Backed(a) && InBounds(a) && Packed(a, b, kept) && j < |kept|
    ensures Live(b, kept[j]) && kept[j] in a.glyphs
    ensures First(b.glyphs[kept[j]]) == 1 + Weigh(a.glyphs, kept[..j])
    ensures Last(b.glyphs[kept[j]]) == 1 + Weigh(a.glyphs, kept[..j + 1]) <= 1 + Weigh(a.glyphs, kept)
  {
    hide InBounds, Backed, Copied, UsedAfter, BlankPast;
    assert Live(a, kept[j]) && kept[j] in kept;
    WeighStep(a.glyphs, kept, j);
    WeighPrefix(a.glyphs, kept, j, j + 1);
  }

  /** The kept glyphs lie end to end from texel 1 on. */
  lemma {:induction false} TexelHeld(a: Atlas, b: Atlas, kept: seq<Key>, n: nat, t: nat) returns (j: nat)
    requires Backed(a) && InBounds(a) && Packed(a, b, kept) && n <= |kept| && 1 <= t < 1 + Weigh(a.glyphs, kept[..n])
    ensures j < |kept| && Live(b, kept[j]) && First(b.glyphs[kept[j]]) <= t < Last(b.glyphs[kept[j]])
    decreases n
  {
    hide InBounds, Backed, Packed, Halved;
    assert kept[..0] == [];
    if n == 0 {
    } else if t < 1 + Weigh(a.glyphs, kept[..n - 1]) {
      j := TexelHeld(a, b, kept, n - 1, t);
    } else {
      j := n - 1;
      KeptSpan(a, b, kept, j);
    }
  }

  lemma ColourStays(a: Atlas, b: Atlas, kept: seq<Key>, k: Key)
    requires Backed(a) && InBounds(a) && Packed(a, b, kept) && k in a.glyphs && a.glyphs[k].isColr
    ensures k in b.glyphs && b.glyphs[k] == a.glyphs[k] && k !in kept
  {
    hide InBounds, Backed, Copied, UsedAfter, BlankPast, Place;
    KeptKnown(a, kept);
  }

  /** What compaction does to the outline of a colour glyph: its entry stays as it was,
      and some kept glyph now shares storage with it if and only if the outline starts
      below what the kept glyphs need.  Past that its words are zero. */
  lemma ColourOutlineSharedIff(a: Atlas, b: Atlas, kept: seq<Key>, k: Key)
    requires AtlasInv(a) && Packed(a, b, kept)
    requires k in a.glyphs && a.glyphs[k].isColr && 1 <= First(a.glyphs[k]) < Last(a.glyphs[k])
    ensures k in b.glyphs && b.glyphs[k] == a.glyphs[k]
    ensures (exists x :: Live(b, x) && Meet(b.glyphs[x], b.glyphs[k])) <==> First(a.glyphs[k]) < 1 + Weigh(a.glyphs, kept)
    ensures forall i :: 4 * (1 + Weigh(a.glyphs, kept)) <= i < |b.data| ==> b.data[i] == 0
  {
    hide InBounds, Backed, Separate, Fits, Packed;
    ColourStays(a, b, kept, k);
    assert kept[..|kept|] == kept;
    var lo := First(a.glyphs[k]);
    if lo < 1 + Weigh(a.glyphs, kept) {
      var j := TexelHeld(a, b, kept, |kept|, lo);
      assert Meet(b.glyphs[kept[j]], b.glyphs[k]);
    }
    if x :| Live(b, x) && Meet(b.glyphs[x], b.glyphs[k]) {
      var j := KeptIndex(a, b, kept, x);
      KeptSpan(a, b, kept, j);
    }
    BlankTail(a, b, kept);
  }

  lemma BlankTail(a: Atlas, b: Atlas, kept: seq<Key>)
    requires Backed(a) && InBounds(a) && Packed(a, b, kept)
    ensures forall i :: 4 * (1 + Weigh(a.glyphs, kept)) <= i < |b.data| ==> b.data[i] == 0
  {
    hide InBounds, Backed, Copied, UsedAfter;
    assert kept[..|kept|] == kept;
  }

  lemma PackedAnchored(a: Atlas, b: Atlas, kept: seq<Key>)
    requires Backed(a) && InBounds(a) && Packed(a, b, kept) && Anchored(a.glyphs)
    ensures Anchored(b.glyphs)
  {
    hide InBounds, Backed, Copied, UsedAfter, BlankPast, Place;
    forall k | k in b.glyphs && b.glyphs[k].numTexels > 0 ensures b.glyphs[k].atlasOffset % 2 == 0 && b.glyphs[k].atlasOffset >= 2 {
      if k in kept {
        var j :| 0 <= j < |kept| && kept[j] == k;
        PlaceEven(a.glyphs, kept, j);
      }
    }
  }

  /** If it stood first in the old buffer, it shares storage with the newest kept glyph
      as soon as there is one. */
  lemma ColourOutlineOverwritten(a: Atlas, b: Atlas, kept: seq<Key>, k: Key)
    requires AtlasInv(a) && Packed(a, b, kept) && kept != []
    requires k in a.glyphs && a.glyphs[k].isColr && a.glyphs[k].numTexels > 0 && a.glyphs[k].atlasOffset == 2
    ensures k in b.glyphs && b.glyphs[k] == a.glyphs[k] && exists x :: Live(b, x) && Meet(b.glyphs[x], b.glyphs[k])
    ensures Live(b, kept[0]) && First(b.glyphs[kept[0]]) == First(b.glyphs[k])
  {
    hide InBounds, Backed, Separate, Fits, Packed;
    KeptSpan(a, b, kept, 0);
    assert kept[..0] == [];
    ColourOutlineSharedIff(a, b, kept, k);
  }
}
