/** The glyph atlas of a font (src/text.h:20-133, src/text.cpp:75-272): an append
    allocator for the 16-bit outline data of glyphs, packed two virtual texels to a
    storage texel of four 32-bit words. */
module GlyphAtlas {

  type Key = nat

  type Int16 = x: int | -32768 <= x < 32768

  datatype GlyphInfo = GlyphInfo(atlasOffset: nat, isEmpty: bool, isColr: bool, numTexels: nat, lastUsedGen: nat)

  datatype Atlas = Atlas(data: seq<int>, used: nat, gen: nat, glyphs: map<Key, GlyphInfo>)

  // ---------------------------------------------------------------- words

  function Unsigned16(x: Int16): nat { if x < 0 then x + 0x1_0000 else x }

  /** `lo | (hi << 16)`, read as a signed 32-bit word. */
  function Pack(lo: Int16, hi: Int16): int {
    var u := Unsigned16(lo) + 0x1_0000 * Unsigned16(hi);
    if u >= 0x8000_0000 then u - 0x1_0000_0000 else u
  }

  /** The shader's `(word << 16) >> 16`: the low half, sign extended. */
  function Low(word: int): int {
    var u := word % 0x1_0000;
    if u >= 0x8000 then u - 0x1_0000 else u
  }

  /** The shader's `word >> 16`: the high half, sign extended. */
  function High(word: int): int { word / 0x1_0000 }

  lemma PackedReads(lo: Int16, hi: Int16)
    ensures Low(Pack(lo, hi)) == lo && High(Pack(lo, hi)) == hi
  {
  }

  /** Component `c` of virtual texel `texel`, as the shader reads it: even texels are
      the low halves of a storage texel, odd ones the high halves. */
  function Fetch(data: seq<int>, texel: nat, c: nat): int
    requires c < 4 && texel / 2 * 4 + c < |data|
  {
    var word := data[texel / 2 * 4 + c];
    if texel % 2 == 0 then Low(word) else High(word)
  }

  /** The word is `lo | (hi << 16)` as a 32-bit pattern. */
  lemma PackedWord(lo: Int16, hi: Int16)
    ensures -0x8000_0000 <= Pack(lo, hi) < 0x8000_0000
    ensures Pack(lo, hi) % 0x1_0000_0000 == lo % 0x1_0000 + 0x1_0000 * (hi % 0x1_0000)
  {
  }

  /** An even texel is the low half of its word and an odd one the high half, as signed
      16-bit numbers. */
  lemma FetchHalves(data: seq<int>, texel: nat, c: nat)
    requires c < 4 && texel / 2 * 4 + c < |data| && -0x8000_0000 <= data[texel / 2 * 4 + c] < 0x8000_0000
    ensures var word, half := data[texel / 2 * 4 + c], Fetch(data, texel, c);
      && -0x8000 <= half < 0x8000
      && half % 0x1_0000 == if texel % 2 == 0 then word % 0x1_0000 else word / 0x1_0000 % 0x1_0000
  {
  }

  /** The source value at an index, zero past the end. */
  function Value(src: seq<Int16>, i: nat): Int16 {
    if i < |src| then src[i] else 0
  }

  // ---------------------------------------------------------------- occupancy

  function Halved(texels: nat): nat { (texels + 1) / 2 }

  /** A glyph that owns storage: an outline that no colour graph replaces. */
  predicate Outlined(g: GlyphInfo) { !g.isEmpty && !g.isColr && g.numTexels > 0 }

  predicate Live(a: Atlas, k: Key) { k in a.glyphs && Outlined(a.glyphs[k]) }

  function First(g: GlyphInfo): nat { g.atlasOffset / 2 }

  function Last(g: GlyphInfo): nat { First(g) + Halved(g.numTexels) }

  predicate Distinct(s: seq<Key>) {
    forall i, j :: 0 <= i < j < |s| ==> s[i] != s[j]
  }

  predicate AllLive(a: Atlas, s: seq<Key>) {
    forall i :: 0 <= i < |s| ==> Live(a, s[i])
  }

  /** Storage texels the listed glyphs need. */
  function Weigh(g: map<Key, GlyphInfo>, s: seq<Key>): nat {
    if s == [] then 0
    else Weigh(g, s[..|s| - 1]) + if s[|s| - 1] in g then Halved(g[s[|s| - 1]].numTexels) else 0
  }

  /** Offsets are even and past the reserved texel, and stay below the used mark. */
  ghost predicate InBounds(a: Atlas) {
    forall k :: Live(a, k) ==>
      && a.glyphs[k].atlasOffset % 2 == 0 && a.glyphs[k].atlasOffset >= 2
      && a.glyphs[k].atlasOffset + a.glyphs[k].numTexels <= a.used
  }

  /** No storage texel belongs to two glyphs. */
  ghost predicate Separate(a: Atlas) {
    forall j, k :: Live(a, j) && Live(a, k) && j != k ==>
      Last(a.glyphs[j]) <= First(a.glyphs[k]) || Last(a.glyphs[k]) <= First(a.glyphs[j])
  }

  /** However the glyphs are listed, what they need fits below the used mark. */
  ghost predicate Fits(a: Atlas) {
    forall s: seq<Key> :: Distinct(s) && AllLive(a, s) ==> 1 + Weigh(a.glyphs, s) <= Halved(a.used)
  }

  /** The storage buffer reaches the used mark. */
  predicate Backed(a: Atlas) {
    a.used >= 1 && (a.used > 1 ==> Halved(a.used) * 4 <= |a.data|)
  }

  ghost predicate AtlasInv(a: Atlas) {
    Backed(a) && InBounds(a) && Separate(a) && Fits(a)
  }

  /** The words of a glyph. */
  function Storage(a: Atlas, k: Key): (r: seq<int>)
    requires Live(a, k) && Last(a.glyphs[k]) * 4 <= |a.data|
    ensures |r| == 4 * Halved(a.glyphs[k].numTexels)
  {
    a.data[First(a.glyphs[k]) * 4..Last(a.glyphs[k]) * 4]
  }

  /** The words spell out the source, zero past its end. */
  ghost predicate Spells(words: seq<int>, src: seq<Int16>) {
    && |words| == 4 * Halved((|src| + 3) / 4)
    && forall t: nat, c: nat :: t / 2 * 4 + c < |words| && c < 4 ==> Fetch(words, t, c) == Value(src, 4 * t + c)
  }

  ghost predicate ReadsBack(a: Atlas, k: Key, src: seq<Int16>)
    requires Live(a, k) && Backed(a) && InBounds(a)
  {
    a.glyphs[k].numTexels == (|src| + 3) / 4 && Spells(Storage(a, k), src)
  }

  /** What each glyph was encoded from is what is read back. */
  ghost predicate Faithful(a: Atlas, blobs: map<Key, seq<Int16>>)
    requires Backed(a) && InBounds(a)
  {
    forall k :: Live(a, k) ==> k in blobs && ReadsBack(a, k, blobs[k])
  }

  // ---------------------------------------------------------------- sums

  lemma {:induction false} WeighSame(g: map<Key, GlyphInfo>, h: map<Key, GlyphInfo>, s: seq<Key>)
    requires forall k :: k in s ==> k in g && k in h && g[k].numTexels == h[k].numTexels
    ensures Weigh(g, s) == Weigh(h, s)
  {
    if s != [] { WeighSame(g, h, s[..|s| - 1]); }
  }

  lemma {:induction false} WeighWithout(g: map<Key, GlyphInfo>, s: seq<Key>, i: nat)
    requires i < |s| && s[i] in g
    ensures Weigh(g, s) == Weigh(g, s[..i] + s[i + 1..]) + Halved(g[s[i]].numTexels)
  {
    var t := s[..i] + s[i + 1..];
    if i == |s| - 1 {
      assert t == s[..|s| - 1];
    } else {
      WeighWithout(g, s[..|s| - 1], i);
      assert t[..|t| - 1] == s[..|s| - 1][..i] + s[..|s| - 1][i + 1..];
    }
  }

  lemma DistinctWithout(s: seq<Key>, i: nat)
    requires Distinct(s) && i < |s|
    ensures Distinct(s[..i] + s[i + 1..]) && s[i] !in s[..i] + s[i + 1..]
  {
  }

  /** Fewer glyphs need no more. */
  lemma {:induction false} WeighSubset(g: map<Key, GlyphInfo>, s: seq<Key>, t: seq<Key>)
    requires Distinct(s) && Distinct(t) && forall k :: k in s ==> k in t
    requires forall k :: k in t ==> k in g
    ensures Weigh(g, s) <= Weigh(g, t)
    decreases |s|
  {
    if s != [] {
      var last, rest := s[|s| - 1], s[..|s| - 1];
      assert last in s;
      var i :| 0 <= i < |t| && t[i] == last;
      WeighWithout(g, t, i);
      var u := t[..i] + t[i + 1..];
      DistinctWithout(t, i);
      forall k | k in rest ensures k in u {
        assert k in s;
        var j :| 0 <= j < |t| && t[j] == k;
        assert u[if j < i then j else j - 1] == k;
      }
      WeighSubset(g, rest, u);
    }
  }

  lemma {:induction false} WeighPrefix(g: map<Key, GlyphInfo>, s: seq<Key>, i: nat, j: nat)
    requires i < j <= |s| && s[i] in g
    ensures Weigh(g, s[..i]) + Halved(g[s[i]].numTexels) <= Weigh(g, s[..j]) <= Weigh(g, s)
    decreases |s|
  {
    if j < |s| {
      WeighPrefix(g, s[..|s| - 1], i, j);
      assert s[..|s| - 1][..i] == s[..i] && s[..|s| - 1][..j] == s[..j];
    } else if i < j - 1 {
      WeighPrefix(g, s[..|s| - 1], i, j - 1);
      assert s[..j - 1][..i] == s[..i] && s[..j - 1][..j - 1] == s[..j - 1];
      assert s[..j] == s;
    } else {
      assert s[..j] == s;
    }
  }

  // ---------------------------------------------------------------- encode

  function Aligned(used: nat): nat { if used % 2 == 1 then used + 1 else used }

  /** The atlas after storing an outline: `data` is what the loops leave. */
  function Stored(a: Atlas, data: seq<int>, k: Key, src: seq<Int16>, colr: bool): Atlas {
    var texels := (|src| + 3) / 4;
    var info := GlyphInfo(Aligned(a.used), false, colr, texels, a.gen);
    Atlas(data, Aligned(a.used) + texels, a.gen, a.glyphs[k := info])
  }

  /** The words the encoder writes for a source: texel pairs share a word. */
  function Encoded(src: seq<Int16>): (r: seq<int>)
    ensures |r| == 4 * Halved((|src| + 3) / 4)
  {
    seq(4 * Halved((|src| + 3) / 4), i requires i >= 0 =>
      Pack(Value(src, i / 4 * 8 + i % 4), Value(src, i / 4 * 8 + 4 + i % 4)))
  }

  lemma EncodedSpells(src: seq<Int16>)
    ensures Spells(Encoded(src), src)
  {
    var w := Encoded(src);
    forall t: nat, c: nat | t / 2 * 4 + c < |w| && c < 4 ensures Fetch(w, t, c) == Value(src, 4 * t + c) {
      var i := t / 2 * 4 + c;
      assert i / 4 == t / 2 && i % 4 == c;
      PackedReads(Value(src, i / 4 * 8 + i % 4), Value(src, i / 4 * 8 + 4 + i % 4));
    }
  }

  /** The words from `base` on hold the encoded source; words below are as before. */
  ghost predicate Written(was: seq<int>, data: seq<int>, base: nat, src: seq<Int16>) {
    var end := base * 4 + |Encoded(src)|;
    && |was| <= |data| && end <= |data|
    && data[base * 4..end] == Encoded(src)
    && forall i :: 0 <= i < base * 4 && i < |was| ==> data[i] == was[i]
  }

  lemma StoredFits(a: Atlas, data: seq<int>, k: Key, src: seq<Int16>, colr: bool)
    requires Fits(a) && k !in a.glyphs && a.used >= 1
    ensures Fits(Stored(a, data, k, src, colr))
  {
    hide Weigh;
    var b := Stored(a, data, k, src, colr);
    forall s: seq<Key> | Distinct(s) && AllLive(b, s) ensures 1 + Weigh(b.glyphs, s) <= Halved(b.used) {
      if k in s {
        var i :| 0 <= i < |s| && s[i] == k;
        assert Live(b, s[i]);
        var rest := s[..i] + s[i + 1..];
        WeighWithout(b.glyphs, s, i);
        DistinctWithout(s, i);
        OldGlyphsFit(a, b, k, rest);
      } else {
        OldGlyphsFit(a, b, k, s);
      }
    }
  }

  lemma OldGlyphsFit(a: Atlas, b: Atlas, k: Key, s: seq<Key>)
    requires Fits(a) && Distinct(s) && AllLive(b, s) && k !in s
    requires b.glyphs.Keys == a.glyphs.Keys + {k} && forall x :: x in a.glyphs && x != k ==> b.glyphs[x] == a.glyphs[x]
    ensures 1 + Weigh(b.glyphs, s) <= Halved(a.used)
  {
    forall i | 0 <= i < |s| ensures Live(a, s[i]) {
      assert Live(b, s[i]);
    }
    WeighSame(a.glyphs, b.glyphs, s);
  }

  lemma StoredBounds(a: Atlas, data: seq<int>, k: Key, src: seq<Int16>, colr: bool)
    requires Backed(a) && InBounds(a) && k !in a.glyphs && Written(a.data, data, Aligned(a.used) / 2, src)
    ensures Backed(Stored(a, data, k, src, colr)) && InBounds(Stored(a, data, k, src, colr))
  {
    hide Encoded;
    EncodedLength(src);
  }

  lemma StoredSeparate(a: Atlas, data: seq<int>, k: Key, src: seq<Int16>, colr: bool)
    requires InBounds(a) && Separate(a) && k !in a.glyphs
    ensures Separate(Stored(a, data, k, src, colr))
  {
  }

  lemma StoredKeepsInv(a: Atlas, data: seq<int>, k: Key, src: seq<Int16>, colr: bool)
    requires AtlasInv(a) && k !in a.glyphs && Written(a.data, data, Aligned(a.used) / 2, src)
    ensures AtlasInv(Stored(a, data, k, src, colr))
  {
    hide Fits, Separate, InBounds, Backed, Written;
    StoredBounds(a, data, k, src, colr);
    StoredSeparate(a, data, k, src, colr);
    BackedUsed(a);
    StoredFits(a, data, k, src, colr);
  }

  lemma BackedUsed(a: Atlas)
    requires Backed(a)
    ensures a.used >= 1
  {
  }

  lemma EncodedLength(src: seq<Int16>)
    ensures |Encoded(src)| == 4 * Halved((|src| + 3) / 4)
  {
  }

  lemma StoredReadsBack(a: Atlas, data: seq<int>, k: Key, src: seq<Int16>)
    requires AtlasInv(a) && k !in a.glyphs && Written(a.data, data, Aligned(a.used) / 2, src)
    requires Live(Stored(a, data, k, src, false), k)
    ensures var b := Stored(a, data, k, src, false); AtlasInv(b) && ReadsBack(b, k, src)
  {
    hide Fits, Separate, Spells;
    StoredKeepsInv(a, data, k, src, false);
    EncodedSpells(src);
    assert Storage(Stored(a, data, k, src, false), k) == Encoded(src);
  }

  /** Fetching virtual texel `t`, component `c` of a glyph gives source value 4t + c,
      and zero past the end of the source. */
  lemma FetchReadsSource(a: Atlas, k: Key, src: seq<Int16>, t: nat, c: nat)
    requires AtlasInv(a) && Live(a, k) && ReadsBack(a, k, src)
    requires c < 4 && t < 2 * Halved(a.glyphs[k].numTexels)
    ensures (a.glyphs[k].atlasOffset + t) / 2 * 4 + c < |a.data|
    ensures Fetch(a.data, a.glyphs[k].atlasOffset + t, c) == Value(src, 4 * t + c)
  {
    hide Fits, Separate;
    var off := a.glyphs[k].atlasOffset;
    assert (off + t) / 2 == off / 2 + t / 2;
    assert Fetch(Storage(a, k), t, c) == Value(src, 4 * t + c);
  }

  lemma StoredElsewhere(a: Atlas, data: seq<int>, k: Key, src: seq<Int16>, colr: bool, x: Key)
    requires Backed(a) && InBounds(a) && k !in a.glyphs && x != k && Live(a, x)
    requires Written(a.data, data, Aligned(a.used) / 2, src)
    ensures var b := Stored(a, data, k, src, colr);
      && Live(b, x) && Last(a.glyphs[x]) * 4 <= |a.data| && Last(b.glyphs[x]) * 4 <= |data|
      && b.glyphs[x] == a.glyphs[x] && Storage(b, x) == Storage(a, x)
  {
    hide Encoded;
  }

  /** Storing a glyph leaves every other glyph readable as it was. */
  lemma StoredKeepsFaithful(a: Atlas, data: seq<int>, k: Key, src: seq<Int16>, colr: bool, blobs: map<Key, seq<Int16>>)
    requires AtlasInv(a) && Faithful(a, blobs) && k !in a.glyphs
    requires Written(a.data, data, Aligned(a.used) / 2, src)
    ensures var b := Stored(a, data, k, src, colr); AtlasInv(b) && Faithful(b, blobs[k := src])
  {
    hide Fits, Separate, Spells, Encoded, InBounds, Backed, Written;
    var b := Stored(a, data, k, src, colr);
    StoredKeepsInv(a, data, k, src, colr);
    forall x | Live(b, x) ensures x in blobs[k := src] && ReadsBack(b, x, blobs[k := src][x]) {
      if x == k {
        StoredReadsBack(a, data, k, src);
      } else {
        assert Live(a, x);
        StoredElsewhere(a, data, k, src, colr, x);
      }
    }
  }
}
