/** The atlas part of a font as the mutable object it is (src/text.h:82-132,
    src/text.cpp:75-272, :527-646). */
module FontAtlases {
  import opened GlyphAtlas
  import opened AtlasCompaction

  class FontAtlas {
    var atlasData: seq<int>
    var atlasUsed: nat
    var currentGen: nat
    var glyphs: map<Key, GlyphInfo>
    var atlasVersion: nat
    /** What each glyph was encoded from. */
    ghost var blobs: map<Key, seq<Int16>>

    ghost function St(): Atlas
      reads this
    {
      Atlas(atlasData, atlasUsed, currentGen, glyphs)
    }

    /** The invariant of every run: storage is sound and every outline reads back what
        it was encoded from. */
    ghost predicate Valid()
      reads this
    {
      AtlasInv(St()) && Faithful(St(), blobs) && Anchored(glyphs)
    }

    constructor ()
      ensures Valid() && glyphs == map[] && blobs == map[] && atlasUsed == 1 && atlasData == [] && currentGen == 0
    {
      atlasData, atlasUsed, currentGen, glyphs, atlasVersion, blobs := [], 1, 0, map[], 0, map[];
      new;
      assert forall s: seq<Key> :: AllLive(St(), s) ==> s == [] by {
        forall s: seq<Key> | AllLive(St(), s) ensures s == [] {
          assert s != [] ==> Live(St(), s[0]);
        }
      }
    }

    method BeginFontFrame()
      requires Valid()
      modifies this`currentGen
      ensures Valid() && currentGen == old(currentGen) + 1
    {
      currentGen := currentGen + 1;
      BookkeepingKeepsFaithful(old(St()), St(), blobs);
    }

    /** The glyph was encoded before: note the use, and drop it from the outlines when
        it turns out to have a colour graph. */
    method TouchGlyph(key: Key, paint: bool)
      requires Valid() && key in glyphs
      modifies this`glyphs
      ensures Valid()
      ensures glyphs == old(glyphs)[key := old(glyphs)[key].(lastUsedGen := currentGen, isColr := paint || old(glyphs)[key].isColr)]
    {
      hide AtlasInv, Faithful;
      glyphs := glyphs[key := glyphs[key].(lastUsedGen := currentGen)];
      if paint && !glyphs[key].isColr {
        glyphs := glyphs[key := glyphs[key].(isColr := true)];
      }
      BookkeepingKeepsFaithful(old(St()), St(), blobs);
    }

    /** A glyph without outline takes a placeholder that occupies no storage. */
    method AddPlaceholder(key: Key, colr: bool)
      requires Valid() && key !in glyphs
      modifies this`glyphs
      ensures Valid()
      ensures glyphs == old(glyphs)[key := GlyphInfo(0, !colr, colr, 0, currentGen)]
    {
      glyphs := glyphs[key := GlyphInfo(0, !colr, colr, 0, currentGen)];
      BookkeepingKeepsFaithful(old(St()), St(), blobs);
    }

    /** Encode a glyph unless it is known.  `outline` tells whether the encoder found
        contours, `src` are the 16-bit values it made of them; `paint` tells whether
        the glyph has a colour graph, `graph` whether that graph has instructions. */
    method EnsureGlyphEncoded(key: Key, outline: bool, src: seq<Int16>, paint: bool, graph: bool)
      requires Valid()
      modifies this
      ensures Valid() && currentGen == old(currentGen)
      ensures key in glyphs && glyphs[key].lastUsedGen == currentGen
      ensures glyphs == old(glyphs)[key := glyphs[key]]
      ensures key in old(glyphs) ==>
        glyphs[key] == old(glyphs)[key].(lastUsedGen := currentGen, isColr := paint || old(glyphs)[key].isColr)
      ensures key !in old(glyphs) && outline ==>
        && glyphs[key] == GlyphInfo(Aligned(old(atlasUsed)), false, paint && graph, (|src| + 3) / 4, currentGen)
        && atlasUsed == glyphs[key].atlasOffset + glyphs[key].numTexels
        && blobs == old(blobs)[key := src] && atlasVersion == old(atlasVersion) + 1
      ensures key !in old(glyphs) && !outline ==>
        glyphs[key] == GlyphInfo(0, !paint, paint, 0, currentGen)
      ensures key in old(glyphs) || !outline ==>
        atlasData == old(atlasData) && atlasUsed == old(atlasUsed) && atlasVersion == old(atlasVersion) && blobs == old(blobs)
    {
      hide AtlasInv, Faithful, Written, Encoded, Halved;
      if key in glyphs {
        TouchGlyph(key, paint);
        return;
      }
      if !outline {
        AddPlaceholder(key, paint);
        return;
      }
      StoreOutline(key, src);
      if paint && graph {
        ghost var stored := St();
        glyphs := glyphs[key := glyphs[key].(isColr := true)];
        BookkeepingKeepsFaithful(stored, St(), blobs);
      }
    }

    /** Append the words of an outline at the next even virtual texel. */
    method StoreOutline(key: Key, src: seq<Int16>)
      requires Valid() && key !in glyphs
      modifies this`atlasData, this`atlasUsed, this`glyphs, this`atlasVersion, this`blobs
      ensures Valid() && blobs == old(blobs)[key := src]
      ensures St() == Stored(old(St()), atlasData, key, src, false)
      ensures Written(old(atlasData), atlasData, Aligned(old(atlasUsed)) / 2, src)
      ensures atlasVersion == old(atlasVersion) + 1
    {
      hide AtlasInv, Faithful, Written, Encoded, Halved, Anchored;
      ghost var a := St();
      var numTexels := (|src| + 3) / 4;
      if atlasUsed % 2 == 1 { atlasUsed := atlasUsed + 1; }
      var offset := atlasUsed;
      Reserve(offset / 2, src);
      ghost var reserved := atlasData;
      WriteWords(offset / 2, src);
      WrittenOver(a.data, reserved, atlasData, offset / 2, src);
      atlasUsed := atlasUsed + numTexels;
      glyphs := glyphs[key := GlyphInfo(offset, false, false, numTexels, currentGen)];
      atlasVersion := atlasVersion + 1;
      StoredKeepsFaithful(a, atlasData, key, src, false, blobs);
      StoredAnchored(a, atlasData, key, src);
      blobs := blobs[key := src];
    }

    /** Grow the buffer to twice what is needed when it is too small. */
    method Reserve(base: nat, src: seq<Int16>)
      modifies this`atlasData
      ensures base * 4 + |Encoded(src)| <= |atlasData| && old(atlasData) <= atlasData
    {
      var texels := ((|src| + 3) / 4 + 1) / 2;
      var needed := (base + texels) * 4;
      if |atlasData| < needed {
        atlasData := atlasData + seq(needed * 2 - |atlasData|, _ => 0);
      }
    }

    /** Fill the words of the storage texels from `base` on. */
    method WriteWords(base: nat, src: seq<Int16>)
      requires base * 4 + |Encoded(src)| <= |atlasData|
      modifies this`atlasData
      ensures Written(old(atlasData), atlasData, base, src) && |atlasData| == |old(atlasData)|
    {
      hide Pack, Encoded;
      EncodedLength(src);
      var texels := ((|src| + 3) / 4 + 1) / 2;
      ghost var words := Encoded(src);
      for s := 0 to texels
        invariant |atlasData| == |old(atlasData)|
        invariant atlasData[..base * 4] == old(atlasData)[..base * 4]
        invariant atlasData[base * 4..base * 4 + s * 4] == words[..s * 4]
      {
        for c := 0 to 4
          invariant |atlasData| == |old(atlasData)|
          invariant atlasData[..base * 4] == old(atlasData)[..base * 4]
          invariant atlasData[base * 4..base * 4 + s * 4 + c] == words[..s * 4 + c]
        {
          WriteWord(base, src, s, c);
        }
      }
      AllWritten(old(atlasData), atlasData, base, src);
    }

    /** Two source values make one word. */
    method WriteWord(base: nat, src: seq<Int16>, s: nat, c: nat)
      requires s < Halved((|src| + 3) / 4) && c < 4 && base * 4 + |Encoded(src)| <= |atlasData|
      requires atlasData[base * 4..base * 4 + s * 4 + c] == Encoded(src)[..s * 4 + c]
      modifies this`atlasData
      ensures |atlasData| == |old(atlasData)| && atlasData[..base * 4] == old(atlasData)[..base * 4]
      ensures atlasData[base * 4..base * 4 + s * 4 + c + 1] == Encoded(src)[..s * 4 + c + 1]
    {
      hide Pack, Encoded;
      EncodedLength(src);
      var low, high := s * 8 + c, s * 8 + 4 + c;
      var lo := if low < |src| then src[low] else 0;
      var hi := if high < |src| then src[high] else 0;
      atlasData := atlasData[(base + s) * 4 + c := Pack(lo, hi)];
      OneMoreWord(old(atlasData), atlasData, src, base * 4, s, c);
    }

    // ---------------------------------------------------------------- compaction

    /** When the atlas is over budget, evict the glyphs used longest ago until the rest
        fits the target, and pack the rest.  Glyphs of equal age go in any order. */
    method CompactAtlasLRU(budget: nat, target: nat) returns (done: bool, ghost kept: seq<Key>)
      requires Valid()
      modifies this`atlasData, this`atlasUsed, this`glyphs, this`atlasVersion
      ensures Valid()
      ensures done <==> old(atlasUsed) > budget
      ensures !done ==> St() == old(St()) && atlasVersion == old(atlasVersion)
      ensures done ==>
        && Packed(old(St()), St(), kept) && Newest(old(St()), kept, target)
        && atlasUsed == (if kept == [] then 1 else 2 + Texels(old(St()).glyphs, kept) + OddOnes(old(St()).glyphs, kept[..|kept| - 1]))
        && atlasVersion == old(atlasVersion) + 1
    {
      hide Fits, Separate, InBounds, Backed, Spells, Packed, Newest, Copied, Replaced, UsedAfter, NewestFirst, Distinct, BlankPast, Anchored, Texels, OddOnes;
      kept := [];
      if atlasUsed <= budget { return false, kept; }
      ghost var a := St();
      var entries := CollectOutlines();
      entries := SortNewestFirst(entries);
      var keep;
      keep, kept := ChooseKept(entries, target);
      KeptLive(a, entries, kept);
      var newData, newUsed := PackKept(entries, keep, kept);
      ghost var moved := glyphs;
      EraseEvicted(keep);
      atlasData := newData;
      atlasUsed := newUsed;
      atlasVersion := atlasVersion + 1;
      PackedNow(a, St(), moved, keep, kept);
      UsedIs(a, St(), kept);
      PackedKeepsFaithful(a, St(), kept, blobs);
      PackedAnchored(a, St(), kept);
      done := true;
    }

    method CollectOutlines() returns (entries: seq<Key>)
      ensures Distinct(entries) && forall k :: k in entries <==> Live(St(), k)
    {
      entries := [];
      var todo := glyphs.Keys;
      while todo != {}
        invariant todo <= glyphs.Keys
        invariant Distinct(entries) && forall k :: k in entries <==> Live(St(), k) && k !in todo
        decreases todo
      {
        var k :| k in todo;
        if !glyphs[k].isEmpty && !glyphs[k].isColr && glyphs[k].numTexels != 0 {
          entries := entries + [k];
        }
        todo := todo - {k};
      }
    }

    /** Any order that puts newer glyphs before older ones. */
    method SortNewestFirst(entries: seq<Key>) returns (r: seq<Key>)
      requires Distinct(entries) && forall k :: k in entries ==> k in glyphs
      ensures Distinct(r) && forall k :: k in r <==> k in entries
      ensures NewestFirst(glyphs, r)
    {
      r := [];
      for n := 0 to |entries|
        invariant Distinct(r) && (forall k :: k in r <==> k in entries[..n]) && NewestFirst(glyphs, r)
      {
        var i := 0;
        while i < |r| && glyphs[r[i]].lastUsedGen > glyphs[entries[n]].lastUsedGen
          invariant i <= |r| && forall j :: 0 <= j < i ==> glyphs[r[j]].lastUsedGen > glyphs[entries[n]].lastUsedGen
        {
          i := i + 1;
        }
        assert entries[..n + 1] == entries[..n] + [entries[n]];
        assert entries[n] !in entries[..n];
        Inserted(glyphs, r, i, entries[n]);
        r := r[..i] + [entries[n]] + r[i..];
      }
      assert entries[..|entries|] == entries;
    }

    /** Keep glyphs from the newest on while they fit the target. */
    method ChooseKept(entries: seq<Key>, target: nat) returns (keep: set<Key>, ghost kept: seq<Key>)
      requires Distinct(entries) && (forall k :: k in entries <==> Live(St(), k)) && NewestFirst(glyphs, entries)
      ensures kept <= entries && (forall k :: k in keep <==> k in kept)
      ensures Newest(St(), kept, target)
    {
      keep := {};
      var keptTexels, i := 1, 0;
      while i < |entries|
        invariant i <= |entries| && (forall k :: k in keep <==> k in entries[..i])
        invariant keptTexels == 1 + Texels(glyphs, entries[..i])
        invariant i == 0 || keptTexels <= target
      {
        assert entries[i] in entries;
        if keptTexels + glyphs[entries[i]].numTexels > target { break; }
        assert entries[..i + 1][..i] == entries[..i];
        assert entries[..i + 1] == entries[..i] + [entries[i]];
        keptTexels := keptTexels + glyphs[entries[i]].numTexels;
        keep := keep + {entries[i]};
        i := i + 1;
      }
      kept := entries[..i];
      PrefixNewest(St(), entries, i, target);
    }

    /** Copy the kept glyphs back to back into a new buffer of the same size. */
    method PackKept(entries: seq<Key>, keep: set<Key>, ghost kept: seq<Key>) returns (newData: seq<int>, newUsed: nat)
      requires AtlasInv(St()) && Distinct(entries) && kept <= entries && AllLive(St(), kept)
      requires forall k :: k in keep <==> k in kept
      modifies this`glyphs
      ensures Replaced(old(glyphs), glyphs, kept, |kept|)
      ensures Distinct(kept) && (forall k :: k in kept ==> k in old(glyphs)) && newUsed == UsedAfter(old(glyphs), kept, |kept|)
      ensures |newData| == |atlasData| && Copied(old(St()), kept, newData, |kept|) && BlankPast(old(glyphs), kept, newData, |kept|)
    {
      hide Fits, Separate, InBounds, Backed, Copied, Place, UsedAfter, Replaced, Live, BlankPast;
      ghost var a := St();
      newData := seq(|atlasData|, _ => 0);
      newUsed := 1;
      StartPacking(a, kept, newData);
      PrefixDistinct(entries, kept);
      for n := 0 to |entries|
        invariant |newData| == |atlasData| && atlasData == a.data
        invariant Replaced(a.glyphs, glyphs, kept, Upto(n, |kept|))
        invariant BlankPast(a.glyphs, kept, newData, Upto(n, |kept|))
        invariant newUsed == UsedAfter(a.glyphs, kept, Upto(n, |kept|))
        invariant Copied(a, kept, newData, Upto(n, |kept|))
      {
        PrefixMember(entries, kept, n);
        if entries[n] in keep {
          newData, newUsed := MoveOne(a, kept, n, entries[n], newData, newUsed);
        }
      }
    }

    /** Copy one glyph to the next even texel and note where it went. */
    method MoveOne(ghost a: Atlas, ghost kept: seq<Key>, ghost n: nat, key: Key, data: seq<int>, used: nat)
        returns (newData: seq<int>, newUsed: nat)
      requires AtlasInv(a) && Distinct(kept) && AllLive(a, kept) && n < |kept| && key == kept[n]
      requires forall k :: k in kept ==> k in a.glyphs
      requires atlasData == a.data && |data| == |a.data|
      requires Replaced(a.glyphs, glyphs, kept, n) && used == UsedAfter(a.glyphs, kept, n) && Copied(a, kept, data, n)
      requires BlankPast(a.glyphs, kept, data, n)
      modifies this`glyphs
      ensures Replaced(a.glyphs, glyphs, kept, n + 1) && newUsed == UsedAfter(a.glyphs, kept, n + 1)
      ensures |newData| == |a.data| && Copied(a, kept, newData, n + 1) && BlankPast(a.glyphs, kept, newData, n + 1)
    {
      hide Fits, Separate, InBounds, Backed, Copied, Place, UsedAfter, BlankPast, Replaced, Storage, AllLive, Distinct;
      ReplacedOne(a.glyphs, glyphs, kept, n);
      SpotFound(a, kept, n, used);
      var g := glyphs[key];
      var at := if used % 2 == 1 then used + 1 else used;
      var src, dst, len := g.atlasOffset / 2 * 4, at / 2 * 4, (g.numTexels + 1) / 2 * 4;
      newData := data[..dst] + atlasData[src..src + len] + data[dst + len..];
      glyphs := glyphs[key := g.(atlasOffset := at)];
      newUsed := at + g.numTexels;
      CopiedOne(a, kept, n, data, newData);
      BlankAfterOne(a, kept, n, data, newData);
    }

    /** Drop every outline that is not kept. */
    method EraseEvicted(keep: set<Key>)
      modifies this`glyphs
      ensures glyphs == Surviving(old(glyphs), keep)
    {
      var todo := glyphs.Keys;
      while todo != {}
        invariant todo <= glyphs.Keys <= old(glyphs).Keys
        invariant forall k :: k in old(glyphs) ==>
          (k in glyphs <==> k in todo || !Outlined(old(glyphs)[k]) || k in keep)
        invariant forall k :: k in glyphs ==> glyphs[k] == old(glyphs)[k]
        decreases todo
      {
        var k :| k in todo;
        if !glyphs[k].isEmpty && !glyphs[k].isColr && glyphs[k].numTexels > 0 && k !in keep {
          glyphs := glyphs - {k};
        }
        todo := todo - {k};
      }
    }
  }

  // ---------------------------------------------------------------- a run

  predicate OnlyLive(a: Atlas, k: Key) {
    Live(a, k) && a.glyphs[k].numTexels == 1 && forall x :: x in a.glyphs && Outlined(a.glyphs[x]) ==> x == k
  }

  lemma AtMostOne(a: Atlas, kept: seq<Key>, k: Key)
    requires Distinct(kept) && AllLive(a, kept) && OnlyLive(a, k)
    ensures kept == [] || kept == [k]
  {
    hide Distinct;
    assert forall i :: 0 <= i < |kept| ==> Live(a, kept[i]);
    if |kept| > 1 { TwiceIsNotDistinct(kept); }
  }

  lemma TwiceIsNotDistinct(s: seq<Key>)
    requires |s| > 1 && s[0] == s[1]
    ensures !Distinct(s)
  {
  }

  /** A target of ten texels admits a glyph of one. */
  lemma OneKept(a: Atlas, kept: seq<Key>, k: Key)
    requires Distinct(kept) && AllLive(a, kept) && OnlyLive(a, k) && Newest(a, kept, 10)
    ensures kept == [k]
  {
    AtMostOne(a, kept, k);
    assert Texels(a.glyphs, []) == 0;
    assert forall y :: Next(a, kept, y) ==> y == k;
    assert kept == [] ==> k !in kept;
  }

  lemma FirstWord(a: Atlas, k: Key, v: Int16)
    requires AtlasInv(a) && Live(a, k) && ReadsBack(a, k, [v]) && a.glyphs[k].atlasOffset == 2
    ensures 4 < |a.data| && Fetch(a.data, 2, 0) == v
  {
    FetchReadsSource(a, k, [v], 0, 0);
  }

  /** Two outlines, the first of which turned out to have a colour graph. */
  method StoreTwo() returns (font: FontAtlas)
    ensures fresh(font) && font.Valid() && font.blobs == map[1 := [7], 2 := [9]]
    ensures font.glyphs == map[1 := GlyphInfo(2, false, true, 1, 0), 2 := GlyphInfo(4, false, false, 1, 0)]
    ensures font.atlasUsed > 0
  {
    hide AtlasInv, Faithful, Anchored;
    font := new FontAtlas();
    font.EnsureGlyphEncoded(1, true, [7], false, false);
    font.EnsureGlyphEncoded(1, true, [7], true, true);
    font.EnsureGlyphEncoded(2, true, [9], false, false);
  }

  lemma SecondReplacesFirst(a: Atlas, b: Atlas, kept: seq<Key>, blobs: map<Key, seq<Int16>>)
    requires AtlasInv(a) && AtlasInv(b) && Faithful(b, blobs) && Packed(a, b, kept) && Newest(a, kept, 10)
    requires a.glyphs == map[1 := GlyphInfo(2, false, true, 1, 0), 2 := GlyphInfo(4, false, false, 1, 0)] && 2 in blobs && blobs[2] == [9]
    ensures b.glyphs == map[1 := GlyphInfo(2, false, true, 1, 0), 2 := GlyphInfo(2, false, false, 1, 0)]
    ensures 4 < |b.data| && Fetch(b.data, 2, 0) == 9
  {
    hide Fits, Separate, InBounds, Backed, ReadsBack, Copied, BlankPast, Fetch;
    assert Live(a, 2);
    OneKept(a, kept, 2);
    assert kept[..0] == [];
    ColourStays(a, b, kept, 1);
    assert b.glyphs[kept[0]] == a.glyphs[2].(atlasOffset := 2);
    assert Live(b, 2);
    FirstWord(b, 2, 9);
  }

  /** A run that comes to it: two outlines are stored, the first is found to have a colour
      graph, and the atlas is compacted.  The first glyph keeps its offset, and what is
      read there now is the second one's. */
  method LateColourRun() returns (font: FontAtlas)
    ensures fresh(font) && font.Valid() && font.blobs == map[1 := [7], 2 := [9]]
    ensures font.glyphs == map[1 := GlyphInfo(2, false, true, 1, 0), 2 := GlyphInfo(2, false, false, 1, 0)]
    ensures 4 < |font.atlasData| && Fetch(font.atlasData, 2, 0) == 9
  {
    hide Packed, Newest, Faithful, Anchored, Fits, Separate, InBounds, Outlined;
    font := StoreTwo();
    ghost var a := font.St();
    var done, kept := font.CompactAtlasLRU(0, 10);
    SecondReplacesFirst(a, font.St(), kept, font.blobs);
  }

  /** One more kept glyph knows its new place. */
  lemma ReplacedOne(g: map<Key, GlyphInfo>, h: map<Key, GlyphInfo>, kept: seq<Key>, n: nat)
    requires Distinct(kept) && n < |kept| && Replaced(g, h, kept, n) && forall k :: k in kept ==> k in g
    ensures kept[n] in h && kept[n] in g && h[kept[n]] == g[kept[n]]
    ensures Replaced(g, h[kept[n] := g[kept[n]].(atlasOffset := Place(g, kept, n))], kept, n + 1)
  {
    hide Place;
    assert kept[n] !in kept[..n];
    assert kept[..n + 1] == kept[..n] + [kept[n]];
  }

  /** Where a kept glyph is and where it goes, as the loop computes it. */
  lemma SpotFound(a: Atlas, kept: seq<Key>, n: nat, used: nat)
    requires AtlasInv(a) && Distinct(kept) && AllLive(a, kept) && n < |kept| && (forall k :: k in kept ==> k in a.glyphs)
    requires used == UsedAfter(a.glyphs, kept, n)
    ensures Live(a, kept[n]) && Last(a.glyphs[kept[n]]) * 4 <= |a.data|
    ensures var g, place := a.glyphs[kept[n]], Place(a.glyphs, kept, n);
      && Aligned(used) == place && UsedAfter(a.glyphs, kept, n + 1) == place + g.numTexels
      && place / 2 * 4 + (g.numTexels + 1) / 2 * 4 <= |a.data|
      && g.atlasOffset / 2 * 4 + (g.numTexels + 1) / 2 * 4 <= |a.data|
      && a.data[g.atlasOffset / 2 * 4..g.atlasOffset / 2 * 4 + (g.numTexels + 1) / 2 * 4] == Storage(a, kept[n])
      && |Storage(a, kept[n])| == (g.numTexels + 1) / 2 * 4
  {
    hide Fits, Separate, InBounds, Backed, Place, UsedAfter;
    assert Live(a, kept[n]);
    LiveInside(a, kept[n]);
    PlaceRoom(a, kept, n);
    NextPlace(a.glyphs, kept, n);
  }

  lemma WrittenOver(was: seq<int>, reserved: seq<int>, now: seq<int>, base: nat, src: seq<Int16>)
    requires was <= reserved && Written(reserved, now, base, src)
    ensures Written(was, now, base, src)
  {
  }

  lemma AllWritten(was: seq<int>, now: seq<int>, base: nat, src: seq<Int16>)
    requires |was| == |now| && base * 4 + |Encoded(src)| <= |now|
    requires now[..base * 4] == was[..base * 4] && now[base * 4..base * 4 + |Encoded(src)|] == Encoded(src)[..|Encoded(src)|]
    ensures Written(was, now, base, src)
  {
    hide Encoded;
    forall i | 0 <= i < base * 4 ensures now[i] == was[i] { assert now[..base * 4][i] == was[..base * 4][i]; }
  }

  lemma OneMoreWord(was: seq<int>, now: seq<int>, src: seq<Int16>, start: nat, s: nat, c: nat)
    requires s < Halved((|src| + 3) / 4) && c < 4 && start + |Encoded(src)| <= |was|
    requires was[start..start + s * 4 + c] == Encoded(src)[..s * 4 + c]
    requires now == was[start + s * 4 + c := Pack(Value(src, s * 8 + c), Value(src, s * 8 + 4 + c))]
    ensures now[start..start + s * 4 + c + 1] == Encoded(src)[..s * 4 + c + 1]
    ensures now[..start] == was[..start]
  {
    var i := s * 4 + c;
    assert i / 4 == s && i % 4 == c;
    assert now[start..start + i + 1] == was[start..start + i] + [now[start + i]];
  }

  /** No outline moved and none came. */
  ghost predicate SameStorage(a: Atlas, b: Atlas) {
    && b.data == a.data && b.used == a.used
    && forall k :: Live(b, k) ==>
         Live(a, k) && b.glyphs[k].atlasOffset == a.glyphs[k].atlasOffset && b.glyphs[k].numTexels == a.glyphs[k].numTexels
  }

  /** A change of generation, use marks, placeholders and colour flags moves nothing. */
  lemma BookkeepingKeepsFaithful(a: Atlas, b: Atlas, blobs: map<Key, seq<Int16>>)
    requires AtlasInv(a) && Faithful(a, blobs) && SameStorage(a, b)
    ensures AtlasInv(b) && Faithful(b, blobs)
  {
    BookkeepingFits(a, b);
    BookkeepingReads(a, b, blobs);
  }

  lemma BookkeepingReads(a: Atlas, b: Atlas, blobs: map<Key, seq<Int16>>)
    requires AtlasInv(a) && Faithful(a, blobs) && SameStorage(a, b)
    ensures InBounds(b) && Separate(b) && Backed(b) && Faithful(b, blobs)
  {
    hide Fits, Spells;
    forall k | Live(b, k) ensures k in blobs && ReadsBack(b, k, blobs[k]) {
      assert Live(a, k) && Storage(b, k) == Storage(a, k);
    }
  }

  lemma BookkeepingFits(a: Atlas, b: Atlas)
    requires Fits(a) && SameStorage(a, b)
    ensures Fits(b)
  {
    forall s: seq<Key> | Distinct(s) && AllLive(b, s) ensures 1 + Weigh(b.glyphs, s) <= Halved(b.used) {
      forall i | 0 <= i < |s| ensures Live(a, s[i]) && b.glyphs[s[i]].numTexels == a.glyphs[s[i]].numTexels {
        assert Live(b, s[i]);
      }
      WeighSame(b.glyphs, a.glyphs, s);
    }
  }
}
