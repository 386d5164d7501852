/** When a division in which two neighbours got new weights gives exactly those two the
    pixels asked for (src/LayoutTree.cpp:521-590, :743-759). */
module EdgeShares {
  import opened Arithmetic
  import opened Forest
  import opened SpaceDivision

  predicate Unlimited(s: ChildSlot) { s.minCells <= 0 && s.maxCells <= 0 }

  /** No child but the pinned ones has size limits. */
  predicate Limitless(slots: seq<ChildSlot>) {
    forall i :: 0 <= i < |slots| && !Fixed(slots[i]) ==> Unlimited(slots[i])
  }

  function Weighted(s: ChildSlot, pixels: int): ChildSlot {
    s.(stretch := pixels, fixedCells := 0)
  }

  /** The k-th child and the next weigh `a` and `b` pixels, at least one each. */
  function Rebalanced(kids: seq<ChildSlot>, k: nat, a: int, b: int): (r: seq<ChildSlot>)
    requires k + 1 < |kids|
    ensures |r| == |kids| && Flexible(r[k]) && Flexible(r[k + 1]) && forall i :: 0 <= i < |kids| ==> r[i].id == kids[i].id
    ensures forall i :: 0 <= i < |kids| && i != k && i != k + 1 ==> r[i] == kids[i]
  {
    kids[k := Weighted(kids[k], Max(1, a))][k + 1 := Weighted(kids[k + 1], Max(1, b))]
  }

  /** The pixels of a pinned child, the stretch of any other. */
  function Weight(s: ChildSlot, cell: int): int {
    if Fixed(s) then s.fixedCells * cell else Max(0, s.stretch)
  }

  function Weights(slots: seq<ChildSlot>, cell: int): (r: seq<int>)
    ensures |r| == |slots|
  {
    seq(|slots|, i requires 0 <= i < |slots| => Weight(slots[i], cell))
  }

  lemma {:induction false} WeightsTotal(slots: seq<ChildSlot>, cell: int, k: nat)
    requires k <= |slots|
    ensures Prefix(Weights(slots, cell), k) == FixedTotal(slots, cell, k) + StretchTotal(slots, k)
  {
    if k > 0 { WeightsTotal(slots, cell, k - 1); }
  }

  lemma {:induction false} StretchPositive(slots: seq<ChildSlot>, i: nat, k: nat)
    requires i < k <= |slots| && Flexible(slots[i])
    ensures StretchTotal(slots, k) >= slots[i].stretch > 0
  {
    if i < k - 1 { StretchPositive(slots, i, k - 1); }
  }

  // ---------------------------------------------------------------- one share

  /** A weight of `a` gets exactly `a` pixels out of `room` if and only if the weights do
      not exceed the room and fall short of it by too little to make up another pixel. */
  lemma ShareIff(room: int, total: int, a: int)
    requires total > 0 && a >= 1
    ensures (room * a) / total == a <==> total <= room && (room - total) * a < total
  {
    Product(room, total, a);
    if 0 <= room * a - a * total < total {
      QuotientUnique(room * a, a, room * a - a * total, total);
    } else {
      assert room * a == (room * a) / total * total + (room * a) % total;
    }
  }

  lemma Product(room: int, total: int, a: int)
    requires a >= 1
    ensures (room - total) * a == room * a - a * total
    ensures total <= room <==> room * a - a * total >= 0
  {
    assert (room - total) * a == room * a - total * a;
    if total <= room { assert (room - total) * a >= 0; } else { assert (room - total) * a <= -1; }
  }

  lemma PlainWish(s: ChildSlot, cell: int, remaining: int, stretch: nat)
    requires cell > 0 && !Fixed(s) && Unlimited(s)
    ensures Wish(s, cell, remaining, stretch) ==
      if stretch > 0 && remaining > 0 then (remaining * Max(0, s.stretch)) / stretch else 0
  {
    assert Max(0, s.minCells) * cell == 0;
    if stretch > 0 && remaining > 0 { ShareNonNegative(remaining, Max(0, s.stretch), stretch); }
  }

  lemma ShareNonNegative(room: nat, a: nat, total: nat)
    requires total > 0
    ensures (room * a) / total >= 0
  {
  }

  // ---------------------------------------------------------------- weights that are pixels

  lemma WeightWish(s: ChildSlot, cell: int, total: nat)
    requires cell > 0 && total > 0 && (Fixed(s) || Unlimited(s))
    ensures Wish(s, cell, total, total) == Weight(s, cell)
  {
    if !Fixed(s) {
      PlainWish(s, cell, total, total);
      QuotientUnique(total * Max(0, s.stretch), Max(0, s.stretch), 0, total);
    }
  }

  lemma SumSame(s: seq<int>, k: nat, v: int)
    requires k < |s| && v == 0
    ensures s[k := s[k] + v] == s
  {
  }

  /** Where the weights of all children add up to the extent, each child gets its weight. */
  lemma WeightsArePixels(slots: seq<ChildSlot>, available: int, cell: int)
    requires cell > 0 && Limitless(slots) && StretchTotal(slots, |slots|) > 0 && Sum(Weights(slots, cell)) == available
    ensures Divide(slots, available, cell) == Weights(slots, cell)
  {
    WeightsTotal(slots, cell, |slots|);
    forall i | 0 <= i < |slots| ensures Wishes(slots, available, cell)[i] == Weights(slots, cell)[i] {
      WeightWish(slots[i], cell, StretchTotal(slots, |slots|));
    }
    assert Wishes(slots, available, cell) == Weights(slots, cell);
    if HasFlexible(slots) { SumSame(Weights(slots, cell), LastFlexible(slots), 0); }
  }

  // ---------------------------------------------------------------- two neighbours

  /** What a child gets when those before it get their wishes: its wish, less what does
      not fit, and the leftover if it is the one to take it. */
  function Got(slots: seq<ChildSlot>, available: int, cell: int, i: nat): int
    requires i < |slots|
  {
    var w := Wishes(slots, available, cell);
    if Sum(w) > available then Min(w[i], available - Prefix(w, i))
    else if HasFlexible(slots) && i == LastFlexible(slots) then w[i] + (available - Sum(w))
    else w[i]
  }

  /** The children before the k-th take `before` pixels together, the k-th takes `a` and
      the next `b`. */
  predicate Standing(sizes: seq<int>, k: nat, before: int, a: int, b: int)
    requires k + 1 < |sizes|
  {
    Prefix(sizes, k) == before && sizes[k] == a && sizes[k + 1] == b
  }

  /** The wishes before the k-th child add up to `before`, its own is `a`, and the next
      child gets `b`. */
  predicate Granted(slots: seq<ChildSlot>, available: int, cell: int, k: nat, before: int, a: int, b: int)
    requires k + 1 < |slots|
  {
    var w := Wishes(slots, available, cell);
    Prefix(w, k) == before && w[k] == a && Got(slots, available, cell, k + 1) == b
  }

  lemma ClippedPair(w: seq<int>, available: nat, k: nat, before: int, a: int, b: int)
    requires k + 1 < |w| && (forall i :: 0 <= i < |w| ==> w[i] >= 0) && a >= 1 && b >= 1
    ensures Standing(Clip(w, available), k, before, a, b) <==>
      Prefix(w, k) == before && w[k] == a && Min(w[k + 1], available - Prefix(w, k + 1)) == b
  {
    hide Clip;
    ClipPrefix(w, available, k);
    ClipAt(w, available, k);
    ClipAt(w, available, k + 1);
    PrefixMonotone(w, k, k + 1);
    PrefixMonotone(w, k + 1, k + 2);
  }

  lemma PaddedPair(w: seq<int>, slots: seq<ChildSlot>, leftover: int, k: nat)
    requires |w| == |slots| && k + 1 < |w| && Flexible(slots[k + 1])
    ensures HasFlexible(slots) && LastFlexible(slots) >= k + 1
    ensures var t := Pad(w, slots, leftover);
      && Prefix(t, k) == Prefix(w, k) && t[k] == w[k]
      && t[k + 1] == if LastFlexible(slots) == k + 1 then w[k + 1] + leftover else w[k + 1]
  {
    assert HasFlexible(slots);
    var last := LastFlexible(slots);
    UpdatePrefix(w, last, w[last] + leftover, k);
  }

  /** Two neighbours, the second of them flexible, get `a` and `b` pixels right behind
      `before` if and only if that is granted to them. */
  lemma PairIff(slots: seq<ChildSlot>, available: nat, cell: int, k: nat, before: int, a: int, b: int)
    requires cell > 0 && k + 1 < |slots| && Flexible(slots[k + 1]) && a >= 1 && b >= 1
    ensures Standing(Divide(slots, available, cell), k, before, a, b) <==> Granted(slots, available, cell, k, before, a, b)
  {
    hide Clip, Pad, Wishes, Sum, LastFlexible;
    var w := Wishes(slots, available, cell);
    WishesNonNegative(slots, available, cell);
    if Sum(w) > available {
      ClippedPair(w, available, k, before, a, b);
    } else {
      PaddedPair(w, slots, available - Sum(w), k);
    }
  }

  // ---------------------------------------------------------------- the condition in numbers

  lemma WishAt(slots: seq<ChildSlot>, available: int, cell: int, i: nat)
    requires i < |slots|
    ensures Wishes(slots, available, cell)[i] ==
      Wish(slots[i], cell, Max(0, available - FixedTotal(slots, cell, |slots|)), StretchTotal(slots, |slots|))
  {
    hide Wish;
  }

  /** Shares rounded down never exceed the room. */
  lemma {:induction false} SharesBounded(slots: seq<ChildSlot>, available: int, cell: int, k: nat)
    requires cell > 0 && k <= |slots| && Limitless(slots) && StretchTotal(slots, |slots|) > 0
    requires available - FixedTotal(slots, cell, |slots|) > 0
    ensures var total, room := StretchTotal(slots, |slots|), available - FixedTotal(slots, cell, |slots|);
      (Prefix(Wishes(slots, available, cell), k) - FixedTotal(slots, cell, k)) * total <= room * StretchTotal(slots, k)
  {
    hide Wishes, Wish;
    if k > 0 {
      SharesBounded(slots, available, cell, k - 1);
      var total, room := StretchTotal(slots, |slots|), available - FixedTotal(slots, cell, |slots|);
      var before := Prefix(Wishes(slots, available, cell), k - 1) - FixedTotal(slots, cell, k - 1);
      WishAt(slots, available, cell, k - 1);
      if Fixed(slots[k - 1]) {
        PinnedWish(slots[k - 1], cell, room, total);
      } else {
        PlainWish(slots[k - 1], cell, room, total);
        RoundedDown(before, room, StretchTotal(slots, k - 1), Max(0, slots[k - 1].stretch), total);
      }
    }
  }

  lemma PinnedWish(s: ChildSlot, cell: int, remaining: int, stretch: nat)
    requires Fixed(s)
    ensures Wish(s, cell, remaining, stretch) == s.fixedCells * cell
  {
  }

  lemma RoundedDown(before: int, room: int, sofar: nat, a: nat, total: nat)
    requires total > 0 && before * total <= room * sofar
    ensures (before + (room * a) / total) * total <= room * (sofar + a)
  {
    var q := (room * a) / total;
    assert room * a == q * total + (room * a) % total;
    assert (before + q) * total == before * total + q * total;
    assert room * (sofar + a) == room * sofar + room * a;
  }

  lemma Cancel(x: int, y: int, n: nat)
    requires n > 0 && x * n <= y * n
    ensures x <= y
  {
    var d := x - y;
    assert d * n == x * n - y * n;
    assert d >= 1 ==> d * n >= n;
  }

  lemma WishesFit(slots: seq<ChildSlot>, available: int, cell: int)
    requires cell > 0 && Limitless(slots) && StretchTotal(slots, |slots|) > 0
    requires available - FixedTotal(slots, cell, |slots|) > 0
    ensures Sum(Wishes(slots, available, cell)) <= available
  {
    hide Wishes, FixedTotal, StretchTotal, Prefix;
    var room := available - FixedTotal(slots, cell, |slots|);
    SharesBounded(slots, available, cell, |slots|);
    Cancel(Sum(Wishes(slots, available, cell)) - FixedTotal(slots, cell, |slots|), room, StretchTotal(slots, |slots|));
  }

  /** The numbers behind `Granted` without size limits: the weights do not exceed the room
      the pinned children leave, fall short of it by less than would make up a pixel for
      either neighbour, and leave nothing over if the second would take it. */
  predicate Balanced(slots: seq<ChildSlot>, available: int, cell: int, k: nat, a: int, b: int)
    requires k + 1 < |slots| && HasFlexible(slots)
  {
    var total, room := StretchTotal(slots, |slots|), available - FixedTotal(slots, cell, |slots|);
    && total <= room && (room - total) * a < total && (room - total) * b < total
    && (LastFlexible(slots) == k + 1 ==> Sum(Wishes(slots, available, cell)) == available)
  }

  lemma ShareAtLeast(room: int, total: int, b: int)
    requires 0 < total <= room && b >= 1
    ensures (room * b) / total >= b
  {
    Product(room, total, b);
    AtLeast((room * b) / total, room * b, b, total);
  }

  lemma AtLeast(q: int, x: int, b: int, n: nat)
    requires n > 0 && q == x / n && x >= b * n
    ensures q >= b
  {
    assert x == q * n + x % n;
    var d := b - q;
    assert d * n == b * n - q * n;
    assert d >= 1 ==> d * n >= n;
  }

  /** Without size limits two neighbours with weights `a` and `b` are granted those pixels
      if and only if the weights are balanced and the children before keep their place. */
  lemma GrantedIff(slots: seq<ChildSlot>, available: int, cell: int, k: nat, before: int, a: int, b: int)
    requires cell > 0 && k + 1 < |slots| && Limitless(slots) && a >= 1 && b >= 1
    requires !Fixed(slots[k]) && !Fixed(slots[k + 1]) && slots[k].stretch == a && slots[k + 1].stretch == b
    ensures HasFlexible(slots)
    ensures Granted(slots, available, cell, k, before, a, b) <==>
      Prefix(Wishes(slots, available, cell), k) == before && Balanced(slots, available, cell, k, a, b)
  {
    hide Wishes, Wish;
    assert Flexible(slots[k + 1]);
    StretchPositive(slots, k, |slots|);
    var total, room := StretchTotal(slots, |slots|), available - FixedTotal(slots, cell, |slots|);
    WishAt(slots, available, cell, k);
    WishAt(slots, available, cell, k + 1);
    PlainWish(slots[k], cell, Max(0, room), total);
    PlainWish(slots[k + 1], cell, Max(0, room), total);
    if room > 0 {
      WishesFit(slots, available, cell);
      ShareIff(room, total, a);
      ShareIff(room, total, b);
      if total <= room { ShareAtLeast(room, total, b); }
    }
  }
}
