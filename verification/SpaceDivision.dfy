/** How a Container divides its extent among its children, in whole pixels
    (src/LayoutTree.cpp, layoutSubtree). */
module SpaceDivision {
  import opened Arithmetic
  import opened Forest

  function Max(a: int, b: int): int { if a < b then b else a }

  function Min(a: int, b: int): int { if a < b then a else b }

  function Prefix(s: seq<int>, k: nat): int
    requires k <= |s|
  {
    if k == 0 then 0 else Prefix(s, k - 1) + s[k - 1]
  }

  function Sum(s: seq<int>): int { Prefix(s, |s|) }

  predicate Fixed(s: ChildSlot) { s.fixedCells > 0 }

  /** A child that takes leftover pixels. */
  predicate Flexible(s: ChildSlot) { !Fixed(s) && s.stretch > 0 }

  predicate HasFlexible(slots: seq<ChildSlot>) {
    exists i :: 0 <= i < |slots| && Flexible(slots[i])
  }

  function FixedTotal(slots: seq<ChildSlot>, cell: int, k: nat): int
    requires k <= |slots|
  {
    if k == 0 then 0
    else FixedTotal(slots, cell, k - 1) + if Fixed(slots[k - 1]) then slots[k - 1].fixedCells * cell else 0
  }

  function StretchTotal(slots: seq<ChildSlot>, k: nat): (t: nat)
    requires k <= |slots|
  {
    if k == 0 then 0
    else StretchTotal(slots, k - 1) + if Fixed(slots[k - 1]) then 0 else Max(0, slots[k - 1].stretch)
  }

  /** What a child asks for: its pinned size, or its share of `remaining` capped by
      its maximum and then lifted to its minimum. */
  function Wish(s: ChildSlot, cell: int, remaining: int, stretch: nat): int {
    var least := Max(0, s.minCells) * cell;
    if Fixed(s) then s.fixedCells * cell
    else if stretch > 0 && remaining > 0 then
      var share := (remaining * Max(0, s.stretch)) / stretch;
      var capped := if s.maxCells > 0 then Min(share, s.maxCells * cell) else share;
      Max(capped, least)
    else least
  }

  function Wishes(slots: seq<ChildSlot>, available: int, cell: int): (r: seq<int>)
    ensures |r| == |slots|
  {
    var remaining := Max(0, available - FixedTotal(slots, cell, |slots|));
    seq(|slots|, i requires 0 <= i < |slots| => Wish(slots[i], cell, remaining, StretchTotal(slots, |slots|)))
  }

  /** The wishes cut off at `available`: a child keeps what lies before the cut. */
  function Clip(wishes: seq<int>, available: int): (r: seq<int>)
    ensures |r| == |wishes|
  {
    seq(|wishes|, i requires 0 <= i < |wishes| =>
      Min(Prefix(wishes, i + 1), available) - Min(Prefix(wishes, i), available))
  }

  function LastFlexible(slots: seq<ChildSlot>): (k: nat)
    requires HasFlexible(slots)
    ensures k < |slots| && Flexible(slots[k])
    ensures forall j :: k < j < |slots| ==> !Flexible(slots[j])
  {
    if Flexible(slots[|slots| - 1]) then |slots| - 1
    else
      assert HasFlexible(slots[..|slots| - 1]) by {
        var i :| 0 <= i < |slots| && Flexible(slots[i]);
        assert slots[..|slots| - 1][i] == slots[i];
      }
      LastFlexible(slots[..|slots| - 1])
  }

  function Pad(wishes: seq<int>, slots: seq<ChildSlot>, leftover: int): (r: seq<int>)
    requires |wishes| == |slots|
    ensures |r| == |wishes|
  {
    if HasFlexible(slots) then
      var k := LastFlexible(slots);
      wishes[k := wishes[k] + leftover]
    else wishes
  }

  /** The pixel sizes of the children of a Container of extent `available`. */
  function Divide(slots: seq<ChildSlot>, available: int, cell: int): (r: seq<int>)
    ensures |r| == |slots|
  {
    var wishes := Wishes(slots, available, cell);
    if Sum(wishes) > available then Clip(wishes, available)
    else Pad(wishes, slots, available - Sum(wishes))
  }

  // ---------------------------------------------------------------- facts

  lemma {:induction false} PrefixMonotone(s: seq<int>, i: nat, j: nat)
    requires i <= j <= |s|
    requires forall k :: 0 <= k < |s| ==> s[k] >= 0
    ensures 0 <= Prefix(s, i) <= Prefix(s, j)
    decreases j
  {
    if j > 0 {
      if i < j { PrefixMonotone(s, i, j - 1); } else { PrefixMonotone(s, i - 1, j - 1); }
    }
  }

  lemma WishNonNegative(s: ChildSlot, cell: int, remaining: int, stretch: nat)
    requires cell > 0
    ensures Wish(s, cell, remaining, stretch) >= 0
  {
    assert Max(0, s.minCells) * cell >= 0;
    if Fixed(s) { assert s.fixedCells * cell >= 0; }
  }

  lemma WishesNonNegative(slots: seq<ChildSlot>, available: int, cell: int)
    requires cell > 0
    ensures forall i :: 0 <= i < |slots| ==> Wishes(slots, available, cell)[i] >= 0
  {
    var remaining := Max(0, available - FixedTotal(slots, cell, |slots|));
    forall i | 0 <= i < |slots| ensures Wishes(slots, available, cell)[i] >= 0 {
      WishNonNegative(slots[i], cell, remaining, StretchTotal(slots, |slots|));
    }
  }

  lemma {:induction false} ClipPrefix(wishes: seq<int>, available: nat, k: nat)
    requires k <= |wishes|
    requires forall i :: 0 <= i < |wishes| ==> wishes[i] >= 0
    ensures Prefix(Clip(wishes, available), k) == Min(Prefix(wishes, k), available)
  {
    hide Clip;
    if k > 0 {
      ClipPrefix(wishes, available, k - 1);
      ClipAt(wishes, available, k - 1);
    }
  }

  lemma ClipAt(wishes: seq<int>, available: int, i: nat)
    requires i < |wishes|
    ensures Prefix(wishes, i + 1) == Prefix(wishes, i) + wishes[i]
    ensures Clip(wishes, available)[i] == Min(Prefix(wishes, i + 1), available) - Min(Prefix(wishes, i), available)
  {
  }

  lemma {:induction false} UpdatePrefix(s: seq<int>, i: nat, v: int, k: nat)
    requires i < |s| && k <= |s|
    ensures Prefix(s[i := v], k) == Prefix(s, k) + if i < k then v - s[i] else 0
  {
    if k > 0 { UpdatePrefix(s, i, v, k - 1); }
  }

  lemma ClippedFits(wishes: seq<int>, available: nat)
    requires Sum(wishes) > available && forall i :: 0 <= i < |wishes| ==> wishes[i] >= 0
    ensures Sum(Clip(wishes, available)) == available
    ensures forall i :: 0 <= i < |wishes| ==> Clip(wishes, available)[i] >= 0
  {
    hide Clip, Prefix;
    ClipPrefix(wishes, available, |wishes|);
    forall i | 0 <= i < |wishes| ensures Clip(wishes, available)[i] >= 0 {
      PrefixMonotone(wishes, i, i + 1);
      ClipAt(wishes, available, i);
    }
  }

  lemma PaddedFits(wishes: seq<int>, slots: seq<ChildSlot>, leftover: nat)
    requires |wishes| == |slots| && forall i :: 0 <= i < |wishes| ==> wishes[i] >= 0
    ensures Sum(Pad(wishes, slots, leftover)) == Sum(wishes) + if HasFlexible(slots) then leftover else 0
    ensures forall i :: 0 <= i < |slots| ==> Pad(wishes, slots, leftover)[i] >= 0
  {
    if HasFlexible(slots) {
      var k := LastFlexible(slots);
      UpdatePrefix(wishes, k, wishes[k] + leftover, |wishes|);
    }
  }

  /** No child gets a negative size and together they never exceed the extent;
      they fill it exactly when a child can take the leftover or the wishes
      already reach the extent. */
  lemma DivisionFits(slots: seq<ChildSlot>, available: nat, cell: int)
    requires cell > 0
    ensures forall i :: 0 <= i < |slots| ==> Divide(slots, available, cell)[i] >= 0
    ensures Sum(Divide(slots, available, cell)) <= available
    ensures Sum(Divide(slots, available, cell)) == available <==>
      HasFlexible(slots) || Sum(Wishes(slots, available, cell)) >= available
  {
    hide Clip, Pad, Wishes, Sum, HasFlexible;
    var wishes := Wishes(slots, available, cell);
    WishesNonNegative(slots, available, cell);
    if Sum(wishes) > available {
      ClippedFits(wishes, available);
    } else {
      PaddedFits(wishes, slots, available - Sum(wishes));
    }
  }

  /** A child exceeds its maximum, or its minimum where that is larger, if and only if it is
      the one that takes leftover pixels and its wish with all of them does. */
  lemma MaximumExceededIff(slots: seq<ChildSlot>, available: nat, cell: int, i: nat)
    requires cell > 0 && i < |slots| && !Fixed(slots[i]) && slots[i].maxCells > 0
    ensures var wishes, most := Wishes(slots, available, cell), Max(slots[i].minCells, slots[i].maxCells) * cell;
      var takes := HasFlexible(slots) && i == LastFlexible(slots) && Sum(wishes) < available;
      && (takes ==> Divide(slots, available, cell)[i] == wishes[i] + (available - Sum(wishes)))
      && (Divide(slots, available, cell)[i] > most <==> takes && wishes[i] + (available - Sum(wishes)) > most)
  {
    hide Clip, Wish, LastFlexible, Sum;
    var wishes := Wishes(slots, available, cell);
    var remaining := Max(0, available - FixedTotal(slots, cell, |slots|));
    WishesNonNegative(slots, available, cell);
    WishBounded(slots[i], cell, remaining, StretchTotal(slots, |slots|));
    if Sum(wishes) > available { ClipShrinks(wishes, available, i); }
  }

  lemma WishBounded(s: ChildSlot, cell: int, remaining: int, stretch: nat)
    requires cell > 0 && !Fixed(s) && s.maxCells > 0
    ensures Wish(s, cell, remaining, stretch) <= Max(s.minCells, s.maxCells) * cell
  {
    var most := Max(s.minCells, s.maxCells);
    assert Max(0, s.minCells) * cell <= most * cell && s.maxCells * cell <= most * cell;
  }

  lemma ClipShrinks(wishes: seq<int>, available: int, i: nat)
    requires i < |wishes| && wishes[i] >= 0
    ensures Clip(wishes, available)[i] <= wishes[i]
  {
  }

  lemma WishAtLeast(s: ChildSlot, cell: int, remaining: int, stretch: nat)
    requires !Fixed(s)
    ensures Wish(s, cell, remaining, stretch) >= Max(0, s.minCells) * cell
  {
  }

  /** A child gets its minimum if and only if there is room for that behind the children
      before it, whatever it has for a share. */
  lemma MinimumHoldsIff(slots: seq<ChildSlot>, available: nat, cell: int, i: nat)
    requires cell > 0 && i < |slots| && !Fixed(slots[i])
    ensures var sizes, least := Divide(slots, available, cell), Max(0, slots[i].minCells) * cell;
      sizes[i] >= least <==> Prefix(sizes, i) + least <= available
  {
    hide Clip, Wish, LastFlexible;
    var wishes := Wishes(slots, available, cell);
    var remaining := Max(0, available - FixedTotal(slots, cell, |slots|));
    WishesNonNegative(slots, available, cell);
    WishAtLeast(slots[i], cell, remaining, StretchTotal(slots, |slots|));
    assert wishes[i] >= Max(0, slots[i].minCells) * cell;
    if Sum(wishes) > available {
      ClipPrefix(wishes, available, i);
      ClipAt(wishes, available, i);
    } else {
      DivisionFits(slots, available, cell);
      PrefixMonotone(Divide(slots, available, cell), i + 1, |slots|);
    }
  }

  lemma QuotientBounds(x: int, n: int)
    requires n > 0
    ensures x / n * n <= x < (x / n + 1) * n
  {
  }

  /** `size` pixels for a child that shares `room` with others, `total` being all their
      stretch: never below the minimum, above it never more than the share nor more than the
      maximum, and all of the share, rounded down, unless the maximum stops it. */
  predicate ShareHeld(s: ChildSlot, cell: int, room: int, total: int, size: int) {
    var least := Max(0, s.minCells) * cell;
    && size >= least
    && (size > least ==> room > 0 && total > 0 && size * total <= room * Max(0, s.stretch))
    && (size > least && s.maxCells > 0 ==> size <= s.maxCells * cell)
    && (room > 0 && total > 0 && (s.maxCells <= 0 || size < s.maxCells * cell) ==> room * Max(0, s.stretch) < (size + 1) * total)
  }

  lemma QuotientBounded(share: nat, size: nat, x: int, n: nat)
    requires share * n <= x < (share + 1) * n
    ensures size <= share ==> size * n <= x
    ensures size >= share ==> x < (size + 1) * n
  {
    if size < share { TimesMonotone(size, share, n); }
    if share < size { TimesMonotone(share + 1, size + 1, n); }
  }

  lemma WishHeld(s: ChildSlot, cell: int, room: int, total: nat)
    requires cell > 0 && !Fixed(s)
    ensures ShareHeld(s, cell, room, total, Wish(s, cell, Max(0, room), total))
  {
    var size := Wish(s, cell, Max(0, room), total);
    WishNonNegative(s, cell, Max(0, room), total);
    if total > 0 && room > 0 {
      var x := room * Max(0, s.stretch);
      assert x >= 0;
      QuotientBounds(x, total);
      QuotientBounded(x / total, size, x, total);
    }
  }

  /** A child that ends before the extent does is not cut, and has its wish. */
  lemma UncutWish(slots: seq<ChildSlot>, available: nat, cell: int, i: nat)
    requires cell > 0 && i < |slots| && Prefix(Divide(slots, available, cell), i + 1) < available
    requires !(HasFlexible(slots) && i == LastFlexible(slots))
    ensures Divide(slots, available, cell)[i] ==
      Wish(slots[i], cell, Max(0, available - FixedTotal(slots, cell, |slots|)), StretchTotal(slots, |slots|))
  {
    hide Clip, Wish, LastFlexible;
    var wishes := Wishes(slots, available, cell);
    WishesNonNegative(slots, available, cell);
    if Sum(wishes) > available {
      ClipPrefix(wishes, available, i);
      ClipPrefix(wishes, available, i + 1);
      ClipAt(wishes, available, i);
    }
  }

  predicate FlexibleAfter(slots: seq<ChildSlot>, i: nat) {
    exists k :: i < k < |slots| && Flexible(slots[k])
  }

  /** The size of every child that the extent does not cut off and that does not take the
      leftover: the pinned pixels, or the share held between minimum and maximum. */
  lemma SizeIs(slots: seq<ChildSlot>, available: nat, cell: int, i: nat)
    requires cell > 0 && i < |slots| && Prefix(Divide(slots, available, cell), i + 1) < available
    requires !Flexible(slots[i]) || FlexibleAfter(slots, i)
    ensures var size := Divide(slots, available, cell)[i];
      if Fixed(slots[i]) then size == slots[i].fixedCells * cell
      else ShareHeld(slots[i], cell, available - FixedTotal(slots, cell, |slots|), StretchTotal(slots, |slots|), size)
  {
    hide ShareHeld, Divide, FixedTotal, StretchTotal;
    UncutWish(slots, available, cell, i);
    if !Fixed(slots[i]) { WishHeld(slots[i], cell, available - FixedTotal(slots, cell, |slots|), StretchTotal(slots, |slots|)); }
  }

  // ---------------------------------------------------------------- the loops

  method DivideSpace(slots: seq<ChildSlot>, available: int, cell: int) returns (sizes: seq<int>)
    requires cell > 0 && available > 0
    ensures sizes == Divide(slots, available, cell)
  {
    var n := |slots|;
    sizes := seq(n, _ => 0);
    var mins: seq<int> := seq(n, _ => 0);
    var totalFixed, totalStretch := 0, 0;
    for i := 0 to n
      invariant |sizes| == |mins| == n
      invariant totalFixed == FixedTotal(slots, cell, i) && totalStretch == StretchTotal(slots, i)
      invariant forall j :: 0 <= j < i ==> mins[j] == Max(0, slots[j].minCells) * cell
      invariant forall j :: 0 <= j < i && Fixed(slots[j]) ==> sizes[j] == slots[j].fixedCells * cell
    {
      mins := mins[i := Max(0, slots[i].minCells) * cell];
      if slots[i].fixedCells > 0 {
        sizes := sizes[i := slots[i].fixedCells * cell];
        totalFixed := totalFixed + sizes[i];
      } else {
        totalStretch := totalStretch + Max(0, slots[i].stretch);
      }
    }

    var remaining := available - totalFixed;
    if remaining < 0 { remaining := 0; }

    if totalStretch > 0 && remaining > 0 {
      for i := 0 to n
        invariant |sizes| == n
        invariant forall j :: 0 <= j < n && (j < i || Fixed(slots[j])) ==>
          sizes[j] == Wish(slots[j], cell, remaining, totalStretch)
      {
        if slots[i].fixedCells <= 0 {
          var want := (remaining * Max(0, slots[i].stretch)) / totalStretch;
          if slots[i].maxCells > 0 {
            var maxPx := slots[i].maxCells * cell;
            if want > maxPx { want := maxPx; }
          }
          if want < mins[i] { want := mins[i]; }
          sizes := sizes[i := want];
        }
      }
    } else {
      for i := 0 to n
        invariant |sizes| == n
        invariant forall j :: 0 <= j < n && (j < i || Fixed(slots[j])) ==>
          sizes[j] == Wish(slots[j], cell, remaining, totalStretch)
      {
        if slots[i].fixedCells <= 0 { sizes := sizes[i := mins[i]]; }
      }
    }
    ghost var wishes := Wishes(slots, available, cell);
    assert sizes == wishes;

    var total := 0;
    for i := 0 to n
      invariant total == Prefix(sizes, i)
    {
      total := total + sizes[i];
    }
    if total > available {
      WishesNonNegative(slots, available, cell);
      sizes := TakeBack(sizes, available, total - available);
    } else if total < available {
      sizes := GiveLeftover(sizes, slots, available - total);
    } else if HasFlexible(slots) {
      assert Pad(wishes, slots, 0) == wishes;
    }
  }

  /** The overflow policy: trailing children shrink first, each to no less than 0. */
  method TakeBack(wishes: seq<int>, ghost available: int, over: int) returns (sizes: seq<int>)
    requires available >= 0 && over == Sum(wishes) - available > 0
    requires forall j :: 0 <= j < |wishes| ==> wishes[j] >= 0
    ensures sizes == Clip(wishes, available)
  {
    hide Clip;
    sizes := wishes;
    var excess, i := over, |wishes|;
    while i > 0 && excess > 0
      invariant 0 <= i <= |wishes| == |sizes|
      invariant excess == Prefix(wishes, i) - Min(Prefix(wishes, i), available)
      invariant forall j :: 0 <= j < i ==> sizes[j] == wishes[j]
      invariant forall j :: i <= j < |wishes| ==> sizes[j] == Clip(wishes, available)[j]
    {
      i := i - 1;
      ClipAt(wishes, available, i);
      var take := Min(sizes[i], excess);
      sizes := sizes[i := sizes[i] - take];
      excess := excess - take;
    }
    forall j | 0 <= j < i ensures sizes[j] == Clip(wishes, available)[j] {
      PrefixMonotone(wishes, j + 1, i);
      PrefixMonotone(wishes, j, i);
      ClipAt(wishes, available, j);
    }
    assert sizes == Clip(wishes, available);
  }

  /** Leftover pixels go to the last flexible child, if there is one. */
  method GiveLeftover(wishes: seq<int>, slots: seq<ChildSlot>, leftover: int) returns (sizes: seq<int>)
    requires |wishes| == |slots|
    ensures sizes == Pad(wishes, slots, leftover)
  {
    sizes := wishes;
    var i := |slots|;
    while i > 0
      invariant 0 <= i <= |slots| && sizes == wishes
      invariant forall j :: i <= j < |slots| ==> !Flexible(slots[j])
    {
      i := i - 1;
      if slots[i].fixedCells <= 0 && slots[i].stretch > 0 {
        sizes := sizes[i := sizes[i] + leftover];
        assert Flexible(slots[i]);
        return;
      }
    }
  }
}
