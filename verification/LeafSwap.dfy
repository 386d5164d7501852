/** Swapping two leaves: what it does to the layout and to the order of the leaves
    (src/LayoutTree.cpp:275-319, :501-631, :766-787). */
module LeafSwap {
  import opened Forest
  import opened Ancestry
  import opened SpaceDivision
  import opened TreeEdits
  import opened Layout
  import opened LayoutFacts

  /** Two Terminals that may be swapped. */
  ghost predicate LeafPair(m: Nodes, a: Uuid, b: Uuid) {
    && Inv(m) && Layoutable(m) && CanSwap(m, a, b)
    && m[a].data.TerminalData? && m[b].data.TerminalData?
  }

  /** A Stack that zooms on one of the two. */
  predicate ZoomedOn(d: NodeData, a: Uuid, b: Uuid) {
    d.StackData? && (d.zoomTarget == a || d.zoomTarget == b)
  }

  /** Every Stack that zooms on one of the two holds both, so that its zoom stays inside. */
  ghost predicate ZoomsHoldBoth(m: Nodes, a: Uuid, b: Uuid)
    requires Acyclic(m)
  {
    forall p :: p in m && ZoomedOn(m[p].data, a, b) ==> Contains(m, p, a) && Contains(m, p, b)
  }

  /** A visible Stack zooms on `x`. */
  ghost predicate Held(m: Nodes, out: map<Uuid, Rect>, x: Uuid) {
    exists s :: s in out && s in m && m[s].data.StackData? && m[s].data.zoomTarget == x
  }

  /** The node has `x` below its i-th child and `y` below its j-th, another one. */
  ghost predicate Parted(m: Nodes, p: Uuid, i: nat, j: nat, x: Uuid, y: Uuid)
    requires Acyclic(m)
  {
    && p in m && i < |Kids(m[p].data)| && j < |Kids(m[p].data)| && i != j
    && Contains(m, Kids(m[p].data)[i].id, x) && Contains(m, Kids(m[p].data)[j].id, y)
  }

  /** Layout comes to `x` before it comes to `y`. */
  ghost predicate Before(m: Nodes, x: Uuid, y: Uuid)
    requires Acyclic(m)
  {
    exists p, i: nat, j: nat :: Parted(m, p, i, j, x, y) && i < j
  }

  /** Both stand in one Stack, which shows at most one of them. */
  predicate ShareStack(m: Nodes, a: Uuid, b: Uuid)
    requires a in m && b in m
  {
    && m[a].parent == m[b].parent
    && m[a].parent in m && m[m[a].parent].data.StackData?
  }

  /** The entries of `a` and `b`, present or absent, change places. */
  function Exchanged(out: map<Uuid, Rect>, a: Uuid, b: Uuid): (r: map<Uuid, Rect>)
    ensures forall x {:trigger x in r} :: x in r <==> Other(a, b, x) in out
    ensures forall x {:trigger r[x]} :: x in r ==> r[x] == out[Other(a, b, x)]
  {
    map x | x in out.Keys + {a, b} && Other(a, b, x) in out :: out[Other(a, b, x)]
  }

  /** `x` keeps what a zoom gives it, and takes the place of `y` too if that comes later;
      `y` is not seen. */
  function Kept(out: map<Uuid, Rect>, x: Uuid, y: Uuid, xFirst: bool): map<Uuid, Rect> {
    if x !in out || y !in out then out
    else if xFirst then out[x := out[y]] - {y}
    else out - {y}
  }

  function Redrawn(out: map<Uuid, Rect>, a: Uuid, b: Uuid, aHeld: bool, bHeld: bool, aFirst: bool): map<Uuid, Rect> {
    if aHeld && bHeld then out
    else if aHeld then Kept(out, a, b, aFirst)
    else if bHeld then Kept(out, b, a, !aFirst)
    else Exchanged(out, a, b)
  }

  /** What a swap makes of a layout.  A leaf that a visible Stack zooms on goes on being
      shown there. */
  ghost function Reflected(m: Nodes, out: map<Uuid, Rect>, a: Uuid, b: Uuid): map<Uuid, Rect>
    requires Acyclic(m)
  {
    Redrawn(out, a, b, Held(m, out, a), Held(m, out, b), Before(m, a, b))
  }

  lemma NobodysParent(m: Nodes, a: Uuid, x: Uuid)
    requires Linked(m) && a in m && Kids(m[a].data) == [] && x in m
    ensures m[x].parent != a
  {
  }

  /** Chains that do not start at the swapped leaves do not change. */
  lemma SwapKeepsChains(m: Nodes, a: Uuid, b: Uuid, p: Uuid, d: Uuid)
    requires LeafPair(m, a, b) && Acyclic(Swapped(m, a, b)) && d in m && d != a && d != b
    ensures Contains(Swapped(m, a, b), p, d) == Contains(m, p, d)
  {
    var n := Swapped(m, a, b);
    var up := set x | x in m && x != a && x != b;
    forall x | x in up ensures n[x].parent == m[x].parent && (m[x].parent == NIL || m[x].parent in up) {
      NobodysParent(m, a, x);
      NobodysParent(m, b, x);
    }
    ContainsSame(m, n, up, p, d);
  }

  /** A Stack that holds both still holds each of them. */
  lemma SwapKeepsHolder(m: Nodes, a: Uuid, b: Uuid, p: Uuid, d: Uuid)
    requires LeafPair(m, a, b) && Inv(Swapped(m, a, b)) && (d == a || d == b) && p != a && p != b
    requires Contains(m, p, a) && Contains(m, p, b)
    ensures Contains(Swapped(m, a, b), p, d)
  {
    var q := m[Other(a, b, d)].parent;
    NobodysParent(m, a, Other(a, b, d));
    NobodysParent(m, b, Other(a, b, d));
    SwapKeepsChains(m, a, b, p, q);
  }

  lemma SwapLayoutable(m: Nodes, a: Uuid, b: Uuid)
    requires LeafPair(m, a, b) && ZoomsHoldBoth(m, a, b)
    ensures Inv(Swapped(m, a, b)) && Layoutable(Swapped(m, a, b))
  {
    hide StacksActive, ZoomsLive, Acyclic, NoTwins, ChildLinks, ParentLinks;
    var n := Swapped(m, a, b);
    SwapKeepsInv(m, a, b);
    forall p | p in n && n[p].data.StackData? && n[p].data.zoomTarget != NIL
      ensures n[p].data.zoomTarget in n && n[p].data.zoomTarget != p && Contains(n, p, n[p].data.zoomTarget)
    {
      if ZoomedOn(m[p].data, a, b) { SwapKeepsHolder(m, a, b, p, m[p].data.zoomTarget); }
      else { SwapKeepsChains(m, a, b, p, m[p].data.zoomTarget); }
    }
  }

  // ---------------------------------------------------------------- sizes ignore ids

  ghost predicate SameWeights(s: seq<ChildSlot>, t: seq<ChildSlot>) {
    |s| == |t| && forall i :: 0 <= i < |s| ==> t[i] == s[i].(id := t[i].id)
  }

  lemma {:induction false} TotalsSame(s: seq<ChildSlot>, t: seq<ChildSlot>, c: int, k: nat)
    requires SameWeights(s, t) && k <= |s|
    ensures FixedTotal(s, c, k) == FixedTotal(t, c, k) && StretchTotal(s, k) == StretchTotal(t, k)
  {
    if k > 0 { TotalsSame(s, t, c, k - 1); }
  }

  lemma FlexibleSame(s: seq<ChildSlot>, t: seq<ChildSlot>)
    requires SameWeights(s, t)
    ensures HasFlexible(s) ==> HasFlexible(t) && LastFlexible(s) == LastFlexible(t)
  {
    if HasFlexible(s) {
      assert Flexible(t[LastFlexible(s)]);
      assert Flexible(s[LastFlexible(t)]);
    }
  }

  lemma WishSame(s: ChildSlot, id: Uuid, c: int, remaining: int, stretch: nat)
    ensures Wish(s.(id := id), c, remaining, stretch) == Wish(s, c, remaining, stretch)
  {
  }

  lemma DivideSame(s: seq<ChildSlot>, t: seq<ChildSlot>, available: int, c: int)
    requires SameWeights(s, t)
    ensures Divide(s, available, c) == Divide(t, available, c)
  {
    hide FixedTotal, StretchTotal, Wish, Clip, Sum, LastFlexible, Flexible;
    TotalsSame(s, t, c, |s|);
    forall i | 0 <= i < |s| ensures Wishes(t, available, c)[i] == Wishes(s, available, c)[i] {
      WishSame(s[i], t[i].id, c, Max(0, available - FixedTotal(s, c, |s|)), StretchTotal(s, |s|));
    }
    assert Wishes(s, available, c) == Wishes(t, available, c);
    FlexibleSame(s, t);
    assert SameWeights(t, s);
    FlexibleSame(t, s);
  }

  lemma StripsSame(d: NodeData, e: NodeData, rect: Rect, cell: CellSize)
    requires d.ContainerData? && e.ContainerData? && e.dir == d.dir && SameWeights(d.children, e.children)
    ensures Strips(e, rect, cell) == Strips(d, rect, cell)
  {
    DivideSame(d.children, e.children, Extent(d.dir, rect), CellAlong(d.dir, cell));
  }

  // ---------------------------------------------------------------- the layout

  lemma ExchangedAppend(u: map<Uuid, Rect>, v: map<Uuid, Rect>, a: Uuid, b: Uuid)
    ensures Exchanged(u + v, a, b) == Exchanged(u, a, b) + Exchanged(v, a, b)
  {
  }

  /** Two layouts one written after the other, none of the two leaves in both. */
  lemma RedrawnAppend(u: map<Uuid, Rect>, v: map<Uuid, Rect>, a: Uuid, b: Uuid,
                      ua: bool, ub: bool, va: bool, vb: bool, aFirst: bool)
    requires a != b && !(a in u && a in v) && !(b in u && b in v)
    requires (ua ==> a in u) && (ub ==> b in u) && (va ==> a in v) && (vb ==> b in v)
    requires (a in u && b in v ==> aFirst) && (b in u && a in v ==> !aFirst)
    ensures Redrawn(u, a, b, ua, ub, aFirst) + Redrawn(v, a, b, va, vb, aFirst) == Redrawn(u + v, a, b, ua || va, ub || vb, aFirst)
  {
    hide Exchanged, Kept;
    if (ua || va) && (ub || vb) {
      StaysIfHeld(u, a, b, ua, ub, aFirst);
      StaysIfHeld(v, a, b, va, vb, aFirst);
    } else if ua {
      KeptFirst(u, v, a, b, aFirst);
    } else if va {
      KeptLast(u, v, a, b, aFirst);
    } else if ub {
      ExchangedTurned(v, a, b);
      KeptFirst(u, v, b, a, !aFirst);
    } else if vb {
      ExchangedTurned(u, a, b);
      KeptLast(u, v, b, a, !aFirst);
    } else {
      ExchangedAppend(u, v, a, b);
    }
  }

  /** Where every leaf that is seen is held nothing changes. */
  lemma StaysIfHeld(out: map<Uuid, Rect>, a: Uuid, b: Uuid, aHeld: bool, bHeld: bool, aFirst: bool)
    requires (aHeld <==> a in out) && (bHeld <==> b in out)
    ensures Redrawn(out, a, b, aHeld, bHeld, aFirst) == out
  {
    if !aHeld && !bHeld { ExchangedNeither(out, a, b); }
  }

  lemma ExchangedTurned(out: map<Uuid, Rect>, a: Uuid, b: Uuid)
    ensures Exchanged(out, b, a) == Exchanged(out, a, b)
  {
  }

  lemma ExchangedNeither(out: map<Uuid, Rect>, a: Uuid, b: Uuid)
    requires a !in out && b !in out
    ensures Exchanged(out, a, b) == out
  {
  }

  lemma KeptFirst(u: map<Uuid, Rect>, v: map<Uuid, Rect>, x: Uuid, y: Uuid, xFirst: bool)
    requires x != y && x in u && x !in v && !(y in u && y in v) && (y in v ==> xFirst)
    ensures Kept(u, x, y, xFirst) + Exchanged(v, x, y) == Kept(u + v, x, y, xFirst)
  {
  }

  lemma KeptLast(u: map<Uuid, Rect>, v: map<Uuid, Rect>, x: Uuid, y: Uuid, xFirst: bool)
    requires x != y && x in v && x !in u && !(y in u && y in v) && (y in u ==> !xFirst)
    ensures Exchanged(u, x, y) + Kept(v, x, y, xFirst) == Kept(u + v, x, y, xFirst)
  {
  }

  /** How one node looks after the names `a` and `b` change places, as far as layout
      is concerned. */
  ghost predicate Mirror(d: NodeData, e: NodeData, a: Uuid, b: Uuid) {
    match d
    case ContainerData(dir, kids) => e == ContainerData(dir, Renamed(kids, a, b))
    case StackData(_, _, _) => e.StackData? && Shown(e) == if ZoomedOn(d, a, b) then Shown(d) else Other(a, b, Shown(d))
    case _ => e == d
  }

  ghost predicate Mirrored(m: Nodes, n: Nodes, a: Uuid, b: Uuid) {
    && n.Keys == m.Keys && a in m && b in m && IsLeaf(m[a].data) && IsLeaf(m[b].data)
    && forall x :: x in m ==> Mirror(m[x].data, n[x].data, a, b)
  }

  lemma ShownFollows(m: Nodes, a: Uuid, b: Uuid, id: Uuid)
    requires LeafPair(m, a, b) && !ShareStack(m, a, b) && id in m && m[id].data.StackData?
    ensures Shown(Swapped(m, a, b)[id].data) == if ZoomedOn(m[id].data, a, b) then Shown(m[id].data) else Other(a, b, Shown(m[id].data))
  {
    var d := m[id].data;
    if m[a].parent == m[b].parent && d.zoomTarget == NIL && d.children != [] {
      assert Kids(d) == d.children;
      var i := IndexOf(Kids(d), d.activeChild);
      assert m[d.activeChild].parent == id;
    }
  }

  lemma SwapMirrors(m: Nodes, a: Uuid, b: Uuid)
    requires LeafPair(m, a, b) && !ShareStack(m, a, b)
    ensures Mirrored(m, Swapped(m, a, b), a, b)
  {
    forall x | x in m ensures Mirror(m[x].data, Swapped(m, a, b)[x].data, a, b) {
      if m[x].data.StackData? { ShownFollows(m, a, b, x); }
    }
  }

  // ---------------------------------------------------------------- the mirrored layout ends

  /** The layout of the mirrored forest goes no deeper, wherever its zooms point. */
  lemma {:induction false} MirrorEnds(m: Nodes, n: Nodes, a: Uuid, b: Uuid, id: Uuid, rect: Rect, cell: CellSize)
    requires Layoutable(m) && Mirrored(m, n, a, b) && id in m
    ensures EndsIn(n, Other(a, b, id), rect, cell, RankOf(m, id) + 1) && Ends(n, Other(a, b, id), rect, cell)
    decreases RankOf(m, id)
  {
    hide Acyclic, Linked, StacksActive, ZoomsInside;
    var d := m[id].data;
    if d.ContainerData? {
      var strips := Strips(d, rect, cell);
      StripsSame(d, n[id].data, rect, cell);
      hide Strips;
      forall i | 0 <= i < |strips| && !IsEmpty(strips[i])
        ensures EndsIn(n, Kids(n[id].data)[i].id, strips[i], cell, RankOf(m, id))
      {
        ChildBelow(m, id, i);
        MirrorEnds(m, n, a, b, Kids(d)[i].id, strips[i], cell);
        DeeperEnds(n, Kids(n[id].data)[i].id, strips[i], cell, RankOf(m, Kids(d)[i].id) + 1, RankOf(m, id));
      }
    } else if d.StackData? && Shown(d) != NIL {
      ShownBelow(m, id);
      if ZoomedOn(d, a, b) {
        StillHolds(m, n, a, b, id);
        LeafEnds(n, Shown(d), rect, cell, RankOf(m, id));
      } else {
        MirrorEnds(m, n, a, b, Shown(d), rect, cell);
        DeeperEnds(n, Other(a, b, Shown(d)), rect, cell, RankOf(m, Shown(d)) + 1, RankOf(m, id));
      }
    } else {
      NilIsNoLeaf(m, a, b);
    }
  }

  lemma LeafEnds(n: Nodes, x: Uuid, rect: Rect, cell: CellSize, k: nat)
    requires k > 0 && x in n && IsLeaf(n[x].data)
    ensures EndsIn(n, x, rect, cell, k) && Ends(n, x, rect, cell) && Rects(n, x, rect, cell) == map[x := rect]
  {
    assert EndsIn(n, x, rect, cell, k);
  }

  lemma StillHolds(m: Nodes, n: Nodes, a: Uuid, b: Uuid, id: Uuid)
    requires Layoutable(m) && Mirrored(m, n, a, b) && id in m && ZoomedOn(m[id].data, a, b)
    ensures var x := Shown(m[id].data);
      (x == a || x == b) && x in n && IsLeaf(m[x].data) && IsLeaf(n[x].data) && n[id].data.StackData? && Shown(n[id].data) == x
  {
    hide Acyclic, StacksActive, ZoomsInside, ParentLinks, ChildLinks, NoTwins;
    NilIsNoLeaf(m, a, b);
    var x := Shown(m[id].data);
    assert Mirror(m[x].data, n[x].data, a, b);
  }

  lemma NilIsNoLeaf(m: Nodes, a: Uuid, b: Uuid)
    requires Layoutable(m) && a in m && b in m
    ensures a != NIL && b != NIL
  {
  }

  // ---------------------------------------------------------------- order and membership

  /** A node below two children is below one and the same. */
  lemma SameChild(m: Nodes, p: Uuid, i: nat, j: nat, x: Uuid)
    requires Acyclic(m) && Linked(m) && p in m && i < |Kids(m[p].data)| && j < |Kids(m[p].data)| && x in m
    requires Contains(m, Kids(m[p].data)[i].id, x) && Contains(m, Kids(m[p].data)[j].id, x)
    ensures i == j
  {
    hide Acyclic, ParentLinks;
    if i != j { SiblingsDisjoint(m, Kids(m[p].data)[i].id, Kids(m[p].data)[j].id, x); }
  }

  lemma PartedBelow(m: Nodes, p: Uuid, i: nat, j: nat, x: Uuid, y: Uuid)
    requires Acyclic(m) && Linked(m) && x in m && y in m && Parted(m, p, i, j, x, y)
    ensures Contains(m, p, x) && Contains(m, p, y)
  {
    hide Acyclic, ParentLinks, NoTwins;
    ChildBelow(m, p, i);
    ChildBelow(m, p, j);
    ContainsTransitive(m, p, Kids(m[p].data)[i].id, x);
    ContainsTransitive(m, p, Kids(m[p].data)[j].id, y);
  }

  /** One node only parts two others. */
  lemma PartedOnce(m: Nodes, p: Uuid, i: nat, j: nat, q: Uuid, k: nat, l: nat, x: Uuid, y: Uuid)
    requires Acyclic(m) && Linked(m) && x in m && y in m
    requires Parted(m, p, i, j, x, y) && Parted(m, q, k, l, x, y) && Contains(m, p, q)
    ensures p == q
  {
    hide Acyclic, ParentLinks, Linked, Parted;
    PartedBelow(m, q, k, l, x, y);
    if p != q {
      var c := BelowSomeChild(m, p, q);
      var kid := Kids(m[p].data)[c].id;
      ContainsTransitive(m, kid, q, x);
      ContainsTransitive(m, kid, q, y);
      PartedElsewhere(m, p, i, j, x, y, c);
    }
  }

  lemma PartedElsewhere(m: Nodes, p: Uuid, i: nat, j: nat, x: Uuid, y: Uuid, c: nat)
    requires Acyclic(m) && Linked(m) && x in m && y in m && Parted(m, p, i, j, x, y) && c < |Kids(m[p].data)|
    ensures !(Contains(m, Kids(m[p].data)[c].id, x) && Contains(m, Kids(m[p].data)[c].id, y))
  {
    hide Acyclic, Linked;
    if Contains(m, Kids(m[p].data)[c].id, x) && Contains(m, Kids(m[p].data)[c].id, y) {
      SameChild(m, p, i, c, x);
      SameChild(m, p, j, c, y);
    }
  }

  /** The children that part two nodes tell which of them layout comes to first. */
  lemma BeforeIff(m: Nodes, p: Uuid, i: nat, j: nat, x: Uuid, y: Uuid)
    requires Acyclic(m) && Linked(m) && x in m && y in m && Parted(m, p, i, j, x, y)
    ensures Before(m, x, y) <==> i < j
  {
    hide Acyclic, Linked, Parted;
    if q, k: nat, l: nat :| Parted(m, q, k, l, x, y) && k < l {
      PartedBelow(m, p, i, j, x, y);
      PartedBelow(m, q, k, l, x, y);
      AncestorsComparable(m, p, q, x);
      if Contains(m, p, q) { PartedOnce(m, p, i, j, q, k, l, x, y); } else { PartedOnce(m, q, k, l, p, i, j, x, y); }
      PartedSame(m, p, i, j, k, l, x, y);
    }
  }

  lemma PartedSame(m: Nodes, p: Uuid, i: nat, j: nat, k: nat, l: nat, x: Uuid, y: Uuid)
    requires Acyclic(m) && Linked(m) && x in m && y in m && Parted(m, p, i, j, x, y) && Parted(m, p, k, l, x, y)
    ensures i == k && j == l
  {
    hide Acyclic, Linked;
    SameChild(m, p, i, k, x);
    SameChild(m, p, j, l, y);
  }

  /** What a visible Stack zooms on is visible. */
  lemma HeldSeen(m: Nodes, id: Uuid, rect: Rect, cell: CellSize, x: Uuid)
    requires Layoutable(m) && id in m && !IsEmpty(rect) && x in m && IsLeaf(m[x].data)
    requires Held(m, Rects(m, id, rect, cell), x)
    ensures x in Rects(m, id, rect, cell)
  {
    hide Layoutable;
    var out := Rects(m, id, rect, cell);
    var s :| s in out && s in m && m[s].data.StackData? && m[s].data.zoomTarget == x;
    VisibleNested(m, id, rect, cell, s);
    NilIsNoLeaf(m, x, x);
    assert x in Rects(m, s, out[s], cell) by { LeafRects(m, x, out[s], cell); }
  }

  lemma LeafRects(m: Nodes, a: Uuid, rect: Rect, cell: CellSize)
    requires Layoutable(m) && a in m && IsLeaf(m[a].data)
    ensures Rects(m, a, rect, cell) == map[a := rect]
  {
  }

  // ---------------------------------------------------------------- the parts of a Container

  ghost predicate Leaflets(m: Nodes, a: Uuid, b: Uuid) {
    a in m && b in m && a != b && IsLeaf(m[a].data) && IsLeaf(m[b].data)
  }

  /** A leaf in a layout of the first `k` parts comes from one of them, and so does a zoom
      on it. */
  lemma PartsHold(m: Nodes, id: Uuid, strips: seq<Rect>, cell: CellSize, k: nat, x: Uuid)
    requires Layoutable(m) && id in m && k <= |Kids(m[id].data)| == |strips| && x in m && IsLeaf(m[x].data)
    requires Held(m, Union(Parts(m, id, strips, cell), k), x)
    ensures x in Union(Parts(m, id, strips, cell), k)
  {
    hide Layoutable;
    var parts := Parts(m, id, strips, cell);
    var s :| s in Union(parts, k) && s in m && m[s].data.StackData? && m[s].data.zoomTarget == x;
    var i := UnionFrom(parts, k, s);
    PartHolds(m, id, strips, cell, i, x);
    InUnion(parts, k, i, x);
  }

  lemma PartHolds(m: Nodes, id: Uuid, strips: seq<Rect>, cell: CellSize, i: nat, x: Uuid)
    requires Layoutable(m) && id in m && i < |Kids(m[id].data)| == |strips| && x in m && IsLeaf(m[x].data)
    requires Held(m, Parts(m, id, strips, cell)[i], x)
    ensures x in Parts(m, id, strips, cell)[i]
  {
    hide Held;
    NothingHeld(m, x);
    if !IsEmpty(strips[i]) {
      ChildAlive(m, id, i);
      HeldSeen(m, Kids(m[id].data)[i].id, strips[i], cell, x);
    }
  }

  lemma NothingHeld(m: Nodes, x: Uuid)
    ensures !Held(m, map[], x)
  {
  }

  lemma ChildAlive(m: Nodes, id: Uuid, i: nat)
    requires Layoutable(m) && id in m && i < |Kids(m[id].data)|
    ensures Kids(m[id].data)[i].id in m
  {
  }

  lemma HeldAppend(m: Nodes, u: map<Uuid, Rect>, v: map<Uuid, Rect>, x: Uuid)
    ensures Held(m, u + v, x) <==> Held(m, u, x) || Held(m, v, x)
  {
    if s :| s in u && s in m && m[s].data.StackData? && m[s].data.zoomTarget == x { assert s in u + v; }
    if s :| s in v && s in m && m[s].data.StackData? && m[s].data.zoomTarget == x { assert s in u + v; }
  }

  lemma {:induction false} InUnion(parts: seq<map<Uuid, Rect>>, k: nat, j: nat, x: Uuid)
    requires j < k <= |parts| && x in parts[j]
    ensures x in Union(parts, k)
  {
    if j < k - 1 { InUnion(parts, k - 1, j, x); }
  }

  /** An earlier part and a later one: no leaf is in both, and the order of the parts is the
      order of their leaves. */
  lemma PartsOrder(m: Nodes, id: Uuid, strips: seq<Rect>, cell: CellSize, k: nat, x: Uuid, y: Uuid)
    requires Layoutable(m) && id in m && k < |Kids(m[id].data)| == |strips|
    requires x in Union(Parts(m, id, strips, cell), k) && y in Parts(m, id, strips, cell)[k]
    ensures x in m && y in m && x != y && Before(m, x, y) && !Before(m, y, x)
  {
    hide Acyclic, StacksActive, ZoomsInside, Parts, ParentLinks, Before, NoTwins;
    var kids, parts := Kids(m[id].data), Parts(m, id, strips, cell);
    var i := UnionFrom(parts, k, x);
    PartPlaced(m, id, strips, cell, i);
    PartPlaced(m, id, strips, cell, k);
    assert Parted(m, id, i, k, x, y) && Parted(m, id, k, i, y, x);
    if x == y { SameChild(m, id, i, k, x); }
    BeforeIff(m, id, i, k, x, y);
    BeforeIff(m, id, k, i, y, x);
  }

  lemma ReflectedAppend(m: Nodes, id: Uuid, strips: seq<Rect>, cell: CellSize, k: nat, a: Uuid, b: Uuid)
    requires Layoutable(m) && id in m && k < |Kids(m[id].data)| == |strips| && Leaflets(m, a, b)
    ensures var u, v := Union(Parts(m, id, strips, cell), k), Parts(m, id, strips, cell)[k];
      Reflected(m, u, a, b) + Reflected(m, v, a, b) == Reflected(m, u + v, a, b)
  {
    hide Acyclic, Linked, StacksActive, ZoomsInside, Parts, Before, Held, Redrawn, Union;
    var u, v := Union(Parts(m, id, strips, cell), k), Parts(m, id, strips, cell)[k];
    HeldAppend(m, u, v, a);
    HeldAppend(m, u, v, b);
    if Held(m, u, a) { PartsHold(m, id, strips, cell, k, a); }
    if Held(m, u, b) { PartsHold(m, id, strips, cell, k, b); }
    if Held(m, v, a) { PartHolds(m, id, strips, cell, k, a); }
    if Held(m, v, b) { PartHolds(m, id, strips, cell, k, b); }
    forall x, y | x in u && y in v ensures x != y && Before(m, x, y) && !Before(m, y, x) {
      PartsOrder(m, id, strips, cell, k, x, y);
    }
    RedrawnAppend(u, v, a, b, Held(m, u, a), Held(m, u, b), Held(m, v, a), Held(m, v, b), Before(m, a, b));
  }

  lemma NothingReflected(m: Nodes, a: Uuid, b: Uuid)
    requires Acyclic(m)
    ensures Reflected(m, map[], a, b) == map[]
  {
    hide Acyclic, Before;
    NothingHeld(m, a);
    NothingHeld(m, b);
  }

  lemma {:induction false} PartsReflected(m: Nodes, id: Uuid, strips: seq<Rect>, cell: CellSize, vs: seq<map<Uuid, Rect>>, k: nat, a: Uuid, b: Uuid)
    requires Layoutable(m) && id in m && k <= |Kids(m[id].data)| == |strips| == |vs| && Leaflets(m, a, b)
    requires forall i :: 0 <= i < |vs| ==> vs[i] == Reflected(m, Parts(m, id, strips, cell)[i], a, b)
    ensures Union(vs, k) == Reflected(m, Union(Parts(m, id, strips, cell), k), a, b)
  {
    hide Acyclic, Linked, StacksActive, ZoomsInside, Parts, Reflected;
    if k == 0 {
      NothingReflected(m, a, b);
    } else {
      PartsReflected(m, id, strips, cell, vs, k - 1, a, b);
      ReflectedAppend(m, id, strips, cell, k - 1, a, b);
    }
  }

  // ---------------------------------------------------------------- the mirrored layout

  lemma ExchangedOne(a: Uuid, b: Uuid, x: Uuid, r: Rect)
    ensures Exchanged(map[x := r], a, b) == map[Other(a, b, x) := r]
  {
  }

  lemma HeldOne(m: Nodes, id: Uuid, rect: Rect, x: Uuid)
    requires id in m && !(m[id].data.StackData? && m[id].data.zoomTarget == x)
    ensures !Held(m, map[id := rect], x)
  {
  }

  /** A node that is neither of the two and does not zoom on them is drawn as before. */
  lemma ReflectedOne(m: Nodes, id: Uuid, rect: Rect, out: map<Uuid, Rect>, a: Uuid, b: Uuid)
    requires Acyclic(m) && id in m && !ZoomedOn(m[id].data, a, b) && id != a && id != b && a != b
    requires (Held(m, out, a) ==> a in out) && (Held(m, out, b) ==> b in out)
    ensures map[id := rect] + Reflected(m, out, a, b) == Reflected(m, map[id := rect] + out, a, b)
  {
    hide Acyclic, Before, Held;
    HeldOne(m, id, rect, a);
    HeldOne(m, id, rect, b);
    HeldAppend(m, map[id := rect], out, a);
    HeldAppend(m, map[id := rect], out, b);
    ExchangedOne(a, b, id, rect);
    RedrawnAppend(map[id := rect], out, a, b, false, false, Held(m, out, a), Held(m, out, b), Before(m, a, b));
  }

  /** The layout of the mirrored forest is the reflected layout. */
  lemma {:induction false} MirrorRects(m: Nodes, n: Nodes, a: Uuid, b: Uuid, id: Uuid, rect: Rect, cell: CellSize)
    requires Layoutable(m) && Mirrored(m, n, a, b) && a != b && id in m && !IsEmpty(rect)
    ensures Ends(n, Other(a, b, id), rect, cell)
    ensures Rects(n, Other(a, b, id), rect, cell) == Reflected(m, Rects(m, id, rect, cell), a, b)
    decreases RankOf(m, id), 1
  {
    hide Acyclic, Linked, StacksActive, ZoomsInside, Reflected;
    var d := m[id].data;
    MirrorEnds(m, n, a, b, id, rect, cell);
    if IsLeaf(d) {
      MirrorLeaf(m, n, a, b, id, rect, cell);
    } else if d.ContainerData? {
      var strips := Strips(d, rect, cell);
      StripsSame(d, n[id].data, rect, cell);
      PartsReady(n, id, rect, cell);
      forall i | 0 <= i < |strips|
        ensures Parts(n, id, strips, cell)[i] == Reflected(m, Parts(m, id, strips, cell)[i], a, b)
      {
        MirrorPart(m, n, a, b, id, strips, cell, i);
      }
      PartsReflected(m, id, strips, cell, Parts(n, id, strips, cell), |strips|, a, b);
      MirrorContainer(m, n, a, b, id, rect, cell);
    } else if ZoomedOn(d, a, b) {
      MirrorHolder(m, n, a, b, id, rect, cell);
    } else {
      if Shown(d) != NIL {
        ShownBelow(m, id);
        MirrorRects(m, n, a, b, Shown(d), rect, cell);
      }
      MirrorStack(m, n, a, b, id, rect, cell);
    }
  }

  lemma {:induction false} MirrorPart(m: Nodes, n: Nodes, a: Uuid, b: Uuid, id: Uuid, strips: seq<Rect>, cell: CellSize, i: nat)
    requires Layoutable(m) && Mirrored(m, n, a, b) && a != b && id in m && m[id].data.ContainerData?
    requires i < |Kids(m[id].data)| == |strips| && PartsEnd(n, id, strips, cell)
    ensures Parts(n, id, strips, cell)[i] == Reflected(m, Parts(m, id, strips, cell)[i], a, b)
    decreases RankOf(m, id), 0
  {
    hide Acyclic, Linked, StacksActive, ZoomsInside, Reflected;
    var kid := Kids(m[id].data)[i].id;
    assert Kids(n[id].data)[i].id == Other(a, b, kid);
    ChildBelow(m, id, i);
    if IsEmpty(strips[i]) { NothingReflected(m, a, b); } else { MirrorRects(m, n, a, b, kid, strips[i], cell); }
  }

  lemma MirrorLeaf(m: Nodes, n: Nodes, a: Uuid, b: Uuid, id: Uuid, rect: Rect, cell: CellSize)
    requires Layoutable(m) && Mirrored(m, n, a, b) && id in m && IsLeaf(m[id].data) && Ends(n, Other(a, b, id), rect, cell)
    ensures Rects(n, Other(a, b, id), rect, cell) == Reflected(m, Rects(m, id, rect, cell), a, b)
  {
    hide Before;
    LeafRects(m, id, rect, cell);
    LeafEnds(n, Other(a, b, id), rect, cell, 1);
    HeldOne(m, id, rect, a);
    HeldOne(m, id, rect, b);
    hide Held, Acyclic;
    ExchangedOne(a, b, id, rect);
  }

  lemma MirrorContainer(m: Nodes, n: Nodes, a: Uuid, b: Uuid, id: Uuid, rect: Rect, cell: CellSize)
    requires Layoutable(m) && Leaflets(m, a, b) && id in m && id in n && Ends(n, id, rect, cell)
    requires m[id].data.ContainerData? && n[id].data.ContainerData?
    requires Strips(n[id].data, rect, cell) == Strips(m[id].data, rect, cell)
    requires var strips := Strips(m[id].data, rect, cell);
      PartsEnd(n, id, strips, cell) &&
      Union(Parts(n, id, strips, cell), |strips|) == Reflected(m, Union(Parts(m, id, strips, cell), |strips|), a, b)
    ensures Rects(n, id, rect, cell) == Reflected(m, Rects(m, id, rect, cell), a, b)
  {
    hide Acyclic, Linked, StacksActive, ZoomsInside, Reflected, Strips, Held, Union;
    var strips := Strips(m[id].data, rect, cell);
    var out := Union(Parts(m, id, strips, cell), |strips|);
    if Held(m, out, a) { PartsHold(m, id, strips, cell, |strips|, a); }
    if Held(m, out, b) { PartsHold(m, id, strips, cell, |strips|, b); }
    ReflectedOne(m, id, rect, out, a, b);
  }

  lemma MirrorStack(m: Nodes, n: Nodes, a: Uuid, b: Uuid, id: Uuid, rect: Rect, cell: CellSize)
    requires Layoutable(m) && Mirrored(m, n, a, b) && a != b && id in m && m[id].data.StackData? && !ZoomedOn(m[id].data, a, b)
    requires Ends(n, id, rect, cell) && !IsEmpty(rect)
    requires Shown(m[id].data) != NIL ==>
      && Shown(m[id].data) in m && Ends(n, Shown(n[id].data), rect, cell)
      && Rects(n, Shown(n[id].data), rect, cell) == Reflected(m, Rects(m, Shown(m[id].data), rect, cell), a, b)
    ensures Rects(n, id, rect, cell) == Reflected(m, Rects(m, id, rect, cell), a, b)
  {
    hide Acyclic, Linked, StacksActive, ZoomsInside, Reflected, Held, Ends;
    NilIsNoLeaf(m, a, b);
    var shown := Shown(m[id].data);
    if shown != NIL {
      var out := Rects(m, shown, rect, cell);
      if Held(m, out, a) { HeldSeen(m, shown, rect, cell, a); }
      if Held(m, out, b) { HeldSeen(m, shown, rect, cell, b); }
      ReflectedOne(m, id, rect, out, a, b);
    } else {
      NothingHeld(m, a);
      NothingHeld(m, b);
      ReflectedOne(m, id, rect, map[], a, b);
      NothingReflected(m, a, b);
      assert map[id := rect] + map[] == map[id := rect];
    }
  }

  /** A Stack that zooms on one of the two goes on showing it. */
  lemma MirrorHolder(m: Nodes, n: Nodes, a: Uuid, b: Uuid, id: Uuid, rect: Rect, cell: CellSize)
    requires Layoutable(m) && Mirrored(m, n, a, b) && a != b && id in m && ZoomedOn(m[id].data, a, b) && Ends(n, id, rect, cell)
    ensures Rects(n, id, rect, cell) == Reflected(m, Rects(m, id, rect, cell), a, b)
  {
    hide Acyclic, Linked, StacksActive, ZoomsInside, Before;
    var x := m[id].data.zoomTarget;
    StillHolds(m, n, a, b, id);
    var out := Rects(m, id, rect, cell);
    NilIsNoLeaf(m, a, b);
    LeafRects(m, x, rect, cell);
    LeafEnds(n, x, rect, cell, 1);
    assert out == map[id := rect] + map[x := rect];
    assert id in out;
  }

  /** Within one Stack the swap changes an order that layout never looks at. */
  ghost predicate SameSight(m: Nodes, n: Nodes) {
    n.Keys == m.Keys && forall x :: x in m ==>
      if m[x].data.StackData? then n[x].data.StackData? && Shown(n[x].data) == Shown(m[x].data)
      else n[x].data == m[x].data
  }

  lemma {:induction false} SightRects(m: Nodes, n: Nodes, id: Uuid, rect: Rect, cell: CellSize)
    requires Layoutable(m) && Layoutable(n) && SameSight(m, n) && id in m
    ensures Rects(n, id, rect, cell) == Rects(m, id, rect, cell)
    decreases RankOf(m, id)
  {
    hide Acyclic, Linked, StacksActive, ZoomsInside;
    var d := m[id].data;
    if d.ContainerData? {
      var strips := Strips(d, rect, cell);
      forall i | 0 <= i < |strips| ensures Parts(n, id, strips, cell)[i] == Parts(m, id, strips, cell)[i] {
        ChildBelow(m, id, i);
        SightRects(m, n, Kids(d)[i].id, strips[i], cell);
      }
      assert Parts(n, id, strips, cell) == Parts(m, id, strips, cell);
    } else if d.StackData? && Shown(d) != NIL {
      ShownBelow(m, id);
      SightRects(m, n, Shown(d), rect, cell);
    }
  }

  lemma SwapInStackUnseen(m: Nodes, a: Uuid, b: Uuid)
    requires LeafPair(m, a, b) && ShareStack(m, a, b)
    ensures SameSight(m, Swapped(m, a, b))
  {
    hide Acyclic, ZoomsInside, ZoomsLive, ParentLinks, NoTwins, StacksActive, Contains, Renamed;
    var n := Swapped(m, a, b);
    forall x | x in m && !m[x].data.StackData? ensures n[x].data == m[x].data {
      if m[x].data.ContainerData? { OtherKidsStay(m, a, b, x); }
    }
  }

  lemma OtherKidsStay(m: Nodes, a: Uuid, b: Uuid, x: Uuid)
    requires ChildLinks(m) && x in m && a in m && b in m && m[a].parent != x && m[b].parent != x
    ensures Renamed(Kids(m[x].data), a, b) == Kids(m[x].data)
  {
    forall i | 0 <= i < |Kids(m[x].data)| ensures Renamed(Kids(m[x].data), a, b)[i] == Kids(m[x].data)[i] {
      assert m[Kids(m[x].data)[i].id].parent == x;
    }
  }

  /** A Stack that zooms on one of two leaves in one Stack holds both. */
  lemma SharedHoldsBoth(m: Nodes, a: Uuid, b: Uuid)
    requires LeafPair(m, a, b) && ShareStack(m, a, b)
    ensures ZoomsHoldBoth(m, a, b)
  {
  }

  /** The layout after swapping any two Terminals.  It ends.  If it starts at one of them or
      both stand in one Stack it does not change; otherwise exactly their two entries change
      places, but for a leaf that a visible Stack zooms on, which stays. */
  lemma SwapExchangesLayout(m: Nodes, a: Uuid, b: Uuid, start: Uuid, window: Rect, cell: CellSize)
    requires LeafPair(m, a, b)
    ensures Inv(Swapped(m, a, b)) && LayoutEnds(Swapped(m, a, b), start, window, cell)
    ensures var out := ComputeRects(m, start, window, cell);
      ComputeRects(Swapped(m, a, b), start, window, cell) ==
      if start == a || start == b || ShareStack(m, a, b) then out else Reflected(m, out, a, b)
  {
    hide ChildLinks, ParentLinks, NoTwins, StacksActive, ZoomsLive, Acyclic, ZoomsInside, ZoomsHoldBoth, Reflected;
    SwapKeepsInv(m, a, b);
    var n := Swapped(m, a, b);
    if start !in m || IsEmpty(window) {
      NothingReflected(m, a, b);
      AbsentEnds(n, start, window, cell);
    } else if start == a || start == b {
      LeafRects(m, start, window, cell);
      LeafEnds(n, start, window, cell, 1);
    } else if ShareStack(m, a, b) {
      SharedHoldsBoth(m, a, b);
      SwapLayoutable(m, a, b);
      LayoutableEnds(n, start, window, cell);
      SwapInStackUnseen(m, a, b);
      SightRects(m, n, start, window, cell);
    } else {
      SwapMirrors(m, a, b);
      MirrorRects(m, n, a, b, start, window, cell);
    }
  }

  /** Behind a visible Stack's zoom on a leaf no other leaf is seen. */
  lemma {:induction false} BehindZoom(m: Nodes, id: Uuid, rect: Rect, cell: CellSize, s: Uuid, x: Uuid, y: Uuid)
    requires Layoutable(m) && id in m && !IsEmpty(rect) && s in Rects(m, id, rect, cell) && s in m && m[s].data.StackData? && m[s].data.zoomTarget == x
    requires x in m && y in m && IsLeaf(m[x].data) && IsLeaf(m[y].data) && x != y && Contains(m, s, y)
    ensures y !in Rects(m, id, rect, cell)
    decreases RankOf(m, id)
  {
    hide Acyclic, Linked, StacksActive, ZoomsInside;
    var d := m[id].data;
    if d.ContainerData? && y in Rects(m, id, rect, cell) {
      var strips := Strips(d, rect, cell);
      var i := UnionFrom(Parts(m, id, strips, cell), |strips|, s);
      var j := UnionFrom(Parts(m, id, strips, cell), |strips|, y);
      PartPlaced(m, id, strips, cell, i);
      PartPlaced(m, id, strips, cell, j);
      ContainsTransitive(m, Kids(d)[i].id, s, y);
      SameChild(m, id, i, j, y);
      ChildBelow(m, id, i);
      BehindZoom(m, Kids(d)[i].id, strips[i], cell, s, x, y);
    } else if d.StackData? && Shown(d) != NIL {
      ShownBelow(m, id);
      if id == s { ZoomShows(m, s, x, rect, cell); } else { BehindZoom(m, Shown(d), rect, cell, s, x, y); }
    }
  }

  lemma ZoomShows(m: Nodes, s: Uuid, x: Uuid, rect: Rect, cell: CellSize)
    requires Layoutable(m) && s in m && m[s].data.StackData? && m[s].data.zoomTarget == x && x in m && IsLeaf(m[x].data)
    ensures Rects(m, s, rect, cell) == map[s := rect] + map[x := rect]
  {
    NilIsNoLeaf(m, x, x);
    LeafRects(m, x, rect, cell);
  }

  /** Where every Stack that zooms on one of the two holds both, a visible such Stack leaves
      the layout as it is, and without one exactly the two entries change places. */
  lemma SwapBehindZooms(m: Nodes, a: Uuid, b: Uuid, start: Uuid, window: Rect, cell: CellSize)
    requires LeafPair(m, a, b) && ZoomsHoldBoth(m, a, b) && start != a && start != b && !ShareStack(m, a, b)
    ensures var out := ComputeRects(m, start, window, cell);
      && LayoutEnds(Swapped(m, a, b), start, window, cell)
      && ComputeRects(Swapped(m, a, b), start, window, cell) == if Held(m, out, a) || Held(m, out, b) then out else Exchanged(out, a, b)
  {
    hide Acyclic, Linked, StacksActive, ZoomsInside, Before;
    SwapExchangesLayout(m, a, b, start, window, cell);
    if start in m && !IsEmpty(window) {
      var out := Rects(m, start, window, cell);
      if s :| s in out && s in m && m[s].data.StackData? && m[s].data.zoomTarget == a { BehindZoom(m, start, window, cell, s, a, b); }
      if s :| s in out && s in m && m[s].data.StackData? && m[s].data.zoomTarget == b { BehindZoom(m, start, window, cell, s, b, a); }
    }
  }

  lemma AbsentEnds(n: Nodes, start: Uuid, window: Rect, cell: CellSize)
    requires start !in n || IsEmpty(window)
    ensures LayoutEnds(n, start, window, cell) && ComputeRects(n, start, window, cell) == map[]
  {
    assert start !in n ==> EndsIn(n, start, window, cell, 1);
  }

  // ---------------------------------------------------------------- the leaf order

  function Concat(parts: seq<seq<Uuid>>, k: nat): seq<Uuid>
    requires k <= |parts|
  {
    if k == 0 then [] else Concat(parts, k - 1) + parts[k - 1]
  }

  ghost predicate Walkable(m: Nodes) {
    Linked(m) && Acyclic(m) && StacksActive(m)
  }

  /** The Terminals below `id` in traversal order. */
  ghost function Leaves(m: Nodes, id: Uuid, onlyActive: bool): seq<Uuid>
    requires Walkable(m)
    decreases RankOf(m, id), 1
  {
    if id !in m then []
    else
      match m[id].data
      case TerminalData => [id]
      case TabBarData(_) => []
      case ContainerData(_, kids) => Concat(LeafLists(m, id, onlyActive), |kids|)
      case StackData(kids, active, _) =>
        if !onlyActive then Concat(LeafLists(m, id, onlyActive), |kids|)
        else if active == NIL then []
        else
          assert RankOf(m, active) < RankOf(m, id) by { ActiveBelow(m, id); }
          Leaves(m, active, onlyActive)
  }

  lemma ActiveBelow(m: Nodes, id: Uuid)
    requires Walkable(m) && id in m && m[id].data.StackData? && m[id].data.activeChild != NIL
    ensures m[id].data.activeChild in m && m[m[id].data.activeChild].parent == id
    ensures RankOf(m, m[id].data.activeChild) < RankOf(m, id)
  {
    assert Kids(m[id].data) == m[id].data.children;
    ChildBelow(m, id, IndexOf(Kids(m[id].data), m[id].data.activeChild));
  }

  ghost function LeafLists(m: Nodes, id: Uuid, onlyActive: bool): (r: seq<seq<Uuid>>)
    requires Walkable(m) && id in m
    ensures |r| == |Kids(m[id].data)|
    decreases RankOf(m, id), 0
  {
    seq(|Kids(m[id].data)|, i requires 0 <= i < |Kids(m[id].data)| =>
      ChildBelow(m, id, i);
      Leaves(m, Kids(m[id].data)[i].id, onlyActive))
  }

  function OthersIn(s: seq<Uuid>, a: Uuid, b: Uuid): (r: seq<Uuid>)
    ensures |r| == |s|
    ensures forall i :: 0 <= i < |s| ==> r[i] == Other(a, b, s[i])
  {
    seq(|s|, i requires 0 <= i < |s| => Other(a, b, s[i]))
  }

  lemma {:induction false} ConcatOthers(us: seq<seq<Uuid>>, vs: seq<seq<Uuid>>, a: Uuid, b: Uuid, k: nat)
    requires k <= |us| == |vs|
    requires forall i :: 0 <= i < k ==> vs[i] == OthersIn(us[i], a, b)
    ensures Concat(vs, k) == OthersIn(Concat(us, k), a, b)
  {
    if k > 0 { ConcatOthers(us, vs, a, b, k - 1); }
  }

  /** A swap of two Terminals exchanges exactly their two places in the traversal
      of all leaves. */
  lemma {:induction false} SwapExchangesLeaves(m: Nodes, a: Uuid, b: Uuid, id: Uuid)
    requires Walkable(m) && a in m && b in m && id in m && Walkable(Swapped(m, a, b))
    requires m[a].data.TerminalData? && m[b].data.TerminalData?
    ensures Leaves(Swapped(m, a, b), Other(a, b, id), false) == OthersIn(Leaves(m, id, false), a, b)
    decreases RankOf(m, id)
  {
    hide Acyclic, Linked, StacksActive;
    var n, d := Swapped(m, a, b), m[id].data;
    if IsBranch(d) {
      assert id != a && id != b;
      assert Kids(n[id].data) == Renamed(Kids(d), a, b);
      forall i | 0 <= i < |Kids(d)| ensures LeafLists(n, id, false)[i] == OthersIn(LeafLists(m, id, false)[i], a, b) {
        ChildBelow(m, id, i);
        SwapExchangesLeaves(m, a, b, Kids(d)[i].id);
      }
      ConcatOthers(LeafLists(m, id, false), LeafLists(n, id, false), a, b, |Kids(d)|);
    }
  }

  lemma {:induction false} ConcatFrom(parts: seq<seq<Uuid>>, k: nat, j: nat) returns (i: nat, o: nat)
    requires k <= |parts| && j < |Concat(parts, k)|
    ensures i < k && o < |parts[i]| && Concat(parts, k)[j] == parts[i][o]
    ensures j == |Concat(parts, i)| + o
  {
    if j < |Concat(parts, k - 1)| { i, o := ConcatFrom(parts, k - 1, j); }
    else { i, o := k - 1, j - |Concat(parts, k - 1)|; }
  }

  /** Every listed leaf is a Terminal below the start. */
  lemma {:induction false} LeavesBelow(m: Nodes, id: Uuid, onlyActive: bool, j: nat)
    requires Walkable(m) && id in m && j < |Leaves(m, id, onlyActive)|
    ensures var x := Leaves(m, id, onlyActive)[j];
      x in m && m[x].data.TerminalData? && Contains(m, id, x)
    decreases RankOf(m, id)
  {
    var d := m[id].data;
    assert Contains(m, id, id);
    if d.StackData? && onlyActive {
      ActiveBelow(m, id);
      LeavesBelow(m, d.activeChild, onlyActive, j);
      ContainsTransitive(m, id, d.activeChild, Leaves(m, id, onlyActive)[j]);
    } else if IsBranch(d) {
      var i, o := ConcatFrom(LeafLists(m, id, onlyActive), |Kids(d)|, j);
      ChildBelow(m, id, i);
      LeavesBelow(m, Kids(d)[i].id, onlyActive, o);
      ContainsTransitive(m, id, Kids(d)[i].id, Leaves(m, id, onlyActive)[j]);
    }
  }

  lemma KidAlive(m: Nodes, id: Uuid, i: nat)
    requires Linked(m) && id in m && i < |Kids(m[id].data)|
    ensures Kids(m[id].data)[i].id in m
  {
  }

  lemma BelowOneChild(m: Nodes, id: Uuid, i: nat, j: nat, x: Uuid)
    requires Acyclic(m) && Linked(m) && id in m && i < |Kids(m[id].data)| && j < |Kids(m[id].data)| && i != j && x in m
    requires Contains(m, Kids(m[id].data)[i].id, x)
    ensures !Contains(m, Kids(m[id].data)[j].id, x)
  {
    SiblingsDisjoint(m, Kids(m[id].data)[i].id, Kids(m[id].data)[j].id, x);
  }

  /** No leaf is listed twice. */
  lemma {:induction false} LeavesDistinct(m: Nodes, id: Uuid, onlyActive: bool, j: nat, k: nat)
    requires Walkable(m) && id in m && j < k < |Leaves(m, id, onlyActive)|
    ensures Leaves(m, id, onlyActive)[j] != Leaves(m, id, onlyActive)[k]
    decreases RankOf(m, id)
  {
    hide Acyclic, ChildLinks, ParentLinks, NoTwins, StacksActive, Contains;
    var d := m[id].data;
    if d.StackData? && onlyActive {
      ActiveBelow(m, id);
      LeavesDistinct(m, d.activeChild, onlyActive, j, k);
    } else {
      var i, o := ConcatFrom(LeafLists(m, id, onlyActive), |Kids(d)|, j);
      var i', o' := ConcatFrom(LeafLists(m, id, onlyActive), |Kids(d)|, k);
      ChildBelow(m, id, i);
      KidAlive(m, id, i);
      KidAlive(m, id, i');
      if i == i' {
        LeavesDistinct(m, Kids(d)[i].id, onlyActive, o, o');
      } else {
        LeavesBelow(m, Kids(d)[i].id, onlyActive, o);
        LeavesBelow(m, Kids(d)[i'].id, onlyActive, o');
        BelowOneChild(m, id, i, i', Leaves(m, id, onlyActive)[j]);
      }
    }
  }
}
