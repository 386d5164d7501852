/** Layout as a function of the forest: which nodes are visible and where
    (src/LayoutTree.cpp, layoutSubtree and computeRectsFrom). */
module Layout {
  import opened Forest
  import opened Ancestry
  import opened SpaceDivision

  datatype Rect = Rect(x: int, y: int, w: int, h: int)

  datatype CellSize = CellSize(w: int, h: int)

  predicate IsEmpty(r: Rect) { r.w <= 0 || r.h <= 0 }

  /** The pixel whose upper left corner is (px, py) belongs to the rectangle. */
  predicate Covers(r: Rect, px: int, py: int) {
    r.x <= px < r.x + r.w && r.y <= py < r.y + r.h
  }

  predicate Within(inner: Rect, outer: Rect) {
    && outer.x <= inner.x && inner.x + inner.w <= outer.x + outer.w
    && outer.y <= inner.y && inner.y + inner.h <= outer.y + outer.h
  }

  /** Every zoom override points below its own Stack. */
  ghost predicate ZoomsInside(m: Nodes)
    requires Acyclic(m)
  {
    forall p :: p in m && m[p].data.StackData? && m[p].data.zoomTarget != NIL ==>
      && m[p].data.zoomTarget in m
      && m[p].data.zoomTarget != p
      && Contains(m, p, m[p].data.zoomTarget)
  }

  ghost predicate Layoutable(m: Nodes) {
    Acyclic(m) && Linked(m) && StacksActive(m) && ZoomsInside(m)
  }

  /** The one node that gets a Stack's rectangle, or nil. */
  function Shown(d: NodeData): Uuid
    requires d.StackData?
  {
    if d.zoomTarget != NIL then d.zoomTarget else d.activeChild
  }

  function Extent(dir: SplitDir, r: Rect): int {
    if dir.Horizontal? then r.w else r.h
  }

  function CellAlong(dir: SplitDir, cell: CellSize): (c: int)
    ensures c > 0
  {
    var c := if dir.Horizontal? then cell.w else cell.h;
    if c <= 0 then 1 else c
  }

  function Sizes(d: NodeData, rect: Rect, cell: CellSize): (r: seq<int>)
    requires d.ContainerData?
    ensures |r| == |d.children|
  {
    Divide(d.children, Extent(d.dir, rect), CellAlong(d.dir, cell))
  }

  /** The i-th strip of `rect`, cut by `sizes` along `dir`. */
  function Strip(dir: SplitDir, rect: Rect, sizes: seq<int>, i: nat): Rect
    requires i < |sizes|
  {
    if dir.Horizontal? then Rect(rect.x + Prefix(sizes, i), rect.y, sizes[i], rect.h)
    else Rect(rect.x, rect.y + Prefix(sizes, i), rect.w, sizes[i])
  }

  /** The rectangles a Container offers its children. */
  function Strips(d: NodeData, rect: Rect, cell: CellSize): (r: seq<Rect>)
    requires d.ContainerData?
    ensures |r| == |d.children|
  {
    var sizes := Sizes(d, rect, cell);
    seq(|d.children|, i requires 0 <= i < |d.children| => Strip(d.dir, rect, sizes, i))
  }

  ghost function RankOf(m: Nodes, id: Uuid): nat
    requires Acyclic(m)
  {
    if id in m then Rank(m)[id] else 0
  }

  // ---------------------------------------------------------------- when layout ends

  /** Laying out `id` in `rect` goes at most `n` calls deep. */
  ghost predicate EndsIn(m: Nodes, id: Uuid, rect: Rect, cell: CellSize, n: nat)
    decreases n, 0
  {
    && n > 0
    && (id in m ==>
          match m[id].data
          case ContainerData(_, kids) => PartsEndIn(m, kids, Strips(m[id].data, rect, cell), cell, n - 1)
          case StackData(_, _, _) => Shown(m[id].data) == NIL || EndsIn(m, Shown(m[id].data), rect, cell, n - 1)
          case _ => true)
  }

  ghost predicate PartsEndIn(m: Nodes, kids: seq<ChildSlot>, strips: seq<Rect>, cell: CellSize, n: nat)
    requires |kids| == |strips|
    decreases n, 1
  {
    forall i :: 0 <= i < |kids| && !IsEmpty(strips[i]) ==> EndsIn(m, kids[i].id, strips[i], cell, n)
  }

  /** Laying out `id` in `rect` comes to an end. */
  ghost predicate Ends(m: Nodes, id: Uuid, rect: Rect, cell: CellSize) {
    exists n: nat :: EndsIn(m, id, rect, cell, n)
  }

  lemma {:induction false} DeeperEnds(m: Nodes, id: Uuid, rect: Rect, cell: CellSize, n: nat, k: nat)
    requires EndsIn(m, id, rect, cell, n) && n <= k
    ensures EndsIn(m, id, rect, cell, k)
    decreases n, 0
  {
    hide PartsEndIn, Strips;
    if id in m {
      match m[id].data
      case ContainerData(_, kids) => DeeperParts(m, kids, Strips(m[id].data, rect, cell), cell, n - 1, k - 1);
      case StackData(_, _, _) =>
        if Shown(m[id].data) != NIL { DeeperEnds(m, Shown(m[id].data), rect, cell, n - 1, k - 1); }
      case _ =>
    }
  }

  lemma {:induction false} DeeperParts(m: Nodes, kids: seq<ChildSlot>, strips: seq<Rect>, cell: CellSize, n: nat, k: nat)
    requires |kids| == |strips| && PartsEndIn(m, kids, strips, cell, n) && n <= k
    ensures PartsEndIn(m, kids, strips, cell, k)
    decreases n, 1
  {
    hide EndsIn;
    forall i | 0 <= i < |kids| && !IsEmpty(strips[i]) ensures EndsIn(m, kids[i].id, strips[i], cell, k) {
      DeeperEnds(m, kids[i].id, strips[i], cell, n, k);
    }
  }

  ghost predicate IsDepth(m: Nodes, id: Uuid, rect: Rect, cell: CellSize, n: nat) {
    EndsIn(m, id, rect, cell, n) && (n == 0 || !EndsIn(m, id, rect, cell, n - 1))
  }

  lemma {:induction false} DepthExists(m: Nodes, id: Uuid, rect: Rect, cell: CellSize, n: nat)
    requires EndsIn(m, id, rect, cell, n)
    ensures exists k: nat :: IsDepth(m, id, rect, cell, k)
  {
    hide EndsIn;
    if n > 0 && EndsIn(m, id, rect, cell, n - 1) {
      DepthExists(m, id, rect, cell, n - 1);
    } else {
      assert IsDepth(m, id, rect, cell, n);
    }
  }

  lemma SomeDepth(m: Nodes, id: Uuid, rect: Rect, cell: CellSize)
    requires Ends(m, id, rect, cell)
    ensures exists k: nat :: IsDepth(m, id, rect, cell, k)
  {
    hide EndsIn, IsDepth;
    var n: nat :| EndsIn(m, id, rect, cell, n);
    DepthExists(m, id, rect, cell, n);
  }

  /** How many calls deep it goes, where it ends. */
  ghost function Depth(m: Nodes, id: Uuid, rect: Rect, cell: CellSize): (n: nat)
    ensures Ends(m, id, rect, cell) ==> IsDepth(m, id, rect, cell, n)
  {
    if !Ends(m, id, rect, cell) then 0
    else
      SomeDepth(m, id, rect, cell);
      var n: nat :| IsDepth(m, id, rect, cell, n);
      n
  }

  lemma DepthBelow(m: Nodes, id: Uuid, rect: Rect, cell: CellSize, n: nat)
    requires EndsIn(m, id, rect, cell, n)
    ensures Ends(m, id, rect, cell) && Depth(m, id, rect, cell) <= n
  {
    hide EndsIn;
    var d := Depth(m, id, rect, cell);
    if d > n { DeeperEnds(m, id, rect, cell, n, d - 1); }
  }

  /** With the zooms inside their Stacks every layout ends. */
  lemma {:induction false} LayoutableEnds(m: Nodes, id: Uuid, rect: Rect, cell: CellSize)
    requires Layoutable(m)
    ensures EndsIn(m, id, rect, cell, RankOf(m, id) + 1) && Ends(m, id, rect, cell)
    decreases RankOf(m, id)
  {
    hide Acyclic, Linked, StacksActive, ZoomsInside;
    if id in m {
      match m[id].data
      case ContainerData(_, kids) =>
        var strips := Strips(m[id].data, rect, cell);
        hide Strips;
        assert Kids(m[id].data) == kids;
        forall i | 0 <= i < |kids| && !IsEmpty(strips[i]) ensures EndsIn(m, kids[i].id, strips[i], cell, RankOf(m, id)) {
          ChildBelow(m, id, i);
          LayoutableEnds(m, kids[i].id, strips[i], cell);
          DeeperEnds(m, kids[i].id, strips[i], cell, RankOf(m, kids[i].id) + 1, RankOf(m, id));
        }
      case StackData(_, _, _) =>
        var target := Shown(m[id].data);
        if target != NIL {
          ShownBelow(m, id);
          LayoutableEnds(m, target, rect, cell);
          DeeperEnds(m, target, rect, cell, RankOf(m, target) + 1, RankOf(m, id));
        }
      case _ =>
    }
  }

  /** The layout of every child that gets room ends. */
  ghost predicate PartsEnd(m: Nodes, id: Uuid, strips: seq<Rect>, cell: CellSize)
    requires id in m && |Kids(m[id].data)| == |strips|
  {
    forall i :: 0 <= i < |strips| && !IsEmpty(strips[i]) ==> Ends(m, Kids(m[id].data)[i].id, strips[i], cell)
  }

  ghost function PartDepth(m: Nodes, id: Uuid, strips: seq<Rect>, cell: CellSize, i: nat): nat
    requires id in m && i < |Kids(m[id].data)| == |strips|
  {
    if IsEmpty(strips[i]) then 0 else Depth(m, Kids(m[id].data)[i].id, strips[i], cell)
  }

  ghost function Deepest(m: Nodes, id: Uuid, strips: seq<Rect>, cell: CellSize, k: nat): (d: nat)
    requires id in m && k <= |Kids(m[id].data)| == |strips|
    ensures forall i :: 0 <= i < k ==> PartDepth(m, id, strips, cell, i) <= d
    ensures d == 0 || exists i :: 0 <= i < k && d == PartDepth(m, id, strips, cell, i)
  {
    if k == 0 then 0 else Max(Deepest(m, id, strips, cell, k - 1), PartDepth(m, id, strips, cell, k - 1))
  }

  lemma PartsBounded(m: Nodes, id: Uuid, strips: seq<Rect>, cell: CellSize, n: nat)
    requires id in m && |Kids(m[id].data)| == |strips| && PartsEndIn(m, Kids(m[id].data), strips, cell, n)
    ensures PartsEnd(m, id, strips, cell) && Deepest(m, id, strips, cell, |strips|) <= n
  {
    hide EndsIn, Depth;
    forall i | 0 <= i < |strips|
      ensures PartDepth(m, id, strips, cell, i) <= n && (!IsEmpty(strips[i]) ==> Ends(m, Kids(m[id].data)[i].id, strips[i], cell))
    {
      if !IsEmpty(strips[i]) { DepthBelow(m, Kids(m[id].data)[i].id, strips[i], cell, n); }
    }
    hide PartDepth;
  }

  lemma PartsReady(m: Nodes, id: Uuid, rect: Rect, cell: CellSize)
    requires Layoutable(m) || Ends(m, id, rect, cell)
    requires id in m && m[id].data.ContainerData?
    ensures var strips := Strips(m[id].data, rect, cell);
      PartsEnd(m, id, strips, cell) && Deepest(m, id, strips, cell, |strips|) < Depth(m, id, rect, cell)
  {
    hide Layoutable, Strips, PartsEndIn, PartsEnd, Deepest;
    if Layoutable(m) { LayoutableEnds(m, id, rect, cell); }
    PartsBounded(m, id, Strips(m[id].data, rect, cell), cell, Depth(m, id, rect, cell) - 1);
  }

  lemma ShownReady(m: Nodes, id: Uuid, rect: Rect, cell: CellSize)
    requires Layoutable(m) || Ends(m, id, rect, cell)
    requires id in m && m[id].data.StackData? && Shown(m[id].data) != NIL
    ensures Ends(m, Shown(m[id].data), rect, cell)
    ensures Depth(m, Shown(m[id].data), rect, cell) < Depth(m, id, rect, cell)
  {
    hide Layoutable;
    if Layoutable(m) { LayoutableEnds(m, id, rect, cell); }
    DepthBelow(m, Shown(m[id].data), rect, cell, Depth(m, id, rect, cell) - 1);
  }

  // ---------------------------------------------------------------- the layout

  /** The rectangles of the nodes visible below `id` when it is given `rect`. */
  ghost function Rects(m: Nodes, id: Uuid, rect: Rect, cell: CellSize): map<Uuid, Rect>
    requires Layoutable(m) || Ends(m, id, rect, cell)
    decreases Depth(m, id, rect, cell), 1
  {
    if id !in m then map[]
    else
      match m[id].data
      case ContainerData(_, kids) =>
        PartsReady(m, id, rect, cell);
        map[id := rect] + Union(Parts(m, id, Strips(m[id].data, rect, cell), cell), |kids|)
      case StackData(_, _, _) =>
        var target := Shown(m[id].data);
        if target == NIL then map[id := rect]
        else
          ShownReady(m, id, rect, cell);
          map[id := rect] + Rects(m, target, rect, cell)
      case _ => map[id := rect]
  }

  /** What each child of a Container contributes; an empty strip hides the child. */
  ghost function Parts(m: Nodes, id: Uuid, strips: seq<Rect>, cell: CellSize): (r: seq<map<Uuid, Rect>>)
    requires id in m && |Kids(m[id].data)| == |strips|
    requires Layoutable(m) || PartsEnd(m, id, strips, cell)
    ensures |r| == |strips|
    decreases Deepest(m, id, strips, cell, |strips|), 2
  {
    seq(|strips|, i requires 0 <= i < |strips| =>
      assert PartDepth(m, id, strips, cell, i) <= Deepest(m, id, strips, cell, |strips|);
      if IsEmpty(strips[i]) then map[] else Rects(m, Kids(m[id].data)[i].id, strips[i], cell))
  }

  /** The first `k` maps written one after the other. */
  function Union(parts: seq<map<Uuid, Rect>>, k: nat): map<Uuid, Rect>
    requires k <= |parts|
  {
    if k == 0 then map[] else Union(parts, k - 1) + parts[k - 1]
  }

  /** Every entry of a union comes from one of the parts. */
  lemma {:induction false} UnionFrom(parts: seq<map<Uuid, Rect>>, k: nat, x: Uuid) returns (i: nat)
    requires k <= |parts| && x in Union(parts, k)
    ensures i < k && x in parts[i] && Union(parts, k)[x] == parts[i][x]
  {
    if x in parts[k - 1] { i := k - 1; } else { i := UnionFrom(parts, k - 1, x); }
  }

  /** An entry that no later part overwrites stays. */
  lemma {:induction false} UnionKept(parts: seq<map<Uuid, Rect>>, k: nat, i: nat, x: Uuid)
    requires i < k <= |parts| && x in parts[i]
    requires forall j :: i < j < k ==> x !in parts[j]
    ensures x in Union(parts, k) && Union(parts, k)[x] == parts[i][x]
  {
    if i < k - 1 { UnionKept(parts, k - 1, i, x); }
  }

  lemma ShownBelow(m: Nodes, id: Uuid)
    requires Layoutable(m) && id in m && m[id].data.StackData? && Shown(m[id].data) != NIL
    ensures Shown(m[id].data) in m
    ensures Shown(m[id].data) != id && Contains(m, id, Shown(m[id].data))
    ensures RankOf(m, Shown(m[id].data)) < RankOf(m, id)
  {
    var d := m[id].data;
    if d.zoomTarget == NIL {
      assert Kids(d) == d.children;
      var i := IndexOf(Kids(d), d.activeChild);
      ChildBelow(m, id, i);
    }
    ContainsInForest(m, id, Shown(d));
  }

  /** Whether the whole layout ends: from a nil start or in an empty window it does. */
  ghost predicate LayoutEnds(m: Nodes, start: Uuid, window: Rect, cell: CellSize) {
    start == NIL || IsEmpty(window) || Ends(m, start, window, cell)
  }

  /** The whole layout: nothing for a nil start or an empty window. */
  ghost function ComputeRects(m: Nodes, start: Uuid, window: Rect, cell: CellSize): map<Uuid, Rect>
    requires Layoutable(m) || LayoutEnds(m, start, window, cell)
  {
    if start == NIL || IsEmpty(window) then map[] else Rects(m, start, window, cell)
  }

  // ---------------------------------------------------------------- tiling

  predicate IsLeaf(d: NodeData) { d.TerminalData? || d.TabBarData? }

  /** What every rectangle of a layout satisfies. */
  ghost predicate Placed(m: Nodes, id: Uuid, rect: Rect, out: map<Uuid, Rect>)
    requires Acyclic(m)
  {
    forall x :: x in out ==>
      x in m && Contains(m, id, x) && !IsEmpty(out[x]) && Within(out[x], rect)
  }

  /** No pixel belongs to two leaves. */
  ghost predicate LeavesApart(m: Nodes, out: map<Uuid, Rect>) {
    forall a, b | a in out && b in out && a in m && b in m && a != b ::
      IsLeaf(m[a].data) && IsLeaf(m[b].data) ==> Apart(out[a], out[b])
  }

  /** Every visible inner node hands out all of its rectangle. */
  ghost predicate FillsUp(m: Nodes, out: map<Uuid, Rect>) {
    forall x :: x in out && x in m ==>
      && (m[x].data.ContainerData? ==> HasFlexible(m[x].data.children))
      && (m[x].data.StackData? ==> Shown(m[x].data) != NIL)
  }

  ghost predicate LeafAt(m: Nodes, out: map<Uuid, Rect>, px: int, py: int) {
    exists a :: a in out && a in m && IsLeaf(m[a].data) && Covers(out[a], px, py)
  }

  /** The rectangles share no pixel. */
  ghost predicate Apart(a: Rect, b: Rect) {
    forall px, py :: !(Covers(a, px, py) && Covers(b, px, py))
  }

  /** Strips lie inside the rectangle and do not overlap. */
  lemma StripsCut(d: NodeData, rect: Rect, cell: CellSize)
    requires d.ContainerData? && !IsEmpty(rect)
    ensures var strips := Strips(d, rect, cell);
      && (forall i :: 0 <= i < |strips| ==> Within(strips[i], rect))
      && (forall i, j :: 0 <= i < j < |strips| ==> Apart(strips[i], strips[j]))
  {
    var s, strips := Sizes(d, rect, cell), Strips(d, rect, cell);
    DivisionFits(d.children, Extent(d.dir, rect), CellAlong(d.dir, cell));
    forall i | 0 <= i < |s| ensures Within(strips[i], rect) {
      PrefixMonotone(s, 0, i);
      PrefixMonotone(s, i + 1, |s|);
    }
    forall i, j | 0 <= i < j < |s| ensures Apart(strips[i], strips[j]) {
      PrefixMonotone(s, i + 1, j);
    }
  }

  /** When a child is flexible, every pixel belongs to a strip. */
  lemma StripsFill(d: NodeData, rect: Rect, cell: CellSize, px: int, py: int) returns (i: nat)
    requires d.ContainerData? && !IsEmpty(rect) && HasFlexible(d.children)
    requires Covers(rect, px, py)
    ensures i < |d.children| && Covers(Strips(d, rect, cell)[i], px, py)
  {
    var s := Sizes(d, rect, cell);
    DivisionFits(d.children, Extent(d.dir, rect), CellAlong(d.dir, cell));
    i := PartAt(s, |s|, if d.dir.Horizontal? then px - rect.x else py - rect.y);
  }

  /** A position inside a division lies in one of its parts. */
  lemma {:induction false} PartAt(s: seq<int>, k: nat, p: int) returns (i: nat)
    requires k <= |s| && 0 <= p < Prefix(s, k)
    ensures i < k && Prefix(s, i) <= p < Prefix(s, i + 1)
  {
    if p >= Prefix(s, k - 1) { i := k - 1; } else { i := PartAt(s, k - 1, p); }
  }

  lemma {:induction false} RectsPlaced(m: Nodes, id: Uuid, rect: Rect, cell: CellSize)
    requires Layoutable(m) && id in m && !IsEmpty(rect)
    ensures Placed(m, id, rect, Rects(m, id, rect, cell))
    decreases RankOf(m, id)
  {
    hide Acyclic, Linked, StacksActive, ZoomsInside;
    var d, out := m[id].data, Rects(m, id, rect, cell);
    BelowItself(m, id);
    if d.ContainerData? {
      var strips := Strips(d, rect, cell);
      StripsCut(d, rect, cell);
      var parts := Parts(m, id, strips, cell);
      forall x | x in Union(parts, |parts|)
        ensures x in m && Contains(m, id, x) && !IsEmpty(Union(parts, |parts|)[x]) && Within(Union(parts, |parts|)[x], rect)
      {
        var i := UnionFrom(parts, |parts|, x);
        PartPlaced(m, id, strips, cell, i);
      }
    } else if d.StackData? && Shown(d) != NIL {
      ShownBelow(m, id);
      RectsPlaced(m, Shown(d), rect, cell);
      forall x | x in Rects(m, Shown(d), rect, cell) ensures Contains(m, id, x) {
        ContainsTransitive(m, id, Shown(d), x);
      }
    }
  }

  lemma {:induction false} PartPlaced(m: Nodes, id: Uuid, strips: seq<Rect>, cell: CellSize, i: nat)
    requires Layoutable(m) && id in m && i < |Kids(m[id].data)| == |strips|
    ensures Placed(m, id, strips[i], Parts(m, id, strips, cell)[i])
    ensures Placed(m, Kids(m[id].data)[i].id, strips[i], Parts(m, id, strips, cell)[i])
    decreases RankOf(m, id), 0
  {
    hide Acyclic, Linked, StacksActive, ZoomsInside;
    var kid := Kids(m[id].data)[i].id;
    ChildBelow(m, id, i);
    if !IsEmpty(strips[i]) {
      RectsPlaced(m, kid, strips[i], cell);
      forall x | x in Parts(m, id, strips, cell)[i] ensures Contains(m, id, x) {
        ContainsTransitive(m, id, kid, x);
      }
    }
  }

  lemma {:induction false} RectsApart(m: Nodes, id: Uuid, rect: Rect, cell: CellSize)
    requires Layoutable(m) && id in m && !IsEmpty(rect)
    ensures LeavesApart(m, Rects(m, id, rect, cell))
    decreases RankOf(m, id)
  {
    hide Acyclic, Linked, StacksActive, ZoomsInside;
    var d := m[id].data;
    if d.ContainerData? {
      var strips := Strips(d, rect, cell);
      StripsCut(d, rect, cell);
      var parts := Parts(m, id, strips, cell);
      forall i | 0 <= i < |parts| ensures LeavesApart(m, parts[i]) {
        ChildBelow(m, id, i);
        if !IsEmpty(strips[i]) { RectsApart(m, Kids(d)[i].id, strips[i], cell); }
      }
      PartsApart(m, id, strips, cell);
    } else if d.StackData? && Shown(d) != NIL {
      ShownBelow(m, id);
      RectsApart(m, Shown(d), rect, cell);
    }
  }

  lemma PartsApart(m: Nodes, id: Uuid, strips: seq<Rect>, cell: CellSize)
    requires Layoutable(m) && id in m && |Kids(m[id].data)| == |strips|
    requires forall i, j :: 0 <= i < j < |strips| ==> Apart(strips[i], strips[j])
    requires forall i :: 0 <= i < |strips| ==> LeavesApart(m, Parts(m, id, strips, cell)[i])
    ensures LeavesApart(m, Union(Parts(m, id, strips, cell), |strips|))
  {
    var parts := Parts(m, id, strips, cell);
    var all := Union(parts, |parts|);
    forall a, b | a in all && b in all && a in m && b in m && a != b && IsLeaf(m[a].data) && IsLeaf(m[b].data)
      ensures Apart(all[a], all[b])
    {
      var i := UnionFrom(parts, |parts|, a);
      var j := UnionFrom(parts, |parts|, b);
      if i != j {
        PartPlaced(m, id, strips, cell, i);
        PartPlaced(m, id, strips, cell, j);
        InsideApart(strips[i], strips[j], all[a], all[b]);
      }
    }
  }

  lemma InsideApart(r: Rect, s: Rect, a: Rect, b: Rect)
    requires Apart(r, s) || Apart(s, r)
    requires Within(a, r) && Within(b, s)
    ensures Apart(a, b)
  {
    forall px, py ensures !(Covers(a, px, py) && Covers(b, px, py)) {
      assert Covers(a, px, py) ==> Covers(r, px, py);
      assert Covers(b, px, py) ==> Covers(s, px, py);
    }
  }

  /** The layout of a child is part of the layout of its Container. */
  lemma PartKept(m: Nodes, id: Uuid, strips: seq<Rect>, cell: CellSize, i: nat, x: Uuid)
    requires Layoutable(m) && id in m && i < |Kids(m[id].data)| == |strips|
    requires x in Parts(m, id, strips, cell)[i]
    ensures var all := Union(Parts(m, id, strips, cell), |strips|);
      x in all && all[x] == Parts(m, id, strips, cell)[i][x]
  {
    var parts := Parts(m, id, strips, cell);
    PartPlaced(m, id, strips, cell, i);
    forall j | i < j < |strips| ensures x !in parts[j] {
      if x in parts[j] {
        PartPlaced(m, id, strips, cell, j);
        SiblingsDisjoint(m, Kids(m[id].data)[i].id, Kids(m[id].data)[j].id, x);
      }
    }
    UnionKept(parts, |strips|, i, x);
  }

  lemma {:induction false} RectsCover(m: Nodes, id: Uuid, rect: Rect, cell: CellSize, px: int, py: int)
    requires Layoutable(m) && id in m && !IsEmpty(rect)
    requires FillsUp(m, Rects(m, id, rect, cell)) && Covers(rect, px, py)
    ensures LeafAt(m, Rects(m, id, rect, cell), px, py)
    decreases RankOf(m, id)
  {
    hide Acyclic, Linked, StacksActive, ZoomsInside;
    var d, out := m[id].data, Rects(m, id, rect, cell);
    assert id in out;
    if d.ContainerData? {
      var strips := Strips(d, rect, cell);
      var i := StripsFill(d, rect, cell, px, py);
      ChildBelow(m, id, i);
      forall x | x in Parts(m, id, strips, cell)[i] ensures x in out && out[x] == Parts(m, id, strips, cell)[i][x] {
        PartKept(m, id, strips, cell, i, x);
      }
      RectsCover(m, Kids(d)[i].id, strips[i], cell, px, py);
      LeafAtWider(m, Parts(m, id, strips, cell)[i], out, px, py);
    } else if d.StackData? {
      ShownBelow(m, id);
      var sub := Rects(m, Shown(d), rect, cell);
      assert out == map[id := rect] + sub;
      RectsCover(m, Shown(d), rect, cell, px, py);
      LeafAtWider(m, sub, out, px, py);
    } else {
      assert Covers(out[id], px, py);
    }
  }

  lemma LeafAtWider(m: Nodes, sub: map<Uuid, Rect>, out: map<Uuid, Rect>, px: int, py: int)
    requires LeafAt(m, sub, px, py)
    requires forall x :: x in sub ==> x in out && out[x] == sub[x]
    ensures LeafAt(m, out, px, py)
  {
    var a :| a in sub && a in m && IsLeaf(m[a].data) && Covers(sub[a], px, py);
    assert Covers(out[a], px, py);
  }

  /** The visible leaves tile the window: no leaf reaches outside it, no pixel
      belongs to two leaves, and when every visible Container has a flexible child
      and every visible Stack shows one, every pixel belongs to a leaf. */
  lemma VisibleLeavesTile(m: Nodes, start: Uuid, window: Rect, cell: CellSize)
    requires Layoutable(m) && start in m && !IsEmpty(window)
    ensures var out := ComputeRects(m, start, window, cell);
      && Placed(m, start, window, out)
      && LeavesApart(m, out)
      && (FillsUp(m, out) ==> forall px, py :: Covers(window, px, py) ==> LeafAt(m, out, px, py))
  {
    RectsPlaced(m, start, window, cell);
    RectsApart(m, start, window, cell);
    var out := ComputeRects(m, start, window, cell);
    if FillsUp(m, out) {
      forall px, py | Covers(window, px, py) ensures LeafAt(m, out, px, py) {
        RectsCover(m, start, window, cell, px, py);
      }
    }
  }
}
