/** Moving the edge between two panes by a number of pixels
    (src/LayoutTree.cpp:706-764). */
module EdgeResize {
  import opened Forest
  import opened Ancestry
  import opened SpaceDivision
  import opened TreeEdits
  import opened Layout
  import opened LayoutFacts
  import opened EdgeShares

  /** The Container whose edge is to move, the child on the target's side and the
      neighbour that gives or takes the pixels. */
  datatype Edge = NoEdge | Edge(container: Uuid, index: nat, neighbour: nat)

  /** Walk up from `cur` to the first Container parent along `axis`, never past
      `root`. */
  ghost function EdgeAbove(m: Nodes, cur: Uuid, axis: SplitDir, root: Uuid): Edge
    requires Acyclic(m)
    decreases Above(m, cur)
  {
    if cur == root || cur !in m || m[cur].parent !in m then NoEdge
    else
      var p := m[cur].parent;
      if !m[p].data.ContainerData? then NoEdge
      else if m[p].data.dir != axis then
        assert p in Above(m, cur);
        if p == root then NoEdge else EdgeAbove(m, p, axis, root)
      else if !HasId(m[p].data.children, cur) then NoEdge
      else
        var i := IndexOf(m[p].data.children, cur);
        if i + 1 < |m[p].data.children| then Edge(p, i, i + 1)
        else if i == 0 then NoEdge
        else Edge(p, i, i - 1)
  }

  lemma {:induction false} EdgeIsInside(m: Nodes, cur: Uuid, axis: SplitDir, root: Uuid)
    requires Acyclic(m)
    ensures var e := EdgeAbove(m, cur, axis, root);
      e.Edge? ==>
        && e.container in m && m[e.container].data.ContainerData? && m[e.container].data.dir == axis
        && e.index < |m[e.container].data.children| && e.neighbour < |m[e.container].data.children|
        && (e.neighbour == e.index + 1 || (e.neighbour == e.index - 1 && e.index + 1 == |m[e.container].data.children|))
    decreases Above(m, cur)
  {
    if cur != root && cur in m && m[cur].parent in m && m[cur].parent != root && m[m[cur].parent].data.ContainerData?
       && m[m[cur].parent].data.dir != axis {
      assert m[cur].parent in Above(m, cur);
      EdgeIsInside(m, m[cur].parent, axis, root);
    }
  }

  ghost predicate EdgeFits(m: Nodes, e: Edge) {
    && e.Edge? && e.container in m && m[e.container].data.ContainerData?
    && e.index < |m[e.container].data.children| && e.neighbour < |m[e.container].data.children|
    && e.index != e.neighbour
  }

  function Slot(m: Nodes, p: Uuid, i: nat): ChildSlot
    requires p in m && i < |Kids(m[p].data)|
  {
    Kids(m[p].data)[i]
  }

  /** Both children at the edge are visible. */
  ghost predicate EdgeVisible(m: Nodes, e: Edge, rects: map<Uuid, Rect>)
    requires EdgeFits(m, e)
  {
    Slot(m, e.container, e.index).id in rects && Slot(m, e.container, e.neighbour).id in rects
  }

  /** The extent of a child along the axis after the edge moved, never below 1. */
  function NewExtent(axis: SplitDir, r: Rect, change: int): int {
    Max(1, Extent(axis, r) + change)
  }

  ghost function Resized(m: Nodes, e: Edge, axis: SplitDir, pixelDelta: int, rects: map<Uuid, Rect>): Nodes
    requires EdgeFits(m, e) && EdgeVisible(m, e, rects)
  {
    var kids := Kids(m[e.container].data);
    var change := if e.neighbour == e.index + 1 then pixelDelta else -pixelDelta;
    var a := Weighted(kids[e.index], NewExtent(axis, rects[kids[e.index].id], change));
    var b := Weighted(kids[e.neighbour], NewExtent(axis, rects[kids[e.neighbour].id], -change));
    SetKids(m, e.container, kids[e.index := a][e.neighbour := b])
  }

  /** A resize that finds an edge asks for the layout; that has to end. */
  ghost predicate ResizeEnds(m: Nodes, target: Uuid, axis: SplitDir, root: Uuid, window: Rect, cell: CellSize)
    requires Acyclic(m)
  {
    target != NIL && root != NIL && EdgeFits(m, EdgeAbove(m, target, axis, root)) ==> LayoutEnds(m, root, window, cell)
  }

  /** Whether resizeEdgeAlongAxis accepts. */
  ghost predicate CanResize(m: Nodes, target: Uuid, axis: SplitDir, root: Uuid, window: Rect, cell: CellSize)
    requires Acyclic(m) && (Layoutable(m) || ResizeEnds(m, target, axis, root, window, cell))
  {
    var e := EdgeAbove(m, target, axis, root);
    target != NIL && root != NIL && EdgeFits(m, e) && EdgeVisible(m, e, ComputeRects(m, root, window, cell))
  }

  ghost function Resize(m: Nodes, target: Uuid, axis: SplitDir, pixelDelta: int, root: Uuid, window: Rect, cell: CellSize): Nodes
    requires Acyclic(m) && (Layoutable(m) || ResizeEnds(m, target, axis, root, window, cell))
  {
    if CanResize(m, target, axis, root, window, cell) then
      Resized(m, EdgeAbove(m, target, axis, root), axis, pixelDelta, ComputeRects(m, root, window, cell))
    else m
  }

  lemma SameIdsPointwise(s: seq<ChildSlot>, t: seq<ChildSlot>)
    requires |s| == |t| && DistinctIds(s)
    requires forall i :: 0 <= i < |s| ==> t[i].id == s[i].id
    ensures SameIds(s, t)
  {
    forall c ensures HasId(s, c) <==> HasId(t, c) {
      if HasId(s, c) { var i :| 0 <= i < |s| && s[i].id == c; assert t[i].id == c; }
      if HasId(t, c) { var i :| 0 <= i < |t| && t[i].id == c; assert s[i].id == c; }
    }
  }

  lemma ResizedKeepsInv(m: Nodes, e: Edge, axis: SplitDir, pixelDelta: int, rects: map<Uuid, Rect>)
    requires Inv(m) && EdgeFits(m, e) && EdgeVisible(m, e, rects)
    ensures Inv(Resized(m, e, axis, pixelDelta, rects))
    ensures DifferAt(m, Resized(m, e, axis, pixelDelta, rects), e.container)
  {
    var n := Resized(m, e, axis, pixelDelta, rects);
    SameIdsPointwise(Kids(m[e.container].data), Kids(n[e.container].data));
    SetKidsKeepsInv(m, e.container, Kids(n[e.container].data));
  }

  lemma ResizeKeepsInv(m: Nodes, target: Uuid, axis: SplitDir, pixelDelta: int, root: Uuid, window: Rect, cell: CellSize)
    requires Inv(m) && ResizeEnds(m, target, axis, root, window, cell)
    ensures Inv(Resize(m, target, axis, pixelDelta, root, window, cell))
  {
    if CanResize(m, target, axis, root, window, cell) {
      ResizedKeepsInv(m, EdgeAbove(m, target, axis, root), axis, pixelDelta, ComputeRects(m, root, window, cell));
    }
  }

  /** Sizing hints do not decide what lies below what. */
  lemma ResizedLayoutable(m: Nodes, n: Nodes, p: Uuid)
    requires Inv(n) && Layoutable(m) && DifferAt(m, n, p) && p in m
    requires m[p].data.ContainerData? && n[p].data.ContainerData?
    ensures Layoutable(n)
  {
    forall q | q in n && n[q].data.StackData? && n[q].data.zoomTarget != NIL
      ensures n[q].data.zoomTarget in n && n[q].data.zoomTarget != q && Contains(n, q, n[q].data.zoomTarget)
    {
      ContainsSame(m, n, m.Keys, q, m[q].data.zoomTarget);
    }
  }

  // ---------------------------------------------------------------- exactness

  /** A child of a visible Container is visible exactly when its strip is not empty,
      and then its rectangle is the strip. */
  lemma ChildRect(m: Nodes, start: Uuid, window: Rect, cell: CellSize, p: Uuid, i: nat)
    requires Layoutable(m) && start in m && !IsEmpty(window) && p in Rects(m, start, window, cell)
    requires p in m && m[p].data.ContainerData? && i < |Kids(m[p].data)|
    ensures var out := Rects(m, start, window, cell); var strips := Strips(m[p].data, out[p], cell);
      !IsEmpty(strips[i]) ==> Kids(m[p].data)[i].id in out && out[Kids(m[p].data)[i].id] == strips[i]
  {
    var out := Rects(m, start, window, cell);
    var strips := Strips(m[p].data, out[p], cell);
    VisibleNested(m, start, window, cell, p);
    if !IsEmpty(strips[i]) {
      ChildBelow(m, p, i);
      RectsOwn(m, Kids(m[p].data)[i].id, strips[i], cell);
      PartKept(m, p, strips, cell, i, Kids(m[p].data)[i].id);
    }
  }

  /** Nodes seen below a visible node are seen through it. */
  lemma {:induction false} SeenThrough(m: Nodes, id: Uuid, rect: Rect, cell: CellSize, p: Uuid, x: Uuid)
    requires Layoutable(m) && id in m && !IsEmpty(rect)
    requires p in Rects(m, id, rect, cell) && x in Rects(m, id, rect, cell) && x in m && Contains(m, p, x)
    ensures x in Rects(m, p, Rects(m, id, rect, cell)[p], cell)
    decreases RankOf(m, id)
  {
    var d, out := m[id].data, Rects(m, id, rect, cell);
    RectsOwn(m, id, rect, cell);
    RectsPlaced(m, id, rect, cell);
    if p != id {
      ContainsInForest(m, p, x);
      ContainsInForest(m, id, p);
      if d.ContainerData? {
        SeenThroughPart(m, id, rect, cell, p, x);
      } else {
        ShownBelow(m, id);
        SeenThrough(m, Shown(d), rect, cell, p, x);
      }
    }
  }

  lemma {:induction false} SeenThroughPart(m: Nodes, id: Uuid, rect: Rect, cell: CellSize, p: Uuid, x: Uuid)
    requires Layoutable(m) && id in m && !IsEmpty(rect) && m[id].data.ContainerData?
    requires p in Rects(m, id, rect, cell) && x in Rects(m, id, rect, cell) && x in m && Contains(m, p, x)
    requires p != id && x != id && p in m
    ensures x in Rects(m, p, Rects(m, id, rect, cell)[p], cell)
    decreases RankOf(m, id), 0
  {
    var d := m[id].data;
    var strips := Strips(d, rect, cell);
    var parts := Parts(m, id, strips, cell);
    var i := UnionFrom(parts, |parts|, p);
    var j := UnionFrom(parts, |parts|, x);
    PartPlaced(m, id, strips, cell, i);
    PartPlaced(m, id, strips, cell, j);
    ContainsTransitive(m, Kids(d)[i].id, p, x);
    if i != j { SiblingsDisjoint(m, Kids(d)[i].id, Kids(d)[j].id, x); }
    ChildBelow(m, id, i);
    SeenThrough(m, Kids(d)[i].id, strips[i], cell, p, x);
  }

  /** Where two children of one node are seen, the node itself is seen. */
  lemma {:induction false} ParentSeen(m: Nodes, id: Uuid, rect: Rect, cell: CellSize, x: Uuid, y: Uuid)
    requires Layoutable(m) && id in m && !IsEmpty(rect) && x in m && y in m
    requires x != y && m[x].parent == m[y].parent && m[x].parent != NIL
    requires x in Rects(m, id, rect, cell) && y in Rects(m, id, rect, cell)
    ensures m[x].parent in Rects(m, id, rect, cell)
    decreases RankOf(m, id)
  {
    var p, d := m[x].parent, m[id].data;
    RectsOwn(m, id, rect, cell);
    RectsPlaced(m, id, rect, cell);
    if id != p {
      if x == id { NotBelowSibling(m, x, y); }
      if y == id { NotBelowSibling(m, y, x); }
      if d.ContainerData? {
        ParentSeenPart(m, id, rect, cell, x, y);
      } else {
        ShownBelow(m, id);
        ParentSeen(m, Shown(d), rect, cell, x, y);
      }
    }
  }

  lemma {:induction false} ParentSeenPart(m: Nodes, id: Uuid, rect: Rect, cell: CellSize, x: Uuid, y: Uuid)
    requires Layoutable(m) && id in m && !IsEmpty(rect) && m[id].data.ContainerData? && x in m && y in m
    requires x != y && m[x].parent == m[y].parent && m[x].parent != NIL && m[x].parent != id && x != id && y != id
    requires x in Rects(m, id, rect, cell) && y in Rects(m, id, rect, cell)
    ensures m[x].parent in Rects(m, id, rect, cell)
    decreases RankOf(m, id), 0
  {
    var p, d := m[x].parent, m[id].data;
    var strips := Strips(d, rect, cell);
    var parts := Parts(m, id, strips, cell);
    var i := UnionFrom(parts, |parts|, x);
    var j := UnionFrom(parts, |parts|, y);
    PartPlaced(m, id, strips, cell, i);
    PartPlaced(m, id, strips, cell, j);
    var c, c' := Kids(d)[i].id, Kids(d)[j].id;
    assert Contains(m, c, p) && Contains(m, c', p);
    if i != j { SiblingsDisjoint(m, c, c', p); }
    ChildBelow(m, id, i);
    ParentSeen(m, c, strips[i], cell, x, y);
    PartKept(m, id, strips, cell, i, p);
  }

  /** A seen child of a seen Container stands in its own, non-empty strip. */
  lemma SeenStrip(m: Nodes, start: Uuid, window: Rect, cell: CellSize, p: Uuid, i: nat)
    requires Layoutable(m) && start in m && !IsEmpty(window) && p in Rects(m, start, window, cell)
    requires p in m && m[p].data.ContainerData? && i < |Kids(m[p].data)|
    requires Kids(m[p].data)[i].id in Rects(m, start, window, cell)
    ensures var out := Rects(m, start, window, cell); var strips := Strips(m[p].data, out[p], cell);
      !IsEmpty(strips[i]) && out[Kids(m[p].data)[i].id] == strips[i]
  {
    var out := Rects(m, start, window, cell);
    var x, strips := Kids(m[p].data)[i].id, Strips(m[p].data, out[p], cell);
    ChildBelow(m, p, i);
    RectsPlaced(m, start, window, cell);
    SeenThrough(m, start, window, cell, p, x);
    var parts := Parts(m, p, strips, cell);
    var j := UnionFrom(parts, |parts|, x);
    PartPlaced(m, p, strips, cell, j);
    if i != j { NotBelowSibling(m, Kids(m[p].data)[j].id, x); }
    ChildRect(m, start, window, cell, p, i);
  }

  /** A rectangle whose far edge along the axis moved. */
  function FarEdgeMoved(axis: SplitDir, r: Rect, px: int): Rect {
    if axis.Horizontal? then r.(w := r.w + px) else r.(h := r.h + px)
  }

  function NearEdgeMoved(axis: SplitDir, r: Rect, px: int): Rect {
    if axis.Horizontal? then r.(x := r.x + px, w := r.w - px) else r.(y := r.y + px, h := r.h - px)
  }

  /** The first of the two children at the edge. */
  function Lower(e: Edge): nat
    requires e.Edge?
  {
    if e.neighbour < e.index then e.neighbour else e.index
  }

  /** The edge between the k-th child and the next moved by exactly `px`, and both are
      visible. */
  predicate EdgeMoved(kids: seq<ChildSlot>, k: nat, axis: SplitDir, px: int, was: map<Uuid, Rect>, now: map<Uuid, Rect>)
    requires k + 1 < |kids|
  {
    var x, y := kids[k].id, kids[k + 1].id;
    && x in was && x in now && now[x] == FarEdgeMoved(axis, was[x], px)
    && y in was && y in now && now[y] == NearEdgeMoved(axis, was[y], px)
  }

  /** The condition for that on the slots and the rectangle of the Container, before the
      call: both children are asked to take a pixel at least, and the new weights grant
      them what is asked, right behind the children before. */
  ghost predicate EdgeGives(d: NodeData, rect: Rect, cell: CellSize, k: nat, px: int)
    requires d.ContainerData? && k + 1 < |d.children|
  {
    var s := Sizes(d, rect, cell);
    var a, b := s[k] + px, s[k + 1] - px;
    && a >= 1 && b >= 1
    && Granted(Rebalanced(d.children, k, a, b), Extent(d.dir, rect), CellAlong(d.dir, cell), k, Prefix(s, k), a, b)
  }

  // ---------------------------------------------------------------- strips

  lemma StripsAt(d: NodeData, rect: Rect, cell: CellSize, i: nat)
    requires d.ContainerData? && i < |d.children|
    ensures Strips(d, rect, cell)[i] == Strip(d.dir, rect, Sizes(d, rect, cell), i)
    ensures Extent(d.dir, Strips(d, rect, cell)[i]) == Sizes(d, rect, cell)[i]
  {
    hide Sizes;
  }

  lemma StripShows(d: NodeData, rect: Rect, cell: CellSize, i: nat)
    requires d.ContainerData? && i < |d.children| && !IsEmpty(rect)
    ensures !IsEmpty(Strips(d, rect, cell)[i]) <==> Sizes(d, rect, cell)[i] >= 1
  {
    hide Sizes;
  }

  /** Two strips meet at an edge moved by `px` if and only if the sizes say so. */
  lemma StripsMoved(dir: SplitDir, rect: Rect, s: seq<int>, t: seq<int>, k: nat, px: int)
    requires k + 1 < |s| == |t|
    ensures
      (Strip(dir, rect, t, k) == FarEdgeMoved(dir, Strip(dir, rect, s, k), px)
       && Strip(dir, rect, t, k + 1) == NearEdgeMoved(dir, Strip(dir, rect, s, k + 1), px))
      <==> Standing(t, k, Prefix(s, k), s[k] + px, s[k + 1] - px)
  {
    assert Prefix(s, k + 1) == Prefix(s, k) + s[k] && Prefix(t, k + 1) == Prefix(t, k) + t[k];
  }

  /** Both strips show and meet at the moved edge if and only if the condition holds. */
  lemma StripsGive(d: NodeData, e: NodeData, rect: Rect, cell: CellSize, k: nat, px: int)
    requires d.ContainerData? && k + 1 < |d.children| && !IsEmpty(rect)
    requires e == ContainerData(d.dir, Rebalanced(d.children, k, Sizes(d, rect, cell)[k] + px, Sizes(d, rect, cell)[k + 1] - px))
    ensures var was, now := Strips(d, rect, cell), Strips(e, rect, cell);
      (!IsEmpty(now[k]) && !IsEmpty(now[k + 1])
       && now[k] == FarEdgeMoved(d.dir, was[k], px) && now[k + 1] == NearEdgeMoved(d.dir, was[k + 1], px))
      <==> EdgeGives(d, rect, cell, k, px)
  {
    hide Strips, Strip, Divide, Rebalanced, Granted;
    var s, t := Sizes(d, rect, cell), Sizes(e, rect, cell);
    StripsAt(d, rect, cell, k);
    StripsAt(d, rect, cell, k + 1);
    StripsAt(e, rect, cell, k);
    StripsAt(e, rect, cell, k + 1);
    StripShows(e, rect, cell, k);
    StripShows(e, rect, cell, k + 1);
    StripsMoved(d.dir, rect, s, t, k, px);
    var a, b := s[k] + px, s[k + 1] - px;
    if a >= 1 && b >= 1 {
      PairIff(e.children, Extent(d.dir, rect), CellAlong(d.dir, cell), k, Prefix(s, k), a, b);
    }
  }

  // ---------------------------------------------------------------- rectangles

  /** A child is seen in its strip if that is not empty, and not at all otherwise. */
  lemma SeenIff(m: Nodes, start: Uuid, window: Rect, cell: CellSize, p: Uuid, i: nat)
    requires Layoutable(m) && start in m && !IsEmpty(window) && p in Rects(m, start, window, cell)
    requires p in m && m[p].data.ContainerData? && i < |m[p].data.children|
    ensures var out, x := Rects(m, start, window, cell), m[p].data.children[i].id;
      var strip := Strips(m[p].data, out[p], cell)[i];
      (x in out <==> !IsEmpty(strip)) && (x in out ==> out[x] == strip)
  {
    hide Layoutable, Rects, Strips;
    assert Kids(m[p].data) == m[p].data.children;
    ChildRect(m, start, window, cell, p, i);
    if m[p].data.children[i].id in Rects(m, start, window, cell) { SeenStrip(m, start, window, cell, p, i); }
  }

  /** The write of a resize, whichever side the target is on. */
  lemma ResizedIs(m: Nodes, e: Edge, axis: SplitDir, px: int, rects: map<Uuid, Rect>)
    requires EdgeFits(m, e) && EdgeVisible(m, e, rects) && (e.neighbour == e.index + 1 || e.index == e.neighbour + 1)
    ensures var kids, k := m[e.container].data.children, Lower(e);
      Resized(m, e, axis, px, rects)
      == SetKids(m, e.container, Rebalanced(kids, k, Extent(axis, rects[kids[k].id]) + px, Extent(axis, rects[kids[k + 1].id]) - px))
  {
    hide Extent;
    var kids, k := m[e.container].data.children, Lower(e);
    var a, b := Weighted(kids[k], Max(1, Extent(axis, rects[kids[k].id]) + px)), Weighted(kids[k + 1], Max(1, Extent(axis, rects[kids[k + 1].id]) - px));
    assert kids[k := a][k + 1 := b] == kids[k + 1 := b][k := a];
  }

  /** The layout of the Container after an accepted resize. */
  ghost predicate ResizedAt(m: Nodes, n: Nodes, p: Uuid, k: nat, px: int, was: map<Uuid, Rect>, now: map<Uuid, Rect>, cell: CellSize) {
    && p in m && p in n && m[p].data.ContainerData? && k + 1 < |m[p].data.children|
    && p in was && p in now && now[p] == was[p]
    && n[p].data == ContainerData(m[p].data.dir,
         Rebalanced(m[p].data.children, k, Sizes(m[p].data, was[p], cell)[k] + px, Sizes(m[p].data, was[p], cell)[k + 1] - px))
  }

  /** The new weights in terms of the sizes that stood. */
  lemma ResizedWeights(m: Nodes, e: Edge, axis: SplitDir, px: int, root: Uuid, window: Rect, cell: CellSize)
    requires Layoutable(m) && root in m && !IsEmpty(window) && EdgeFits(m, e) && m[e.container].data.dir == axis
    requires e.neighbour == e.index + 1 || e.index == e.neighbour + 1
    requires EdgeVisible(m, e, Rects(m, root, window, cell)) && e.container in Rects(m, root, window, cell)
    ensures var p, k, was := e.container, Lower(e), Rects(m, root, window, cell);
      var s := Sizes(m[p].data, was[p], cell);
      Resized(m, e, axis, px, was) == SetKids(m, p, Rebalanced(m[p].data.children, k, s[k] + px, s[k + 1] - px))
  {
    hide Layoutable, Rects, Strips, Sizes, Rebalanced, Resized;
    var p, k, was := e.container, Lower(e), Rects(m, root, window, cell);
    ResizedIs(m, e, axis, px, was);
    SeenIff(m, root, window, cell, p, k);
    SeenIff(m, root, window, cell, p, k + 1);
    StripsAt(m[p].data, was[p], cell, k);
    StripsAt(m[p].data, was[p], cell, k + 1);
  }

  /** What an accepted resize does, as far as all that follows goes. */
  lemma ResizeFacts(m: Nodes, target: Uuid, axis: SplitDir, px: int, root: Uuid, window: Rect, cell: CellSize)
    requires Inv(m) && Layoutable(m) && CanResize(m, target, axis, root, window, cell)
    ensures var n, e := Resize(m, target, axis, px, root, window, cell), EdgeAbove(m, target, axis, root);
      var was := ComputeRects(m, root, window, cell);
      && Inv(n) && Layoutable(n) && DifferAt(m, n, e.container) && root in m && !IsEmpty(window)
      && EdgeFits(m, e) && m[e.container].data.dir == axis && (e.neighbour == e.index + 1 || e.index == e.neighbour + 1)
      && m[e.container].data.children[Lower(e)].id in was && m[e.container].data.children[Lower(e) + 1].id in was
      && Agree(NotBelow(m, e.container), was, ComputeRects(n, root, window, cell))
      && ResizedAt(m, n, e.container, Lower(e), px, was, ComputeRects(n, root, window, cell), cell)
  {
    hide ChildLinks, ParentLinks, NoTwins, StacksActive, ZoomsLive, Acyclic, ZoomsInside, Contains, Rects, Strips, Sizes, Rebalanced, Resized;
    var e, was := EdgeAbove(m, target, axis, root), ComputeRects(m, root, window, cell);
    var p, k := e.container, Lower(e);
    EdgeIsInside(m, target, axis, root);
    SomethingSeen(m, root, window, cell, Slot(m, p, k).id);
    ResizedKeepsInv(m, e, axis, px, was);
    var n := Resized(m, e, axis, px, was);
    ParentOfTwo(m, p, k, root, window, cell);
    ResizedWeights(m, e, axis, px, root, window, cell);
    ResizedLayoutable(m, n, p);
    RectsOutside(m, n, root, window, cell, p);
    PlaceKept(m, n, p, root, window, cell);
  }

  lemma SomethingSeen(m: Nodes, root: Uuid, window: Rect, cell: CellSize, x: Uuid)
    requires Layoutable(m) && x in ComputeRects(m, root, window, cell)
    ensures root in m && root != NIL && !IsEmpty(window)
  {
    hide Layoutable;
  }

  /** Where two neighbours are seen, their Container is. */
  lemma ParentOfTwo(m: Nodes, p: Uuid, k: nat, root: Uuid, window: Rect, cell: CellSize)
    requires Inv(m) && Layoutable(m) && root in m && !IsEmpty(window) && p in m && m[p].data.ContainerData? && k + 1 < |m[p].data.children|
    requires m[p].data.children[k].id in Rects(m, root, window, cell) && m[p].data.children[k + 1].id in Rects(m, root, window, cell)
    ensures p in Rects(m, root, window, cell)
  {
    hide Acyclic, ZoomsInside, StacksActive, ZoomsLive, Rects;
    assert Kids(m[p].data)[k].id in m && Kids(m[p].data)[k + 1].id in m;
    ParentSeen(m, root, window, cell, m[p].data.children[k].id, m[p].data.children[k + 1].id);
  }

  lemma PlaceKept(m: Nodes, n: Nodes, p: Uuid, root: Uuid, window: Rect, cell: CellSize)
    requires Layoutable(m) && Layoutable(n) && p in m && p in Rects(m, root, window, cell)
    requires Agree(NotBelow(m, p), Rects(m, root, window, cell), Rects(n, root, window, cell))
    ensures p in Rects(n, root, window, cell) && Rects(n, root, window, cell)[p] == Rects(m, root, window, cell)[p]
  {
    hide Layoutable, Rects;
  }

  /** An accepted resize moves the shared edge by exactly `px`, with both children visible,
      if and only if the condition holds, whichever of the two the target is, for any
      number of children and any size limits; nothing outside the Container moves. */
  lemma ResizeMovesEdgeIff(m: Nodes, target: Uuid, axis: SplitDir, px: int, root: Uuid, window: Rect, cell: CellSize)
    requires Inv(m) && Layoutable(m) && CanResize(m, target, axis, root, window, cell)
    ensures var n, e := Resize(m, target, axis, px, root, window, cell), EdgeAbove(m, target, axis, root);
      var p, k := e.container, Lower(e);
      && Inv(n) && Layoutable(n) && p in m && m[p].data.ContainerData? && k + 1 < |m[p].data.children|
      && var was, now := ComputeRects(m, root, window, cell), ComputeRects(n, root, window, cell);
      && p in was && Agree(NotBelow(m, p), was, now)
      && (EdgeMoved(m[p].data.children, k, axis, px, was, now) <==> EdgeGives(m[p].data, was[p], cell, k, px))
  {
    hide ChildLinks, ParentLinks, NoTwins, StacksActive, ZoomsLive, Acyclic, ZoomsInside, Contains, Rects, Strips, Sizes, Rebalanced, EdgeGives, Resize;
    ResizeFacts(m, target, axis, px, root, window, cell);
    var n, e := Resize(m, target, axis, px, root, window, cell), EdgeAbove(m, target, axis, root);
    var p, k := e.container, Lower(e);
    var was := Rects(m, root, window, cell);
    SeenIff(m, root, window, cell, p, k);
    SeenIff(m, root, window, cell, p, k + 1);
    SeenIff(n, root, window, cell, p, k);
    SeenIff(n, root, window, cell, p, k + 1);
    RectShows(m, root, window, cell, p);
    StripsGive(m[p].data, n[p].data, was[p], cell, k, px);
  }

  lemma RectShows(m: Nodes, root: Uuid, window: Rect, cell: CellSize, p: Uuid)
    requires Layoutable(m) && root in m && !IsEmpty(window) && p in Rects(m, root, window, cell)
    ensures !IsEmpty(Rects(m, root, window, cell)[p])
  {
    hide Layoutable, Rects;
    RectsPlaced(m, root, window, cell);
  }

  // ---------------------------------------------------------------- the condition without limits

  /** Neither of the two at the edge has size limits, nor has any other child that is not
      pinned. */
  predicate EdgeLimitless(kids: seq<ChildSlot>, k: nat) {
    forall i :: 0 <= i < |kids| && (i == k || i == k + 1 || !Fixed(kids[i])) ==> Unlimited(kids[i])
  }

  lemma RebalancedLimitless(kids: seq<ChildSlot>, k: nat, a: int, b: int)
    requires k + 1 < |kids| && EdgeLimitless(kids, k)
    ensures Limitless(Rebalanced(kids, k, a, b))
  {
  }

  /** In numbers: the weights are balanced, and the shares of the children before the edge
      add up to what those had. */
  lemma EdgeGivesInNumbers(d: NodeData, rect: Rect, cell: CellSize, k: nat, px: int)
    requires d.ContainerData? && k + 1 < |d.children| && EdgeLimitless(d.children, k)
    ensures var s := Sizes(d, rect, cell);
      var slots, available, c := Rebalanced(d.children, k, s[k] + px, s[k + 1] - px), Extent(d.dir, rect), CellAlong(d.dir, cell);
      && HasFlexible(slots)
      && (EdgeGives(d, rect, cell, k, px) <==>
            s[k] + px >= 1 && s[k + 1] - px >= 1 && Prefix(Wishes(slots, available, c), k) == Prefix(s, k)
            && Balanced(slots, available, c, k, s[k] + px, s[k + 1] - px))
  {
    hide Sizes, Wishes, Granted, Balanced;
    var s := Sizes(d, rect, cell);
    var a, b := s[k] + px, s[k + 1] - px;
    var slots := Rebalanced(d.children, k, a, b);
    assert Flexible(slots[k]);
    RebalancedLimitless(d.children, k, a, b);
    if a >= 1 && b >= 1 {
      GrantedIff(slots, Extent(d.dir, rect), CellAlong(d.dir, cell), k, Prefix(s, k), a, b);
    }
  }

  /** The other children before the edge weigh together what they have in pixels, and so do
      those behind it; all children fill the extent. */
  predicate SiblingsWeigh(kids: seq<ChildSlot>, s: seq<int>, k: nat, available: int, cell: int)
    requires k + 1 < |kids| == |s|
  {
    var w := Weights(kids, cell);
    Prefix(w, k) == Prefix(s, k) && Sum(w) - Prefix(w, k + 2) == Sum(s) - Prefix(s, k + 2) && Sum(s) == available
  }

  lemma RebalancedWeights(kids: seq<ChildSlot>, k: nat, a: int, b: int, cell: int)
    requires k + 1 < |kids| && a >= 1 && b >= 1
    ensures var w := Weights(kids, cell);
      && Weights(Rebalanced(kids, k, a, b), cell) == w[k := a][k + 1 := b]
      && Prefix(w[k := a][k + 1 := b], k) == Prefix(w, k)
      && Sum(w[k := a][k + 1 := b]) == Prefix(w, k) + a + b + (Sum(w) - Prefix(w, k + 2))
  {
    var w := Weights(kids, cell);
    UpdatePrefix(w, k, a, k);
    UpdatePrefix(w, k, a, |w|);
    UpdatePrefix(w[k := a], k + 1, b, k);
    UpdatePrefix(w[k := a], k + 1, b, |w|);
    assert Prefix(w, k + 2) == Prefix(w, k + 1) + w[k + 1] && Prefix(w, k + 1) == Prefix(w, k) + w[k];
  }

  /** Then the two take exactly what is asked as long as that is a pixel each, and every
      other child takes what it weighs. */
  lemma SiblingsGive(d: NodeData, rect: Rect, cell: CellSize, k: nat, px: int)
    requires d.ContainerData? && k + 1 < |d.children| && EdgeLimitless(d.children, k)
    requires SiblingsWeigh(d.children, Sizes(d, rect, cell), k, Extent(d.dir, rect), CellAlong(d.dir, cell))
    requires Extent(d.dir, rect) >= 0
    ensures var s := Sizes(d, rect, cell); var a, b := s[k] + px, s[k + 1] - px;
      && (EdgeGives(d, rect, cell, k, px) <==> a >= 1 && b >= 1)
      && (a >= 1 && b >= 1 ==>
            var now := Rebalanced(d.children, k, a, b);
            Sizes(ContainerData(d.dir, now), rect, cell) == Weights(now, CellAlong(d.dir, cell))
            == Weights(d.children, CellAlong(d.dir, cell))[k := a][k + 1 := b])
  {
    hide Wishes, Granted, Divide, Weights;
    var s, c := Sizes(d, rect, cell), CellAlong(d.dir, cell);
    var a, b := s[k] + px, s[k + 1] - px;
    if a >= 1 && b >= 1 {
      var slots := Rebalanced(d.children, k, a, b);
      RebalancedLimitless(d.children, k, a, b);
      RebalancedWeights(d.children, k, a, b, c);
      StretchPositive(slots, k, |slots|);
      assert Prefix(s, k + 2) == Prefix(s, k + 1) + s[k + 1] && Prefix(s, k + 1) == Prefix(s, k) + s[k];
      WeightsArePixels(slots, Extent(d.dir, rect), c);
      PairIff(slots, Extent(d.dir, rect), c, k, Prefix(s, k), a, b);
    }
  }

  /** With two children it holds if and only if they fill the extent and are asked to take
      a pixel each. */
  lemma TwoGive(d: NodeData, rect: Rect, cell: CellSize, px: int)
    requires d.ContainerData? && |d.children| == 2 && Unlimited(d.children[0]) && Unlimited(d.children[1]) && !IsEmpty(rect)
    ensures var s := Sizes(d, rect, cell);
      EdgeGives(d, rect, cell, 0, px) <==> s[0] + px >= 1 && s[1] - px >= 1 && s[0] + s[1] == Extent(d.dir, rect)
  {
    hide Wishes, Granted, Divide, Weights;
    var s, c := Sizes(d, rect, cell), CellAlong(d.dir, cell);
    var a, b := s[0] + px, s[1] - px;
    TwoSum(s);
    TwoSum(Weights(d.children, c));
    if s[0] + s[1] == Extent(d.dir, rect) {
      SiblingsGive(d, rect, cell, 0, px);
    } else if a >= 1 && b >= 1 {
      var slots := Rebalanced(d.children, 0, a, b);
      assert Flexible(slots[1]);
      PairIff(slots, Extent(d.dir, rect), c, 0, 0, a, b);
      DivisionFits(slots, Extent(d.dir, rect), c);
      TwoSum(Divide(slots, Extent(d.dir, rect), c));
    }
  }

  lemma TwoSum(s: seq<int>)
    requires |s| == 2
    ensures Prefix(s, 0) == 0 && Prefix(s, 2) == Sum(s) == s[0] + s[1]
  {
    assert Prefix(s, 1) == s[0];
  }

  /** With two children and no limits: the edge moves exactly if and only if the two fill the
      Container and both are asked to take a pixel at least. */
  lemma ResizeMovesTwo(m: Nodes, target: Uuid, axis: SplitDir, px: int, root: Uuid, window: Rect, cell: CellSize)
    requires Inv(m) && Layoutable(m) && CanResize(m, target, axis, root, window, cell)
    requires var kids := m[EdgeAbove(m, target, axis, root).container].data.children;
      |kids| == 2 && Unlimited(kids[0]) && Unlimited(kids[1])
    ensures var n, p := Resize(m, target, axis, px, root, window, cell), EdgeAbove(m, target, axis, root).container;
      && Layoutable(n) && p in ComputeRects(m, root, window, cell)
      && var was, now := ComputeRects(m, root, window, cell), ComputeRects(n, root, window, cell);
      && var s := Sizes(m[p].data, was[p], cell);
      && (EdgeMoved(m[p].data.children, 0, axis, px, was, now) <==> s[0] + px >= 1 && s[1] - px >= 1 && s[0] + s[1] == Extent(axis, was[p]))
  {
    hide ChildLinks, ParentLinks, NoTwins, StacksActive, ZoomsLive, Acyclic, ZoomsInside, Contains, Rects, Strips, Sizes, Rebalanced, EdgeGives, Resize;
    ResizeFacts(m, target, axis, px, root, window, cell);
    ResizeMovesEdgeIff(m, target, axis, px, root, window, cell);
    var p := EdgeAbove(m, target, axis, root).container;
    RectShows(m, root, window, cell, p);
    TwoGive(m[p].data, Rects(m, root, window, cell)[p], cell, px);
  }

  /** Every child but the two at the edge is shown as before, or not at all as before. */
  predicate SiblingsStay(kids: seq<ChildSlot>, k: nat, was: map<Uuid, Rect>, now: map<Uuid, Rect>) {
    forall i :: 0 <= i < |kids| && i != k && i != k + 1 ==> SameEntry(kids[i].id, was, now)
  }

  predicate SameEntry(x: Uuid, was: map<Uuid, Rect>, now: map<Uuid, Rect>) {
    (x in was <==> x in now) && (x in was ==> now[x] == was[x])
  }

  /** Sizes that differ at the two only, and there by what one loses to the other, put every
      other strip where it was. */
  lemma OtherStrips(d: NodeData, e: NodeData, rect: Rect, cell: CellSize, k: nat, px: int, i: nat)
    requires d.ContainerData? && e.ContainerData? && e.dir == d.dir && |e.children| == |d.children| && k + 1 < |d.children|
    requires var s := Sizes(d, rect, cell); Sizes(e, rect, cell) == s[k := s[k] + px][k + 1 := s[k + 1] - px]
    requires i < |d.children| && i != k && i != k + 1
    ensures Strips(e, rect, cell)[i] == Strips(d, rect, cell)[i]
  {
    hide Sizes, Strips, Strip;
    var s := Sizes(d, rect, cell);
    UpdatePrefix(s, k, s[k] + px, i);
    UpdatePrefix(s[k := s[k] + px], k + 1, s[k + 1] - px, i);
    StripsAt(d, rect, cell, i);
    StripsAt(e, rect, cell, i);
    SameStrip(d.dir, rect, s, Sizes(e, rect, cell), i);
  }

  lemma SameStrip(dir: SplitDir, rect: Rect, s: seq<int>, t: seq<int>, i: nat)
    requires i < |s| == |t| && t[i] == s[i] && Prefix(t, i) == Prefix(s, i)
    ensures Strip(dir, rect, t, i) == Strip(dir, rect, s, i)
  {
  }

  lemma SiblingsKept(m: Nodes, n: Nodes, p: Uuid, k: nat, px: int, root: Uuid, window: Rect, cell: CellSize)
    requires Layoutable(m) && Layoutable(n) && root in m && root in n && !IsEmpty(window)
    requires ResizedAt(m, n, p, k, px, Rects(m, root, window, cell), Rects(n, root, window, cell), cell)
    requires var was := Rects(m, root, window, cell); var s := Sizes(m[p].data, was[p], cell);
      Sizes(n[p].data, was[p], cell) == s[k := s[k] + px][k + 1 := s[k + 1] - px]
    ensures SiblingsStay(m[p].data.children, k, Rects(m, root, window, cell), Rects(n, root, window, cell))
  {
    hide Layoutable, Rects, Strips, Sizes, Rebalanced;
    var was, now := Rects(m, root, window, cell), Rects(n, root, window, cell);
    var kids := m[p].data.children;
    forall i | 0 <= i < |kids| && i != k && i != k + 1 ensures SameEntry(kids[i].id, was, now) {
      SeenIff(m, root, window, cell, p, i);
      SeenIff(n, root, window, cell, p, i);
      OtherStrips(m[p].data, n[p].data, was[p], cell, k, px, i);
    }
  }

  /** Sizes that are the weights of all others. */
  lemma WeightsAreSizes(kids: seq<ChildSlot>, s: seq<int>, k: nat, a: int, b: int, cell: int)
    requires k + 1 < |kids| == |s| && forall i :: 0 <= i < |kids| && i != k && i != k + 1 ==> Weight(kids[i], cell) == s[i]
    ensures Weights(kids, cell)[k := a][k + 1 := b] == s[k := a][k + 1 := b]
  {
    hide Weight;
  }

  /** For any number of children: where the others weigh together what they have, before
      the edge and behind it, an accepted resize moves the edge exactly if and only if both
      children are asked to take a pixel at least; and where each weighs what it has, the
      others stay in place. */
  lemma ResizeMovesEdge(m: Nodes, target: Uuid, axis: SplitDir, px: int, root: Uuid, window: Rect, cell: CellSize)
    requires Inv(m) && Layoutable(m) && CanResize(m, target, axis, root, window, cell)
    requires var p, k, was := EdgeAbove(m, target, axis, root).container, Lower(EdgeAbove(m, target, axis, root)), ComputeRects(m, root, window, cell);
      && p in was && k + 1 < |m[p].data.children| && EdgeLimitless(m[p].data.children, k)
      && SiblingsWeigh(m[p].data.children, Sizes(m[p].data, was[p], cell), k, Extent(axis, was[p]), CellAlong(axis, cell))
    ensures var n, p, k := Resize(m, target, axis, px, root, window, cell), EdgeAbove(m, target, axis, root).container, Lower(EdgeAbove(m, target, axis, root));
      && Inv(n) && Layoutable(n)
      && var was, now := ComputeRects(m, root, window, cell), ComputeRects(n, root, window, cell);
      && var kids, s := m[p].data.children, Sizes(m[p].data, was[p], cell);
      && (EdgeMoved(kids, k, axis, px, was, now) <==> s[k] + px >= 1 && s[k + 1] - px >= 1)
      && (s[k] + px >= 1 && s[k + 1] - px >= 1 && (forall i :: 0 <= i < |kids| && i != k && i != k + 1 ==> Weight(kids[i], CellAlong(axis, cell)) == s[i]) ==>
            SiblingsStay(kids, k, was, now))
  {
    hide ChildLinks, ParentLinks, NoTwins, StacksActive, ZoomsLive, Acyclic, ZoomsInside, Contains, Rects, Strips, Sizes, Rebalanced, EdgeGives, Resize, SiblingsWeigh, EdgeLimitless;
    ResizeFacts(m, target, axis, px, root, window, cell);
    ResizeMovesEdgeIff(m, target, axis, px, root, window, cell);
    var n, e := Resize(m, target, axis, px, root, window, cell), EdgeAbove(m, target, axis, root);
    var p, k, was := e.container, Lower(e), Rects(m, root, window, cell);
    var kids, s, c := m[p].data.children, Sizes(m[p].data, was[p], cell), CellAlong(axis, cell);
    RectShows(m, root, window, cell, p);
    SiblingsGive(m[p].data, was[p], cell, k, px);
    if s[k] + px >= 1 && s[k + 1] - px >= 1 && forall i :: 0 <= i < |kids| && i != k && i != k + 1 ==> Weight(kids[i], c) == s[i] {
      WeightsAreSizes(kids, s, k, s[k] + px, s[k + 1] - px, c);
      SiblingsKept(m, n, p, k, px, root, window, cell);
    }
  }
}
