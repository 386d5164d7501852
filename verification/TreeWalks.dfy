/** The walks over the node store: placing a subtree, collecting its Terminals, and
    climbing to the edge a resize moves (src/LayoutTree.cpp:501-616, :706-787). */
module TreeWalks {
  import opened Forest
  import opened Ancestry
  import opened SpaceDivision
  import opened Layout
  import opened LeafSwap
  import opened EdgeResize

  /** A loop over the slots that stops at the first with the given id. */
  method FindSlot(s: seq<ChildSlot>, id: Uuid) returns (i: nat)
    ensures i <= |s|
    ensures i < |s| <==> HasId(s, id)
    ensures i < |s| ==> i == IndexOf(s, id)
  {
    i := 0;
    while i < |s| && s[i].id != id
      invariant i <= |s| && forall j :: 0 <= j < i ==> s[j].id != id
    {
      i := i + 1;
    }
  }

  /** What is placed when the first `i` children of a Container are. */
  ghost function Upto(m: Nodes, id: Uuid, rect: Rect, cell: CellSize, placed: map<Uuid, Rect>, i: nat): map<Uuid, Rect>
    requires Ends(m, id, rect, cell) && id in m && m[id].data.ContainerData? && i <= |m[id].data.children|
  {
    PartsReady(m, id, rect, cell);
    placed + Union(Parts(m, id, Strips(m[id].data, rect, cell), cell), i)
  }

  lemma UptoNone(m: Nodes, id: Uuid, rect: Rect, cell: CellSize, placed: map<Uuid, Rect>)
    requires Ends(m, id, rect, cell) && id in m && m[id].data.ContainerData?
    ensures Upto(m, id, rect, cell, placed, 0) == placed
  {
    hide Ends, Strips;
  }

  /** The i-th child of a Container adds its own layout to what is placed so far. */
  lemma NextStrip(m: Nodes, id: Uuid, rect: Rect, cell: CellSize, i: nat, placed: map<Uuid, Rect>)
    requires Ends(m, id, rect, cell) && id in m && m[id].data.ContainerData? && i < |m[id].data.children|
    ensures var kid, r := m[id].data.children[i].id, Strips(m[id].data, rect, cell)[i];
      && (!IsEmpty(r) ==> Ends(m, kid, r, cell) && Depth(m, kid, r, cell) < Depth(m, id, rect, cell))
      && Upto(m, id, rect, cell, placed, i + 1)
        == Upto(m, id, rect, cell, placed, i) + if IsEmpty(r) then map[] else Rects(m, kid, r, cell)
  {
    hide Strips, Depth, Ends;
    PartsReady(m, id, rect, cell);
    var strips := Strips(m[id].data, rect, cell);
    assert PartDepth(m, id, strips, cell, i) <= Deepest(m, id, strips, cell, |strips|);
    MapAssociative(placed, Union(Parts(m, id, strips, cell), i), Parts(m, id, strips, cell)[i]);
  }

  lemma MapAssociative(a: map<Uuid, Rect>, b: map<Uuid, Rect>, c: map<Uuid, Rect>)
    ensures a + (b + c) == (a + b) + c
  {
  }

  lemma RectsUnfolded(m: Nodes, id: Uuid, rect: Rect, cell: CellSize, placed: map<Uuid, Rect>)
    requires Ends(m, id, rect, cell)
    ensures placed + Rects(m, id, rect, cell) == if id !in m then placed else placed[id := rect] + Below(m, id, rect, cell)
    ensures id in m && m[id].data.ContainerData? ==> PartsEnd(m, id, Strips(m[id].data, rect, cell), cell)
    ensures id in m && m[id].data.StackData? && Shown(m[id].data) != NIL ==>
      Ends(m, Shown(m[id].data), rect, cell) && Depth(m, Shown(m[id].data), rect, cell) < Depth(m, id, rect, cell)
  {
    hide Ends, Depth;
    if id in m {
      if m[id].data.StackData? && Shown(m[id].data) != NIL { ShownReady(m, id, rect, cell); }
      if m[id].data.ContainerData? { PartsReady(m, id, rect, cell); }
      MapAssociative(placed, map[id := rect], Below(m, id, rect, cell));
      assert placed[id := rect] == placed + map[id := rect];
      assert m[id].data.StackData? && Shown(m[id].data) == NIL ==> map[id := rect] + map[] == map[id := rect];
    }
  }

  /** What is placed below a node that has `rect`. */
  ghost function Below(m: Nodes, id: Uuid, rect: Rect, cell: CellSize): map<Uuid, Rect>
    requires Ends(m, id, rect, cell) && id in m
  {
    match m[id].data
    case ContainerData(_, kids) =>
      PartsReady(m, id, rect, cell);
      Union(Parts(m, id, Strips(m[id].data, rect, cell), cell), |kids|)
    case StackData(_, _, _) =>
      if Shown(m[id].data) == NIL then map[]
      else
        ShownReady(m, id, rect, cell);
        Rects(m, Shown(m[id].data), rect, cell)
    case _ => map[]
  }

  /** Place `id` and everything visible below it, on top of `placed`. */
  method LayoutSubtree(m: Nodes, id: Uuid, rect: Rect, cell: CellSize, placed: map<Uuid, Rect>) returns (out: map<Uuid, Rect>)
    requires Ends(m, id, rect, cell) && !IsEmpty(rect)
    ensures out == placed + Rects(m, id, rect, cell)
    decreases Depth(m, id, rect, cell), 1
  {
    hide Ends, Depth, Rects, Parts, Strips, PartsEnd, Union;
    RectsUnfolded(m, id, rect, cell, placed);
    out := placed;
    if id !in m { return; }
    out := out[id := rect];
    match m[id].data {
      case ContainerData(_, _) => out := LayoutStrips(m, id, rect, cell, out);
      case StackData(_, active, zoom) =>
        if zoom != NIL {
          out := LayoutSubtree(m, zoom, rect, cell, out);
        } else if active != NIL {
          out := LayoutSubtree(m, active, rect, cell, out);
        }
      case _ =>
    }
  }

  /** Hand the strips of a Container to its children; an empty strip hides one. */
  method LayoutStrips(m: Nodes, id: Uuid, rect: Rect, cell: CellSize, placed: map<Uuid, Rect>) returns (out: map<Uuid, Rect>)
    requires Ends(m, id, rect, cell) && !IsEmpty(rect) && id in m && m[id].data.ContainerData?
    ensures out == Upto(m, id, rect, cell, placed, |m[id].data.children|)
    decreases Depth(m, id, rect, cell), 0
  {
    hide Ends, Depth, Rects, Strips, Sizes, Upto, Cut, Begin, Divide, IsEmpty, Prefix;
    UptoNone(m, id, rect, cell, placed);
    SizesAre(m[id].data, rect, cell);
    out := placed;
    var dir, kids := m[id].data.dir, m[id].data.children;
    var sizes := DivideSpace(kids, Extent(dir, rect), CellAlong(dir, cell));
    var cursor := Begin(dir, rect);
    for i := 0 to |kids|
      invariant cursor == Begin(dir, rect) + Prefix(sizes, i)
      invariant out == Upto(m, id, rect, cell, placed, i)
    {
      StripAt(m[id].data, rect, cell, i);
      NextStrip(m, id, rect, cell, i, placed);
      var r := Cut(dir, rect, cursor, sizes[i]);
      cursor := cursor + sizes[i];
      if !IsEmpty(r) {
        out := LayoutSubtree(m, kids[i].id, r, cell, out);
      }
    }
  }

  /** Where a rectangle begins along the axis. */
  function Begin(dir: SplitDir, rect: Rect): int { if dir.Horizontal? then rect.x else rect.y }

  function Cut(dir: SplitDir, rect: Rect, from: int, size: int): Rect {
    if dir.Horizontal? then rect.(x := from, w := size) else rect.(y := from, h := size)
  }

  lemma SizesAre(d: NodeData, rect: Rect, cell: CellSize)
    requires d.ContainerData? && !IsEmpty(rect)
    ensures Sizes(d, rect, cell) == Divide(d.children, Extent(d.dir, rect), CellAlong(d.dir, cell))
    ensures Extent(d.dir, rect) > 0 && Prefix(Sizes(d, rect, cell), 0) == 0
  {
  }

  lemma StripAt(d: NodeData, rect: Rect, cell: CellSize, i: nat)
    requires d.ContainerData? && i < |d.children|
    ensures var s := Sizes(d, rect, cell);
      && Strips(d, rect, cell)[i] == Cut(d.dir, rect, Begin(d.dir, rect) + Prefix(s, i), s[i])
      && Prefix(s, i + 1) == Prefix(s, i) + s[i]
  {
    hide Sizes;
  }

  /** Walk up to the first Container parent along the axis. */
  method FindEdge(m: Nodes, target: Uuid, axis: SplitDir, ancestorRoot: Uuid) returns (e: Edge)
    requires Inv(m)
    ensures e == EdgeAbove(m, target, axis, ancestorRoot)
  {
    hide ChildLinks, ParentLinks, NoTwins, StacksActive, ZoomsLive, Acyclic;
    var cur := target;
    while true
      invariant EdgeAbove(m, target, axis, ancestorRoot) == EdgeAbove(m, cur, axis, ancestorRoot)
      decreases Above(m, cur)
    {
      if cur == ancestorRoot { return NoEdge; }
      if cur !in m || m[cur].parent == NIL { return NoEdge; }
      var p := m[cur].parent;
      if p !in m { return NoEdge; }
      if !m[p].data.ContainerData? { return NoEdge; }
      if m[p].data.dir != axis {
        if p == ancestorRoot { return NoEdge; }
        assert p in Above(m, cur) && p !in Above(m, p);
        cur := p;
      } else {
        var idx := FindSlot(m[p].data.children, cur);
        if idx == |m[p].data.children| { return NoEdge; }
        if idx + 1 < |m[p].data.children| { return Edge(p, idx, idx + 1); }
        if idx == 0 { return NoEdge; }
        return Edge(p, idx, idx - 1);
      }
    }
  }

  method WalkLeaves(m: Nodes, id: Uuid, onlyActiveStack: bool, found: seq<Uuid>) returns (out: seq<Uuid>)
    requires Walkable(m)
    ensures out == found + Leaves(m, id, onlyActiveStack)
    decreases RankOf(m, id), 1
  {
    out := found;
    if id !in m { return; }
    match m[id].data {
      case TerminalData => out := out + [id];
      case TabBarData(_) =>
      case ContainerData(_, _) => out := LeavesOfChildren(m, id, onlyActiveStack, out);
      case StackData(_, active, _) =>
        if !onlyActiveStack {
          out := LeavesOfChildren(m, id, onlyActiveStack, out);
        } else if active != NIL {
          ActiveBelow(m, id);
          out := WalkLeaves(m, active, onlyActiveStack, out);
        }
    }
  }

  lemma NextLeaves(m: Nodes, id: Uuid, onlyActiveStack: bool, i: nat, found: seq<Uuid>)
    requires Walkable(m) && id in m && i < |Kids(m[id].data)|
    ensures var kid, lists := Kids(m[id].data)[i].id, LeafLists(m, id, onlyActiveStack);
      && RankOf(m, kid) < RankOf(m, id)
      && found + Concat(lists, i + 1) == (found + Concat(lists, i)) + Leaves(m, kid, onlyActiveStack)
  {
    ChildBelow(m, id, i);
    var lists := LeafLists(m, id, onlyActiveStack);
    assert found + (Concat(lists, i) + lists[i]) == (found + Concat(lists, i)) + lists[i];
  }

  method LeavesOfChildren(m: Nodes, id: Uuid, onlyActiveStack: bool, found: seq<Uuid>) returns (out: seq<Uuid>)
    requires Walkable(m) && id in m && IsBranch(m[id].data)
    ensures out == found + Concat(LeafLists(m, id, onlyActiveStack), |m[id].data.children|)
    decreases RankOf(m, id), 0
  {
    hide Walkable, Leaves;
    out := found;
    var kids := m[id].data.children;
    ghost var lists := LeafLists(m, id, onlyActiveStack);
    hide LeafLists;
    for i := 0 to |kids|
      invariant out == found + Concat(lists, i)
    {
      NextLeaves(m, id, onlyActiveStack, i, found);
      out := WalkLeaves(m, kids[i].id, onlyActiveStack, out);
    }
  }
}
