/** The areas of the visible leaves add up to the area of the window
    (src/LayoutTree.cpp:501-631). */
module LayoutArea {
  import opened Forest
  import opened Ancestry
  import opened SpaceDivision
  import opened Layout

  function Size(r: Rect): int { r.w * r.h }

  /** The sum of the areas of the named entries. */
  ghost function Area(out: map<Uuid, Rect>, keys: set<Uuid>): int
    requires keys <= out.Keys
  {
    if keys == {} then 0
    else
      var x :| x in keys;
      Size(out[x]) + Area(out, keys - {x})
  }

  function Leaves(m: Nodes, out: map<Uuid, Rect>): set<Uuid> {
    set x | x in out && x in m && IsLeaf(m[x].data)
  }

  ghost function LeafArea(m: Nodes, out: map<Uuid, Rect>): int { Area(out, Leaves(m, out)) }

  // ---------------------------------------------------------------- sums over sets

  /** Any entry may be taken out first. */
  lemma {:induction false} AreaRemove(out: map<Uuid, Rect>, keys: set<Uuid>, x: Uuid)
    requires keys <= out.Keys && x in keys
    ensures Area(out, keys) == Size(out[x]) + Area(out, keys - {x})
    decreases keys
  {
    var y :| y in keys && Area(out, keys) == Size(out[y]) + Area(out, keys - {y});
    if y != x {
      AreaRemove(out, keys - {y}, x);
      AreaRemove(out, keys - {x}, y);
      assert keys - {y} - {x} == keys - {x} - {y};
    }
  }

  lemma {:induction false} AreaUnion(out: map<Uuid, Rect>, a: set<Uuid>, b: set<Uuid>)
    requires a <= out.Keys && b <= out.Keys && a !! b
    ensures Area(out, a + b) == Area(out, a) + Area(out, b)
    decreases a
  {
    if a == {} {
      assert a + b == b;
    } else {
      var x :| x in a;
      AreaRemove(out, a, x);
      AreaRemove(out, a + b, x);
      assert a + b - {x} == (a - {x}) + b;
      AreaUnion(out, a - {x}, b);
    }
  }

  lemma {:induction false} AreaSame(out: map<Uuid, Rect>, other: map<Uuid, Rect>, keys: set<Uuid>)
    requires keys <= out.Keys && keys <= other.Keys && forall x :: x in keys ==> out[x] == other[x]
    ensures Area(out, keys) == Area(other, keys)
    decreases keys
  {
    if keys != {} {
      var x :| x in keys;
      AreaRemove(out, keys, x);
      AreaRemove(other, keys, x);
      AreaSame(out, other, keys - {x});
    }
  }

  // ---------------------------------------------------------------- strips

  function StripsArea(strips: seq<Rect>, k: nat): int
    requires k <= |strips|
  {
    if k == 0 then 0 else StripsArea(strips, k - 1) + Size(strips[k - 1])
  }

  function Across(dir: SplitDir, r: Rect): int { if dir.Horizontal? then r.h else r.w }

  lemma StripSize(d: NodeData, rect: Rect, cell: CellSize, i: nat)
    requires d.ContainerData? && i < |d.children|
    ensures Size(Strips(d, rect, cell)[i]) == Sizes(d, rect, cell)[i] * Across(d.dir, rect)
  {
    hide Sizes;
    Distribute(0, rect.w, Sizes(d, rect, cell)[i]);
  }

  lemma {:induction false} StripsAreaIs(d: NodeData, rect: Rect, cell: CellSize, k: nat)
    requires d.ContainerData? && k <= |d.children|
    ensures StripsArea(Strips(d, rect, cell), k) == Prefix(Sizes(d, rect, cell), k) * Across(d.dir, rect)
  {
    hide Strips, Sizes, Across, Size;
    if k > 0 {
      var s := Sizes(d, rect, cell);
      StripsAreaIs(d, rect, cell, k - 1);
      StripSize(d, rect, cell, k - 1);
      Distribute(Prefix(s, k - 1), s[k - 1], Across(d.dir, rect));
    }
  }

  lemma Distribute(a: int, b: int, c: int)
    ensures (a + b) * c == a * c + b * c && b * c == c * b
  {
  }

  /** With a flexible child the strips use up the rectangle. */
  lemma StripsUseAll(d: NodeData, rect: Rect, cell: CellSize)
    requires d.ContainerData? && !IsEmpty(rect) && HasFlexible(d.children)
    ensures StripsArea(Strips(d, rect, cell), |d.children|) == Size(rect)
  {
    StripsAreaIs(d, rect, cell, |d.children|);
    DivisionFits(d.children, Extent(d.dir, rect), CellAlong(d.dir, cell));
    Distribute(0, rect.w, rect.h);
  }

  lemma EmptyStrip(d: NodeData, rect: Rect, cell: CellSize, i: nat)
    requires d.ContainerData? && !IsEmpty(rect) && i < |d.children| && IsEmpty(Strips(d, rect, cell)[i])
    ensures Size(Strips(d, rect, cell)[i]) == 0
  {
    DivisionFits(d.children, Extent(d.dir, rect), CellAlong(d.dir, cell));
  }

  // ---------------------------------------------------------------- parts

  /** What the parts before the k-th show lies below other children than what it shows. */
  lemma PartApart(m: Nodes, id: Uuid, strips: seq<Rect>, cell: CellSize, k: nat, x: Uuid)
    requires Layoutable(m) && id in m && k < |Kids(m[id].data)| == |strips|
    requires x in Union(Parts(m, id, strips, cell), k)
    ensures x !in Parts(m, id, strips, cell)[k]
  {
    hide Acyclic, StacksActive, ZoomsInside, Parts, ParentLinks;
    var i := UnionFrom(Parts(m, id, strips, cell), k, x);
    PartPlaced(m, id, strips, cell, i);
    PartPlaced(m, id, strips, cell, k);
    if x in Parts(m, id, strips, cell)[k] {
      SiblingsDisjoint(m, Kids(m[id].data)[i].id, Kids(m[id].data)[k].id, x);
    }
  }

  lemma {:induction false} PartsArea(m: Nodes, id: Uuid, strips: seq<Rect>, cell: CellSize, k: nat)
    requires Layoutable(m) && id in m && k <= |Kids(m[id].data)| == |strips|
    requires forall j :: 0 <= j < k ==> LeafArea(m, Parts(m, id, strips, cell)[j]) == Size(strips[j])
    ensures LeafArea(m, Union(Parts(m, id, strips, cell), k)) == StripsArea(strips, k)
  {
    hide Layoutable, Parts, Area;
    var parts := Parts(m, id, strips, cell);
    if k == 0 {
      NothingShown(m);
    } else {
      PartsArea(m, id, strips, cell, k - 1);
      var before, last := Union(parts, k - 1), parts[k - 1];
      forall x | x in before ensures x !in last { PartApart(m, id, strips, cell, k - 1, x); }
      LeafAreaSum(m, before, last);
    }
  }

  lemma NothingShown(m: Nodes)
    ensures LeafArea(m, map[]) == 0
  {
    assert Leaves(m, map[]) == {};
  }

  lemma LeafAreaSum(m: Nodes, a: map<Uuid, Rect>, b: map<Uuid, Rect>)
    requires a.Keys !! b.Keys
    ensures LeafArea(m, a + b) == LeafArea(m, a) + LeafArea(m, b)
  {
    hide Area;
    assert Leaves(m, a + b) == Leaves(m, a) + Leaves(m, b);
    AreaUnion(a + b, Leaves(m, a), Leaves(m, b));
    AreaSame(a + b, a, Leaves(m, a));
    AreaSame(a + b, b, Leaves(m, b));
  }

  /** An inner node's own rectangle does not count. */
  lemma InnerAdds(m: Nodes, id: Uuid, rect: Rect, out: map<Uuid, Rect>)
    requires id in m && !IsLeaf(m[id].data)
    ensures LeafArea(m, map[id := rect] + out) == LeafArea(m, out)
  {
    hide Area;
    assert Leaves(m, map[id := rect] + out) == Leaves(m, out);
    AreaSame(map[id := rect] + out, out, Leaves(m, out));
  }

  lemma LeafAlone(m: Nodes, id: Uuid, rect: Rect)
    requires id in m && IsLeaf(m[id].data)
    ensures LeafArea(m, map[id := rect]) == Size(rect)
  {
    assert Leaves(m, map[id := rect]) == {id};
    AreaRemove(map[id := rect], {id}, id);
    assert {id} - {id} == {};
  }

  lemma {:induction false} PartInUnion(parts: seq<map<Uuid, Rect>>, k: nat, i: nat, x: Uuid)
    requires i < k <= |parts| && x in parts[i]
    ensures x in Union(parts, k)
  {
    if i < k - 1 { PartInUnion(parts, k - 1, i, x); }
  }

  lemma PartFillsUp(m: Nodes, id: Uuid, rect: Rect, cell: CellSize, i: nat)
    requires Layoutable(m) && id in m && m[id].data.ContainerData? && i < |m[id].data.children|
    requires FillsUp(m, Rects(m, id, rect, cell))
    ensures FillsUp(m, Parts(m, id, Strips(m[id].data, rect, cell), cell)[i])
  {
    hide Layoutable, Parts, Strips;
    var parts := Parts(m, id, Strips(m[id].data, rect, cell), cell);
    forall x | x in parts[i] ensures x in Rects(m, id, rect, cell) {
      PartInUnion(parts, |parts|, i, x);
    }
  }

  // ---------------------------------------------------------------- the whole layout

  lemma {:induction false} RectsArea(m: Nodes, id: Uuid, rect: Rect, cell: CellSize)
    requires Layoutable(m) && id in m && !IsEmpty(rect) && FillsUp(m, Rects(m, id, rect, cell))
    ensures LeafArea(m, Rects(m, id, rect, cell)) == Size(rect)
    decreases RankOf(m, id), 1
  {
    hide Layoutable, Size, LeafArea, Strips;
    var d := m[id].data;
    assert id in Rects(m, id, rect, cell);
    if d.ContainerData? {
      var strips := Strips(d, rect, cell);
      forall i | 0 <= i < |strips| ensures LeafArea(m, Parts(m, id, strips, cell)[i]) == Size(strips[i]) {
        PartArea(m, id, rect, cell, i);
      }
      PartsArea(m, id, strips, cell, |strips|);
      StripsUseAll(d, rect, cell);
      InnerAdds(m, id, rect, Union(Parts(m, id, strips, cell), |strips|));
    } else if d.StackData? {
      ShownBelow(m, id);
      ShownFillsUp(m, id, rect, cell);
      RectsArea(m, Shown(d), rect, cell);
      InnerAdds(m, id, rect, Rects(m, Shown(d), rect, cell));
    } else {
      LeafAlone(m, id, rect);
    }
  }

  lemma ShownFillsUp(m: Nodes, id: Uuid, rect: Rect, cell: CellSize)
    requires Layoutable(m) && id in m && m[id].data.StackData? && Shown(m[id].data) != NIL
    requires FillsUp(m, Rects(m, id, rect, cell))
    ensures Shown(m[id].data) in m && FillsUp(m, Rects(m, Shown(m[id].data), rect, cell))
  {
    hide Layoutable;
    ShownBelow(m, id);
    var sub := Rects(m, Shown(m[id].data), rect, cell);
    assert Rects(m, id, rect, cell) == map[id := rect] + sub;
  }

  lemma {:induction false} PartArea(m: Nodes, id: Uuid, rect: Rect, cell: CellSize, i: nat)
    requires Layoutable(m) && id in m && m[id].data.ContainerData? && i < |m[id].data.children| && !IsEmpty(rect)
    requires FillsUp(m, Rects(m, id, rect, cell))
    ensures var strips := Strips(m[id].data, rect, cell);
      LeafArea(m, Parts(m, id, strips, cell)[i]) == Size(strips[i])
    decreases RankOf(m, id), 0
  {
    hide Acyclic, StacksActive, ZoomsInside, ParentLinks, NoTwins, Size, LeafArea, Strips, FillsUp;
    var strips := Strips(m[id].data, rect, cell);
    ChildBelow(m, id, i);
    PartFillsUp(m, id, rect, cell, i);
    if IsEmpty(strips[i]) {
      EmptyStrip(m[id].data, rect, cell, i);
      NothingShown(m);
    } else {
      RectsArea(m, m[id].data.children[i].id, strips[i], cell);
    }
  }

  /** When every visible Container has a flexible child and every visible Stack shows one,
      the areas of the visible leaves add up to the window's. */
  lemma AreasAddUp(m: Nodes, start: Uuid, window: Rect, cell: CellSize)
    requires Layoutable(m) && start in m && !IsEmpty(window)
    requires FillsUp(m, ComputeRects(m, start, window, cell))
    ensures LeafArea(m, ComputeRects(m, start, window, cell)) == window.w * window.h
  {
    hide Layoutable, LeafArea;
    assert start != NIL by { LiveStart(m, start); }
    RectsArea(m, start, window, cell);
  }

  lemma LiveStart(m: Nodes, start: Uuid)
    requires Layoutable(m) && start in m
    ensures start != NIL
  {
  }
}
