/** What a split does to the layout (src/LayoutTree.cpp:665-704): the wrapper stands where
    the split pane stood, nothing else moves, and the two panes share its rectangle. */
module SplitLayout {
  import opened Forest
  import opened Ancestry
  import opened SpaceDivision
  import opened TreeEdits
  import opened TreeReshape
  import opened Layout
  import opened LayoutFacts
  import opened LeafSwap
  import opened EdgeResize
  import opened EdgeShares
  import Zooms

  /** The nodes that hang below the wrapper after the split. */
  ghost function Inside(m: Nodes, existing: Uuid, incoming: Uuid): set<Uuid>
    requires Acyclic(m)
  {
    Subtree(m, existing) + Subtree(m, incoming)
  }

  function Away(out: map<Uuid, Rect>, inside: set<Uuid>): map<Uuid, Rect> {
    map x | x in out && x !in inside :: out[x]
  }

  /** The layout outside, with `wrapper` in the place of `existing`. */
  function Stood(out: map<Uuid, Rect>, inside: set<Uuid>, existing: Uuid, wrapper: Uuid): map<Uuid, Rect> {
    if existing in out then Away(out, inside)[wrapper := out[existing]] else Away(out, inside)
  }

  ghost predicate Splits(m: Nodes, n: Nodes, existing: Uuid, dir: SplitDir, incoming: Uuid, first: bool, wrapper: Uuid) {
    && SplitSafe(m, existing, incoming, wrapper) && Layoutable(m) && Inv(n) && Layoutable(n)
    && SplitShape(m, n, existing, dir, incoming, first, wrapper)
  }

  // ---------------------------------------------------------------- what lies where

  lemma InsideClosed(m: Nodes, existing: Uuid, incoming: Uuid, x: Uuid)
    requires Acyclic(m) && Linked(m) && x in m && m[x].parent in Inside(m, existing, incoming)
    ensures x in Inside(m, existing, incoming)
  {
    hide ChildLinks, ParentLinks, NoTwins;
  }

  lemma PointOutside(m: Nodes, existing: Uuid, incoming: Uuid, wrapper: Uuid)
    requires SplitSafe(m, existing, incoming, wrapper)
    ensures m[existing].parent in m && m[existing].parent !in Inside(m, existing, incoming) && existing != incoming && existing != NIL
    ensures existing in Inside(m, existing, incoming) && incoming in Inside(m, existing, incoming) && wrapper !in Inside(m, existing, incoming)
  {
    hide ChildLinks, NoTwins, StacksActive, ZoomsLive;
    ParentNotBelow(m, existing);
    BelowItself(m, existing);
    BelowItself(m, incoming);
  }

  /** Nothing outside hangs below the wrapper. */
  lemma {:induction false} OutsideStays(m: Nodes, n: Nodes, existing: Uuid, dir: SplitDir, incoming: Uuid, first: bool, wrapper: Uuid, a: Uuid, x: Uuid)
    requires Splits(m, n, existing, dir, incoming, first, wrapper)
    requires x in m && x !in Inside(m, existing, incoming) && (a == wrapper || a in Inside(m, existing, incoming))
    ensures !Contains(n, a, x)
    decreases Above(n, x)
  {
    hide Layoutable, ChildLinks, NoTwins, StacksActive, ZoomsLive, Acyclic, Inside;
    PointOutside(m, existing, incoming, wrapper);
    assert n[x].parent == m[x].parent;
    if m[x].parent in m {
      if m[x].parent in Inside(m, existing, incoming) { InsideClosed(m, existing, incoming, x); }
      assert m[x].parent in Above(n, x);
      OutsideStays(m, n, existing, dir, incoming, first, wrapper, a, m[x].parent);
    }
  }

  lemma BelowWrapper(m: Nodes, n: Nodes, existing: Uuid, dir: SplitDir, incoming: Uuid, first: bool, wrapper: Uuid, x: Uuid)
    requires Splits(m, n, existing, dir, incoming, first, wrapper) && x in n && Contains(n, wrapper, x)
    ensures x == wrapper || x in Inside(m, existing, incoming)
  {
    hide ChildLinks, ParentLinks, NoTwins, StacksActive, ZoomsLive, Acyclic, ZoomsInside, Inside, Contains;
    if x != wrapper && x !in Inside(m, existing, incoming) {
      OutsideStays(m, n, existing, dir, incoming, first, wrapper, wrapper, x);
    }
  }

  lemma BelowInside(m: Nodes, n: Nodes, existing: Uuid, dir: SplitDir, incoming: Uuid, first: bool, wrapper: Uuid, a: Uuid, x: Uuid)
    requires Splits(m, n, existing, dir, incoming, first, wrapper) && x in n && a in Inside(m, existing, incoming) && Contains(n, a, x)
    ensures x in Inside(m, existing, incoming)
  {
    hide Layoutable, ChildLinks, ParentLinks, NoTwins, StacksActive, ZoomsLive, Acyclic, Inside;
    PointOutside(m, existing, incoming, wrapper);
    if x !in Inside(m, existing, incoming) {
      OutsideStays(m, n, existing, dir, incoming, first, wrapper, a, if x == wrapper then m[existing].parent else x);
    }
  }

  // ---------------------------------------------------------------- pieces of a layout

  lemma AwayAppend(u: map<Uuid, Rect>, v: map<Uuid, Rect>, inside: set<Uuid>)
    ensures Away(u + v, inside) == Away(u, inside) + Away(v, inside)
  {
  }

  lemma StoodAppend(u: map<Uuid, Rect>, v: map<Uuid, Rect>, inside: set<Uuid>, existing: Uuid, wrapper: Uuid)
    requires wrapper !in u && wrapper !in v
    ensures Stood(u + v, inside, existing, wrapper) == Stood(u, inside, existing, wrapper) + Stood(v, inside, existing, wrapper)
  {
    hide Away;
    AwayAppend(u, v, inside);
    AwayKeys(u, inside);
    AwayKeys(v, inside);
  }

  lemma AwayKeys(out: map<Uuid, Rect>, inside: set<Uuid>)
    ensures Away(out, inside).Keys == out.Keys - inside
  {
  }

  lemma {:induction false} UnionStood(us: seq<map<Uuid, Rect>>, vs: seq<map<Uuid, Rect>>, k: nat, inside: set<Uuid>, existing: Uuid, wrapper: Uuid)
    requires k <= |us| == |vs|
    requires forall i :: 0 <= i < k ==> Away(vs[i], inside) == Stood(us[i], inside, existing, wrapper) && wrapper !in us[i]
    ensures Away(Union(vs, k), inside) == Stood(Union(us, k), inside, existing, wrapper) && wrapper !in Union(us, k)
  {
    if k == 0 {
      assert Away(map[], inside) == map[];
    } else {
      hide Away, Stood;
      UnionStood(us, vs, k - 1, inside, existing, wrapper);
      AwayAppend(Union(vs, k - 1), vs[k - 1], inside);
      StoodAppend(Union(us, k - 1), us[k - 1], inside, existing, wrapper);
    }
  }

  lemma StoodOne(id: Uuid, rect: Rect, u: map<Uuid, Rect>, v: map<Uuid, Rect>, inside: set<Uuid>, existing: Uuid, wrapper: Uuid)
    requires Away(v, inside) == Stood(u, inside, existing, wrapper) && wrapper !in u
    requires id !in inside && id != wrapper && existing in inside
    ensures Away(map[id := rect] + v, inside) == Stood(map[id := rect] + u, inside, existing, wrapper)
  {
    AwayAppend(map[id := rect], v, inside);
    StoodAppend(map[id := rect], u, inside, existing, wrapper);
    assert Away(map[id := rect], inside) == map[id := rect];
  }

  lemma AllInside(out: map<Uuid, Rect>, inside: set<Uuid>)
    requires forall x :: x in out ==> x in inside
    ensures Away(out, inside) == map[]
  {
  }

  // ---------------------------------------------------------------- the split point

  /** The pane alone before, and the wrapper alone after, as seen from outside. */
  lemma PointStood(m: Nodes, n: Nodes, existing: Uuid, dir: SplitDir, incoming: Uuid, first: bool, wrapper: Uuid, rect: Rect, cell: CellSize)
    requires Splits(m, n, existing, dir, incoming, first, wrapper) && !IsEmpty(rect)
    ensures var inside := Inside(m, existing, incoming);
      Away(Rects(n, wrapper, rect, cell), inside) == Stood(Rects(m, existing, rect, cell), inside, existing, wrapper) == map[wrapper := rect]
  {
    hide Acyclic, Linked, StacksActive, ZoomsLive, ZoomsInside, Rects, Inside, SplitShape;
    var inside := Inside(m, existing, incoming);
    PointOutside(m, existing, incoming, wrapper);
    WrapperAlive(m, n, existing, dir, incoming, first, wrapper);
    RectsOwn(m, existing, rect, cell);
    RectsPlaced(m, existing, rect, cell);
    RectsOwn(n, wrapper, rect, cell);
    RectsPlaced(n, wrapper, rect, cell);
    forall x | x in Rects(m, existing, rect, cell) ensures x in inside { ExistingInside(m, existing, incoming, x); }
    AllInside(Rects(m, existing, rect, cell), inside);
    forall x | x in Rects(n, wrapper, rect, cell) ensures x == wrapper || x in inside {
      BelowWrapper(m, n, existing, dir, incoming, first, wrapper, x);
    }
    assert Away(Rects(n, wrapper, rect, cell), inside) == map[wrapper := rect];
  }

  lemma ExistingInside(m: Nodes, existing: Uuid, incoming: Uuid, x: Uuid)
    requires Acyclic(m) && x in m && (Contains(m, existing, x) || Contains(m, incoming, x))
    ensures x in Inside(m, existing, incoming)
  {
  }

  lemma WrapperAlive(m: Nodes, n: Nodes, existing: Uuid, dir: SplitDir, incoming: Uuid, first: bool, wrapper: Uuid)
    requires CanSplit(m, existing, incoming) && SplitShape(m, n, existing, dir, incoming, first, wrapper)
    ensures wrapper in n
  {
  }

  /** A zoom from above into the split pane shows nothing but what is inside. */
  lemma ZoomedInto(m: Nodes, n: Nodes, existing: Uuid, dir: SplitDir, incoming: Uuid, first: bool, wrapper: Uuid, t: Uuid, rect: Rect, cell: CellSize)
    requires Splits(m, n, existing, dir, incoming, first, wrapper) && !IsEmpty(rect)
    requires t in m && Contains(m, existing, t) && t != existing
    ensures var inside := Inside(m, existing, incoming);
      Away(Rects(n, t, rect, cell), inside) == Stood(Rects(m, t, rect, cell), inside, existing, wrapper)
  {
    hide Acyclic, Linked, StacksActive, ZoomsLive, ZoomsInside, Rects, Inside, SplitShape;
    var inside := Inside(m, existing, incoming);
    ExistingInside(m, existing, incoming, t);
    StillThere(m, n, existing, dir, incoming, first, wrapper, t);
    RectsPlaced(m, t, rect, cell);
    RectsPlaced(n, t, rect, cell);
    forall x | x in Rects(m, t, rect, cell) ensures x in inside && x != existing {
      ContainsTransitive(m, existing, t, x);
      ExistingInside(m, existing, incoming, x);
      if x == existing { ContainsInForest(m, t, existing); ContainsInForest(m, existing, t); }
    }
    forall x | x in Rects(n, t, rect, cell) ensures x in inside {
      BelowInside(m, n, existing, dir, incoming, first, wrapper, t, x);
    }
    AllInside(Rects(m, t, rect, cell), inside);
    AllInside(Rects(n, t, rect, cell), inside);
  }

  lemma StillThere(m: Nodes, n: Nodes, existing: Uuid, dir: SplitDir, incoming: Uuid, first: bool, wrapper: Uuid, x: Uuid)
    requires CanSplit(m, existing, incoming) && SplitShape(m, n, existing, dir, incoming, first, wrapper) && x in m
    ensures x in n
  {
  }

  /** The name that stands in the place of a node after the split. */
  function Stands(existing: Uuid, wrapper: Uuid, x: Uuid): Uuid { if x == existing then wrapper else x }

  /** The parent of the split pane keeps its places: with the pane's weights, if it is a
      Container, the wrapper stands where the pane stood. */
  lemma SplitKeepsPlaces(m: Nodes, n: Nodes, existing: Uuid, dir: SplitDir, incoming: Uuid, first: bool, wrapper: Uuid)
    requires SplitSafe(m, existing, incoming, wrapper) && SplitShape(m, n, existing, dir, incoming, first, wrapper)
    ensures var p := m[existing].parent;
      && p in m && p in n && IsBranch(m[p].data) && IsBranch(n[p].data)
      && var was, now := Kids(m[p].data), Kids(n[p].data);
      && |now| == |was|
      && (forall i :: 0 <= i < |was| ==> now[i].id == Stands(existing, wrapper, was[i].id))
      && (m[p].data.ContainerData? ==>
            && n[p].data.ContainerData? && n[p].data.dir == m[p].data.dir
            && forall i :: 0 <= i < |was| ==>
                 && now[i].stretch == was[i].stretch && now[i].minCells == was[i].minCells
                 && now[i].maxCells == was[i].maxCells && now[i].fixedCells == was[i].fixedCells)
      && (m[p].data.StackData? ==>
            && n[p].data.StackData? && n[p].data.zoomTarget == m[p].data.zoomTarget
            && n[p].data.activeChild == Stands(existing, wrapper, m[p].data.activeChild))
  {
    hide StacksActive, ZoomsLive, Acyclic, ChildLinks, Contains;
    var p := m[existing].parent;
    var was := Kids(m[p].data);
    var at := IndexOf(was, existing);
    TwinFree(m, p);
    forall i | 0 <= i < |was| && i != at ensures was[i].id != existing {
      if i < at { assert was[i].id != was[at].id; } else { assert was[at].id != was[i].id; }
    }
    hide IndexOf;
  }

  // ---------------------------------------------------------------- the layout outside

  /** A child of a node outside is outside, or the split pane itself. */
  lemma KidOutside(m: Nodes, existing: Uuid, incoming: Uuid, id: Uuid, i: nat)
    requires Acyclic(m) && Linked(m) && CanSplit(m, existing, incoming) && id in m && i < |Kids(m[id].data)|
    requires id !in Inside(m, existing, incoming)
    ensures var kid := Kids(m[id].data)[i].id;
      kid in m && m[kid].parent == id && (kid == existing || kid !in Inside(m, existing, incoming))
  {
    hide ParentLinks, NoTwins;
    var kid := Kids(m[id].data)[i].id;
    assert m[kid].parent == id;
  }

  lemma PartStood(m: Nodes, n: Nodes, existing: Uuid, dir: SplitDir, incoming: Uuid, first: bool, wrapper: Uuid, kid: Uuid, rect: Rect, cell: CellSize)
    requires Splits(m, n, existing, dir, incoming, first, wrapper)
    requires kid in m && (kid == existing || kid !in Inside(m, existing, incoming)) && !IsEmpty(rect)
    requires kid != existing ==> !Held(m, Rects(m, kid, rect, cell), existing)
    ensures var inside := Inside(m, existing, incoming);
      && Away(Rects(n, Stands(existing, wrapper, kid), rect, cell), inside) == Stood(Rects(m, kid, rect, cell), inside, existing, wrapper)
    decreases RankOf(m, kid), 2
  {
    hide Acyclic, Linked, StacksActive, ZoomsLive, ZoomsInside, Rects, Inside, SplitShape, Held, Away, Stood;
    if kid == existing {
      PointStood(m, n, existing, dir, incoming, first, wrapper, rect, cell);
    } else {
      SplitRects(m, n, existing, dir, incoming, first, wrapper, kid, rect, cell);
    }
  }

  lemma NothingStood(inside: set<Uuid>, existing: Uuid, wrapper: Uuid)
    ensures Away(map[], inside) == Stood(map[], inside, existing, wrapper)
  {
  }

  lemma FreshUnseen(m: Nodes, id: Uuid, rect: Rect, cell: CellSize, wrapper: Uuid)
    requires Layoutable(m) && id in m && !IsEmpty(rect) && wrapper !in m
    ensures wrapper !in Rects(m, id, rect, cell)
  {
    hide Acyclic, Linked, StacksActive, ZoomsInside, Rects;
    RectsPlaced(m, id, rect, cell);
  }

  /** Seen from outside, the layout after the split is the one before, with the wrapper in
      the place of the pane. */
  lemma {:induction false} SplitRects(m: Nodes, n: Nodes, existing: Uuid, dir: SplitDir, incoming: Uuid, first: bool, wrapper: Uuid, id: Uuid, rect: Rect, cell: CellSize)
    requires Splits(m, n, existing, dir, incoming, first, wrapper)
    requires !IsEmpty(rect) && id in m && !Held(m, Rects(m, id, rect, cell), existing)
    requires id in m && id !in Inside(m, existing, incoming) && !IsEmpty(rect)
    ensures var inside := Inside(m, existing, incoming);
      Away(Rects(n, id, rect, cell), inside) == Stood(Rects(m, id, rect, cell), inside, existing, wrapper)
    decreases RankOf(m, id), 1
  {
    hide Acyclic, Linked, StacksActive, ZoomsLive, ZoomsInside, Inside, SplitShape, Away, Stood, Held;
    var inside := Inside(m, existing, incoming);
    PointOutside(m, existing, incoming, wrapper);
    Unmoved(m, n, existing, dir, incoming, first, wrapper, id);
    var d := m[id].data;
    if d.ContainerData? {
      ContainerStood(m, n, existing, dir, incoming, first, wrapper, id, rect, cell);
    } else if d.StackData? && Shown(d) != NIL {
      StackStood(m, n, existing, dir, incoming, first, wrapper, id, rect, cell);
    } else {
      NothingStood(inside, existing, wrapper);
      StoodOne(id, rect, map[], map[], inside, existing, wrapper);
      assert map[id := rect] + map[] == map[id := rect];
    }
  }

  /** A node outside looks as before, but for the name of the wrapper. */
  lemma Unmoved(m: Nodes, n: Nodes, existing: Uuid, dir: SplitDir, incoming: Uuid, first: bool, wrapper: Uuid, id: Uuid)
    requires Splits(m, n, existing, dir, incoming, first, wrapper)
    requires id in m && id !in Inside(m, existing, incoming)
    ensures id in n && id != wrapper && id != existing && id != incoming
    ensures var d, e := m[id].data, n[id].data;
      && (d.ContainerData? ==>
            && e.ContainerData? && e.dir == d.dir && SameWeights(d.children, e.children)
            && forall i :: 0 <= i < |d.children| ==> e.children[i].id == Stands(existing, wrapper, d.children[i].id))
      && (d.StackData? ==>
            e.StackData? && e.zoomTarget == d.zoomTarget && (d.zoomTarget == NIL ==> e.activeChild == Stands(existing, wrapper, d.activeChild)))
      && (!IsBranch(d) ==> e == d)
  {
    hide Acyclic, ParentLinks, NoTwins, StacksActive, ZoomsLive, ZoomsInside, Contains, IndexOf, Inside;
    PointOutside(m, existing, incoming, wrapper);
    if id == m[existing].parent {
      SplitKeepsPlaces(m, n, existing, dir, incoming, first, wrapper);
    } else {
      NotMine(m, id, existing);
      assert n[id] == m[id];
      if m[id].data.ContainerData? { assert Kids(m[id].data) == m[id].data.children; }
    }
  }

  lemma NotMine(m: Nodes, id: Uuid, existing: Uuid)
    requires Linked(m) && StacksActive(m) && id in m && existing in m && m[existing].parent != id
    ensures forall i :: 0 <= i < |Kids(m[id].data)| ==> Kids(m[id].data)[i].id != existing
    ensures m[id].data.StackData? && m[id].data.activeChild == existing ==> existing == NIL
  {
    if m[id].data.StackData? && m[id].data.children != [] {
      assert Kids(m[id].data) == m[id].data.children;
      var i := IndexOf(Kids(m[id].data), m[id].data.activeChild);
      assert m[Kids(m[id].data)[i].id].parent == id;
    }
  }

  lemma {:induction false} ContainerStood(m: Nodes, n: Nodes, existing: Uuid, dir: SplitDir, incoming: Uuid, first: bool, wrapper: Uuid, id: Uuid, rect: Rect, cell: CellSize)
    requires Splits(m, n, existing, dir, incoming, first, wrapper)
    requires !IsEmpty(rect) && id in m && !Held(m, Rects(m, id, rect, cell), existing)
    requires id in m && id !in Inside(m, existing, incoming) && !IsEmpty(rect) && m[id].data.ContainerData?
    ensures var inside := Inside(m, existing, incoming);
      Away(Rects(n, id, rect, cell), inside) == Stood(Rects(m, id, rect, cell), inside, existing, wrapper)
    decreases RankOf(m, id), 0
  {
    hide Acyclic, Linked, StacksActive, ZoomsLive, ZoomsInside, Inside, SplitShape, Away, Stood, Held;
    var inside := Inside(m, existing, incoming);
    PointOutside(m, existing, incoming, wrapper);
    Unmoved(m, n, existing, dir, incoming, first, wrapper, id);
    var strips := Strips(m[id].data, rect, cell);
    StripsSame(m[id].data, n[id].data, rect, cell);
    hide Strips;
    var us, vs := Parts(m, id, strips, cell), Parts(n, id, strips, cell);
    forall i | 0 <= i < |strips| ensures Away(vs[i], inside) == Stood(us[i], inside, existing, wrapper) && wrapper !in us[i] {
      KidOutside(m, existing, incoming, id, i);
      ChildBelow(m, id, i);
      if IsEmpty(strips[i]) {
        NothingStood(inside, existing, wrapper);
      } else {
        PartUnheld(m, id, rect, cell, i, existing);
        FreshUnseen(m, Kids(m[id].data)[i].id, strips[i], cell, wrapper);
        PartStood(m, n, existing, dir, incoming, first, wrapper, Kids(m[id].data)[i].id, strips[i], cell);
      }
    }
    UnionStood(us, vs, |strips|, inside, existing, wrapper);
    StoodOne(id, rect, Union(us, |strips|), Union(vs, |strips|), inside, existing, wrapper);
  }

  lemma {:induction false} StackStood(m: Nodes, n: Nodes, existing: Uuid, dir: SplitDir, incoming: Uuid, first: bool, wrapper: Uuid, id: Uuid, rect: Rect, cell: CellSize)
    requires Splits(m, n, existing, dir, incoming, first, wrapper)
    requires !IsEmpty(rect) && id in m && !Held(m, Rects(m, id, rect, cell), existing)
    requires id in m && id !in Inside(m, existing, incoming) && !IsEmpty(rect) && m[id].data.StackData? && Shown(m[id].data) != NIL
    ensures var inside := Inside(m, existing, incoming);
      Away(Rects(n, id, rect, cell), inside) == Stood(Rects(m, id, rect, cell), inside, existing, wrapper)
    decreases RankOf(m, id), 0
  {
    hide Acyclic, Linked, StacksActive, ZoomsLive, ZoomsInside, Inside, SplitShape, Away, Stood, Held;
    var inside, t := Inside(m, existing, incoming), Shown(m[id].data);
    PointOutside(m, existing, incoming, wrapper);
    Unmoved(m, n, existing, dir, incoming, first, wrapper, id);
    ShownBelow(m, id);
    FreshUnseen(m, t, rect, cell, wrapper);
    ShownUnheld(m, id, rect, cell, existing);
    ShownOutside(m, existing, incoming, wrapper, id);
    if t == existing || t !in inside {
      PartStood(m, n, existing, dir, incoming, first, wrapper, t, rect, cell);
    } else {
      ZoomedInto(m, n, existing, dir, incoming, first, wrapper, t, rect, cell);
    }
    StoodOne(id, rect, Rects(m, t, rect, cell), Rects(n, Shown(n[id].data), rect, cell), inside, existing, wrapper);
  }

  lemma HeldMore(m: Nodes, u: map<Uuid, Rect>, v: map<Uuid, Rect>, x: Uuid)
    requires u.Keys <= v.Keys
    ensures Held(m, u, x) ==> Held(m, v, x)
  {
  }

  /** What does not hold a node in the whole does not in a part. */
  lemma PartUnheld(m: Nodes, id: Uuid, rect: Rect, cell: CellSize, i: nat, x: Uuid)
    requires Layoutable(m) && id in m && m[id].data.ContainerData? && !IsEmpty(rect) && !Held(m, Rects(m, id, rect, cell), x)
    requires i < |Kids(m[id].data)| && !IsEmpty(Strips(m[id].data, rect, cell)[i])
    ensures Kids(m[id].data)[i].id in m && !Held(m, Rects(m, Kids(m[id].data)[i].id, Strips(m[id].data, rect, cell)[i], cell), x)
  {
    hide Acyclic, Linked, StacksActive, ZoomsInside, Strips;
    var strips := Strips(m[id].data, rect, cell);
    ChildAlive(m, id, i);
    var part, out := Parts(m, id, strips, cell)[i], Rects(m, id, rect, cell);
    forall y | y in part ensures y in out { PartKept(m, id, strips, cell, i, y); }
    HeldMore(m, part, out, x);
  }

  lemma ShownUnheld(m: Nodes, id: Uuid, rect: Rect, cell: CellSize, x: Uuid)
    requires Layoutable(m) && id in m && m[id].data.StackData? && Shown(m[id].data) != NIL && !Held(m, Rects(m, id, rect, cell), x)
    ensures m[id].data.zoomTarget != x && !Held(m, Rects(m, Shown(m[id].data), rect, cell), x)
  {
    hide Layoutable;
    var out := Rects(m, id, rect, cell);
    assert id in out;
    HeldMore(m, Rects(m, Shown(m[id].data), rect, cell), out, x);
  }

  lemma ShownOutside(m: Nodes, existing: Uuid, incoming: Uuid, wrapper: Uuid, id: Uuid)
    requires SplitSafe(m, existing, incoming, wrapper) && Layoutable(m) && (id in m && m[id].data.StackData? ==> m[id].data.zoomTarget != existing)
    requires id in m && id !in Inside(m, existing, incoming) && m[id].data.StackData? && Shown(m[id].data) != NIL
    ensures var t := Shown(m[id].data);
      && (t in Inside(m, existing, incoming) && t != existing ==> Contains(m, existing, t))
      && (t == existing || t in Inside(m, existing, incoming) ==> t != existing || m[id].data.zoomTarget == NIL)
      && (m[id].data.zoomTarget == NIL && t != existing ==> t !in Inside(m, existing, incoming))
  {
    hide ChildLinks, ParentLinks, NoTwins, ZoomsLive, Acyclic, StacksActive, ZoomsInside, Contains;
    var t := Shown(m[id].data);
    ShownBelow(m, id);
    if Contains(m, incoming, t) { RootHolds(m, incoming, id, t); }
    if m[id].data.zoomTarget == NIL {
      ActiveKid(m, id);
      KidOutside(m, existing, incoming, id, IndexOf(Kids(m[id].data), t));
    }
  }

  lemma ActiveKid(m: Nodes, id: Uuid)
    requires StacksActive(m) && id in m && m[id].data.StackData? && m[id].data.activeChild != NIL
    ensures HasId(Kids(m[id].data), m[id].data.activeChild)
  {
    assert Kids(m[id].data) == m[id].data.children;
  }

  /** A root that shares a node with another tree's node contains that. */
  lemma RootHolds(m: Nodes, r: Uuid, id: Uuid, t: Uuid)
    requires Inv(m) && r in m && m[r].parent == NIL && id in m && t in m && Contains(m, r, t) && Contains(m, id, t)
    ensures Contains(m, r, id)
  {
    hide ChildLinks, NoTwins, StacksActive, ZoomsLive;
    AncestorsComparable(m, r, id, t);
  }

  // ---------------------------------------------------------------- a pane that a visible Stack zooms on

  /** The data inside the panes and away from the split point are as they were. */
  lemma SameAway(m: Nodes, n: Nodes, existing: Uuid, dir: SplitDir, incoming: Uuid, first: bool, wrapper: Uuid, id: Uuid, rect: Rect, cell: CellSize)
    requires Splits(m, n, existing, dir, incoming, first, wrapper) && id in m && !Contains(m, id, m[existing].parent)
    ensures Rects(n, id, rect, cell) == Rects(m, id, rect, cell)
  {
    hide Acyclic, Linked, StacksActive, ZoomsLive, ZoomsInside, Contains, IndexOf;
    RectsSame(m, n, id, rect, cell);
  }

  lemma SplitPointBelow(m: Nodes, existing: Uuid, s: Uuid)
    requires Inv(m) && existing in m && s in m && s != existing && Contains(m, s, existing)
    ensures m[existing].parent in m && Contains(m, s, m[existing].parent) && !Contains(m, existing, s)
  {
    hide ChildLinks, NoTwins, StacksActive, ZoomsLive;
    if Contains(m, existing, s) {
      ContainsInForest(m, existing, s);
      ContainsInForest(m, s, existing);
    }
  }

  lemma AboveOutside(m: Nodes, existing: Uuid, incoming: Uuid, wrapper: Uuid, s: Uuid, id: Uuid)
    requires SplitSafe(m, existing, incoming, wrapper) && s in m && id in m
    requires s != existing && Contains(m, s, existing) && Contains(m, id, s)
    ensures id !in Inside(m, existing, incoming) && id != existing && Contains(m, id, m[existing].parent)
  {
    hide ChildLinks, ParentLinks, NoTwins, StacksActive, ZoomsLive, Acyclic, Contains;
    SplitPointBelow(m, existing, s);
    ContainsTransitive(m, id, s, m[existing].parent);
    if Contains(m, existing, id) { ContainsTransitive(m, existing, id, s); }
    if Contains(m, incoming, id) { ContainsTransitive(m, incoming, id, m[existing].parent); }
  }

  /** Where a visible Stack zooms on the split pane nothing changes at all. */
  lemma {:induction false} HeldStays(m: Nodes, n: Nodes, existing: Uuid, dir: SplitDir, incoming: Uuid, first: bool, wrapper: Uuid, s: Uuid, id: Uuid, rect: Rect, cell: CellSize)
    requires Splits(m, n, existing, dir, incoming, first, wrapper) && id in m && !IsEmpty(rect)
    requires s in Rects(m, id, rect, cell) && s in m && m[s].data.StackData? && m[s].data.zoomTarget == existing
    ensures Rects(n, id, rect, cell) == Rects(m, id, rect, cell)
    decreases RankOf(m, id)
  {
    hide Acyclic, Linked, StacksActive, ZoomsLive, ZoomsInside, Inside, SplitShape;
    var d := m[id].data;
    PointOutside(m, existing, incoming, wrapper);
    ZoomHolds(m, s);
    RectsPlaced(m, id, rect, cell);
    AboveOutside(m, existing, incoming, wrapper, s, id);
    Unmoved(m, n, existing, dir, incoming, first, wrapper, id);
    if id == s {
      NotBelowItself(m, existing);
      SameAway(m, n, existing, dir, incoming, first, wrapper, existing, rect, cell);
    } else if d.ContainerData? {
      HeldParts(m, n, existing, dir, incoming, first, wrapper, s, id, rect, cell);
    } else {
      ShownBelow(m, id);
      RectsPlaced(m, Shown(d), rect, cell);
      AboveOutside(m, existing, incoming, wrapper, s, Shown(d));
      HeldStays(m, n, existing, dir, incoming, first, wrapper, s, Shown(d), rect, cell);
    }
  }

  lemma NotBelowItself(m: Nodes, existing: Uuid)
    requires Inv(m) && existing in m && m[existing].parent in m
    ensures !Contains(m, existing, m[existing].parent)
  {
    hide ChildLinks, NoTwins, StacksActive, ZoomsLive;
    ParentNotBelow(m, existing);
  }

  lemma ZoomHolds(m: Nodes, s: Uuid)
    requires Layoutable(m) && s in m && m[s].data.StackData? && m[s].data.zoomTarget != NIL
    ensures Contains(m, s, m[s].data.zoomTarget) && m[s].data.zoomTarget != s
  {
    hide StacksActive, Linked;
  }

  lemma {:induction false} HeldParts(m: Nodes, n: Nodes, existing: Uuid, dir: SplitDir, incoming: Uuid, first: bool, wrapper: Uuid, s: Uuid, id: Uuid, rect: Rect, cell: CellSize)
    requires Splits(m, n, existing, dir, incoming, first, wrapper) && id in m && !IsEmpty(rect) && m[id].data.ContainerData?
    requires s in Rects(m, id, rect, cell) && s in m && m[s].data.StackData? && m[s].data.zoomTarget == existing && s != existing
    requires Contains(m, s, existing) && id !in Inside(m, existing, incoming)
    ensures Rects(n, id, rect, cell) == Rects(m, id, rect, cell)
    decreases RankOf(m, id), 0
  {
    hide Acyclic, Linked, StacksActive, ZoomsLive, ZoomsInside, Inside, SplitShape;
    Unmoved(m, n, existing, dir, incoming, first, wrapper, id);
    var strips := Strips(m[id].data, rect, cell);
    StripsSame(m[id].data, n[id].data, rect, cell);
    hide Strips;
    var us, vs := Parts(m, id, strips, cell), Parts(n, id, strips, cell);
    var at := UnionFrom(us, |us|, s);
    PartPlaced(m, id, strips, cell, at);
    AboveOutside(m, existing, incoming, wrapper, s, Kids(m[id].data)[at].id);
    forall i | 0 <= i < |strips| ensures vs[i] == us[i] {
      ChildAlive(m, id, i);
      ChildBelow(m, id, i);
      HeldPart(m, existing, id, at, i);
      if i == at {
        HeldStays(m, n, existing, dir, incoming, first, wrapper, s, Kids(m[id].data)[i].id, strips[i], cell);
      } else {
        SameAway(m, n, existing, dir, incoming, first, wrapper, Kids(m[id].data)[i].id, strips[i], cell);
      }
    }
    assert us == vs;
  }

  lemma HeldPart(m: Nodes, existing: Uuid, id: Uuid, at: nat, i: nat)
    requires Inv(m) && existing in m && m[existing].parent in m && id in m && at < |Kids(m[id].data)| && i < |Kids(m[id].data)|
    requires Contains(m, Kids(m[id].data)[at].id, m[existing].parent)
    ensures i != at ==> !Contains(m, Kids(m[id].data)[i].id, m[existing].parent) && Kids(m[id].data)[i].id != existing
  {
    hide StacksActive, ZoomsLive, Acyclic;
    if i != at {
      SiblingsDisjoint(m, Kids(m[id].data)[at].id, Kids(m[id].data)[i].id, m[existing].parent);
      if Kids(m[id].data)[i].id == existing { NotBelowSibling(m, Kids(m[id].data)[at].id, existing); BelowParent(m, Kids(m[id].data)[at].id, existing); }
    }
  }

  lemma BelowParent(m: Nodes, a: Uuid, x: Uuid)
    requires Acyclic(m) && Linked(m) && x in m && m[x].parent in m && Contains(m, a, m[x].parent)
    ensures Contains(m, a, x)
  {
  }

  // ---------------------------------------------------------------- the law of a split

  lemma SplitSplits(m: Nodes, existing: Uuid, dir: SplitDir, incoming: Uuid, first: bool, wrapper: Uuid)
    requires SplitSafe(m, existing, incoming, wrapper) && Layoutable(m)
    ensures Splits(m, Split(m, existing, dir, incoming, first, wrapper), existing, dir, incoming, first, wrapper)
  {
    hide ChildLinks, ParentLinks, NoTwins, StacksActive, ZoomsLive, Acyclic, ZoomsInside, Contains, SplitShape, Split;
    SplitKeepsInv(m, existing, dir, incoming, first, wrapper);
    Zooms.SplitZooms(m, Split(m, existing, dir, incoming, first, wrapper), existing, dir, incoming, first, wrapper);
  }

  /** Every node outside keeps its entry, present or absent, and the wrapper has the one the
      split pane had. */
  ghost predicate StandsIn(m: Nodes, existing: Uuid, incoming: Uuid, wrapper: Uuid, was: map<Uuid, Rect>, now: map<Uuid, Rect>)
    requires Acyclic(m)
  {
    && (wrapper in now <==> existing in was) && (wrapper in now ==> now[wrapper] == was[existing])
    && forall x :: x in m && !Contains(m, existing, x) && !Contains(m, incoming, x) ==> SameEntry(x, was, now)
  }

  lemma StoodStands(m: Nodes, existing: Uuid, incoming: Uuid, wrapper: Uuid, was: map<Uuid, Rect>, now: map<Uuid, Rect>)
    requires SplitSafe(m, existing, incoming, wrapper)
    requires Away(now, Inside(m, existing, incoming)) == Stood(was, Inside(m, existing, incoming), existing, wrapper) && wrapper !in was
    ensures StandsIn(m, existing, incoming, wrapper, was, now)
  {
    hide ChildLinks, ParentLinks, NoTwins, StacksActive, ZoomsLive, Acyclic, Inside;
    var inside := Inside(m, existing, incoming);
    var away, stood := Away(now, inside), Stood(was, inside, existing, wrapper);
    PointOutside(m, existing, incoming, wrapper);
    assert wrapper in now <==> wrapper in away;
    forall x | x in m && !Contains(m, existing, x) && !Contains(m, incoming, x) ensures SameEntry(x, was, now) {
      Elsewhere(m, existing, incoming, x);
      assert x in away <==> x in stood;
    }
  }

  lemma Elsewhere(m: Nodes, existing: Uuid, incoming: Uuid, x: Uuid)
    requires Acyclic(m) && !Contains(m, existing, x) && !Contains(m, incoming, x)
    ensures x !in Inside(m, existing, incoming)
  {
  }

  /** A split does not make the layout lurch: where it starts inside one of the two panes, or
      a visible Stack zooms on the split one, nothing changes at all; otherwise the wrapper
      has the rectangle of the split pane and every node outside stays as it was. */
  lemma SplitKeepsLayout(m: Nodes, existing: Uuid, dir: SplitDir, incoming: Uuid, first: bool, wrapper: Uuid, start: Uuid, window: Rect, cell: CellSize)
    requires SplitSafe(m, existing, incoming, wrapper) && Layoutable(m) && start in m
    ensures var n := Split(m, existing, dir, incoming, first, wrapper);
      && Inv(n) && Layoutable(n)
      && var was, now := ComputeRects(m, start, window, cell), ComputeRects(n, start, window, cell);
      if Contains(m, existing, start) || Contains(m, incoming, start) || Held(m, was, existing) then now == was
      else StandsIn(m, existing, incoming, wrapper, was, now)
  {
    hide ChildLinks, ParentLinks, NoTwins, StacksActive, ZoomsLive, Acyclic, ZoomsInside, SplitShape, Split, Inside, Contains, Away, Stood, Rects, StandsIn;
    SplitSplits(m, existing, dir, incoming, first, wrapper);
    var n := Split(m, existing, dir, incoming, first, wrapper);
    PointOutside(m, existing, incoming, wrapper);
    if IsEmpty(window) {
      NothingStood(Inside(m, existing, incoming), existing, wrapper);
      StoodStands(m, existing, incoming, wrapper, map[], map[]);
    } else if Contains(m, existing, start) || Contains(m, incoming, start) {
      StartInside(m, existing, incoming, wrapper, start);
      SameAway(m, n, existing, dir, incoming, first, wrapper, start, window, cell);
    } else if Held(m, Rects(m, start, window, cell), existing) {
      var s :| s in Rects(m, start, window, cell) && s in m && m[s].data.StackData? && m[s].data.zoomTarget == existing;
      HeldStays(m, n, existing, dir, incoming, first, wrapper, s, start, window, cell);
    } else {
      Elsewhere(m, existing, incoming, start);
      FreshUnseen(m, start, window, cell, wrapper);
      SplitRects(m, n, existing, dir, incoming, first, wrapper, start, window, cell);
      StoodStands(m, existing, incoming, wrapper, Rects(m, start, window, cell), Rects(n, start, window, cell));
    }
  }

  lemma StartInside(m: Nodes, existing: Uuid, incoming: Uuid, wrapper: Uuid, start: Uuid)
    requires SplitSafe(m, existing, incoming, wrapper) && start in m && (Contains(m, existing, start) || Contains(m, incoming, start))
    ensures !Contains(m, start, m[existing].parent)
  {
    hide ChildLinks, NoTwins, StacksActive, ZoomsLive, Acyclic, Contains;
    ParentNotBelow(m, existing);
    if Contains(m, start, m[existing].parent) {
      if Contains(m, existing, start) { ContainsTransitive(m, existing, start, m[existing].parent); }
      if Contains(m, incoming, start) { ContainsTransitive(m, incoming, start, m[existing].parent); }
    }
  }

  /** A rectangle cut after `cut` pixels along a direction. */
  function Leading(dir: SplitDir, r: Rect, cut: int): Rect {
    if dir.Horizontal? then Rect(r.x, r.y, cut, r.h) else Rect(r.x, r.y, r.w, cut)
  }

  function Trailing(dir: SplitDir, r: Rect, cut: int): Rect {
    if dir.Horizontal? then Rect(r.x + cut, r.y, r.w - cut, r.h) else Rect(r.x, r.y + cut, r.w, r.h - cut)
  }

  /** The entry of a node is the rectangle if that is not empty, and there is none otherwise. */
  predicate SeenAs(out: map<Uuid, Rect>, x: Uuid, r: Rect) {
    (x in out <==> !IsEmpty(r)) && (x in out ==> out[x] == r)
  }

  lemma HalvesDivide(one: Uuid, two: Uuid, available: nat, cell: int)
    requires cell > 0 && available > 0
    ensures Divide([Plain(one), Plain(two)], available, cell) == [available / 2, available - available / 2]
  {
    hide Wish, Wishes, LastFlexible;
    var slots := [Plain(one), Plain(two)];
    assert StretchTotal(slots, 1) == 1 && StretchTotal(slots, 2) == 2;
    assert Flexible(slots[0]) && Flexible(slots[1]);
    assert FixedTotal(slots, cell, 1) == 0;
    assert FixedTotal(slots, cell, 2) == 0;
    WishesFit(slots, available, cell);
    assert HasFlexible(slots) && LastFlexible(slots) == 1;
    forall i | 0 <= i < 2 ensures Wishes(slots, available, cell)[i] == available / 2 {
      WishAt(slots, available, cell, i);
      PlainWish(slots[i], cell, available, 2);
    }
    TwoSum(Wishes(slots, available, cell));
  }

  /** The two panes share the rectangle of the wrapper along the asked direction, in the
      asked order, the second taking the odd pixel. */
  lemma SplitSharesPlace(m: Nodes, existing: Uuid, dir: SplitDir, incoming: Uuid, first: bool, wrapper: Uuid, start: Uuid, window: Rect, cell: CellSize)
    requires SplitSafe(m, existing, incoming, wrapper) && Layoutable(m) && start in m
    ensures var n := Split(m, existing, dir, incoming, first, wrapper);
      && Layoutable(n)
      && var now := ComputeRects(n, start, window, cell);
      wrapper in now ==>
        var r := now[wrapper]; var cut := Extent(dir, r) / 2;
        && SeenAs(now, if first then incoming else existing, Leading(dir, r, cut))
        && SeenAs(now, if first then existing else incoming, Trailing(dir, r, cut))
  {
    hide ChildLinks, ParentLinks, NoTwins, StacksActive, ZoomsLive, Acyclic, ZoomsInside, Split, Contains, Rects, Strips, Divide;
    SplitSplits(m, existing, dir, incoming, first, wrapper);
    var n := Split(m, existing, dir, incoming, first, wrapper);
    if !IsEmpty(window) && wrapper in Rects(n, start, window, cell) {
      WrapperStrips(n, wrapper, if first then incoming else existing, if first then existing else incoming, dir, start, window, cell);
    }
  }

  lemma WrapperStrips(n: Nodes, wrapper: Uuid, one: Uuid, two: Uuid, dir: SplitDir, start: Uuid, window: Rect, cell: CellSize)
    requires Layoutable(n) && start in n && !IsEmpty(window) && wrapper in n && n[wrapper].data == ContainerData(dir, [Plain(one), Plain(two)])
    requires wrapper in Rects(n, start, window, cell)
    ensures var now := Rects(n, start, window, cell); var r := now[wrapper]; var cut := Extent(dir, r) / 2;
      SeenAs(now, one, Leading(dir, r, cut)) && SeenAs(now, two, Trailing(dir, r, cut))
  {
    hide Layoutable, Rects, Strips, Divide;
    var r := Rects(n, start, window, cell)[wrapper];
    RectShows(n, start, window, cell, wrapper);
    HalvesDivide(one, two, Extent(dir, r), CellAlong(dir, cell));
    SeenIff(n, start, window, cell, wrapper, 0);
    SeenIff(n, start, window, cell, wrapper, 1);
    StripsAt(n[wrapper].data, r, cell, 0);
    StripsAt(n[wrapper].data, r, cell, 1);
    var s := [Extent(dir, r) / 2, Extent(dir, r) - Extent(dir, r) / 2];
    assert Prefix(s, 0) == 0 && Prefix(s, 1) == s[0];
  }
}
