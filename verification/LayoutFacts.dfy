/** How layouts of parts sit in the layout of the whole, and when two forests have
    the same layout. */
module LayoutFacts {
  import opened Forest
  import opened Ancestry
  import opened Layout

  /** A node keeps the rectangle it was given. */
  lemma RectsOwn(m: Nodes, id: Uuid, rect: Rect, cell: CellSize)
    requires Layoutable(m) && id in m && !IsEmpty(rect)
    ensures id in Rects(m, id, rect, cell) && Rects(m, id, rect, cell)[id] == rect
  {
    var d := m[id].data;
    if d.ContainerData? {
      var strips := Strips(d, rect, cell);
      var parts := Parts(m, id, strips, cell);
      if id in Union(parts, |parts|) {
        var i := UnionFrom(parts, |parts|, id);
        PartPlaced(m, id, strips, cell, i);
        ChildBelow(m, id, i);
        ContainsInForest(m, Kids(d)[i].id, id);
      }
    } else if d.StackData? && Shown(d) != NIL {
      ShownBelow(m, id);
      RectsPlaced(m, Shown(d), rect, cell);
      if id in Rects(m, Shown(d), rect, cell) {
        ContainsInForest(m, Shown(d), id);
      }
    }
  }

  /** Where a visible node has its rectangle, its own layout is part of the whole. */
  ghost predicate Nested(m: Nodes, p: Uuid, out: map<Uuid, Rect>, cell: CellSize)
    requires Layoutable(m)
  {
    p in out && forall x :: x in Rects(m, p, out[p], cell) ==> x in out && out[x] == Rects(m, p, out[p], cell)[x]
  }

  lemma {:induction false} VisibleNested(m: Nodes, id: Uuid, rect: Rect, cell: CellSize, p: Uuid)
    requires Layoutable(m) && id in m && !IsEmpty(rect) && p in Rects(m, id, rect, cell)
    ensures Nested(m, p, Rects(m, id, rect, cell), cell)
    decreases RankOf(m, id)
  {
    hide Acyclic, Linked, StacksActive, ZoomsInside;
    var d, out := m[id].data, Rects(m, id, rect, cell);
    RectsOwn(m, id, rect, cell);
    if p != id {
      if d.ContainerData? {
        var strips := Strips(d, rect, cell);
        var parts := Parts(m, id, strips, cell);
        var i := UnionFrom(parts, |parts|, p);
        ChildBelow(m, id, i);
        VisibleNested(m, Kids(d)[i].id, strips[i], cell, p);
        forall x | x in parts[i] ensures x in out && out[x] == parts[i][x] {
          PartKept(m, id, strips, cell, i, x);
        }
      } else {
        ShownBelow(m, id);
        VisibleNested(m, Shown(d), rect, cell, p);
      }
    }
  }

  // ---------------------------------------------------------------- equal layouts

  /** The layout of a subtree depends on the data of its nodes alone. */
  lemma {:induction false} RectsSame(m: Nodes, n: Nodes, id: Uuid, rect: Rect, cell: CellSize)
    requires Layoutable(m) && Layoutable(n) && id in m
    requires forall x :: x in m && Contains(m, id, x) ==> x in n && n[x].data == m[x].data
    ensures Rects(m, id, rect, cell) == Rects(n, id, rect, cell)
    decreases RankOf(m, id)
  {
    hide Acyclic, Linked, StacksActive, ZoomsInside;
    var d := m[id].data;
    BelowItself(m, id);
    if d.ContainerData? {
      var strips := Strips(d, rect, cell);
      forall i | 0 <= i < |strips| ensures Parts(m, id, strips, cell)[i] == Parts(n, id, strips, cell)[i] {
        ChildBelow(m, id, i);
        SubtreeNarrows(m, id, Kids(d)[i].id);
        RectsSame(m, n, Kids(d)[i].id, strips[i], cell);
      }
      assert Parts(m, id, strips, cell) == Parts(n, id, strips, cell);
    } else if d.StackData? && Shown(d) != NIL {
      ShownBelow(m, id);
      SubtreeNarrows(m, id, Shown(d));
      RectsSame(m, n, Shown(d), rect, cell);
    }
  }

  /** A store whose nodes all lie in another with the same data lays out alike there, and
      ends there if it ends. */
  lemma {:induction false} SameDataRects(m: Nodes, n: Nodes, id: Uuid, rect: Rect, cell: CellSize, k: nat)
    requires Linked(m) && StacksActive(m) && ZoomsLive(m) && id in m && EndsIn(m, id, rect, cell, k)
    requires forall x :: x in m ==> x in n && n[x].data == m[x].data
    ensures EndsIn(n, id, rect, cell, k) && Ends(m, id, rect, cell) && Ends(n, id, rect, cell)
    ensures Rects(m, id, rect, cell) == Rects(n, id, rect, cell)
    decreases k, 0
  {
    hide Linked, StacksActive, ZoomsLive, Strips, PartsEndIn;
    var d := m[id].data;
    if d.ContainerData? {
      var strips := Strips(d, rect, cell);
      SameDataParts(m, n, id, strips, cell, k - 1);
      PartsBounded(m, id, strips, cell, k - 1);
      PartsBounded(n, id, strips, cell, k - 1);
    } else if d.StackData? && Shown(d) != NIL {
      ShownAlive(m, id);
      SameDataRects(m, n, Shown(d), rect, cell, k - 1);
    }
  }

  lemma {:induction false} SameDataParts(m: Nodes, n: Nodes, id: Uuid, strips: seq<Rect>, cell: CellSize, k: nat)
    requires Linked(m) && StacksActive(m) && ZoomsLive(m) && id in m && |Kids(m[id].data)| == |strips|
    requires PartsEndIn(m, Kids(m[id].data), strips, cell, k)
    requires forall x :: x in m ==> x in n && n[x].data == m[x].data
    ensures PartsEndIn(n, Kids(m[id].data), strips, cell, k) && PartsEnd(m, id, strips, cell) && PartsEnd(n, id, strips, cell)
    ensures Parts(m, id, strips, cell) == Parts(n, id, strips, cell)
    decreases k, 1
  {
    hide ParentLinks, NoTwins, StacksActive, ZoomsLive, EndsIn, Ends;
    forall i | 0 <= i < |strips| && !IsEmpty(strips[i])
      ensures var kid := Kids(m[id].data)[i].id;
        && EndsIn(n, kid, strips[i], cell, k) && Ends(m, kid, strips[i], cell) && Ends(n, kid, strips[i], cell)
        && Rects(m, kid, strips[i], cell) == Rects(n, kid, strips[i], cell)
    {
      SameDataRects(m, n, Kids(m[id].data)[i].id, strips[i], cell, k);
    }
  }

  lemma ShownAlive(m: Nodes, id: Uuid)
    requires Linked(m) && StacksActive(m) && ZoomsLive(m) && id in m && m[id].data.StackData? && Shown(m[id].data) != NIL
    ensures Shown(m[id].data) in m
  {
    assert Kids(m[id].data) == m[id].data.children;
  }

  lemma SubtreeNarrows(m: Nodes, a: Uuid, b: Uuid)
    requires Acyclic(m) && Linked(m) && Contains(m, a, b)
    ensures forall x :: x in m && Contains(m, b, x) ==> Contains(m, a, x)
  {
    forall x | x in m && Contains(m, b, x) ensures Contains(m, a, x) {
      ContainsTransitive(m, a, b, x);
    }
  }

  /** Two layouts place the nodes of `away` alike. */
  ghost predicate Agree(away: set<Uuid>, u: map<Uuid, Rect>, v: map<Uuid, Rect>) {
    forall x :: x in away ==> (x in u <==> x in v) && (x in u ==> u[x] == v[x])
  }

  lemma {:induction false} UnionAgree(away: set<Uuid>, us: seq<map<Uuid, Rect>>, vs: seq<map<Uuid, Rect>>, k: nat)
    requires k <= |us| == |vs|
    requires forall i :: 0 <= i < k ==> Agree(away, us[i], vs[i])
    ensures Agree(away, Union(us, k), Union(vs, k))
  {
    if k > 0 {
      UnionAgree(away, us, vs, k - 1);
      AgreeAppend(away, Union(us, k - 1), Union(vs, k - 1), us[k - 1], vs[k - 1]);
    }
  }

  lemma AgreeAppend(away: set<Uuid>, u: map<Uuid, Rect>, v: map<Uuid, Rect>, u': map<Uuid, Rect>, v': map<Uuid, Rect>)
    requires Agree(away, u, v) && Agree(away, u', v')
    ensures Agree(away, u + u', v + v')
  {
  }

  lemma AgreeOnSame(away: set<Uuid>, u: map<Uuid, Rect>)
    ensures Agree(away, u, u)
  {
  }

  lemma AgreeBelow(away: set<Uuid>, id: Uuid, rect: Rect, u: map<Uuid, Rect>, v: map<Uuid, Rect>)
    requires Agree(away, u, v)
    ensures Agree(away, map[id := rect] + u, map[id := rect] + v)
  {
    AgreeAppend(away, map[id := rect], map[id := rect], u, v);
  }

  lemma EmptyAgree(away: set<Uuid>)
    ensures Agree(away, map[], map[])
  {
  }

  /** Everything that is not strictly below `p`. */
  ghost function NotBelow(m: Nodes, p: Uuid): set<Uuid>
    requires Acyclic(m)
  {
    set x | x in m && (x == p || !Contains(m, p, x))
  }

  /** The two forests differ at most in the data of the node `p`. */
  ghost predicate DifferAt(m: Nodes, n: Nodes, p: Uuid) {
    && n.Keys == m.Keys
    && (forall x :: x in m && x != p ==> n[x].data == m[x].data)
    && (forall x :: x in m ==> n[x].parent == m[x].parent)
  }

  /** A change inside the node `p` leaves the rectangle of `p` and of everything
      outside its subtree alone. */
  lemma {:induction false} RectsOutside(m: Nodes, n: Nodes, id: Uuid, rect: Rect, cell: CellSize, p: Uuid)
    requires Layoutable(m) && Layoutable(n) && id in m && !IsEmpty(rect) && DifferAt(m, n, p)
    ensures Agree(NotBelow(m, p), Rects(m, id, rect, cell), Rects(n, id, rect, cell))
    decreases RankOf(m, id)
  {
    hide Acyclic, Linked, StacksActive, ZoomsInside, Agree, NotBelow;
    var d, away := m[id].data, NotBelow(m, p);
    if id == p {
      OnlyRootOutside(m, n, p, rect, cell);
    } else if d.ContainerData? {
      var strips := Strips(d, rect, cell);
      forall i | 0 <= i < |strips|
        ensures Agree(away, Parts(m, id, strips, cell)[i], Parts(n, id, strips, cell)[i])
      {
        ChildBelow(m, id, i);
        if IsEmpty(strips[i]) { EmptyAgree(away); } else { RectsOutside(m, n, Kids(d)[i].id, strips[i], cell, p); }
      }
      UnionAgree(away, Parts(m, id, strips, cell), Parts(n, id, strips, cell), |strips|);
      AgreeBelow(away, id, rect, Union(Parts(m, id, strips, cell), |strips|), Union(Parts(n, id, strips, cell), |strips|));
    } else if d.StackData? && Shown(d) != NIL {
      ShownBelow(m, id);
      RectsOutside(m, n, Shown(d), rect, cell, p);
      AgreeBelow(away, id, rect, Rects(m, Shown(d), rect, cell), Rects(n, Shown(d), rect, cell));
    } else {
      AgreeOnSame(away, Rects(m, id, rect, cell));
    }
  }

  lemma OnlyRootOutside(m: Nodes, n: Nodes, p: Uuid, rect: Rect, cell: CellSize)
    requires Layoutable(m) && Layoutable(n) && p in m && !IsEmpty(rect) && DifferAt(m, n, p)
    ensures Agree(NotBelow(m, p), Rects(m, p, rect, cell), Rects(n, p, rect, cell))
  {
    RectsOwn(m, p, rect, cell);
    RectsOwn(n, p, rect, cell);
    RectsPlaced(m, p, rect, cell);
    RectsPlaced(n, p, rect, cell);
    forall x | x in m ensures Contains(m, p, x) == Contains(n, p, x) {
      ContainsSame(m, n, m.Keys, p, x);
    }
  }
}
