/** A reachable tree in which an accepted resize moves the edge by far more than is asked
    (src/LayoutTree.cpp:706-764). */
module EdgeRuns {
  import opened Forest
  import opened SpaceDivision
  import opened TreeEdits
  import opened TreeReshape
  import opened Layout
  import opened LayoutFacts
  import opened EdgeShares
  import opened EdgeResize
  import opened TreeRuns

  const WINDOW := Rect(0, 0, 300, 50)

  const CELL := CellSize(1, 1)

  /** A row, three panes, and which of the panes hang in the row so far. */
  function Panes(slots: seq<ChildSlot>, first: Uuid, second: Uuid, third: Uuid): Nodes {
    map[1 := Node(NIL, "", ContainerData(Horizontal, slots)), 2 := Node(first, "", TerminalData),
        3 := Node(second, "", TerminalData), 4 := Node(third, "", TerminalData)]
  }

  /** Three panes side by side with the default weights. */
  const ROW := Panes([Plain(2), Plain(3), Plain(4)], 1, 1, 1)

  lemma HungInRow(m: Nodes, p: Uuid, c: Uuid)
    requires p != c && CanAppend(m, p, Plain(c)) && m[p].data.ContainerData?
    ensures Append(m, p, Plain(c)) == m[c := m[c].(parent := p)][p := m[p].(data := ContainerData(m[p].data.dir, m[p].data.children + [Plain(c)]))]
  {
  }

  lemma MakePanes()
    ensures var s := State(Panes([], NIL, NIL, NIL), NIL, true, 1); Reachable(s) && StateInv(s)
  {
    hide Reachable, Inv;
    ReachEmpty();
    ReachCreated(map[], 1, ContainerData(Horizontal, []));
    var one := Create(map[], 1, ContainerData(Horizontal, []));
    ReachCreated(one, 2, TerminalData);
    var two := Create(one, 2, TerminalData);
    ReachCreated(two, 3, TerminalData);
    var three := Create(two, 3, TerminalData);
    ReachCreated(three, 4, TerminalData);
    assert Create(three, 4, TerminalData) == Panes([], NIL, NIL, NIL);
  }

  lemma HangNext(m: Nodes, revision: nat, c: Uuid, n: Nodes)
    requires var s := State(m, NIL, true, revision); Reachable(s) && StateInv(s)
    requires 1 in m && c != 1 && c != NIL && CanAppend(m, 1, Plain(c)) && m[1].parent == NIL && m[1].data.ContainerData?
    requires n == m[c := m[c].(parent := 1)][1 := m[1].(data := ContainerData(m[1].data.dir, m[1].data.children + [Plain(c)]))]
    ensures var t := State(n, NIL, true, revision + 1); Reachable(t) && StateInv(t)
  {
    hide Reachable, Inv, Append;
    HungInRow(m, 1, c);
    ReachAppended(m, revision, 1, Plain(c));
  }

  lemma HangPanes()
    ensures var s := State(ROW, NIL, true, 4); Reachable(s) && StateInv(s)
  {
    hide Reachable, Inv;
    MakePanes();
    var none, one, two := Panes([], NIL, NIL, NIL), Panes([Plain(2)], 1, NIL, NIL), Panes([Plain(2), Plain(3)], 1, 1, NIL);
    assert [] + [Plain(2)] == [Plain(2)] && [Plain(2)] + [Plain(3)] == [Plain(2), Plain(3)];
    assert [Plain(2), Plain(3)] + [Plain(4)] == [Plain(2), Plain(3), Plain(4)];
    assert one == none[2 := none[2].(parent := 1)][1 := none[1].(data := ContainerData(Horizontal, [] + [Plain(2)]))];
    HangNext(none, 1, 2, one);
    assert two == one[3 := one[3].(parent := 1)][1 := one[1].(data := ContainerData(Horizontal, [Plain(2)] + [Plain(3)]))];
    HangNext(one, 2, 3, two);
    assert ROW == two[4 := two[4].(parent := 1)][1 := two[1].(data := ContainerData(Horizontal, [Plain(2), Plain(3)] + [Plain(4)]))];
    HangNext(two, 3, 4, ROW);
  }

  // ---------------------------------------------------------------- the layouts

  /** Three children without limits: the last one takes what is over. */
  lemma DivideThree(slots: seq<ChildSlot>, available: nat, cell: int)
    requires |slots| == 3 && Limitless(slots) && cell > 0 && available > 0 && Flexible(slots[0]) && Flexible(slots[1]) && Flexible(slots[2])
    ensures var total := slots[0].stretch + slots[1].stretch + slots[2].stretch;
      var a, b := (available * slots[0].stretch) / total, (available * slots[1].stretch) / total;
      Divide(slots, available, cell) == [a, b, available - a - b]
  {
    hide Wish, Wishes, LastFlexible;
    var total := slots[0].stretch + slots[1].stretch + slots[2].stretch;
    assert StretchTotal(slots, 1) == slots[0].stretch && StretchTotal(slots, 2) == slots[0].stretch + slots[1].stretch;
    assert FixedTotal(slots, cell, 1) == 0;
    assert FixedTotal(slots, cell, 2) == 0;
    WishesFit(slots, available, cell);
    assert HasFlexible(slots) && LastFlexible(slots) == 2;
    forall i | 0 <= i < 3 ensures Wishes(slots, available, cell)[i] == (available * slots[i].stretch) / total {
      WishAt(slots, available, cell, i);
      PlainWish(slots[i], cell, available, total);
    }
    ThreeSum(Wishes(slots, available, cell));
  }

  lemma ThreeSum(s: seq<int>)
    requires |s| == 3
    ensures Sum(s) == s[0] + s[1] + s[2]
  {
    assert Prefix(s, 1) == s[0];
    assert Prefix(s, 2) == s[0] + s[1];
  }

  /** A root Container of three Terminals lays them out along its sizes. */
  lemma RowRects(m: Nodes, s: seq<int>)
    requires Inv(m) && Layoutable(m) && 1 in m && m[1].data.ContainerData? && m[1].data.dir == Horizontal && |m[1].data.children| == 3
    requires Sizes(m[1].data, WINDOW, CELL) == s && |s| == 3 && s[0] >= 1 && s[1] >= 1 && s[2] >= 1
    ensures var out, kids := Rects(m, 1, WINDOW, CELL), m[1].data.children;
      && kids[0].id in out && out[kids[0].id] == Rect(0, 0, s[0], 50)
      && kids[1].id in out && out[kids[1].id] == Rect(s[0], 0, s[1], 50)
      && kids[2].id in out && out[kids[2].id] == Rect(s[0] + s[1], 0, s[2], 50)
      && 1 in out && out[1] == WINDOW
  {
    hide Layoutable, Inv, Rects, Strips, Sizes;
    RectsOwn(m, 1, WINDOW, CELL);
    assert Prefix(s, 0) == 0 && Prefix(s, 1) == s[0] && Prefix(s, 2) == s[0] + s[1];
    forall i | 0 <= i < 3
      ensures var out, x := Rects(m, 1, WINDOW, CELL), m[1].data.children[i].id; x in out && out[x] == Rect(Prefix(s, i), 0, s[i], 50)
    {
      SeenIff(m, 1, WINDOW, CELL, 1, i);
      StripsAt(m[1].data, WINDOW, CELL, i);
    }
  }

  lemma StacklessLayoutable(m: Nodes)
    requires Inv(m) && forall x :: x in m ==> !m[x].data.StackData?
    ensures Layoutable(m)
  {
  }

  lemma RowSizes(a: int, b: int, c: int)
    requires a > 0 && b > 0 && c > 0
    ensures var kids := [ChildSlot(2, a, 0, 0, 0), ChildSlot(3, b, 0, 0, 0), ChildSlot(4, c, 0, 0, 0)];
      var x, y := (300 * a) / (a + b + c), (300 * b) / (a + b + c);
      Sizes(ContainerData(Horizontal, kids), WINDOW, CELL) == [x, y, 300 - x - y]
  {
    DivideThree([ChildSlot(2, a, 0, 0, 0), ChildSlot(3, b, 0, 0, 0), ChildSlot(4, c, 0, 0, 0)], 300, 1);
  }

  lemma RowLaidOut()
    requires Inv(ROW)
    ensures Layoutable(ROW) && Sizes(ROW[1].data, WINDOW, CELL) == [100, 100, 100]
    ensures var out := Rects(ROW, 1, WINDOW, CELL);
      && 2 in out && out[2] == Rect(0, 0, 100, 50) && 3 in out && out[3] == Rect(100, 0, 100, 50)
      && 4 in out && out[4] == Rect(200, 0, 100, 50) && 1 in out && out[1] == WINDOW
  {
    hide Inv, Rects, Sizes;
    StacklessLayoutable(ROW);
    RowSizes(1, 1, 1);
    RowRects(ROW, [100, 100, 100]);
  }

  lemma FirstEdge()
    requires Inv(ROW)
    ensures EdgeAbove(ROW, 2, Horizontal, 1) == Edge(1, 0, 1)
  {
    hide Inv;
    var kids := ROW[1].data.children;
    assert kids[0].id == 2 && HasId(kids, 2);
    assert IndexOf(kids, 2) == 0;
  }

  /** The row after the resize: weights in pixels for the first two, the default for the
      third. */
  const RESIZED := Panes([ChildSlot(2, 110, 0, 0, 0), ChildSlot(3, 90, 0, 0, 0), ChildSlot(4, 1, 0, 0, 0)], 1, 1, 1)

  lemma FirstGrows(m: Nodes, a: ChildSlot, b: ChildSlot, c: ChildSlot, rects: map<Uuid, Rect>)
    requires 1 in m && m[1].data == ContainerData(Horizontal, [a, b, c])
    requires a.id in rects && b.id in rects && rects[a.id].w == 100 == rects[b.id].w
    ensures EdgeFits(m, Edge(1, 0, 1)) && EdgeVisible(m, Edge(1, 0, 1), rects)
    ensures Resized(m, Edge(1, 0, 1), Horizontal, 10, rects) ==
      m[1 := m[1].(data := ContainerData(Horizontal, [Weighted(a, 110), Weighted(b, 90), c]))]
  {
    assert [a, b, c][0 := Weighted(a, 110)][1 := Weighted(b, 90)] == [Weighted(a, 110), Weighted(b, 90), c];
  }

  lemma AcceptedAt(m: Nodes, target: Uuid, axis: SplitDir, px: int, root: Uuid, window: Rect, cell: CellSize, e: Edge)
    requires Acyclic(m) && Layoutable(m) && EdgeAbove(m, target, axis, root) == e && target != NIL && root != NIL
    requires EdgeFits(m, e) && EdgeVisible(m, e, Rects(m, root, window, cell)) && root in m && !IsEmpty(window)
    ensures CanResize(m, target, axis, root, window, cell)
    ensures Resize(m, target, axis, px, root, window, cell) == Resized(m, e, axis, px, Rects(m, root, window, cell))
  {
    hide Layoutable, Acyclic, EdgeAbove, EdgeFits, EdgeVisible, Rects, Resized;
  }

  lemma InvAcyclic(m: Nodes)
    requires Inv(m)
    ensures Acyclic(m)
  {
  }

  lemma RowResized()
    requires Inv(ROW) && Layoutable(ROW)
    ensures Acyclic(ROW) && CanResize(ROW, 2, Horizontal, 1, WINDOW, CELL)
    ensures Resize(ROW, 2, Horizontal, 10, 1, WINDOW, CELL) == RESIZED
  {
    hide Inv, Layoutable, Acyclic, Rects, Sizes, EdgeAbove, Resized, Resize, CanResize, EdgeFits, EdgeVisible, ResizeEnds, LayoutEnds, ComputeRects;
    InvAcyclic(ROW);
    RowLaidOut();
    FirstEdge();
    FirstGrows(ROW, Plain(2), Plain(3), Plain(4), Rects(ROW, 1, WINDOW, CELL));
    AcceptedAt(ROW, 2, Horizontal, 10, 1, WINDOW, CELL, Edge(1, 0, 1));
  }

  lemma AcceptedKeeps(m: Nodes, target: Uuid, axis: SplitDir, px: int, root: Uuid, window: Rect, cell: CellSize)
    requires Inv(m) && Layoutable(m) && CanResize(m, target, axis, root, window, cell)
    ensures Inv(Resize(m, target, axis, px, root, window, cell))
  {
    hide Inv, Layoutable, Resize;
    ResizeFacts(m, target, axis, px, root, window, cell);
  }

  lemma ResizedLaidOut()
    requires Inv(ROW) && Layoutable(ROW)
    ensures Inv(RESIZED) && Layoutable(RESIZED)
    ensures var out := Rects(RESIZED, 1, WINDOW, CELL);
      && 2 in out && out[2] == Rect(0, 0, 164, 50) && 3 in out && out[3] == Rect(164, 0, 134, 50)
      && 4 in out && out[4] == Rect(298, 0, 2, 50)
  {
    hide Inv, Layoutable, Rects, Sizes, Resize, CanResize, ResizeEnds, Acyclic;
    RowResized();
    AcceptedKeeps(ROW, 2, Horizontal, 10, 1, WINDOW, CELL);
    StacklessLayoutable(RESIZED);
    RowSizes(110, 90, 1);
    RowRects(RESIZED, [164, 134, 2]);
  }

  /** Three panes of 100 pixels each.  The first is to grow by 10, which is accepted; it
      grows by 64, and the third, two places off, shrinks from 100 pixels to 2. */
  lemma ResizeOvershoots()
    ensures Reachable(State(ROW, NIL, true, 4)) && Inv(ROW) && Layoutable(ROW) && CanResize(ROW, 2, Horizontal, 1, WINDOW, CELL)
    ensures var n := Resize(ROW, 2, Horizontal, 10, 1, WINDOW, CELL);
      && Layoutable(n)
      && var was, now := ComputeRects(ROW, 1, WINDOW, CELL), ComputeRects(n, 1, WINDOW, CELL);
      && 2 in was && was[2] == Rect(0, 0, 100, 50) && 2 in now && now[2] == Rect(0, 0, 164, 50)
      && 3 in was && was[3] == Rect(100, 0, 100, 50) && 3 in now && now[3] == Rect(164, 0, 134, 50)
      && 4 in was && was[4] == Rect(200, 0, 100, 50) && 4 in now && now[4] == Rect(298, 0, 2, 50)
  {
    hide Reachable, Inv, Layoutable, Acyclic, Rects, Sizes, EdgeAbove, Resize, CanResize;
    HangPanes();
    RowLaidOut();
    RowResized();
    ResizedLaidOut();
  }
}
