/** Reachable trees in which an accepted call closes a cycle, or loses a leaf from sight
    (src/LayoutTree.cpp:130-162, :275-319). */
module TreeWitnesses {
  import opened Forest
  import opened Ancestry
  import opened SpaceDivision
  import opened TreeEdits
  import opened TreeReshape
  import opened Layout
  import opened LayoutFacts
  import opened LeafSwap
  import opened EdgeShares
  import opened EdgeResize
  import opened Preconditions
  import opened TreeRuns

  const LONE := map[1 := Node(NIL, "", StackData([], NIL, NIL))]

  lemma LoneReachable()
    ensures Reachable(State(LONE, NIL, true, 1)) && StateInv(State(LONE, NIL, true, 1))
  {
    hide Reachable, Inv;
    ReachEmpty();
    ReachCreated(map[], 1, StackData([], NIL, NIL));
    assert Create(map[], 1, StackData([], NIL, NIL)) == LONE;
  }

  /** A node that stands alone can be attached below itself. */
  lemma CycleReachable(slot: ChildSlot)
    requires slot.id == 1
    ensures Reachable(State(LONE, NIL, true, 1)) && Inv(LONE)
    ensures CanAppend(LONE, 1, slot) && !Inv(Append(LONE, 1, slot))
  {
    hide Reachable, Inv, Append, Contains;
    LoneReachable();
    Itself(LONE, 1);
    AppendKeepsInvIff(LONE, 1, slot);
  }

  lemma Itself(m: Nodes, x: Uuid)
    requires Inv(m) && x in m
    ensures Contains(m, x, x)
  {
    BelowItself(m, x);
  }

  // ---------------------------------------------------------------- a leaf out of sight

  const WINDOW := Rect(0, 0, 300, 50)

  const CELL := CellSize(1, 1)

  const LEFT := Rect(0, 0, 150, 50)

  const RIGHT := Rect(150, 0, 150, 50)

  /** A row, a Stack and two Terminals. */
  function Desk(kids: seq<ChildSlot>, stack: NodeData, up: Uuid, first: Uuid, second: Uuid): Nodes {
    map[1 := Node(NIL, "", ContainerData(Horizontal, kids)), 2 := Node(up, "", stack),
        3 := Node(first, "", TerminalData), 4 := Node(second, "", TerminalData)]
  }

  const STACKED := ChildSlot(2, 150, 0, 0, 0)

  const BESIDE := ChildSlot(4, 150, 0, 0, 0)

  const ALONE := ChildSlot(3, 1, 0, 0, 0)

  /** On the left a Stack that zooms on the first Terminal, on the right the second. */
  const ZOOMED := Desk([STACKED, BESIDE], StackData([ALONE], 3, 3), 1, 2, 1)

  lemma MakeDesk()
    ensures var s := State(Desk([], StackData([], NIL, NIL), NIL, NIL, NIL), NIL, true, 1); Reachable(s) && StateInv(s)
  {
    hide Reachable, Inv;
    ReachEmpty();
    ReachCreated(map[], 1, ContainerData(Horizontal, []));
    var one := Create(map[], 1, ContainerData(Horizontal, []));
    ReachCreated(one, 2, StackData([], NIL, NIL));
    var two := Create(one, 2, StackData([], NIL, NIL));
    ReachCreated(two, 3, TerminalData);
    var three := Create(two, 3, TerminalData);
    ReachCreated(three, 4, TerminalData);
    assert Create(three, 4, TerminalData) == Desk([], StackData([], NIL, NIL), NIL, NIL, NIL);
  }

  lemma FirstHung()
    ensures var m := Desk([], StackData([], NIL, NIL), NIL, NIL, NIL);
      CanAppend(m, 2, ALONE) && Append(m, 2, ALONE) == Desk([], StackData([ALONE], 3, NIL), NIL, 2, NIL)
  {
    assert [] + [ALONE] == [ALONE];
  }

  lemma StackHung()
    ensures var m := Desk([], StackData([ALONE], 3, NIL), NIL, 2, NIL);
      CanAppend(m, 1, STACKED) && Append(m, 1, STACKED) == Desk([STACKED], StackData([ALONE], 3, NIL), 1, 2, NIL)
  {
    assert [] + [STACKED] == [STACKED];
  }

  lemma SecondHung()
    ensures var m := Desk([STACKED], StackData([ALONE], 3, NIL), 1, 2, NIL);
      CanAppend(m, 1, BESIDE) && Append(m, 1, BESIDE) == Desk([STACKED, BESIDE], StackData([ALONE], 3, NIL), 1, 2, 1)
  {
    assert [STACKED] + [BESIDE] == [STACKED, BESIDE];
  }

  lemma HangAll()
    ensures var s := State(Desk([STACKED, BESIDE], StackData([ALONE], 3, NIL), 1, 2, 1), NIL, true, 4); Reachable(s) && StateInv(s)
  {
    hide Reachable, Inv, Append;
    MakeDesk();
    FirstHung();
    ReachAppended(Desk([], StackData([], NIL, NIL), NIL, NIL, NIL), 1, 2, ALONE);
    StackHung();
    ReachAppended(Desk([], StackData([ALONE], 3, NIL), NIL, 2, NIL), 2, 1, STACKED);
    SecondHung();
    ReachAppended(Desk([STACKED], StackData([ALONE], 3, NIL), 1, 2, NIL), 3, 1, BESIDE);
  }

  lemma ZoomReached()
    ensures Reachable(State(ZOOMED, NIL, true, 5)) && StateInv(State(ZOOMED, NIL, true, 5))
  {
    hide Reachable, Inv, Contains;
    HangAll();
    var m := Desk([STACKED, BESIDE], StackData([ALONE], 3, NIL), 1, 2, 1);
    ParentHolds(m, 2, 3);
    assert m[2 := m[2].(data := m[2].data.(zoomTarget := 3))] == ZOOMED;
    ReachAccepted(m, 4, SetStackZoom(2, 3), ZOOMED);
  }

  lemma OneStack(m: Nodes, s: Uuid)
    requires Inv(m) && s in m && m[s].data.StackData? && forall x :: x in m && x != s ==> !m[x].data.StackData?
    requires m[s].data.zoomTarget in m && m[m[s].data.zoomTarget].parent == s && m[s].data.zoomTarget != s
    ensures Layoutable(m)
  {
    hide ChildLinks, ParentLinks, NoTwins, StacksActive, ZoomsLive, Acyclic, Contains;
    ParentHolds(m, s, m[s].data.zoomTarget);
  }

  lemma TwoLeaves(m: Nodes, a: Uuid, b: Uuid)
    requires Inv(m) && Layoutable(m) && a in m && b in m && a != b && m[a].data.TerminalData? && m[b].data.TerminalData?
    requires m[a].parent in m && m[b].parent in m
    ensures LeafPair(m, a, b)
  {
    hide StacksActive, ZoomsLive, Acyclic, ZoomsInside, Contains;
    TerminalHoldsNothing(m, a, b);
    TerminalHoldsNothing(m, b, a);
  }
  lemma ZoomedSound()
    requires Inv(ZOOMED)
    ensures LeafPair(ZOOMED, 3, 4)
  {
    hide Inv, Layoutable, LeafPair;
    OneStack(ZOOMED, 2);
    TwoLeaves(ZOOMED, 3, 4);
  }

  lemma ZoomedSizes()
    ensures Strips(ZOOMED[1].data, WINDOW, CELL) == [LEFT, RIGHT]
  {
    var slots := [STACKED, BESIDE];
    var w := Weights(slots, 1);
    assert w == [150, 150];
    TwoSum(w);
    assert Flexible(slots[0]);
    StretchPositive(slots, 0, 2);
    WeightsArePixels(slots, 300, 1);
    hide Divide, Weights, Weight;
    assert Prefix(w, 0) == 0 && Prefix(w, 1) == 150;
  }

  lemma ZoomedLayout()
    requires Inv(ZOOMED) && Layoutable(ZOOMED)
    ensures Rects(ZOOMED, 1, WINDOW, CELL) == map[1 := WINDOW, 2 := LEFT, 3 := LEFT, 4 := RIGHT]
  {
    hide Inv, Layoutable, Rects, Strips;
    ZoomedSizes();
    RectsOwn(ZOOMED, 1, WINDOW, CELL);
    SeenIff(ZOOMED, 1, WINDOW, CELL, 1, 0);
    SeenIff(ZOOMED, 1, WINDOW, CELL, 1, 1);
    VisibleNested(ZOOMED, 1, WINDOW, CELL, 2);
    ZoomShows(ZOOMED, 2, 3, LEFT, CELL);
    VisibleOnly(ZOOMED, 1, WINDOW, CELL);
  }

  lemma VisibleOnly(m: Nodes, id: Uuid, rect: Rect, cell: CellSize)
    requires Layoutable(m) && id in m && !IsEmpty(rect)
    ensures Rects(m, id, rect, cell).Keys <= m.Keys
  {
    hide Layoutable, Rects;
    RectsPlaced(m, id, rect, cell);
  }

  /** A Stack on the left zooms on its Terminal; another Terminal is seen on the right.  The
      two are swapped, which is accepted: now the first is drawn on the right, and the other
      is not seen anywhere. */
  lemma LeafLostReachable()
    ensures Reachable(State(ZOOMED, NIL, true, 5)) && Inv(ZOOMED) && LeafPair(ZOOMED, 3, 4)
    ensures ComputeRects(ZOOMED, 1, WINDOW, CELL) == map[1 := WINDOW, 2 := LEFT, 3 := LEFT, 4 := RIGHT]
    ensures LayoutEnds(Swapped(ZOOMED, 3, 4), 1, WINDOW, CELL)
    ensures ComputeRects(Swapped(ZOOMED, 3, 4), 1, WINDOW, CELL) == map[1 := WINDOW, 2 := LEFT, 3 := RIGHT]
  {
    hide Reachable, Inv, Layoutable, Rects, Before, Swapped;
    ZoomReached();
    ZoomedSound();
    ZoomedLayout();
    ZoomedOrder();
    SwapExchangesLayout(ZOOMED, 3, 4, 1, WINDOW, CELL);
    var out := ComputeRects(ZOOMED, 1, WINDOW, CELL);
    assert 2 in out;
    assert out[3 := RIGHT] - {4} == map[1 := WINDOW, 2 := LEFT, 3 := RIGHT];
  }

  lemma ZoomedOrder()
    requires Inv(ZOOMED)
    ensures Before(ZOOMED, 3, 4)
  {
    ParentHolds(ZOOMED, 2, 3);
    Itself(ZOOMED, 4);
    hide Inv, Contains;
    assert Kids(ZOOMED[1].data)[0].id == 2 && Kids(ZOOMED[1].data)[1].id == 4;
    assert Parted(ZOOMED, 1, 0, 1, 3, 4);
  }
}
