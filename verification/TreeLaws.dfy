/** What each operation on the layout tree is for, told by the children lists, by what a
    Stack shows and by the layout (src/LayoutTree.cpp:28-495). */
module TreeLaws {
  import opened Forest
  import opened Ancestry
  import opened SpaceDivision
  import opened TreeEdits
  import opened Layout
  import opened LayoutFacts
  import opened LeafSwap
  import opened TreeReshape
  import opened EdgeResize
  import opened EdgeSearch
  import opened TreeRuns

  /** No node but the named ones changes, and none comes or goes. */
  ghost predicate Rest(m: Nodes, n: Nodes, named: set<Uuid>) {
    n.Keys == m.Keys && forall x :: x in m && x !in named ==> n[x] == m[x]
  }

  /** The node is as before but for its list of children and, if it is a Stack, the child it
      has active. */
  predicate Listing(a: Node, b: Node, kids: seq<ChildSlot>, active: Uuid) {
    match a.data
    case ContainerData(dir, _) => b == a.(data := ContainerData(dir, kids))
    case StackData(_, _, zoom) => b == a.(data := StackData(kids, active, zoom))
    case _ => false
  }

  function ActiveOf(n: Node): Uuid { if n.data.StackData? then n.data.activeChild else NIL }

  /** The child goes to the end of the list; an empty Stack makes it the active one. */
  lemma AppendPuts(m: Nodes, p: Uuid, slot: ChildSlot)
    requires Inv(m) && !Contains(m, slot.id, p)
    ensures var op := AppendChild(p, slot); var n := After(m, op);
      if p in m && IsBranch(m[p].data) && slot.id in m && m[slot.id].parent == NIL then
        var kids := Kids(m[p].data);
        && Accepts(m, op) && Rest(m, n, {p, slot.id}) && n[slot.id] == m[slot.id].(parent := p)
        && Listing(m[p], n[p], kids + [slot], if kids == [] then slot.id else ActiveOf(m[p]))
      else !Accepts(m, op) && n == m
  {
    hide Linked, ZoomsLive, Acyclic, Contains;
    if slot.id in m { Itself(m, slot.id); }
    if p in m && m[p].data.StackData? { ActiveNone(m, p); }
  }

  lemma Itself(m: Nodes, x: Uuid)
    requires Inv(m) && x in m
    ensures Contains(m, x, x)
  {
    BelowItself(m, x);
  }

  lemma ActiveNone(m: Nodes, p: Uuid)
    requires Inv(m) && p in m && m[p].data.StackData?
    ensures m[p].data.activeChild == NIL <==> m[p].data.children == []
    ensures Kids(m[p].data) == m[p].data.children
  {
    hide ParentLinks, NoTwins, ZoomsLive, Acyclic;
    if m[p].data.children != [] {
      var i :| 0 <= i < |m[p].data.children| && m[p].data.children[i].id == m[p].data.activeChild;
      assert Kids(m[p].data)[i].id in m;
    }
  }

  /** The child leaves the list and hangs loose; a Stack that had it active falls back to the
      first that remains, or to none. */
  lemma RemoveTakes(m: Nodes, p: Uuid, c: Uuid)
    requires Inv(m)
    ensures var op := RemoveChild(p, c); var n := After(m, op);
      if p in m && IsBranch(m[p].data) && HasId(Kids(m[p].data), c) then
        var kids := Kids(m[p].data); var i := IndexOf(kids, c); var rest := kids[..i] + kids[i + 1..];
        && Accepts(m, op) && c in m && Rest(m, n, {p, c}) && n[c] == m[c].(parent := NIL)
        && Listing(m[p], n[p], rest, if ActiveOf(m[p]) != c then ActiveOf(m[p]) else if rest == [] then NIL else rest[0].id)
      else !Accepts(m, op) && n == m
  {
    if CanRemove(m, p, c) {
      LinkedMembers(m);
      hide Linked, ZoomsLive, Acyclic, StacksActive, Contains;
      assert Lists(m, p, c);
      NotOwnChild(m, p, c);
      RemoveShape(m, p, c);
      hide IndexOf;
    }
  }

  lemma NotOwnChild(m: Nodes, p: Uuid, c: Uuid)
    requires Inv(m) && p in m && HasId(Kids(m[p].data), c)
    ensures c in m && c != p && c != NIL && p != NIL
  {
    hide ParentLinks, NoTwins, StacksActive, ZoomsLive;
    ChildBelow(m, p, IndexOf(Kids(m[p].data), c));
  }

  /** The new child takes the very place of the old one, active or not, and the old one hangs
      loose. */
  lemma ReplacePuts(m: Nodes, p: Uuid, was: Uuid, slot: ChildSlot)
    requires Inv(m) && !Contains(m, slot.id, p)
    ensures var op := ReplaceChild(p, was, slot); var n := After(m, op);
      if p in m && IsBranch(m[p].data) && HasId(Kids(m[p].data), was) && slot.id in m && m[slot.id].parent == NIL then
        var kids := Kids(m[p].data);
        && Accepts(m, op) && was in m && Rest(m, n, {p, was, slot.id})
        && n[was] == m[was].(parent := NIL) && n[slot.id] == m[slot.id].(parent := p)
        && Listing(m[p], n[p], kids[IndexOf(kids, was) := slot], if ActiveOf(m[p]) == was then slot.id else ActiveOf(m[p]))
      else !Accepts(m, op) && n == m
  {
    hide Inv, Exchange, Listing, Contains, IndexOf;
    if CanReplace(m, p, was, slot) {
      HangsThere(m, p, was);
      Itself(m, slot.id);
      ReplaceShape(m, p, was, slot);
      Exchanged(m[p], was, slot);
    }
  }

  lemma HangsThere(m: Nodes, p: Uuid, c: Uuid)
    requires Inv(m) && p in m && HasId(Kids(m[p].data), c)
    ensures c in m && c != p && m[c].parent == p && p != NIL
  {
    hide NoTwins, StacksActive, ZoomsLive, Acyclic;
    NotOwnChild(m, p, c);
    LinkedMembers(m);
    assert Lists(m, p, c);
  }

  lemma Exchanged(n: Node, was: Uuid, slot: ChildSlot)
    requires IsBranch(n.data) && HasId(Kids(n.data), was)
    ensures var kids := Kids(n.data);
      Listing(n, Exchange(n, was, slot), kids[IndexOf(kids, was) := slot], if ActiveOf(n) == was then slot.id else ActiveOf(n))
  {
  }

  /** The child ends `delta` places on, and the others keep their order. */
  lemma MoveShifts(m: Nodes, p: Uuid, c: Uuid, delta: int)
    requires Inv(m)
    ensures var op := Op.MoveChild(p, c, delta); var n := After(m, op);
      if delta != 0 && p in m && IsBranch(m[p].data) && HasId(Kids(m[p].data), c)
         && 0 <= IndexOf(Kids(m[p].data), c) + delta < |Kids(m[p].data)| then
        var kids, now := Kids(m[p].data), Kids(n[p].data); var i := IndexOf(kids, c); var j := i + delta;
        && Accepts(m, op) && Rest(m, n, {p}) && Listing(m[p], n[p], now, ActiveOf(m[p])) && |now| == |kids|
        && now[j] == kids[i] && now[..j] + now[j + 1..] == kids[..i] + kids[i + 1..]
      else !Accepts(m, op) && n == m
  {
    hide Inv, IndexOf, Accepts, After, Relocated;
    MoveStep(m, p, c, delta);
    if delta != 0 && p in m && IsBranch(m[p].data) && HasId(Kids(m[p].data), c)
       && 0 <= IndexOf(Kids(m[p].data), c) + delta < |Kids(m[p].data)| {
      RelocatedAt(Kids(m[p].data), IndexOf(Kids(m[p].data), c), IndexOf(Kids(m[p].data), c) + delta);
    }
  }

  lemma RelocatedAt(s: seq<ChildSlot>, i: nat, j: nat)
    requires i < |s| && j < |s|
    ensures var r := Relocated(s, i, j); r[j] == s[i] && r[..j] + r[j + 1..] == s[..i] + s[i + 1..]
  {
    var rest := s[..i] + s[i + 1..];
    assert rest == rest[..j] + rest[j..];
  }

  /** Every child ends `delta` places on, around the end. */
  lemma RotateTurns(m: Nodes, p: Uuid, delta: int)
    requires Inv(m)
    ensures var op := Op.RotateChildren(p, delta); var n := After(m, op);
      if delta != 0 && p in m && IsBranch(m[p].data) && |Kids(m[p].data)| >= 2 && delta % |Kids(m[p].data)| != 0 then
        var kids, now := Kids(m[p].data), Kids(n[p].data);
        && Accepts(m, op) && Rest(m, n, {p}) && Listing(m[p], n[p], now, ActiveOf(m[p])) && |now| == |kids|
        && forall i :: 0 <= i < |kids| ==> TurnedTo(kids, now, i, delta)
      else !Accepts(m, op) && n == m
  {
    hide Inv;
    if Accepts(m, Op.RotateChildren(p, delta)) {
      var kids := Kids(m[p].data);
      forall i | 0 <= i < |kids| ensures TurnedTo(kids, Rotated(kids, delta), i, delta) { RotatedAt(kids, delta, i); }
    }
  }

  predicate TurnedTo(kids: seq<ChildSlot>, now: seq<ChildSlot>, i: nat, delta: int)
    requires i < |kids| == |now|
  {
    now[(i + delta) % |kids|] == kids[i]
  }

  /** One hint of one child is set, a negative value as 0. */
  lemma SlotSet(m: Nodes, p: Uuid, c: Uuid, knob: Knob, value: int)
    requires Inv(m)
    ensures var op := Op.SetSlot(p, c, knob, value); var n := After(m, op); var v := if value < 0 then 0 else value;
      if p in m && m[p].data.ContainerData? && HasId(m[p].data.children, c) then
        var kids := m[p].data.children; var i := IndexOf(kids, c); var s := kids[i];
        && Accepts(m, op) && Rest(m, n, {p})
        && Listing(m[p], n[p], kids[i := ChildSlot(s.id,
             if knob.StretchKnob? then v else s.stretch, if knob.MinKnob? then v else s.minCells,
             if knob.MaxKnob? then v else s.maxCells, if knob.FixedKnob? then v else s.fixedCells)], NIL)
      else !Accepts(m, op) && n == m
  {
    hide Inv, IndexOf;
  }

  /** A tab bar is bound to the Stack, or to none. */
  lemma BarBound(m: Nodes, b: Uuid, s: Uuid)
    requires Inv(m)
    ensures var op := Op.SetTabBarStack(b, s); var n := After(m, op);
      if b in m && m[b].data.TabBarData? && (s == NIL || (s in m && m[s].data.StackData?)) then
        Accepts(m, op) && Rest(m, n, {b}) && n[b] == m[b].(data := TabBarData(s))
      else !Accepts(m, op) && n == m
  {
    hide Inv;
  }

  /** A new node hangs nowhere; a caption changes nothing else. */
  lemma CreatedOrNamed(m: Nodes, id: Uuid, d: NodeData, text: string)
    requires Inv(m) && id != NIL && Blank(d)
    ensures id !in m ==>
      var n := After(m, CreateNode(id, d)); n.Keys == m.Keys + {id} && n[id] == Node(NIL, "", d) && forall x :: x in m ==> n[x] == m[x]
    ensures id in m ==>
      var n := After(m, Op.SetLabel(id, text)); Rest(m, n, {id}) && n[id] == m[id].(caption := text)
  {
    hide Inv;
  }

  /** The root becomes the node asked for, if that hangs nowhere; otherwise it stays as long as
      it lives. */
  lemma RootFollows(s: State, op: Op, t: State)
    requires StateInv(s) && Safe(s.nodes, op) && TreeRuns.Step(s, op, t)
    ensures op.SetRoot? && op.id in s.nodes && s.nodes[op.id].parent == NIL ==> t.root == op.id && t.nodes == s.nodes
    ensures !(op.SetRoot? && op.id in s.nodes && s.nodes[op.id].parent == NIL) ==>
      t.root == if s.root in t.nodes then s.root else NIL
  {
    hide Inv;
  }

  /** Of the survivors only the lists and what named a destroyed node change: the others stay
      in the list in their order, a Stack falls back to its first remaining child. */
  lemma DestroyLeaves(m: Nodes, id: Uuid, x: Uuid)
    requires Inv(m) && id in m && x in m && !Contains(m, id, x)
    ensures var n := After(m, DestroyNode(id));
      && Accepts(m, DestroyNode(id)) && x in n && n[x].parent == m[x].parent && n[x].caption == m[x].caption
      && (!IsBranch(m[x].data) ==> n[x] == m[x])
      && (m[x].data.ContainerData? ==> n[x].data.ContainerData? && n[x].data.dir == m[x].data.dir)
      && (m[x].data.StackData? ==> n[x].data.StackData? && var e := n[x].data;
           && e.zoomTarget == (if Contains(m, id, m[x].data.zoomTarget) then NIL else m[x].data.zoomTarget)
           && e.activeChild == (if !Contains(m, id, m[x].data.activeChild) then m[x].data.activeChild else if e.children == [] then NIL else e.children[0].id))
      && Remaining(m, id, Kids(m[x].data), Kids(n[x].data))
  {
    hide Linked, StacksActive, ZoomsLive, Acyclic;
    WithoutRemaining(m, id, Kids(m[x].data));
    DestroyKnown(m, id, x);
  }

  lemma DestroyKnown(m: Nodes, id: Uuid, x: Uuid)
    requires Inv(m) && id in m && x in m && x !in Subtree(m, id)
    ensures m[x].data.StackData? ==>
      && (m[x].data.zoomTarget in Subtree(m, id) <==> Contains(m, id, m[x].data.zoomTarget))
      && (m[x].data.activeChild in Subtree(m, id) <==> Contains(m, id, m[x].data.activeChild))
  {
    hide Acyclic, ParentLinks, NoTwins;
    if m[x].data.StackData? {
      if m[x].data.children != [] {
        var i :| 0 <= i < |m[x].data.children| && m[x].data.children[i].id == m[x].data.activeChild;
        assert Kids(m[x].data)[i].id in m;
      }
    }
  }

  /** `now` is `was` without the slots of destroyed nodes. */
  ghost predicate Remaining(m: Nodes, id: Uuid, was: seq<ChildSlot>, now: seq<ChildSlot>)
    requires Acyclic(m)
  {
    if was == [] then now == []
    else if Contains(m, id, was[|was| - 1].id) && was[|was| - 1].id in m then Remaining(m, id, was[..|was| - 1], now)
    else now != [] && now[|now| - 1] == was[|was| - 1] && Remaining(m, id, was[..|was| - 1], now[..|now| - 1])
  }

  lemma {:induction false} WithoutRemaining(m: Nodes, id: Uuid, was: seq<ChildSlot>)
    requires Acyclic(m)
    ensures Remaining(m, id, was, Without(was, Subtree(m, id)))
  {
    hide Acyclic, Contains;
    if was != [] {
      var t := was[..|was| - 1];
      WithoutRemaining(m, id, t);
      assert (Without(t, Subtree(m, id)) + [was[|was| - 1]])[..|Without(t, Subtree(m, id))|] == Without(t, Subtree(m, id));
    }
  }

  // ---------------------------------------------------------------- what a Stack shows

  /** A visible Stack gives its rectangle to the node it shows. */
  lemma ShownSeen(m: Nodes, start: Uuid, window: Rect, cell: CellSize, s: Uuid)
    requires Layoutable(m) && start in m && !IsEmpty(window) && s in Rects(m, start, window, cell)
    requires s in m && m[s].data.StackData? && Shown(m[s].data) != NIL
    ensures var out := Rects(m, start, window, cell); Shown(m[s].data) in out && out[Shown(m[s].data)] == out[s]
  {
    hide Acyclic, Linked, StacksActive, ZoomsInside;
    var r := Rects(m, start, window, cell)[s];
    VisibleNested(m, start, window, cell, s);
    RectsPlaced(m, start, window, cell);
    ShownBelow(m, s);
    RectsOwn(m, Shown(m[s].data), r, cell);
    assert Shown(m[s].data) in Rects(m, s, r, cell) && Rects(m, s, r, cell)[Shown(m[s].data)] == r;
  }

  /** A change of what a Stack shows keeps the zooms inside their Stacks if its own is. */
  lemma StackLayoutable(m: Nodes, n: Nodes, s: Uuid)
    requires Inv(n) && Layoutable(m) && DifferAt(m, n, s) && s in m && n[s].data.StackData?
    requires var t := n[s].data.zoomTarget; t != NIL ==> t in m && t != s && Contains(m, s, t)
    ensures Layoutable(n)
  {
    forall q | q in n && n[q].data.StackData? && n[q].data.zoomTarget != NIL
      ensures n[q].data.zoomTarget in n && n[q].data.zoomTarget != q && Contains(n, q, n[q].data.zoomTarget)
    {
      ContainsSame(m, n, m.Keys, q, n[q].data.zoomTarget);
    }
  }

  /** Nothing outside the Stack moves, nor the Stack itself, and what it shows now has its
      rectangle. */
  ghost predicate ShowsAt(m: Nodes, s: Uuid, shown: Uuid, was: map<Uuid, Rect>, now: map<Uuid, Rect>)
    requires Acyclic(m)
  {
    Agree(NotBelow(m, s), was, now) && (s in was && shown != NIL ==> shown in now && now[shown] == was[s])
  }

  lemma ShowsAnew(m: Nodes, n: Nodes, s: Uuid, start: Uuid, window: Rect, cell: CellSize)
    requires Layoutable(m) && Layoutable(n) && DifferAt(m, n, s) && s in m && n[s].data.StackData? && start in m
    ensures ShowsAt(m, s, Shown(n[s].data), ComputeRects(m, start, window, cell), ComputeRects(n, start, window, cell))
  {
    hide Acyclic, Linked, StacksActive, ZoomsInside, Rects, NotBelow;
    if IsEmpty(window) {
      EmptyAgree(NotBelow(m, s));
    } else {
      RectsOutside(m, n, start, window, cell, s);
      StackItself(m, s);
      if s in Rects(m, start, window, cell) && Shown(n[s].data) != NIL && start != NIL {
        ShownSeen(n, start, window, cell, s);
      }
    }
  }

  lemma StackItself(m: Nodes, s: Uuid)
    requires Acyclic(m) && s in m
    ensures s in NotBelow(m, s)
  {
  }

  /** The child becomes the active one, and is shown in the place of the Stack unless that
      zooms, in which case nothing on screen changes. */
  lemma ActiveShows(m: Nodes, s: Uuid, c: Uuid, start: Uuid, window: Rect, cell: CellSize)
    requires Inv(m) && Layoutable(m) && start in m
    ensures var op := Op.SetActiveChild(s, c); var n := After(m, op);
      if s in m && m[s].data.StackData? && HasId(m[s].data.children, c) then
        && Accepts(m, op) && Rest(m, n, {s}) && n[s] == m[s].(data := StackData(m[s].data.children, c, m[s].data.zoomTarget)) && Layoutable(n)
        && var was, now := ComputeRects(m, start, window, cell), ComputeRects(n, start, window, cell);
        if m[s].data.zoomTarget == NIL then ShowsAt(m, s, c, was, now) else now == was
      else !Accepts(m, op) && n == m
  {
    var op := Op.SetActiveChild(s, c);
    hide ChildLinks, ParentLinks, NoTwins, StacksActive, ZoomsLive, Acyclic, ZoomsInside, Contains, Rects, ShowsAt;
    if s in m && m[s].data.StackData? && HasId(m[s].data.children, c) {
      var n := After(m, op);
      AcceptedKeepsInv(m, op);
      OwnZoom(m, s);
      StackLayoutable(m, n, s);
      if m[s].data.zoomTarget == NIL {
        ShowsAnew(m, n, s, start, window, cell);
      } else {
        SightRects(m, n, start, window, cell);
      }
    }
  }

  lemma OwnZoom(m: Nodes, s: Uuid)
    requires Layoutable(m) && s in m && m[s].data.StackData?
    ensures var t := m[s].data.zoomTarget; t != NIL ==> t in m && t != s && Contains(m, s, t)
  {
    hide StacksActive, Linked;
  }

  /** The Stack shows the target in its place, and its active child when the zoom ends. */
  lemma ZoomShowsTarget(m: Nodes, s: Uuid, t: Uuid, start: Uuid, window: Rect, cell: CellSize)
    requires Inv(m) && Layoutable(m) && start in m
    ensures var op := Op.SetStackZoom(s, t); var n := After(m, op);
      if s in m && m[s].data.StackData? && (t == NIL || (t != s && Contains(m, s, t))) then
        && Accepts(m, op) && Rest(m, n, {s}) && n[s] == m[s].(data := StackData(m[s].data.children, m[s].data.activeChild, t)) && Layoutable(n)
        && ShowsAt(m, s, if t == NIL then m[s].data.activeChild else t, ComputeRects(m, start, window, cell), ComputeRects(n, start, window, cell))
      else !Accepts(m, op) && n == m
  {
    var op := Op.SetStackZoom(s, t);
    hide ChildLinks, ParentLinks, NoTwins, StacksActive, ZoomsLive, Acyclic, ZoomsInside, Contains, Rects, ShowsAt, ComputeRects;
    if s in m && m[s].data.StackData? && (t == NIL || (t != s && Contains(m, s, t))) {
      AcceptedKeepsInv(m, op);
      ZoomedAnew(m, s, t, start, window, cell);
    }
  }

  lemma ZoomedAnew(m: Nodes, s: Uuid, t: Uuid, start: Uuid, window: Rect, cell: CellSize)
    requires Inv(m) && Layoutable(m) && start in m && s in m && m[s].data.StackData? && (t == NIL || (t != s && Contains(m, s, t)))
    requires Inv(m[s := m[s].(data := m[s].data.(zoomTarget := t))])
    ensures var n := m[s := m[s].(data := m[s].data.(zoomTarget := t))];
      && Layoutable(n)
      && ShowsAt(m, s, if t == NIL then m[s].data.activeChild else t, ComputeRects(m, start, window, cell), ComputeRects(n, start, window, cell))
  {
    hide Linked, StacksActive, ZoomsLive, Acyclic, ZoomsInside, Contains, Rects, ShowsAt, ComputeRects;
    var n := m[s := m[s].(data := m[s].data.(zoomTarget := t))];
    TargetLives(m, s, t);
    StackLayoutable(m, n, s);
    ShowsAnew(m, n, s, start, window, cell);
  }

  lemma TargetLives(m: Nodes, s: Uuid, t: Uuid)
    requires Inv(m) && s in m && (t == NIL || (t != s && Contains(m, s, t)))
    ensures t == NIL || t in m
  {
  }

  // ---------------------------------------------------------------- what is accepted

  /** A swap is accepted exactly for two nodes that hang somewhere, neither below the other. */
  lemma SwapAccepted(m: Nodes, a: Uuid, b: Uuid)
    requires Inv(m)
    ensures var op := Op.SwapLeaves(a, b);
      && (Accepts(m, op) <==> a in m && b in m && m[a].parent != NIL && m[b].parent != NIL && !Contains(m, a, b) && !Contains(m, b, a))
      && After(m, op) == (if Accepts(m, op) then Swapped(m, a, b) else m)
  {
    hide Inv, Contains, CanSwap;
    SwapIff(m, a, b);
  }

  lemma SwapIff(m: Nodes, a: Uuid, b: Uuid)
    requires Inv(m)
    ensures CanSwap(m, a, b) <==> a in m && b in m && m[a].parent != NIL && m[b].parent != NIL && !Contains(m, a, b) && !Contains(m, b, a)
  {
    hide NoTwins, ChildLinks, ParentLinks, StacksActive, ZoomsLive, Acyclic, Contains, CanRemove;
    NilOutside(m);
    Hangs(m, a);
    Hangs(m, b);
    if a in m { Itself(m, a); }
  }

  lemma Hangs(m: Nodes, x: Uuid)
    requires Inv(m)
    ensures x in m && m[x].parent != NIL ==> CanRemove(m, m[x].parent, x)
  {
    hide NoTwins, ChildLinks, StacksActive, ZoomsLive, Acyclic;
  }

  /** A split is accepted exactly for a node that hangs somewhere and a new one that does not. */
  lemma SplitAccepted(m: Nodes, existing: Uuid, dir: SplitDir, incoming: Uuid, first: bool, wrapper: Uuid)
    requires Inv(m) && Safe(m, Op.SplitByWrapping(existing, dir, incoming, first, wrapper))
    ensures var op := Op.SplitByWrapping(existing, dir, incoming, first, wrapper);
      && (Accepts(m, op) <==> existing in m && incoming in m && m[existing].parent != NIL && m[incoming].parent == NIL)
      && After(m, op) == (if Accepts(m, op) then Split(m, existing, dir, incoming, first, wrapper) else m)
  {
    hide Inv;
  }

  /** Destroying takes any node there is; collapsing starts at a Container with one child that
      hangs somewhere, unless it is the one to stop at. */
  lemma RemovalAccepted(m: Nodes, id: Uuid, stopAt: Uuid)
    requires Inv(m)
    ensures Accepts(m, DestroyNode(id)) <==> id in m
    ensures id !in m ==> After(m, DestroyNode(id)) == m
    ensures Accepts(m, Op.CollapseSingletonsAbove(id, stopAt)) <==>
      && stopAt != NIL && id != stopAt && id in m && m[id].parent != NIL
      && m[id].data.ContainerData? && |m[id].data.children| == 1
    ensures After(m, Op.CollapseSingletonsAbove(id, stopAt)) == if stopAt == NIL then m else Collapse(m, id, stopAt)
  {
    hide ChildLinks, ParentLinks, NoTwins, StacksActive, ZoomsLive, Acyclic;
    NilOutside(m);
  }

  /** A resize is accepted exactly if there is a nearest Container along the axis, and the child
      that holds the target and its neighbour are both visible. */
  lemma ResizeAccepted(m: Nodes, target: Uuid, axis: SplitDir, pixels: int, root: Uuid, window: Rect, cell: CellSize)
    requires Inv(m) && Layoutable(m) && target in m && root in m
    ensures var op := Op.ResizeEdge(target, axis, pixels, root, window, cell);
      && Safe(m, op)
      && (Accepts(m, op) <==> exists p, i: nat, j: nat :: Movable(m, target, axis, root, p, i, j, ComputeRects(m, root, window, cell)))
      && After(m, op) == (if Accepts(m, op) then Resize(m, target, axis, pixels, root, window, cell) else m)
  {
    hide ChildLinks, ParentLinks, NoTwins, StacksActive, ZoomsLive, Acyclic, ZoomsInside, Contains, Rects, EdgeAbove, Resize, NearestAlong;
    NilOutside(m);
    EndsAnyway(m, root, window, cell);
    EdgeIff(m, target, axis, root);
    var e, out := EdgeAbove(m, target, axis, root), ComputeRects(m, root, window, cell);
    if CanResize(m, target, axis, root, window, cell) {
      assert Movable(m, target, axis, root, e.container, e.index, e.neighbour, out);
    }
    if p, i: nat, j: nat :| Movable(m, target, axis, root, p, i, j, out) {
      NearestContainer(m, target, axis, root, p);
      assert e.Edge?;
      NearestOnce(m, target, axis, root, p, e.container);
      KidOnce(m, p, target, i, e.index);
    }
  }

  lemma NearestContainer(m: Nodes, target: Uuid, axis: SplitDir, root: Uuid, p: Uuid)
    requires Acyclic(m) && NearestAlong(m, target, axis, root, p)
    ensures p in m && m[p].data.ContainerData?
  {
  }

  lemma EndsAnyway(m: Nodes, root: Uuid, window: Rect, cell: CellSize)
    requires Layoutable(m)
    ensures LayoutEnds(m, root, window, cell)
  {
    hide Layoutable, EndsIn;
    LayoutableEnds(m, root, window, cell);
  }

  /** The i-th child of the nearest Container holds the target, the j-th is the next one, or
      the one before the last, and both are visible. */
  ghost predicate Movable(m: Nodes, target: Uuid, axis: SplitDir, root: Uuid, p: Uuid, i: nat, j: nat, out: map<Uuid, Rect>)
    requires Acyclic(m)
  {
    && NearestAlong(m, target, axis, root, p)
    && var kids := m[p].data.children;
    && i < |kids| && Contains(m, kids[i].id, target) && j == (if i + 1 < |kids| then i + 1 else i - 1)
    && kids[i].id in out && kids[j].id in out
  }

  lemma KidOnce(m: Nodes, p: Uuid, x: Uuid, i: nat, j: nat)
    requires Inv(m) && p in m && m[p].data.ContainerData? && x in m && i < |m[p].data.children| && j < |m[p].data.children|
    requires Contains(m, m[p].data.children[i].id, x) && Contains(m, m[p].data.children[j].id, x)
    ensures i == j
  {
    hide ChildLinks, ParentLinks, NoTwins, StacksActive, ZoomsLive, Acyclic, Contains;
    assert Kids(m[p].data) == m[p].data.children;
    SameChild(m, p, i, j, x);
  }

  // ---------------------------------------------------------------- hints in cells

  /** The cell width counts along a row and the cell height along a column; a cell without
      extent counts as one pixel. */
  function Unit(dir: SplitDir, cell: CellSize): int {
    match dir
    case Horizontal => if cell.w <= 0 then 1 else cell.w
    case Vertical => if cell.h <= 0 then 1 else cell.h
  }

  /** Pixels along a row or a column. */
  function Along(dir: SplitDir, r: Rect): int {
    match dir
    case Horizontal => r.w
    case Vertical => r.h
  }

  /** In a visible Container a pinned child that ends before the Container does is as many
      cells long as it is pinned to, and any other child for which there is room has its
      minimum. */
  lemma HintsSeen(m: Nodes, start: Uuid, window: Rect, cell: CellSize, p: Uuid, i: nat)
    requires Layoutable(m) && start in m && !IsEmpty(window) && p in Rects(m, start, window, cell) && p in m && m[p].data.ContainerData?
    requires i < |m[p].data.children|
    ensures var out, d := Rects(m, start, window, cell), m[p].data; var s, sizes := d.children[i], Sizes(d, out[p], cell);
      && (s.fixedCells > 0 && Prefix(sizes, i + 1) < Along(d.dir, out[p]) ==>
            s.id in out && Along(d.dir, out[s.id]) == s.fixedCells * Unit(d.dir, cell))
      && (s.fixedCells <= 0 && s.minCells > 0 && Prefix(sizes, i) + s.minCells * Unit(d.dir, cell) <= Along(d.dir, out[p]) ==>
            s.id in out && Along(d.dir, out[s.id]) >= s.minCells * Unit(d.dir, cell))
  {
    hide Acyclic, Linked, StacksActive, ZoomsInside, Rects, Strips, Divide;
    var d, r := m[p].data, Rects(m, start, window, cell)[p];
    var s := d.children[i];
    RectShows(m, start, window, cell, p);
    SeenIff(m, start, window, cell, p, i);
    StripsAt(d, r, cell, i);
    StripShows(d, r, cell, i);
    Positive(s.fixedCells, Unit(d.dir, cell));
    Positive(s.minCells, Unit(d.dir, cell));
    if s.fixedCells > 0 && Prefix(Sizes(d, r, cell), i + 1) < Along(d.dir, r) {
      SizeIs(d.children, Along(d.dir, r), Unit(d.dir, cell), i);
    } else if s.fixedCells <= 0 {
      MinimumHoldsIff(d.children, Along(d.dir, r), Unit(d.dir, cell), i);
    }
  }

  lemma Positive(a: int, b: int)
    requires b > 0
    ensures a > 0 ==> a * b > 0
  {
  }
}
