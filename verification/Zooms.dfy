/** Zoom targets are checked when they are set and cleared when they are destroyed, and
    otherwise left alone (src/LayoutTree.cpp:321-347, :487-490).  Here is exactly which
    operations keep them inside their Stacks, which layout needs to end. */
module Zooms {
  import opened Forest
  import opened Ancestry
  import opened SpaceDivision
  import opened TreeEdits
  import opened TreeReshape
  import opened Layout
  import opened EdgeResize
  import opened LeafSwap
  import opened Preconditions
  import opened TreeRuns

  /** The zoom target of a node, nil for all that is no Stack. */
  function Zoom(n: Node): Uuid { if n.data.StackData? then n.data.zoomTarget else NIL }

  /** Every zoom onto a node below `c` belongs to a Stack below `c`. */
  ghost predicate OwnZooms(m: Nodes, c: Uuid)
    requires Acyclic(m)
  {
    forall s :: s in m && Zoom(m[s]) != NIL && Contains(m, c, Zoom(m[s])) ==> Contains(m, c, s)
  }

  /** A zoom onto a node below `a` from outside `a` comes from a Stack that holds `b`. */
  ghost predicate ZoomsFollow(m: Nodes, a: Uuid, b: Uuid)
    requires Acyclic(m)
  {
    forall s :: s in m && Zoom(m[s]) != NIL && Contains(m, a, Zoom(m[s])) && !Contains(m, a, s) ==> Contains(m, s, b)
  }

  /** What an accepted operation must meet to keep the zooms inside: three of them can
      break it, and each condition can be looked up before the call. */
  ghost predicate KeepsZooms(m: Nodes, op: Op)
    requires Inv(m)
  {
    match op
    case RemoveChild(_, c) => OwnZooms(m, c)
    case ReplaceChild(_, was, _) => OwnZooms(m, was)
    case SwapLeaves(a, b) => ZoomsFollow(m, a, b) && ZoomsFollow(m, b, a)
    case _ => true
  }

  // ---------------------------------------------------------------- chains

  /** Links that are only added lose no ancestor. */
  lemma {:induction false} GrownChain(m: Nodes, n: Nodes, s: Uuid, z: Uuid)
    requires Acyclic(m) && Linked(m) && Acyclic(n) && NIL !in n && z in m && m.Keys <= n.Keys && Contains(m, s, z)
    requires forall x :: x in m ==> m[x].parent == NIL || n[x].parent == m[x].parent
    ensures Contains(n, s, z)
    decreases Above(m, z)
  {
    if z != s {
      assert m[z].parent in Above(m, z);
      GrownChain(m, n, s, m[z].parent);
    }
  }

  /** Cutting the link above `c`, and adding links to roots, cuts exactly the chains that
      enter `c` from below and go on above it. */
  lemma {:induction false} CutChain(m: Nodes, n: Nodes, c: Uuid, s: Uuid, z: Uuid)
    requires Acyclic(m) && Linked(m) && Acyclic(n) && NIL !in n && n.Keys == m.Keys && c in m && z in m && Contains(m, s, z)
    requires n[c].parent == NIL && forall x :: x in m && x != c ==> m[x].parent == NIL || n[x].parent == m[x].parent
    ensures Contains(n, s, z) == (Contains(m, c, z) ==> Contains(m, c, s))
    decreases Above(m, z)
  {
    BelowItself(m, c);
    if z == c && s != c {
      ContainsInForest(m, s, c);
      if Contains(m, c, s) { ContainsInForest(m, c, s); }
    } else if z != s {
      assert m[z].parent in Above(m, z);
      CutChain(m, n, c, s, m[z].parent);
    }
  }

  /** The links after a swap. */
  ghost predicate SwappedLinks(m: Nodes, n: Nodes, a: Uuid, b: Uuid) {
    && n.Keys == m.Keys && a in m && b in m
    && n[a].parent == m[b].parent && n[b].parent == m[a].parent
    && forall x :: x in m && x != a && x != b ==> n[x].parent == m[x].parent
  }

  /** From the place of `b` upwards nothing changed, so `a` now has there the ancestors
      that `b` had. */
  lemma SwappedChainAt(m: Nodes, n: Nodes, a: Uuid, b: Uuid, s: Uuid)
    requires Acyclic(m) && Linked(m) && Acyclic(n) && NIL !in n && SwappedLinks(m, n, a, b)
    requires CanSwap(m, a, b) && Contains(m, s, a) && s != a
    ensures Contains(n, s, a) == Contains(m, s, b)
  {
    var q := m[b].parent;
    assert q in m && s != b;
    ParentNotBelow(m, b);
    assert !Contains(m, a, q) by { ContainsChild(m, a, b); }
    SplitPointChain(m, n, b, a, q, s);
  }

  lemma {:induction false} SwappedChain(m: Nodes, n: Nodes, a: Uuid, b: Uuid, s: Uuid, z: Uuid)
    requires Acyclic(m) && Linked(m) && Acyclic(n) && NIL !in n && SwappedLinks(m, n, a, b)
    requires CanSwap(m, a, b) && z in m && Contains(m, s, z)
    ensures Contains(n, s, z) <==>
      (Contains(m, a, z) && !Contains(m, a, s) ==> Contains(m, s, b)) && (Contains(m, b, z) && !Contains(m, b, s) ==> Contains(m, s, a))
    decreases Above(m, z)
  {
    BelowItself(m, a);
    BelowItself(m, b);
    if z != s {
      if z == a {
        SwappedChainAt(m, n, a, b, s);
        NotBothWays(m, s, a);
      } else if z == b {
        SwappedChainAt(m, n, b, a, s);
        NotBothWays(m, s, b);
      } else {
        assert m[z].parent in Above(m, z);
        SwappedChain(m, n, a, b, s, m[z].parent);
      }
    }
  }

  lemma NotBothWays(m: Nodes, a: Uuid, b: Uuid)
    requires Acyclic(m) && Linked(m) && a != b && b in m && Contains(m, a, b)
    ensures a in m && !Contains(m, b, a)
  {
    ContainsInForest(m, a, b);
    if Contains(m, b, a) { ContainsInForest(m, b, a); }
  }

  /** A link split by a wrapper loses no ancestor. */
  lemma {:induction false} WrappedChain(m: Nodes, n: Nodes, existing: Uuid, wrapper: Uuid, s: Uuid, z: Uuid)
    requires Acyclic(m) && Linked(m) && Acyclic(n) && NIL !in n && m.Keys <= n.Keys && z in m && Contains(m, s, z)
    requires existing in m && wrapper in n && n[existing].parent == wrapper && n[wrapper].parent == m[existing].parent
    requires forall x :: x in m && x != existing ==> m[x].parent == NIL || n[x].parent == m[x].parent
    ensures Contains(n, s, z)
    decreases Above(m, z)
  {
    if z != s {
      assert m[z].parent in Above(m, z);
      WrappedChain(m, n, existing, wrapper, s, m[z].parent);
    }
  }

  /** A chain that skips the Container taken out of it loses no other ancestor. */
  lemma {:induction false} SkippedChain(m: Nodes, n: Nodes, cur: Uuid, s: Uuid, z: Uuid)
    requires Acyclic(m) && Linked(m) && Acyclic(n) && NIL !in n && n.Keys == m.Keys - {cur} && cur in m
    requires z in n && s in n && Contains(m, s, z)
    requires forall x :: x in n ==> n[x].parent == if m[x].parent == cur then m[cur].parent else m[x].parent
    ensures Contains(n, s, z)
    decreases Above(m, z)
  {
    if z != s {
      var q := m[z].parent;
      assert q in Above(m, z);
      if q == cur {
        assert m[cur].parent in Above(m, cur);
        AboveShrinks(m, cur, z);
        SkippedChain(m, n, cur, s, m[cur].parent);
      } else {
        SkippedChain(m, n, cur, s, q);
      }
    }
  }

  lemma AboveShrinks(m: Nodes, q: Uuid, z: Uuid)
    requires Acyclic(m) && Linked(m) && z in m && q == m[z].parent && q in m && m[q].parent in m
    ensures Above(m, m[q].parent) < Above(m, z)
  {
    assert q in Above(m, z) && q !in Above(m, m[q].parent);
  }

  /** A chain between survivors survives. */
  lemma {:induction false} PrunedChain(m: Nodes, n: Nodes, dead: set<Uuid>, s: Uuid, z: Uuid)
    requires Acyclic(m) && Linked(m) && Acyclic(n) && NIL !in n && n.Keys == m.Keys - dead && DownClosed(m, dead)
    requires z in n && Contains(m, s, z) && forall x :: x in n ==> n[x].parent == m[x].parent
    ensures Contains(n, s, z)
    decreases Above(m, z)
  {
    if z != s {
      assert m[z].parent in Above(m, z);
      PrunedChain(m, n, dead, s, m[z].parent);
    }
  }

  // ---------------------------------------------------------------- operations

  ghost predicate SameZooms(m: Nodes, n: Nodes) {
    n.Keys == m.Keys && forall x :: x in m ==> Zoom(n[x]) == Zoom(m[x])
  }

  lemma ZoomsInsideAt(m: Nodes)
    requires Acyclic(m)
    ensures ZoomsInside(m) <==> forall s :: s in m && Zoom(m[s]) != NIL ==> Inside(m, s, Zoom(m[s]))
  {
  }

  ghost predicate Inside(m: Nodes, s: Uuid, z: Uuid)
    requires Acyclic(m)
  {
    z in m && z != s && Contains(m, s, z)
  }

  /** Cutting the link above `c` keeps the zooms inside if and only if no Stack outside
      `c` zooms into it. */
  lemma CutZoomsIff(m: Nodes, n: Nodes, c: Uuid)
    requires Inv(m) && ZoomsInside(m) && Acyclic(n) && SameZooms(m, n) && c in m
    requires n[c].parent == NIL && forall x :: x in m && x != c ==> m[x].parent == NIL || n[x].parent == m[x].parent
    ensures ZoomsInside(n) <==> OwnZooms(m, c)
  {
    hide ZoomsInside, ChildLinks, ParentLinks, NoTwins, StacksActive, ZoomsLive, Acyclic;
    ZoomsInsideAt(m);
    ZoomsInsideAt(n);
    forall s | s in m && Zoom(m[s]) != NIL ensures Inside(n, s, Zoom(m[s])) <==> (Contains(m, c, Zoom(m[s])) ==> Contains(m, c, s)) {
      CutChain(m, n, c, s, Zoom(m[s]));
    }
  }

  lemma RemoveLinks(m: Nodes, parent: Uuid, c: Uuid)
    requires Inv(m) && CanRemove(m, parent, c)
    ensures var n := Remove(m, parent, c);
      && c in m && SameZooms(m, n) && n[c].parent == NIL && forall x :: x in m && x != c ==> n[x].parent == m[x].parent
  {
    ReplacedIsBelow(m, parent, c);
    RemoveShape(m, parent, c);
    DropKids(m[parent], c);
    hide Inv, Drop, Remove;
  }

  /** Removing a child keeps every zoom target inside its Stack exactly when no Stack
      outside the removed subtree zooms into it. */
  lemma RemoveKeepsZoomsIff(m: Nodes, parent: Uuid, c: Uuid)
    requires Inv(m) && ZoomsInside(m) && CanRemove(m, parent, c)
    ensures Inv(Remove(m, parent, c))
    ensures ZoomsInside(Remove(m, parent, c)) <==> OwnZooms(m, c)
  {
    hide ZoomsInside, OwnZooms, Remove;
    RemoveKeepsInv(m, parent, c);
    RemoveLinks(m, parent, c);
    CutZoomsIff(m, Remove(m, parent, c), c);
  }

  lemma ReplaceLinks(m: Nodes, parent: Uuid, was: Uuid, slot: ChildSlot)
    requires Inv(m) && CanReplace(m, parent, was, slot) && slot.id != parent
    ensures var n := Replace(m, parent, was, slot);
      && was in m && m[was].parent == parent && was != slot.id && SameZooms(m, n) && n[was].parent == NIL && n[slot.id].parent == parent
      && forall x :: x in m && x != was && x != slot.id ==> n[x].parent == m[x].parent
  {
    ReplacedIsBelow(m, parent, was);
    LinkedParent(m, parent, was);
    ReplaceShape(m, parent, was, slot);
    ExchangeKids(m[parent], was, slot);
    hide Inv, Exchange, Replace;
  }

  lemma LinkedParent(m: Nodes, p: Uuid, c: Uuid)
    requires Linked(m) && p in m && HasId(Kids(m[p].data), c)
    ensures c in m && m[c].parent == p && p != NIL
  {
  }

  /** Replacing a child keeps them inside exactly when no Stack outside the replaced
      subtree zooms into it. */
  lemma ReplaceKeepsZoomsIff(m: Nodes, parent: Uuid, was: Uuid, slot: ChildSlot)
    requires Inv(m) && ZoomsInside(m) && CanReplace(m, parent, was, slot) && !Contains(m, slot.id, parent)
    ensures Inv(Replace(m, parent, was, slot))
    ensures ZoomsInside(Replace(m, parent, was, slot)) <==> OwnZooms(m, was)
  {
    hide ZoomsInside, OwnZooms, Replace;
    ReplaceKeepsInv(m, parent, was, slot);
    BelowItself(m, parent);
    ReplaceLinks(m, parent, was, slot);
    assert m[slot.id].parent == NIL;
    CutZoomsIff(m, Replace(m, parent, was, slot), was);
  }

  lemma SwapLinks(m: Nodes, a: Uuid, b: Uuid)
    requires Acyclic(m) && CanSwap(m, a, b)
    ensures SameZooms(m, Swapped(m, a, b)) && SwappedLinks(m, Swapped(m, a, b), a, b)
  {
    hide Acyclic, Contains, Renamed;
  }

  /** Swapping keeps them inside exactly when each Stack that zooms below one of the two
      from outside it holds the other as well. */
  lemma SwapKeepsZoomsIff(m: Nodes, a: Uuid, b: Uuid)
    requires Inv(m) && ZoomsInside(m) && CanSwap(m, a, b)
    ensures Inv(Swapped(m, a, b))
    ensures ZoomsInside(Swapped(m, a, b)) <==> ZoomsFollow(m, a, b) && ZoomsFollow(m, b, a)
  {
    hide ZoomsInside, ChildLinks, ParentLinks, NoTwins, StacksActive, ZoomsLive, Acyclic, SwappedLinks;
    var n := Swapped(m, a, b);
    hide CanSwap;
    SwapKeepsInv(m, a, b);
    SwapLinks(m, a, b);
    ZoomsInsideAt(m);
    ZoomsInsideAt(n);
    forall s | s in m && Zoom(m[s]) != NIL
      ensures var z := Zoom(m[s]);
        Inside(n, s, z) <==> (Contains(m, a, z) && !Contains(m, a, s) ==> Contains(m, s, b)) && (Contains(m, b, z) && !Contains(m, b, s) ==> Contains(m, s, a))
    {
      SwappedChain(m, n, a, b, s, Zoom(m[s]));
    }
  }

  /** For two Terminals that is: every Stack that zooms on one of them holds both. */
  lemma LeafSwapKeepsZoomsIff(m: Nodes, a: Uuid, b: Uuid)
    requires LeafPair(m, a, b)
    ensures Inv(Swapped(m, a, b)) && (Layoutable(Swapped(m, a, b)) <==> ZoomsHoldBoth(m, a, b))
  {
    hide ZoomsInside, ChildLinks, ParentLinks, NoTwins, StacksActive, ZoomsLive, Acyclic;
    SwapKeepsZoomsIff(m, a, b);
    ZoomsInsideAt(m);
    forall s | s in m && Zoom(m[s]) != NIL
      ensures ZoomedOn(m[s].data, a, b) ==> Contains(m, s, Zoom(m[s]))
      ensures Contains(m, a, Zoom(m[s])) && !Contains(m, a, s) <==> Zoom(m[s]) == a
      ensures Contains(m, b, Zoom(m[s])) && !Contains(m, b, s) <==> Zoom(m[s]) == b
    {
      OnlyItself(m, a, s);
      OnlyItself(m, b, s);
      OnlyItself(m, a, Zoom(m[s]));
      OnlyItself(m, b, Zoom(m[s]));
    }
  }

  lemma OnlyItself(m: Nodes, a: Uuid, x: Uuid)
    requires Acyclic(m) && Linked(m) && a in m && m[a].data.TerminalData? && x in m
    ensures Contains(m, a, x) <==> x == a
  {
    if Contains(m, a, x) { BarrenHoldsOnlyItself(m, a, x); }
  }

  /** Operations that leave all links in place, or only add some. */
  lemma GrownZooms(m: Nodes, n: Nodes)
    requires Inv(m) && Acyclic(n) && NIL !in n && m.Keys <= n.Keys
    requires forall x :: x in m ==> m[x].parent == NIL || n[x].parent == m[x].parent
    requires forall s :: s in n && Zoom(n[s]) != NIL ==> s in m && Inside(m, s, Zoom(n[s]))
    ensures ZoomsInside(n)
  {
    hide ZoomsInside, ChildLinks, ParentLinks, NoTwins, StacksActive, ZoomsLive, Acyclic;
    ZoomsInsideAt(n);
    forall s | s in n && Zoom(n[s]) != NIL ensures Inside(n, s, Zoom(n[s])) {
      GrownChain(m, n, s, Zoom(n[s]));
    }
  }

  predicate Harmless(op: Op) {
    op.AppendChild? || op.SetActiveChild? || op.SetTabBarStack? || op.MoveChild? || op.RotateChildren? || op.SetSlot? || op.ResizeEdge?
    || op.SetRoot? || op.MarkDirty? || op.TakeDirty?
  }

  ghost predicate LinksGrow(m: Nodes, n: Nodes) {
    SameZooms(m, n) && forall x :: x in m ==> m[x].parent == NIL || n[x].parent == m[x].parent
  }

  lemma NodeReplaced(m: Nodes, id: Uuid, node: Node)
    requires id in m && node.parent == m[id].parent && Zoom(node) == Zoom(m[id])
    ensures LinksGrow(m, m[id := node])
  {
    hide Zoom;
  }

  lemma KidsReplaced(m: Nodes, p: Uuid, kids: seq<ChildSlot>)
    requires p in m && IsBranch(m[p].data)
    ensures LinksGrow(m, SetKids(m, p, kids))
  {
    NodeReplaced(m, p, WithKids(m[p], kids));
  }

  lemma AppendLinks(m: Nodes, p: Uuid, slot: ChildSlot)
    requires CanAppend(m, p, slot) && slot.id != p
    ensures LinksGrow(m, Append(m, p, slot))
  {
  }

  lemma ResizeLinks(m: Nodes, t: Uuid, axis: SplitDir, pixels: int, root: Uuid, window: Rect, cell: CellSize)
    requires Inv(m) && ResizeEnds(m, t, axis, root, window, cell) && CanResize(m, t, axis, root, window, cell)
    ensures LinksGrow(m, Resize(m, t, axis, pixels, root, window, cell))
  {
    hide EdgeAbove, ComputeRects, SetKids, LinksGrow, LayoutEnds;
    var e := EdgeAbove(m, t, axis, root);
    var n := Resize(m, t, axis, pixels, root, window, cell);
    var kids :| n == SetKids(m, e.container, kids);
    KidsReplaced(m, e.container, kids);
  }

  lemma HarmlessLinks(m: Nodes, op: Op)
    requires Inv(m) && Safe(m, op) && Accepts(m, op) && Harmless(op)
    ensures LinksGrow(m, Accepted(m, op))
  {
    hide Inv, LinksGrow, SetKids, ResizeEnds, LayoutEnds, ComputeRects, EdgeAbove, Relocated, Rotated, Turned;
    match op
    case AppendChild(p, slot) =>
      BelowItselfIn(m, p);
      AppendLinks(m, p, slot);
    case SetActiveChild(s, c) => NodeReplaced(m, s, WithActive(m[s], c));
    case SetTabBarStack(b, s) => NodeReplaced(m, b, m[b].(data := TabBarData(s)));
    case MoveChild(p, c, delta) =>
      var i := IndexOf(Kids(m[p].data), c);
      KidsReplaced(m, p, Relocated(Kids(m[p].data), i, i + delta));
    case RotateChildren(p, delta) => KidsReplaced(m, p, Rotated(Kids(m[p].data), delta));
    case SetSlot(p, c, knob, value) =>
      var i := IndexOf(m[p].data.children, c);
      KidsReplaced(m, p, m[p].data.children[i := Turned(m[p].data.children[i], knob, value)]);
    case ResizeEdge(t, axis, pixels, root, window, cell) => ResizeLinks(m, t, axis, pixels, root, window, cell);
    case _ => NothingReplaced(m);
  }

  lemma NothingReplaced(m: Nodes)
    ensures LinksGrow(m, m)
  {
  }

  lemma BelowItselfIn(m: Nodes, p: Uuid)
    requires Inv(m)
    ensures p in m ==> Contains(m, p, p)
  {
    if p in m { BelowItself(m, p); }
  }

  lemma ZoomSetLinks(m: Nodes, stack: Uuid, target: Uuid)
    requires Inv(m) && ZoomsInside(m) && Accepts(m, SetStackZoom(stack, target)) && Inv(Accepted(m, SetStackZoom(stack, target)))
    ensures ZoomsInside(Accepted(m, SetStackZoom(stack, target)))
  {
    hide ZoomsInside, ChildLinks, ParentLinks, NoTwins, StacksActive, ZoomsLive, Acyclic;
    ZoomsInsideAt(m);
    GrownZooms(m, Accepted(m, SetStackZoom(stack, target)));
  }

  lemma SplitZooms(m: Nodes, n: Nodes, existing: Uuid, dir: SplitDir, incoming: Uuid, first: bool, wrapper: Uuid)
    requires SplitSafe(m, existing, incoming, wrapper) && ZoomsInside(m)
    requires n == Split(m, existing, dir, incoming, first, wrapper) && Inv(n)
    requires SplitShape(m, n, existing, dir, incoming, first, wrapper)
    ensures ZoomsInside(n)
  {
    hide ZoomsInside, ChildLinks, ParentLinks, NoTwins, StacksActive, ZoomsLive, Acyclic, SplitShape, Split;
    ZoomsInsideAt(m);
    ZoomsInsideAt(n);
    SplitLinks(m, existing, dir, incoming, first, wrapper);
    SplitKeepsZoom(m, n, existing, dir, incoming, first, wrapper);
    forall s | s in n && Zoom(n[s]) != NIL ensures Inside(n, s, Zoom(n[s])) {
      WrappedChain(m, n, existing, wrapper, s, Zoom(n[s]));
    }
  }

  lemma SplitKeepsZoom(m: Nodes, n: Nodes, existing: Uuid, dir: SplitDir, incoming: Uuid, first: bool, wrapper: Uuid)
    requires CanSplit(m, existing, incoming) && SplitShape(m, n, existing, dir, incoming, first, wrapper)
    ensures forall s :: s in n && Zoom(n[s]) != NIL ==> s in m && Zoom(m[s]) == Zoom(n[s])
  {
  }

  lemma DestroyZooms(m: Nodes, dead: set<Uuid>)
    requires Inv(m) && ZoomsInside(m) && DownClosed(m, dead) && Inv(Prune(m, dead))
    ensures ZoomsInside(Prune(m, dead))
  {
    hide ZoomsInside, ChildLinks, ParentLinks, NoTwins, StacksActive, ZoomsLive, Acyclic, DownClosed;
    var n := Prune(m, dead);
    ZoomsInsideAt(m);
    ZoomsInsideAt(n);
    forall s | s in n && Zoom(n[s]) != NIL ensures Inside(n, s, Zoom(n[s])) {
      PrunedChain(m, n, dead, s, Zoom(n[s]));
    }
  }

  lemma SurvivorLinks(n: Node, dead: set<Uuid>)
    ensures var k := Survivor(n, dead); k.parent == n.parent && (Zoom(k) != NIL ==> Zoom(k) == Zoom(n) && Zoom(k) !in dead)
  {
    hide FirstId, Without;
  }

  /** Freeing the only child, putting it in the place of its Container and erasing that. */
  lemma PassedUp(m: Nodes, freed: Nodes, placed: Nodes, cur: Uuid, only: Uuid)
    requires cur in m && only in m && m[only].parent == cur && forall x :: x in m && m[x].parent == cur ==> x == only
    requires SameZooms(m, freed) && freed[only].parent == NIL && forall x :: x in m && x != only ==> freed[x].parent == m[x].parent
    requires SameZooms(freed, placed) && placed[only].parent == m[cur].parent
    requires forall x :: x in m && x != cur && x != only ==> placed[x].parent == freed[x].parent
    ensures var n := Prune(placed, {cur});
      && n.Keys == m.Keys - {cur}
      && (forall x :: x in n ==> n[x].parent == if m[x].parent == cur then m[cur].parent else m[x].parent)
      && forall s :: s in n && Zoom(n[s]) != NIL ==> Zoom(m[s]) == Zoom(n[s]) && Zoom(n[s]) != cur
  {
    hide Survivor, Zoom;
    forall x | x in placed ensures Survivor(placed[x], {cur}).parent == placed[x].parent {
      SurvivorLinks(placed[x], {cur});
    }
    forall x | x in placed && Zoom(Survivor(placed[x], {cur})) != NIL
      ensures Zoom(Survivor(placed[x], {cur})) == Zoom(placed[x]) && Zoom(placed[x]) != cur
    {
      SurvivorLinks(placed[x], {cur});
    }
  }

  lemma SubtreeDestroyed(m: Nodes, id: Uuid)
    requires Inv(m) && ZoomsInside(m) && id in m
    ensures Inv(Prune(m, Subtree(m, id))) && ZoomsInside(Prune(m, Subtree(m, id)))
  {
    hide ZoomsInside, ChildLinks, ParentLinks, NoTwins, StacksActive, ZoomsLive, Acyclic, DownClosed;
    SplitClose.SubtreeClosed(m, id);
    PruneKeepsInv(m, Subtree(m, id));
    DestroyZooms(m, Subtree(m, id));
  }

  lemma CollapseLinks(m: Nodes, cur: Uuid, stopAt: Uuid)
    requires Inv(m) && Collapses(m, cur, stopAt) && CollapseOnce.requires(m, cur)
    ensures var n := CollapseOnce(m, cur);
      && n.Keys == m.Keys - {cur}
      && (forall x :: x in n ==> n[x].parent == if m[x].parent == cur then m[cur].parent else m[x].parent)
      && forall s :: s in n && Zoom(n[s]) != NIL ==> Zoom(m[s]) == Zoom(n[s]) && Zoom(n[s]) != cur
  {
    hide Remove, Replace, Prune, Zoom, Contains;
    var only, grand := m[cur].data.children[0].id, m[cur].parent;
    CollapseTarget(m, cur);
    OnlyChild(m, cur);
    RemoveKeepsInv(m, cur, only);
    RemoveLinks(m, cur, only);
    hide Inv;
    var freed := Remove(m, cur, only);
    ReplaceLinks(freed, grand, cur, Plain(only));
    PassedUp(m, freed, Replace(freed, grand, cur, Plain(only)), cur, only);
  }

  lemma OnlyChild(m: Nodes, cur: Uuid)
    requires Linked(m) && cur in m && cur != NIL && |Kids(m[cur].data)| == 1
    ensures forall x :: x in m && m[x].parent == cur ==> x == Kids(m[cur].data)[0].id
  {
  }

  lemma {:induction false} CollapseZooms(m: Nodes, cur: Uuid, stopAt: Uuid)
    requires Inv(m) && ZoomsInside(m)
    ensures Inv(Collapse(m, cur, stopAt)) && ZoomsInside(Collapse(m, cur, stopAt))
    decreases |m|
  {
    hide ZoomsInside, ChildLinks, ParentLinks, NoTwins, StacksActive, ZoomsLive, Acyclic;
    if Collapses(m, cur, stopAt) {
      CollapseTarget(m, cur);
      CollapseOnceKeepsInv(m, cur, stopAt);
      CollapseShrinks(m, cur);
      CollapseOnceZooms(m, cur, stopAt);
      CollapseZooms(CollapseOnce(m, cur), m[cur].parent, stopAt);
    }
  }

  lemma CollapseOnceZooms(m: Nodes, cur: Uuid, stopAt: Uuid)
    requires Inv(m) && ZoomsInside(m) && Collapses(m, cur, stopAt) && CollapseOnce.requires(m, cur) && Inv(CollapseOnce(m, cur))
    ensures ZoomsInside(CollapseOnce(m, cur))
  {
    hide ZoomsInside, ChildLinks, ParentLinks, NoTwins, StacksActive, ZoomsLive, Acyclic, CollapseOnce;
    var n := CollapseOnce(m, cur);
    ZoomsInsideAt(m);
    ZoomsInsideAt(n);
    CollapseLinks(m, cur, stopAt);
    forall s | s in n && Zoom(n[s]) != NIL ensures Inside(n, s, Zoom(n[s])) {
      SkippedChain(m, n, cur, s, Zoom(n[s]));
    }
  }

  // ---------------------------------------------------------------- every operation

  lemma HarmlessKeepsZooms(m: Nodes, op: Op)
    requires Inv(m) && Safe(m, op) && Accepts(m, op) && ZoomsInside(m) && Harmless(op) && Inv(Accepted(m, op))
    ensures ZoomsInside(Accepted(m, op))
  {
    HarmlessLinks(m, op);
    hide ZoomsInside, ChildLinks, ParentLinks, NoTwins, StacksActive, ZoomsLive, Acyclic, Accepted, Accepts, Safe;
    ZoomsInsideAt(m);
    GrownZooms(m, Accepted(m, op));
  }

  /** An accepted operation keeps the zooms inside if and only if it meets its condition. */
  lemma AcceptedKeepsZoomsIff(m: Nodes, op: Op)
    requires Inv(m) && Safe(m, op) && Accepts(m, op) && ZoomsInside(m)
    ensures Inv(Accepted(m, op)) && (ZoomsInside(Accepted(m, op)) <==> KeepsZooms(m, op))
  {
    hide Inv, ZoomsInside, Layoutable, CanResize, Resize, OwnZooms, ZoomsFollow;
    AcceptedKeepsInv(m, op);
    match op
    case RemoveChild(p, c) => RemoveKeepsZoomsIff(m, p, c);
    case ReplaceChild(p, was, slot) => ReplaceKeepsZoomsIff(m, p, was, slot);
    case SwapLeaves(a, b) => SwapKeepsZoomsIff(m, a, b);
    case SetStackZoom(s, t) => ZoomSetLinks(m, s, t);
    case DestroyNode(id) => SubtreeDestroyed(m, id);
    case CollapseSingletonsAbove(id, stopAt) => CollapseZooms(m, id, stopAt);
    case SplitByWrapping(ex, dir, inc, first, w) =>
      SplitKeepsInv(m, ex, dir, inc, first, w);
      SplitZooms(m, Accepted(m, op), ex, dir, inc, first, w);
    case _ => HarmlessKeepsZooms(m, op);
  }

  lemma LayoutableIs(m: Nodes)
    requires Inv(m)
    ensures Layoutable(m) <==> ZoomsInside(m)
  {
  }

  /** Creating and labelling change no zoom either. */
  lemma QuietKeepsZooms(m: Nodes, op: Op)
    requires Inv(m) && Safe(m, op) && ZoomsInside(m) && (op.CreateNode? || op.SetLabel?) && Inv(After(m, op))
    ensures ZoomsInside(After(m, op))
  {
    hide ZoomsInside, ChildLinks, ParentLinks, NoTwins, StacksActive, ZoomsLive, Acyclic;
    ZoomsInsideAt(m);
    GrownZooms(m, After(m, op));
  }

  ghost predicate Keeps(s: State, op: Op) {
    StateInv(s) && Safe(s.nodes, op) && (Accepts(s.nodes, op) ==> KeepsZooms(s.nodes, op))
  }

  lemma StepKeepsLayoutableIff(s: State, op: Op, t: State)
    requires StateInv(s) && Safe(s.nodes, op) && Step(s, op, t) && Layoutable(s.nodes)
    ensures Layoutable(t.nodes) <==> Keeps(s, op)
  {
    hide Inv, ZoomsInside, Layoutable, OwnZooms, ZoomsFollow, Accepts, Accepted, Safe;
    StepKeepsInv(s, op, t);
    LayoutableIs(s.nodes);
    LayoutableIs(t.nodes);
    if op.CreateNode? || op.SetLabel? {
      QuietKeepsZooms(s.nodes, op);
    } else if Accepts(s.nodes, op) {
      AcceptedKeepsZoomsIff(s.nodes, op);
    }
  }

  /** Over every run that starts so, the tree can be laid out throughout if and only if
      every accepted removal, replacement and swap meets its condition. */
  lemma RunKeepsLayoutableIff(states: seq<State>, ops: seq<Op>)
    requires Run(states, ops) && Layoutable(states[0].nodes)
    ensures (forall k :: 0 <= k < |states| ==> Layoutable(states[k].nodes)) <==> (forall i :: 0 <= i < |ops| ==> Keeps(states[i], ops[i]))
  {
    hide Layoutable, Keeps, Step, Safe, StateInv;
    if forall i :: 0 <= i < |ops| ==> Keeps(states[i], ops[i]) {
      forall k | 0 <= k < |states| ensures Layoutable(states[k].nodes) { KeptSoFar(states, ops, k); }
    } else {
      var i :| 0 <= i < |ops| && !Keeps(states[i], ops[i]);
      RunKeepsInv(states, ops, i);
      assert Step(states[i], ops[i], states[i + 1]);
      if Layoutable(states[i].nodes) { StepKeepsLayoutableIff(states[i], ops[i], states[i + 1]); }
    }
  }

  lemma {:induction false} KeptSoFar(states: seq<State>, ops: seq<Op>, k: nat)
    requires Run(states, ops) && Layoutable(states[0].nodes) && k < |states|
    requires forall i :: 0 <= i < k ==> Keeps(states[i], ops[i])
    ensures Layoutable(states[k].nodes)
  {
    hide Layoutable, Keeps, Step, Safe, StateInv;
    if k > 0 {
      KeptSoFar(states, ops, k - 1);
      RunKeepsInv(states, ops, k - 1);
      StepKeepsLayoutableIff(states[k - 1], ops[k - 1], states[k]);
    }
  }

  // ---------------------------------------------------------------- a layout without end

  /** The node stores of the run below. */
  function Store(stack: NodeData, row: NodeData, aboveStack: Uuid, aboveRow: Uuid): Nodes {
    map[1 := Node(aboveStack, "", stack), 2 := Node(aboveRow, "", row)]
  }

  const ROW := ContainerData(Horizontal, [])

  /** A Stack zoomed onto its child, the child taken out, and the Stack hung below it. */
  const LOOPED := Store(StackData([], NIL, 2), ContainerData(Horizontal, [Plain(1)]), 2, NIL)

  lemma AppendedFirst(p: Uuid, c: Uuid, m: Nodes)
    requires p != c && CanAppend(m, p, Plain(c)) && Kids(m[p].data) == []
    ensures var n := Append(m, p, Plain(c));
      && n.Keys == m.Keys && n[c] == m[c].(parent := p) && Kids(n[p].data) == [Plain(c)] && n[p].parent == m[p].parent
      && n[p].caption == m[p].caption
      && (m[p].data.ContainerData? ==> n[p].data == ContainerData(m[p].data.dir, [Plain(c)]))
      && (m[p].data.StackData? && m[p].data.activeChild == NIL ==> n[p].data == StackData([Plain(c)], c, m[p].data.zoomTarget))
      && forall x :: x in m && x != c && x != p ==> n[x] == m[x]
  {
  }

  lemma MakeTwo()
    ensures var s := State(Store(StackData([], NIL, NIL), ROW, NIL, NIL), NIL, true, 1); Reachable(s) && StateInv(s)
  {
    hide Reachable, Inv;
    ReachEmpty();
    ReachCreated(map[], 1, StackData([], NIL, NIL));
    var one := Create(map[], 1, StackData([], NIL, NIL));
    ReachCreated(one, 2, ROW);
    assert Create(one, 2, ROW) == Store(StackData([], NIL, NIL), ROW, NIL, NIL);
  }

  lemma FillStack()
    ensures var s := State(Store(StackData([Plain(2)], 2, NIL), ROW, NIL, 1), NIL, true, 2); Reachable(s) && StateInv(s)
  {
    hide Reachable, Inv, Append, Contains;
    MakeTwo();
    var m := Store(StackData([], NIL, NIL), ROW, NIL, NIL);
    AppendedFirst(1, 2, m);
    RootsApart(m, 1, 2);
    var n := Store(StackData([Plain(2)], 2, NIL), ROW, NIL, 1);
    assert Append(m, 1, Plain(2)) == n;
    ReachAccepted(m, 1, AppendChild(1, Plain(2)), n);
  }

  lemma ZoomStack()
    ensures var s := State(Store(StackData([Plain(2)], 2, 2), ROW, NIL, 1), NIL, true, 3); Reachable(s) && StateInv(s)
  {
    hide Reachable, Inv, Contains;
    FillStack();
    var m, n := Store(StackData([Plain(2)], 2, NIL), ROW, NIL, 1), Store(StackData([Plain(2)], 2, 2), ROW, NIL, 1);
    ParentHolds(m, 1, 2);
    assert m[1 := m[1].(data := m[1].data.(zoomTarget := 2))] == n;
    ReachAccepted(m, 2, SetStackZoom(1, 2), n);
  }

  lemma RemovedLast(m: Nodes)
    requires m == Store(StackData([Plain(2)], 2, 2), ROW, NIL, 1)
    ensures CanRemove(m, 1, 2) && Remove(m, 1, 2) == Store(StackData([], NIL, 2), ROW, NIL, NIL)
  {
    hide IndexOf;
    assert Kids(m[1].data)[0].id == 2;
    assert Drop(m[1], 2) == Node(NIL, "", StackData([], NIL, 2));
    hide Drop;
  }

  lemma EmptyStack()
    ensures var s := State(Store(StackData([], NIL, 2), ROW, NIL, NIL), NIL, true, 4); Reachable(s) && StateInv(s)
  {
    hide Reachable, Inv, Remove, CanRemove;
    ZoomStack();
    var m := Store(StackData([Plain(2)], 2, 2), ROW, NIL, 1);
    RemovedLast(m);
    ReachAccepted(m, 3, RemoveChild(1, 2), Store(StackData([], NIL, 2), ROW, NIL, NIL));
  }

  lemma OnlyStrip(d: NodeData, rect: Rect, cell: CellSize)
    requires d == ContainerData(Horizontal, [Plain(1)]) && !IsEmpty(rect)
    ensures Strips(d, rect, cell) == [rect]
  {
    hide Divide;
    assert Flexible(d.children[0]);
    assert HasFlexible(d.children);
    DivisionFits(d.children, Extent(d.dir, rect), CellAlong(d.dir, cell));
    OneSize(Sizes(d, rect, cell));
    assert Sizes(d, rect, cell)[0] == rect.w;
  }

  lemma OneSize(s: seq<int>)
    requires |s| == 1
    ensures Sum(s) == s[0]
  {
    assert Prefix(s, 0) == 0;
  }

  /** The Stack gives the Container its rectangle, and gets it back. */
  lemma OneRound(rect: Rect, cell: CellSize, n: nat)
    requires !IsEmpty(rect) && EndsIn(LOOPED, 1, rect, cell, n)
    ensures n >= 2 && EndsIn(LOOPED, 1, rect, cell, n - 2)
  {
    hide Strips;
    OnlyStrip(LOOPED[2].data, rect, cell);
    assert EndsIn(LOOPED, 2, rect, cell, n - 1);
    assert LOOPED[2].data.children[0].id == 1;
  }

  lemma {:induction false} RoundAndRound(rect: Rect, cell: CellSize, n: nat)
    requires !IsEmpty(rect)
    ensures !EndsIn(LOOPED, 1, rect, cell, n)
  {
    hide EndsIn;
    if EndsIn(LOOPED, 1, rect, cell, n) {
      OneRound(rect, cell, n);
      RoundAndRound(rect, cell, n - 2);
    }
  }

  lemma EndlessUnsafe(m: Nodes, id: Uuid, rect: Rect, cell: CellSize)
    requires !Ends(m, id, rect, cell)
    ensures !Layoutable(m)
  {
    hide Layoutable;
    if Layoutable(m) { LayoutableEnds(m, id, rect, cell); }
  }

  lemma HangStack()
    ensures Reachable(State(LOOPED, NIL, true, 5)) && Inv(LOOPED)
  {
    hide Reachable, Inv, Append, Contains;
    EmptyStack();
    var m := Store(StackData([], NIL, 2), ROW, NIL, NIL);
    AppendedFirst(2, 1, m);
    RootsApart(m, 2, 1);
    assert Append(m, 2, Plain(1)) == LOOPED;
    ReachAccepted(m, 4, AppendChild(2, Plain(1)), LOOPED);
  }

  /** A reachable tree whose layout does not end: the Stack shows its own parent. */
  lemma LoopReachable()
    ensures Reachable(State(LOOPED, NIL, true, 5)) && Inv(LOOPED)
    ensures !ZoomsInside(LOOPED) && forall rect, cell :: !IsEmpty(rect) ==> !Ends(LOOPED, 1, rect, cell)
  {
    hide Reachable, EndsIn;
    HangStack();
    forall rect, cell | !IsEmpty(rect) ensures !Ends(LOOPED, 1, rect, cell) {
      forall n: nat ensures !EndsIn(LOOPED, 1, rect, cell, n) { RoundAndRound(rect, cell, n); }
    }
    EndlessUnsafe(LOOPED, 1, Rect(0, 0, 1, 1), CellSize(1, 1));
  }
}
