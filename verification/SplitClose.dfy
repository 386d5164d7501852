/** Splitting a pane and closing the new one again (src/LayoutTree.cpp:460-495,
    :665-704, :805-827). */
module SplitClose {
  import opened Forest
  import opened Ancestry
  import opened TreeEdits
  import opened TreeReshape

  /** The forest without the incoming subtree, where the slot of `existing` has the
      default weights. */
  ghost function Restored(m: Nodes, existing: Uuid, incoming: Uuid): Nodes
    requires Inv(m) && existing in m && m[existing].parent in m && CanRemove(m, m[existing].parent, existing)
  {
    var p := m[existing].parent;
    var left := Prune(m, Subtree(m, incoming));
    if p !in left then left
    else SetKids(left, p, Kids(m[p].data)[IndexOf(Kids(m[p].data), existing) := Plain(existing)])
  }

  /** The incoming subtree is the same before and after the split. */
  lemma {:induction false} SubtreeUnmoved(m: Nodes, n: Nodes, existing: Uuid, incoming: Uuid, wrapper: Uuid, x: Uuid)
    requires Inv(m) && Inv(n) && CanSplit(m, existing, incoming) && wrapper !in m && m[existing].parent in m
    requires n.Keys == m.Keys + {wrapper} && n[wrapper].parent == m[existing].parent && n[existing].parent == wrapper
    requires forall y :: y in m && y != existing && y != incoming ==> n[y].parent == m[y].parent
    requires x in m
    ensures Contains(n, incoming, x) == Contains(m, incoming, x)
    decreases Above(m, x)
  {
    if x != incoming && m[x].parent != NIL {
      assert m[x].parent in Above(m, x);
      SubtreeUnmoved(m, n, existing, incoming, wrapper, m[x].parent);
      if x == existing {
        assert Contains(n, incoming, x) == Contains(n, incoming, wrapper);
        assert Contains(n, incoming, wrapper) == Contains(n, incoming, m[x].parent);
      }
    }
  }

  /** A subtree hanging from a root is listed by no node outside it. */
  lemma OrphanTreeUnlisted(m: Nodes, c: Uuid, x: Uuid, i: nat)
    requires Inv(m) && c in m && m[c].parent == NIL && x in m && !Contains(m, c, x) && i < |Kids(m[x].data)|
    ensures Kids(m[x].data)[i].id !in Subtree(m, c)
  {
    var k := Kids(m[x].data)[i].id;
    assert m[k].parent == x;
  }

  /** What destroying the incoming child leaves of a split. */
  ghost predicate ClosedShape(m: Nodes, k: Nodes, existing: Uuid, dir: SplitDir, incoming: Uuid, wrapper: Uuid)
    requires Inv(m) && CanSplit(m, existing, incoming)
  {
    && PrunedTo(m, k, existing, dir, wrapper, Subtree(m, incoming))
    && Kids(k[m[existing].parent].data)
      == Kids(m[m[existing].parent].data)[IndexOf(Kids(m[m[existing].parent].data), existing) := WrapperSlot(m, existing, wrapper)]
  }

  lemma SubtreeSame(m: Nodes, n: Nodes, existing: Uuid, incoming: Uuid, wrapper: Uuid)
    requires Inv(m) && Inv(n) && CanSplit(m, existing, incoming) && wrapper !in m && m[existing].parent in m
    requires n.Keys == m.Keys + {wrapper} && n[wrapper].parent == m[existing].parent && n[existing].parent == wrapper
    requires forall y :: y in m && y != existing && y != incoming ==> n[y].parent == m[y].parent
    requires !Contains(m, incoming, m[existing].parent)
    ensures Subtree(n, incoming) == Subtree(m, incoming)
  {
    forall x | x in m ensures Contains(n, incoming, x) == Contains(m, incoming, x) {
      SubtreeUnmoved(m, n, existing, incoming, wrapper, x);
    }
    assert Contains(n, incoming, wrapper) == Contains(n, incoming, m[existing].parent);
  }

  lemma SplitSubtree(m: Nodes, n: Nodes, existing: Uuid, dir: SplitDir, incoming: Uuid, first: bool, wrapper: Uuid)
    requires SplitSafe(m, existing, incoming, wrapper)
    requires Inv(n) && SplitShape(m, n, existing, dir, incoming, first, wrapper)
    ensures Subtree(n, incoming) == Subtree(m, incoming)
    ensures existing !in Subtree(m, incoming) && m[existing].parent !in Subtree(m, incoming)
    ensures m[existing].parent in m && m[existing].parent != existing
  {
    ParentNotBelow(m, existing);
    SubtreeSame(m, n, existing, incoming, wrapper);
  }

  lemma SplitThenDestroy(m: Nodes, n: Nodes, existing: Uuid, dir: SplitDir, incoming: Uuid, first: bool, wrapper: Uuid)
    requires SplitSafe(m, existing, incoming, wrapper)
    requires Inv(n) && SplitShape(m, n, existing, dir, incoming, first, wrapper)
    ensures Subtree(n, incoming) == Subtree(m, incoming)
    ensures ClosedShape(m, Prune(n, Subtree(n, incoming)), existing, dir, incoming, wrapper)
  {
    SplitSubtree(m, n, existing, dir, incoming, first, wrapper);
    assert Contains(m, incoming, incoming);
    PruneWrapper(existing, incoming, dir, first, m[existing].parent, Subtree(m, incoming));
    PruneSplitParent(m, existing, incoming, wrapper);
    PrunedShape(m, n, existing, dir, incoming, first, wrapper, Subtree(m, incoming));
  }

  lemma PrunedShape(m: Nodes, n: Nodes, existing: Uuid, dir: SplitDir, incoming: Uuid, first: bool, wrapper: Uuid, dead: set<Uuid>)
    requires CanSplit(m, existing, incoming) && SplitShape(m, n, existing, dir, incoming, first, wrapper)
    requires existing !in dead && m[existing].parent !in dead && incoming in dead && wrapper !in dead && wrapper !in m
    requires m[existing].parent in m && m[existing].parent != existing
    requires Survivor(n[wrapper], dead) == Node(m[existing].parent, "", ContainerData(dir, [Plain(existing)]))
    ensures PrunedTo(m, Prune(n, dead), existing, dir, wrapper, dead)
  {
    assert Survivor(n[existing], dead) == Survivor(m[existing], dead).(parent := wrapper);
  }

  ghost predicate PrunedTo(m: Nodes, k: Nodes, existing: Uuid, dir: SplitDir, wrapper: Uuid, dead: set<Uuid>)
    requires existing in m
  {
    var p := m[existing].parent;
    && CanRemove(m, p, existing)
    && k.Keys == m.Keys - dead + {wrapper} && wrapper !in m
    && p in k && existing in k && p != existing
    && k[wrapper] == Node(p, "", ContainerData(dir, [Plain(existing)]))
    && k[existing] == Survivor(m[existing], dead).(parent := wrapper)
    && k[p] == Survivor(Exchange(m[p], existing, WrapperSlot(m, existing, wrapper)), dead)
    && (forall x :: x in m && x !in dead && x != p && x != existing ==> k[x] == Survivor(m[x], dead))
  }

  lemma PruneWrapper(existing: Uuid, incoming: Uuid, dir: SplitDir, first: bool, p: Uuid, dead: set<Uuid>)
    requires incoming in dead && existing !in dead
    ensures Survivor(Node(p, "", ContainerData(dir, if first then [Plain(incoming), Plain(existing)] else [Plain(existing), Plain(incoming)])), dead)
      == Node(p, "", ContainerData(dir, [Plain(existing)]))
  {
    var a, b := [Plain(incoming), Plain(existing)], [Plain(existing), Plain(incoming)];
    assert a[..1] == [Plain(incoming)] && b[..1] == [Plain(existing)];
    assert Without([], dead) == [];
    assert [Plain(incoming)][..0] == [] && [Plain(existing)][..0] == [];
    assert Without([Plain(incoming)], dead) == [];
    assert Without([Plain(existing)], dead) == [Plain(existing)];
    assert Without(a, dead) == [Plain(existing)];
    assert Without(b, dead) == [Plain(existing)];
  }

  lemma PruneSplitParent(m: Nodes, existing: Uuid, incoming: Uuid, wrapper: Uuid)
    requires SplitSafe(m, existing, incoming, wrapper)
    ensures var p, dead := m[existing].parent, Subtree(m, incoming);
      var slot := WrapperSlot(m, existing, wrapper);
      && CanRemove(m, p, existing)
      && Kids(Survivor(Exchange(m[p], existing, slot), dead).data) == Kids(m[p].data)[IndexOf(Kids(m[p].data), existing) := slot]
  {
    var p, dead := m[existing].parent, Subtree(m, incoming);
    var kids := Kids(m[p].data)[IndexOf(Kids(m[p].data), existing) := WrapperSlot(m, existing, wrapper)];
    forall i | 0 <= i < |kids| ensures kids[i].id !in dead {
      OrphanTreeUnlisted(m, incoming, p, i);
    }
    WithoutNothing(kids, dead);
  }

  ghost predicate Mentions(d: NodeData, w: Uuid) {
    HasId(Kids(d), w) || (d.StackData? && (d.activeChild == w || d.zoomTarget == w))
  }

  lemma UnmentionedSurvives(n: Node, w: Uuid)
    requires !Mentions(n.data, w)
    ensures Survivor(n, {w}) == n
  {
    forall i | 0 <= i < |Kids(n.data)| ensures Kids(n.data)[i].id !in {w} {
      assert HasId(Kids(n.data), Kids(n.data)[i].id);
    }
    WithoutNothing(Kids(n.data), {w});
  }

  /** Only the parent of the split mentions the wrapper. */
  lemma WrapperUnmentioned(m: Nodes, k: Nodes, x: Uuid, wrapper: Uuid)
    requires Inv(k) && x in k && wrapper in k && k[wrapper].parent != x
    requires wrapper != NIL && wrapper !in m && ZoomsLive(m) && x in m && m[x].data.StackData? == k[x].data.StackData?
    requires m[x].data.StackData? ==> k[x].data.zoomTarget == NIL || k[x].data.zoomTarget == m[x].data.zoomTarget
    ensures !Mentions(k[x].data, wrapper)
  {
    LinkedMembers(k);
    assert !Lists(k, x, wrapper);
    assert k[x].data.StackData? ==> Kids(k[x].data) == k[x].data.children;
  }

  lemma IndexUnique(s: seq<ChildSlot>, i: nat, id: Uuid)
    requires i < |s| && s[i].id == id && forall j :: 0 <= j < |s| && j != i ==> s[j].id != id
    ensures HasId(s, id) && IndexOf(s, id) == i
  {
  }

  /** The parent node through split, destruction and collapse. */
  lemma ParentRestored(n: Node, existing: Uuid, slot: ChildSlot, dead: set<Uuid>)
    requires IsBranch(n.data) && HasId(Kids(n.data), existing) && ActiveValid(n.data)
    requires forall j :: 0 <= j < |Kids(n.data)| ==> Kids(n.data)[j].id !in dead && Kids(n.data)[j].id != slot.id
    requires slot.id !in dead && slot.id != NIL && existing != slot.id
    ensures var kids, i := Kids(n.data), IndexOf(Kids(n.data), existing);
      var mid := Survivor(Exchange(n, existing, slot), dead);
      && IsBranch(mid.data) && HasId(Kids(mid.data), slot.id)
      && Exchange(mid, slot.id, Plain(existing)) == WithKids(Survivor(n, dead), kids[i := Plain(existing)])
  {
    hide Without, IndexOf, ActiveValid;
    var kids, i := Kids(n.data), IndexOf(Kids(n.data), existing);
    var mid := Survivor(Exchange(n, existing, slot), dead);
    SurvivorExchange(n, existing, slot, dead);
    WithoutNothing(kids, dead);
    assert Kids(mid.data) == kids[i := slot];
    IndexUnique(kids[i := slot], i, slot.id);
    assert kids[i := slot][i := Plain(existing)] == kids[i := Plain(existing)];
    if n.data.StackData? {
      NotListed(kids, slot.id);
      ActiveThereAndBack(n, existing, slot, dead);
    }
  }

  lemma ActiveThereAndBack(n: Node, existing: Uuid, slot: ChildSlot, dead: set<Uuid>)
    requires n.data.StackData? && HasId(Kids(n.data), existing) && ActiveValid(n.data)
    requires forall j :: 0 <= j < |Kids(n.data)| ==> Kids(n.data)[j].id !in dead
    requires slot.id !in dead && !HasId(Kids(n.data), slot.id) && HasId(Kids(Survivor(Exchange(n, existing, slot), dead).data), slot.id)
    ensures Exchange(Survivor(Exchange(n, existing, slot), dead), slot.id, Plain(existing)).data.activeChild == n.data.activeChild
    ensures Survivor(n, dead).data.activeChild == n.data.activeChild
  {
    SurvivorExchange(n, existing, slot, dead);
    var k := IndexOf(Kids(n.data), n.data.activeChild);
  }

  lemma NotListed(s: seq<ChildSlot>, id: Uuid)
    requires forall j :: 0 <= j < |s| ==> s[j].id != id
    ensures !HasId(s, id)
  {
  }

  lemma ParentForgets(n: Node, existing: Uuid, w: Uuid, dead: set<Uuid>)
    requires IsBranch(n.data) && HasId(Kids(n.data), existing) && ActiveValid(n.data)
    requires forall j :: 0 <= j < |Kids(n.data)| ==> Kids(n.data)[j].id !in dead && Kids(n.data)[j].id != w
    requires w != NIL && existing != w
    requires n.data.StackData? ==> n.data.zoomTarget != w
    ensures !Mentions(WithKids(Survivor(n, dead), Kids(n.data)[IndexOf(Kids(n.data), existing) := Plain(existing)]).data, w)
  {
    NotListed(Kids(n.data)[IndexOf(Kids(n.data), existing) := Plain(existing)], w);
    NotListed(Kids(n.data), w);
    if n.data.StackData? {
      var k := IndexOf(Kids(n.data), n.data.activeChild);
    }
  }

  lemma SurvivorExchange(n: Node, existing: Uuid, slot: ChildSlot, dead: set<Uuid>)
    requires IsBranch(n.data) && HasId(Kids(n.data), existing) && ActiveValid(n.data)
    requires forall j :: 0 <= j < |Kids(n.data)| ==> Kids(n.data)[j].id !in dead
    requires slot.id !in dead
    ensures var kids, i := Kids(n.data), IndexOf(Kids(n.data), existing);
      Survivor(Exchange(n, existing, slot), dead).data ==
      match n.data
      case ContainerData(dir, _) => ContainerData(dir, kids[i := slot])
      case StackData(_, active, zoom) =>
        StackData(kids[i := slot], if active == existing then slot.id else active, if zoom in dead then NIL else zoom)
      case _ => n.data
  {
    var kids, i := Kids(n.data), IndexOf(Kids(n.data), existing);
    WithoutNothing(kids[i := slot], dead);
    if n.data.StackData? { assert HasId(kids, n.data.activeChild); }
  }

  /** One step of a collapse, node by node. */
  lemma CollapseOnceAt(k: Nodes, wrapper: Uuid, existing: Uuid, p: Uuid, x: Uuid)
    requires wrapper in k && k[wrapper].data.ContainerData? && k[wrapper].data.children == [Plain(existing)]
    requires k[wrapper].parent == p && p in k && existing in k
    requires p != wrapper && p != existing && existing != wrapper
    requires CollapseOnce.requires(k, wrapper) && CanRemove(k, p, wrapper)
    requires x in k && x != wrapper
    ensures x in CollapseOnce(k, wrapper)
    ensures CollapseOnce(k, wrapper)[x] == Survivor(
      if x == p then Exchange(k[p], wrapper, Plain(existing))
      else if x == existing then k[x].(parent := p) else k[x], {wrapper})
  {
    hide Exchange, Drop, Survivor, Without, IndexOf;
  }

  lemma CloseElsewhere(m: Nodes, k: Nodes, existing: Uuid, dir: SplitDir, incoming: Uuid, wrapper: Uuid, x: Uuid)
    requires SplitSafe(m, existing, incoming, wrapper) && Inv(k)
    requires PrunedTo(m, k, existing, dir, wrapper, Subtree(m, incoming))
    requires x in k && x != wrapper && x != m[existing].parent
    ensures Survivor(if x == existing then k[x].(parent := m[existing].parent) else k[x], {wrapper})
      == Survivor(m[x], Subtree(m, incoming))
  {
    hide Acyclic, ChildLinks, ParentLinks, NoTwins, StacksActive, ZoomsLive, Contains, WrapperSlot, Exchange, Mentions;
    WrapperUnmentioned(m, k, x, wrapper);
    ReparentedUnmentioned(k[x], m[existing].parent, wrapper);
    UnmentionedSurvives(k[x], wrapper);
    UnmentionedSurvives(k[x].(parent := m[existing].parent), wrapper);
    PrunedElsewhere(m, k, existing, dir, wrapper, Subtree(m, incoming), x);
    hide Survivor;
  }

  lemma ReparentedUnmentioned(n: Node, p: Uuid, w: Uuid)
    requires !Mentions(n.data, w)
    ensures !Mentions(n.(parent := p).data, w)
  {
  }

  /** Apart from the wrapped node's parent link, a node elsewhere is just what survives of
      it. */
  lemma PrunedElsewhere(m: Nodes, k: Nodes, existing: Uuid, dir: SplitDir, wrapper: Uuid, dead: set<Uuid>, x: Uuid)
    requires existing in m && m[existing].parent in m && existing != m[existing].parent
    requires PrunedTo(m, k, existing, dir, wrapper, dead) && x in k && x != wrapper && x != m[existing].parent
    ensures x in m && (if x == existing then k[x].(parent := m[existing].parent) else k[x]) == Survivor(m[x], dead)
  {
    hide Exchange, WrapperSlot, Without;
  }

  lemma CloseAtParent(m: Nodes, existing: Uuid, incoming: Uuid, wrapper: Uuid)
    requires SplitSafe(m, existing, incoming, wrapper)
    requires var p := m[existing].parent; p in m && CanRemove(m, p, existing) && p !in Subtree(m, incoming)
    ensures var p, dead := m[existing].parent, Subtree(m, incoming);
      var mid := Survivor(Exchange(m[p], existing, WrapperSlot(m, existing, wrapper)), dead);
      && IsBranch(mid.data) && HasId(Kids(mid.data), wrapper)
      && Survivor(Exchange(mid, wrapper, Plain(existing)), {wrapper})
        == WithKids(Survivor(m[p], dead), Kids(m[p].data)[IndexOf(Kids(m[p].data), existing) := Plain(existing)])
  {
    var p, dead := m[existing].parent, Subtree(m, incoming);
    forall j | 0 <= j < |Kids(m[p].data)| ensures Kids(m[p].data)[j].id !in dead && Kids(m[p].data)[j].id in m {
      OrphanTreeUnlisted(m, incoming, p, j);
    }
    var slot := WrapperSlot(m, existing, wrapper);
    ParentRestored(m[p], existing, slot, dead);
    ParentForgets(m[p], existing, wrapper, dead);
    UnmentionedSurvives(Exchange(Survivor(Exchange(m[p], existing, slot), dead), wrapper, Plain(existing)), wrapper);
  }

  lemma RestoredAt(m: Nodes, existing: Uuid, incoming: Uuid, x: Uuid)
    requires Inv(m) && existing in m && m[existing].parent in m && CanRemove(m, m[existing].parent, existing)
    requires m[existing].parent !in Subtree(m, incoming)
    requires x in m && x !in Subtree(m, incoming)
    ensures x in Restored(m, existing, incoming)
    ensures var p := m[existing].parent;
      Restored(m, existing, incoming)[x] ==
      if x == p then WithKids(Survivor(m[p], Subtree(m, incoming)), Kids(m[p].data)[IndexOf(Kids(m[p].data), existing) := Plain(existing)])
      else Survivor(m[x], Subtree(m, incoming))
  {
  }

  lemma CloseAt(m: Nodes, k: Nodes, existing: Uuid, dir: SplitDir, incoming: Uuid, wrapper: Uuid, x: Uuid)
    requires SplitSafe(m, existing, incoming, wrapper) && Inv(k)
    requires PrunedTo(m, k, existing, dir, wrapper, Subtree(m, incoming))
    requires CollapseOnce.requires(k, wrapper) && CanRemove(k, m[existing].parent, wrapper) && x in k && x != wrapper
    ensures x in CollapseOnce(k, wrapper) && x in Restored(m, existing, incoming)
    ensures CollapseOnce(k, wrapper)[x] == Restored(m, existing, incoming)[x]
  {
    CollapseOnceAt(k, wrapper, existing, m[existing].parent, x);
    RestoredAt(m, existing, incoming, x);
    if x == m[existing].parent {
      CloseAtParent(m, existing, incoming, wrapper);
    } else {
      CloseElsewhere(m, k, existing, dir, incoming, wrapper, x);
    }
  }

  /** Splitting a pane, destroying the new one and collapsing above it brings back
      the forest that was there, less the destroyed subtree, with the slot of the
      split pane reset to the default weights. */
  lemma SplitThenCloseRestores(m: Nodes, existing: Uuid, dir: SplitDir, incoming: Uuid, first: bool, wrapper: Uuid)
    requires SplitSafe(m, existing, incoming, wrapper)
    ensures Inv(Split(m, existing, dir, incoming, first, wrapper))
    ensures m[existing].parent in m && CanRemove(m, m[existing].parent, existing)
    ensures Close(Split(m, existing, dir, incoming, first, wrapper), incoming, wrapper, m[existing].parent)
      == Restored(m, existing, incoming)
  {
    var n := Split(m, existing, dir, incoming, first, wrapper);
    SplitKeepsInv(m, existing, dir, incoming, first, wrapper);
    SplitThenDestroy(m, n, existing, dir, incoming, first, wrapper);
    SubtreeClosed(n, incoming);
    PruneKeepsInv(n, Subtree(n, incoming));
    CollapseRestores(m, Prune(n, Subtree(n, incoming)), existing, dir, incoming, wrapper);
  }

  lemma CollapseRestores(m: Nodes, k: Nodes, existing: Uuid, dir: SplitDir, incoming: Uuid, wrapper: Uuid)
    requires SplitSafe(m, existing, incoming, wrapper) && Inv(k)
    requires ClosedShape(m, k, existing, dir, incoming, wrapper)
    ensures Collapse(k, wrapper, m[existing].parent) == Restored(m, existing, incoming)
  {
    CollapseOnceKeepsInv(k, wrapper, m[existing].parent);
    CollapseTarget(k, wrapper);
    ClosedEverywhere(m, k, existing, dir, incoming, wrapper);
    CollapseStops(k, wrapper, m[existing].parent);
  }

  lemma ClosedEverywhere(m: Nodes, k: Nodes, existing: Uuid, dir: SplitDir, incoming: Uuid, wrapper: Uuid)
    requires SplitSafe(m, existing, incoming, wrapper) && Inv(k)
    requires PrunedTo(m, k, existing, dir, wrapper, Subtree(m, incoming))
    requires CollapseOnce.requires(k, wrapper) && CanRemove(k, m[existing].parent, wrapper)
    ensures CollapseOnce(k, wrapper) == Restored(m, existing, incoming)
  {
    var f, g := CollapseOnce(k, wrapper), Restored(m, existing, incoming);
    CollapseKeys(k, wrapper);
    RestoredKeys(m, existing, incoming);
    PutAndTaken(m.Keys - Subtree(m, incoming), wrapper);
    if x :| x in f && f[x] != g[x] {
      CloseAt(m, k, existing, dir, incoming, wrapper, x);
    }
    MapsEqual(f, g);
  }

  lemma PutAndTaken(s: set<Uuid>, w: Uuid)
    requires w !in s
    ensures s + {w} - {w} == s
  {
  }

  lemma RestoredKeys(m: Nodes, existing: Uuid, incoming: Uuid)
    requires Inv(m) && existing in m && m[existing].parent in m && CanRemove(m, m[existing].parent, existing)
    ensures Restored(m, existing, incoming).Keys == m.Keys - Subtree(m, incoming)
  {
  }

  lemma MapsEqual(f: Nodes, g: Nodes)
    requires f.Keys == g.Keys && forall x :: x in f ==> f[x] == g[x]
    ensures f == g
  {
  }

  lemma CollapseKeys(k: Nodes, cur: Uuid)
    requires CollapseOnce.requires(k, cur) && k[cur].parent in k && k[cur].data.children[0].id in k
    ensures CollapseOnce(k, cur).Keys == k.Keys - {cur}
  {
  }

  lemma CollapseStops(k: Nodes, cur: Uuid, p: Uuid)
    requires CollapseOnce.requires(k, cur) && Collapses(k, cur, p) && k[cur].parent == p
    ensures Collapse(k, cur, p) == CollapseOnce(k, cur)
  {
    assert Collapse(CollapseOnce(k, cur), p, p) == CollapseOnce(k, cur);
  }

  lemma SubtreeClosed(m: Nodes, a: Uuid)
    requires Inv(m)
    ensures DownClosed(m, Subtree(m, a)) && NIL !in Subtree(m, a)
  {
    forall x | x in m && m[x].parent in Subtree(m, a) ensures x in Subtree(m, a) {
      ContainsChild(m, a, x);
    }
  }

  /** Closing a pane: destroy its node, then collapse upwards from its parent. */
  ghost function Close(n: Nodes, pane: Uuid, parent: Uuid, stopAt: Uuid): Nodes
    requires Inv(n)
  {
    Collapse(Prune(n, Subtree(n, pane)), parent, stopAt)
  }

  /** The round trip is exact just when the slot had the default weights. */
  lemma RoundTripExactly(m: Nodes, existing: Uuid, dir: SplitDir, incoming: Uuid, first: bool, wrapper: Uuid)
    requires SplitSafe(m, existing, incoming, wrapper)
    ensures Inv(Split(m, existing, dir, incoming, first, wrapper))
    ensures m[existing].parent in m && CanRemove(m, m[existing].parent, existing)
    ensures Close(Split(m, existing, dir, incoming, first, wrapper), incoming, wrapper, m[existing].parent)
        == Prune(m, Subtree(m, incoming))
      <==> Kids(m[m[existing].parent].data)[IndexOf(Kids(m[m[existing].parent].data), existing)] == Plain(existing)
  {
    SplitThenCloseRestores(m, existing, dir, incoming, first, wrapper);
    var p, dead := m[existing].parent, Subtree(m, incoming);
    var kids, i := Kids(m[p].data), IndexOf(Kids(m[p].data), existing);
    forall j | 0 <= j < |kids| ensures kids[j].id !in dead {
      OrphanTreeUnlisted(m, incoming, p, j);
    }
    WithoutNothing(kids, dead);
    assert Kids(Survivor(m[p], dead).data) == kids;
    RestoredIsLeft(m, existing, incoming);
  }

  lemma RestoredIsLeft(m: Nodes, existing: Uuid, incoming: Uuid)
    requires Inv(m) && existing in m && m[existing].parent in m && CanRemove(m, m[existing].parent, existing)
    requires m[existing].parent !in Subtree(m, incoming)
    requires Kids(Survivor(m[m[existing].parent], Subtree(m, incoming)).data) == Kids(m[m[existing].parent].data)
    ensures var p := m[existing].parent; var kids := Kids(m[p].data); var i := IndexOf(kids, existing);
      Restored(m, existing, incoming) == Prune(m, Subtree(m, incoming)) <==> kids[i] == Plain(existing)
  {
    var p, dead := m[existing].parent, Subtree(m, incoming);
    var kids, left := Kids(m[p].data), Prune(m, dead);
    var i := IndexOf(kids, existing);
    RestoredAt(m, existing, incoming, p);
    if kids[i] == Plain(existing) {
      assert kids[i := Plain(existing)] == kids;
      SameKidsSameNode(Survivor(m[p], dead), kids);
    } else {
      assert Kids(WithKids(Survivor(m[p], dead), kids[i := Plain(existing)]).data)[i] == Plain(existing);
      assert Restored(m, existing, incoming)[p] != left[p];
    }
  }

  lemma SameKidsSameNode(n: Node, kids: seq<ChildSlot>)
    requires IsBranch(n.data) && Kids(n.data) == kids
    ensures WithKids(n, kids) == n
  {
  }
}
