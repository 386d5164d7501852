/** Which edge a resize moves (src/LayoutTree.cpp:715-741): one of the nearest Container along
    the axis, with nothing but Containers across it in between. */
module EdgeSearch {
  import opened Forest
  import opened Ancestry
  import opened TreeEdits
  import opened EdgeResize

  ghost predicate Across(m: Nodes, q: Uuid, axis: SplitDir, root: Uuid) {
    q in m && m[q].data.ContainerData? && m[q].data.dir != axis && q != root
  }

  /** The Container runs along the axis, holds the target, and all that lies between runs
      across and is not the root the search stops at. */
  ghost predicate NearestAlong(m: Nodes, target: Uuid, axis: SplitDir, root: Uuid, p: Uuid)
    requires Acyclic(m)
  {
    && p in m && m[p].data.ContainerData? && m[p].data.dir == axis
    && p != target && Contains(m, p, target) && target != root
    && forall q :: q in m && q != p && q != target && Contains(m, p, q) && Contains(m, q, target) ==> Across(m, q, axis, root)
  }

  ghost predicate EdgeOf(m: Nodes, target: Uuid, e: Edge)
    requires Acyclic(m) && e.Edge? && e.container in m && m[e.container].data.ContainerData?
  {
    var kids := m[e.container].data.children;
    && e.index < |kids| && |kids| >= 2 && Contains(m, kids[e.index].id, target)
    && e.neighbour == if e.index + 1 < |kids| then e.index + 1 else e.index - 1
  }

  lemma ParentHolds(m: Nodes, p: Uuid, x: Uuid)
    requires Inv(m) && x in m && p in m && p != x && Contains(m, p, x)
    ensures m[x].parent in m && Contains(m, p, m[x].parent)
  {
    hide ChildLinks, NoTwins, StacksActive, ZoomsLive;
  }

  lemma HoldsBack(m: Nodes, p: Uuid, x: Uuid)
    requires Inv(m) && x in m && m[x].parent in m && Contains(m, p, m[x].parent)
    ensures Contains(m, p, x) && p != x && Contains(m, m[x].parent, x) && Contains(m, x, x)
  {
    hide ChildLinks, NoTwins, StacksActive, ZoomsLive;
    BelowItself(m, x);
    BelowItself(m, m[x].parent);
    NotBelowOwnParent(m, x);
  }

  lemma Antisymmetric(m: Nodes, a: Uuid, b: Uuid)
    requires Inv(m) && a in m && b in m && Contains(m, a, b) && Contains(m, b, a)
    ensures a == b
  {
    hide ChildLinks, ParentLinks, NoTwins, StacksActive, ZoomsLive;
    ContainsInForest(m, a, b);
    ContainsInForest(m, b, a);
  }

  /** One step up the climb, over a Container across the axis. */
  lemma ClimbOver(m: Nodes, cur: Uuid, axis: SplitDir, root: Uuid, p: Uuid)
    requires Inv(m) && cur in m && cur != root && m[cur].parent in m && Across(m, m[cur].parent, axis, root)
    ensures NearestAlong(m, cur, axis, root, p) <==> NearestAlong(m, m[cur].parent, axis, root, p)
  {
    hide ChildLinks, ParentLinks, NoTwins, StacksActive, ZoomsLive, Acyclic, Contains;
    var up := m[cur].parent;
    if NearestAlong(m, cur, axis, root, p) {
      ParentHolds(m, p, cur);
      forall q | q in m && q != p && q != up && Contains(m, p, q) && Contains(m, q, up) ensures Across(m, q, axis, root) {
        HoldsBack(m, q, cur);
      }
    }
    if NearestAlong(m, up, axis, root, p) {
      HoldsBack(m, p, cur);
      forall q | q in m && q != p && q != cur && Contains(m, p, q) && Contains(m, q, cur) ensures Across(m, q, axis, root) {
        ParentHolds(m, q, cur);
      }
    }
  }

  /** Directly above stands a Container along the axis, or something the climb stops at. */
  lemma ClimbEnds(m: Nodes, cur: Uuid, axis: SplitDir, root: Uuid, p: Uuid)
    requires Inv(m) && cur in m && cur != root && (m[cur].parent in m ==> !Across(m, m[cur].parent, axis, root))
    ensures NearestAlong(m, cur, axis, root, p) <==>
      p == m[cur].parent && p in m && m[p].data.ContainerData? && m[p].data.dir == axis
  {
    hide ChildLinks, ParentLinks, NoTwins, StacksActive, ZoomsLive, Acyclic, Contains;
    if NearestAlong(m, cur, axis, root, p) {
      ParentHolds(m, p, cur);
      HoldsBack(m, p, cur);
    }
    var up := m[cur].parent;
    if up in m {
      UpHolds(m, cur);
      forall q | q in m && q != cur && Contains(m, up, q) && Contains(m, q, cur) ensures q == up {
        ParentHolds(m, q, cur);
        Antisymmetric(m, up, q);
      }
    }
  }

  lemma UpHolds(m: Nodes, cur: Uuid)
    requires Inv(m) && cur in m && m[cur].parent in m
    ensures Contains(m, m[cur].parent, cur) && m[cur].parent != cur
  {
    hide ChildLinks, NoTwins, StacksActive, ZoomsLive;
    BelowItself(m, m[cur].parent);
    ContainsInForest(m, m[cur].parent, cur);
    NotBelowOwnParent(m, cur);
  }

  lemma ListedAt(m: Nodes, cur: Uuid)
    requires Inv(m) && cur in m && m[cur].parent in m && m[m[cur].parent].data.ContainerData?
    ensures var kids := m[m[cur].parent].data.children; HasId(kids, cur) && Contains(m, kids[IndexOf(kids, cur)].id, cur)
  {
    hide ChildLinks, NoTwins, StacksActive, ZoomsLive;
    assert Kids(m[m[cur].parent].data) == m[m[cur].parent].data.children;
    BelowItself(m, cur);
  }

  /** The search finds an edge if and only if there is a nearest Container along the axis and
      it has another child; the edge is that Container's, between the child that holds the
      target and the next one, or the one before if there is none. */
  lemma {:induction false} EdgeIff(m: Nodes, target: Uuid, axis: SplitDir, root: Uuid)
    requires Inv(m) && target in m
    ensures var e := EdgeAbove(m, target, axis, root);
      && (e.Edge? <==> exists p :: NearestAlong(m, target, axis, root, p) && |m[p].data.children| >= 2)
      && (e.Edge? ==> NearestAlong(m, target, axis, root, e.container) && EdgeOf(m, target, e))
    decreases Above(m, target)
  {
    hide ChildLinks, ParentLinks, NoTwins, StacksActive, ZoomsLive, Acyclic, Contains;
    var up := m[target].parent;
    if target != root {
      if up in m && Across(m, up, axis, root) {
        assert up in Above(m, target);
        EdgeIff(m, up, axis, root);
        forall p ensures NearestAlong(m, target, axis, root, p) <==> NearestAlong(m, up, axis, root, p) { ClimbOver(m, target, axis, root, p); }
        HeldByKid(m, target, EdgeAbove(m, up, axis, root));
      } else {
        forall p ensures NearestAlong(m, target, axis, root, p) <==> p == up && p in m && m[p].data.ContainerData? && m[p].data.dir == axis {
          ClimbEnds(m, target, axis, root, p);
        }
        if up in m && m[up].data.ContainerData? { ListedAt(m, target); }
      }
    }
  }

  lemma HeldByKid(m: Nodes, target: Uuid, e: Edge)
    requires Inv(m) && target in m && m[target].parent in m
    requires e.Edge? ==> e.container in m && m[e.container].data.ContainerData? && EdgeOf(m, m[target].parent, e)
    ensures e.Edge? ==> EdgeOf(m, target, e)
  {
    hide ChildLinks, ParentLinks, NoTwins, StacksActive, ZoomsLive, Acyclic, Contains;
    if e.Edge? { HoldsBack(m, m[e.container].data.children[e.index].id, target); }
  }

  /** There is one nearest Container at most. */
  lemma NearestOnce(m: Nodes, target: Uuid, axis: SplitDir, root: Uuid, p: Uuid, q: Uuid)
    requires Inv(m) && target in m && NearestAlong(m, target, axis, root, p) && NearestAlong(m, target, axis, root, q)
    ensures p == q
  {
    hide ChildLinks, ParentLinks, NoTwins, StacksActive, ZoomsLive, Acyclic, Contains;
    AncestorsComparable(m, p, q, target);
  }
}
