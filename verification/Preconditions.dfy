/** Where the layout tree relies on its callers: the exact conditions under which
    attaching a node keeps the forest free of cycles (src/LayoutTree.cpp:148, :199,
    :673). */
module Preconditions {
  import opened Forest
  import opened Ancestry
  import opened TreeEdits
  import opened TreeReshape

  /** Along a chain whose links an edit left alone ranks still grow. */
  lemma {:induction false} ChainRanks(m: Nodes, n: Nodes, r: map<Uuid, nat>, a: Uuid, d: Uuid)
    requires Acyclic(m) && Linked(m) && d in m && Contains(m, a, d)
    requires Ranked(n, r) && m.Keys <= n.Keys
    requires forall x :: x in m && x != a && Contains(m, x, d) ==> n[x].parent == m[x].parent
    ensures a in n && r[d] <= r[a]
    decreases Above(m, d)
  {
    ContainsInForest(m, a, d);
    if a != d {
      var q := m[d].parent;
      assert q in Above(m, d);
      BelowItself(m, d);
      forall x | x in m && x != a && Contains(m, x, q) ensures n[x].parent == m[x].parent {
        assert Contains(m, x, d);
      }
      ChainRanks(m, n, r, a, q);
    }
  }

  /** A node hung below one it contains closes a cycle. */
  lemma AttachedBelowItself(m: Nodes, n: Nodes, c: Uuid, p: Uuid)
    requires Acyclic(m) && Linked(m) && p in m && Contains(m, c, p) && m.Keys <= n.Keys
    requires c in n && n[c].parent == p
    requires forall x :: x in m && x != c && Contains(m, x, p) ==> n[x].parent == m[x].parent
    ensures !Acyclic(n)
  {
    if r: map<Uuid, nat> :| Ranked(n, r) {
      ChainRanks(m, n, r, c, p);
    }
  }

  /** Appending keeps the forest invariant exactly when the child does not contain the
      parent, which `contains` would tell. */
  lemma AppendKeepsInvIff(m: Nodes, parent: Uuid, slot: ChildSlot)
    requires Inv(m) && CanAppend(m, parent, slot)
    ensures Inv(Append(m, parent, slot)) <==> !Contains(m, slot.id, parent)
  {
    hide Ranked, ChildLinks, ParentLinks, NoTwins, StacksActive, ZoomsLive;
    if Contains(m, slot.id, parent) {
      AttachedBelowItself(m, Append(m, parent, slot), slot.id, parent);
    } else {
      AppendKeepsInv(m, parent, slot);
    }
  }

  lemma ReplaceKeepsInvIff(m: Nodes, parent: Uuid, was: Uuid, slot: ChildSlot)
    requires Inv(m) && CanReplace(m, parent, was, slot)
    ensures Inv(Replace(m, parent, was, slot)) <==> !Contains(m, slot.id, parent)
  {
    hide Ranked, ParentLinks, NoTwins, StacksActive, ZoomsLive;
    if Contains(m, slot.id, parent) {
      ReplacedIsBelow(m, parent, was);
      AttachedBelowItself(m, Replace(m, parent, was, slot), slot.id, parent);
    } else {
      ReplaceKeepsInv(m, parent, was, slot);
    }
  }

  lemma ReplacedIsBelow(m: Nodes, parent: Uuid, was: Uuid)
    requires Inv(m) && parent in m && HasId(Kids(m[parent].data), was)
    ensures was in m && was != parent && !Contains(m, was, parent)
  {
    ChildBelow(m, parent, IndexOf(Kids(m[parent].data), was));
    if Contains(m, was, parent) { ContainsInForest(m, was, parent); }
  }

  lemma WrapperSlotSame(m: Nodes, existing: Uuid, dir: SplitDir, wrapper: Uuid)
    requires existing in m && m[existing].parent in m && wrapper !in m
    ensures WrapperSlot(Create(m, wrapper, ContainerData(dir, [])), existing, wrapper) == WrapperSlot(m, existing, wrapper)
  {
  }

  /** The wrapper always finds the slot it is put into. */
  lemma SplitPlaced(m: Nodes, existing: Uuid, dir: SplitDir, wrapper: Uuid)
    requires Inv(m) && existing in m && m[existing].parent != NIL && wrapper != NIL && wrapper !in m
    ensures var created, p := Create(m, wrapper, ContainerData(dir, [])), m[existing].parent;
      p in m && p != existing && CanReplace(created, p, existing, WrapperSlot(created, existing, wrapper))
  {
    hide Acyclic, StacksActive, ZoomsLive, NoTwins, ChildLinks, WrapperSlot;
    var p := m[existing].parent;
    ReplacedIsBelow(m, p, existing);
    WrapperSlotSame(m, existing, dir, wrapper);
    PlacedShape(m, existing, dir, wrapper, WrapperSlot(m, existing, wrapper));
  }

  /** The links after a split, wherever the incoming node came from. */
  lemma SplitLinks(m: Nodes, existing: Uuid, dir: SplitDir, incoming: Uuid, first: bool, wrapper: Uuid)
    requires Inv(m) && CanSplit(m, existing, incoming) && wrapper != NIL && wrapper !in m
    ensures var n, p := Split(m, existing, dir, incoming, first, wrapper), m[existing].parent;
      && p in m && p != existing && n.Keys == m.Keys + {wrapper}
      && n[wrapper].parent == p && n[incoming].parent == wrapper && n[existing].parent == wrapper
      && forall x :: x in m && x != existing && x != incoming ==> n[x].parent == m[x].parent
  {
    hide Acyclic, StacksActive, ZoomsLive, NoTwins, ChildLinks, Replace, TryAppend, Exchange, WrapperSlot;
    var p, slot := m[existing].parent, WrapperSlot(m, existing, wrapper);
    ReplacedIsBelow(m, p, existing);
    WrapperSlotSame(m, existing, dir, wrapper);
    PlacedShape(m, existing, dir, wrapper, slot);
    var placed := Replace(Create(m, wrapper, ContainerData(dir, [])), p, existing, slot);
    ExchangeKids(m[p], existing, slot);
    TwoAppended(placed, wrapper, dir, p, if first then incoming else existing, if first then existing else incoming);
  }

  lemma SplitClosesCycle(m: Nodes, n: Nodes, existing: Uuid, incoming: Uuid, p: Uuid, wrapper: Uuid)
    requires Acyclic(m) && Linked(m) && existing in m && p == m[existing].parent && p in m && Contains(m, incoming, p)
    requires n.Keys == m.Keys + {wrapper} && n[wrapper].parent == p && incoming in n && n[incoming].parent == wrapper
    requires forall x :: x in m && x != existing && x != incoming ==> n[x].parent == m[x].parent
    ensures !Acyclic(n)
  {
    ParentNotBelow(m, existing);
    if r: map<Uuid, nat> :| Ranked(n, r) {
      ChainRanks(m, n, r, incoming, p);
    }
  }

  /** Splitting keeps the forest invariant exactly when the incoming node does not contain
      the parent of the split one. */
  lemma SplitKeepsInvIff(m: Nodes, existing: Uuid, dir: SplitDir, incoming: Uuid, first: bool, wrapper: Uuid)
    requires Inv(m) && CanSplit(m, existing, incoming) && wrapper != NIL && wrapper !in m
    ensures Inv(Split(m, existing, dir, incoming, first, wrapper)) <==> !Contains(m, incoming, m[existing].parent)
  {
    hide Ranked, ChildLinks, ParentLinks, NoTwins, StacksActive, ZoomsLive, Split;
    if Contains(m, incoming, m[existing].parent) {
      SplitLinks(m, existing, dir, incoming, first, wrapper);
      SplitClosesCycle(m, Split(m, existing, dir, incoming, first, wrapper), existing, incoming, m[existing].parent, wrapper);
    } else {
      SplitKeepsInv(m, existing, dir, incoming, first, wrapper);
    }
  }
}
