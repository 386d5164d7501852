/** The composite edits: wrapping a node to split it, and collapsing Containers left
    with one child (src/LayoutTree.cpp:665-704, :805-827). */
module TreeReshape {
  import opened Forest
  import opened Ancestry
  import opened TreeEdits

  /** A slot with the default weights. */
  function Plain(id: Uuid): ChildSlot { ChildSlot(id, 1, 0, 0, 0) }

  function TryAppend(m: Nodes, parent: Uuid, slot: ChildSlot): Nodes {
    if CanAppend(m, parent, slot) then Append(m, parent, slot) else m
  }

  // ---------------------------------------------------------------- split

  predicate CanSplit(m: Nodes, existing: Uuid, incoming: Uuid) {
    existing in m && incoming in m && m[existing].parent != NIL && m[incoming].parent == NIL
  }

  /** The wrapper takes over the weights of the wrapped child when the parent is a
      Container, and default weights otherwise. */
  ghost function WrapperSlot(m: Nodes, existing: Uuid, wrapper: Uuid): (s: ChildSlot)
    requires existing in m
    ensures s.id == wrapper
  {
    var p := m[existing].parent;
    if p in m && m[p].data.ContainerData? && HasId(m[p].data.children, existing)
    then m[p].data.children[IndexOf(m[p].data.children, existing)].(id := wrapper)
    else Plain(wrapper)
  }

  ghost function Split(m: Nodes, existing: Uuid, dir: SplitDir, incoming: Uuid, first: bool, wrapper: Uuid): Nodes
    requires CanSplit(m, existing, incoming)
  {
    var created := Create(m, wrapper, ContainerData(dir, []));
    var slot := WrapperSlot(created, existing, wrapper);
    var p := created[existing].parent;
    if !CanReplace(created, p, existing, slot) then created
    else
      var placed := Replace(created, p, existing, slot);
      var one, two := if first then incoming else existing, if first then existing else incoming;
      TryAppend(TryAppend(placed, wrapper, Plain(one)), wrapper, Plain(two))
  }

  /** What the caller of a split owes: a fresh wrapper identity, and an incoming
      node that does not hold the place it goes to. */
  ghost predicate SplitSafe(m: Nodes, existing: Uuid, incoming: Uuid, wrapper: Uuid) {
    && Inv(m) && CanSplit(m, existing, incoming)
    && wrapper != NIL && wrapper !in m
    && !Contains(m, incoming, m[existing].parent)
  }

  /** The forest after a split, node by node. */
  ghost predicate SplitShape(m: Nodes, n: Nodes, existing: Uuid, dir: SplitDir, incoming: Uuid, first: bool, wrapper: Uuid)
    requires CanSplit(m, existing, incoming)
  {
    var p := m[existing].parent;
    && CanRemove(m, p, existing)
    && n.Keys == m.Keys + {wrapper}
    && n[wrapper] == Node(p, "", ContainerData(dir, if first then [Plain(incoming), Plain(existing)] else [Plain(existing), Plain(incoming)]))
    && n[existing] == m[existing].(parent := wrapper)
    && n[incoming] == m[incoming].(parent := wrapper)
    && n[p] == Exchange(m[p], existing, WrapperSlot(m, existing, wrapper))
    && (forall x :: x in m && x != p && x != existing && x != incoming ==> n[x] == m[x])
  }

  /** Nothing hangs below a node without children. */
  lemma {:induction false} BarrenHoldsOnlyItself(m: Nodes, a: Uuid, x: Uuid)
    requires Acyclic(m) && Linked(m) && a in m && Kids(m[a].data) == [] && x in m && Contains(m, a, x)
    ensures x == a
  {
    if x != a { var i := BelowSomeChild(m, a, x); }
  }

  lemma TerminalHoldsNothing(m: Nodes, a: Uuid, b: Uuid)
    requires Inv(m) && a in m && b in m && a != b && m[a].data.TerminalData?
    ensures !Contains(m, a, b)
  {
    if Contains(m, a, b) { BarrenHoldsOnlyItself(m, a, b); }
  }

  lemma SplitPlaces(m: Nodes, existing: Uuid, dir: SplitDir, incoming: Uuid, wrapper: Uuid)
    requires SplitSafe(m, existing, incoming, wrapper)
    ensures var created, slot, p := Create(m, wrapper, ContainerData(dir, [])), WrapperSlot(m, existing, wrapper), m[existing].parent;
      && p in m && p != existing && p != incoming && existing != incoming && CanRemove(m, p, existing)
      && Inv(created) && WrapperSlot(created, existing, wrapper) == slot && CanReplace(created, p, existing, slot)
      && Inv(Replace(created, p, existing, slot))
  {
    hide StacksActive, ZoomsLive, Acyclic, NoTwins;
    var created, p := Create(m, wrapper, ContainerData(dir, [])), m[existing].parent;
    CreateKeepsInv(m, wrapper, ContainerData(dir, []));
    ChildBelow(m, p, IndexOf(Kids(m[p].data), existing));
    var slot := WrapperSlot(created, existing, wrapper);
    if Contains(created, wrapper, p) { BarrenHoldsOnlyItself(created, wrapper, p); }
    ReplaceKeepsInv(created, p, existing, slot);
  }

  /** Ancestors of the split point keep their ancestors. */
  lemma {:induction false} SplitPointChain(m: Nodes, n: Nodes, existing: Uuid, incoming: Uuid, p: Uuid, a: Uuid)
    requires Acyclic(m) && Linked(m) && Acyclic(n) && NIL !in n && p in m && a != NIL
    requires !Contains(m, existing, p) && !Contains(m, incoming, p)
    requires forall x :: x in m && x != existing && x != incoming ==> x in n && n[x].parent == m[x].parent
    ensures Contains(n, a, p) == Contains(m, a, p)
  {
    var up := set x | x in m && Contains(m, x, p);
    assert Contains(m, p, p);
    forall x | x in up ensures x in n && n[x].parent == m[x].parent && (m[x].parent != NIL ==> m[x].parent in up) {
      if m[x].parent != NIL {
        assert Contains(m, m[x].parent, x);
        ContainsTransitive(m, m[x].parent, x, p);
      }
    }
    ContainsSame(m, n, up, a, p);
  }

  lemma ParentNotBelow(m: Nodes, x: Uuid)
    requires Acyclic(m) && Linked(m) && x in m && m[x].parent in m
    ensures !Contains(m, x, m[x].parent)
  {
    if Contains(m, x, m[x].parent) { ContainsInForest(m, x, m[x].parent); }
  }

  lemma SplitAppends(m: Nodes, placed: Nodes, existing: Uuid, incoming: Uuid, wrapper: Uuid, one: Uuid, two: Uuid)
    requires Inv(m) && CanSplit(m, existing, incoming) && existing != incoming && wrapper !in m
    requires !Contains(m, incoming, m[existing].parent) && m[existing].parent in m
    requires Inv(placed) && wrapper in placed && IsBranch(placed[wrapper].data) && placed[wrapper].parent == m[existing].parent
    requires forall x :: x in m ==> x in placed && placed[x].parent == if x == existing then NIL else m[x].parent
    requires (one == existing && two == incoming) || (one == incoming && two == existing)
    ensures CanAppend(placed, wrapper, Plain(one))
    ensures var once := Append(placed, wrapper, Plain(one));
      Inv(once) && CanAppend(once, wrapper, Plain(two)) && Inv(Append(once, wrapper, Plain(two)))
  {
    hide StacksActive, ZoomsLive, Acyclic, NoTwins, ParentLinks, ChildLinks;
    var p := m[existing].parent;
    ParentNotBelow(m, existing);
    SplitPointChain(m, placed, existing, incoming, p, one);
    AppendKeepsInv(placed, wrapper, Plain(one));
    var once := Append(placed, wrapper, Plain(one));
    SplitPointChain(m, once, existing, incoming, p, two);
    AppendKeepsInv(once, wrapper, Plain(two));
  }

  /** With the wrapper in its slot, the wrapped node hangs loose. */
  lemma PlacedShape(m: Nodes, existing: Uuid, dir: SplitDir, wrapper: Uuid, slot: ChildSlot)
    requires existing in m && wrapper !in m && slot.id == wrapper && wrapper != NIL
    requires var p := m[existing].parent; p in m && p != existing && CanRemove(m, p, existing)
    ensures var created, p := Create(m, wrapper, ContainerData(dir, [])), m[existing].parent;
      && CanReplace(created, p, existing, slot)
      && var placed := Replace(created, p, existing, slot);
      && placed.Keys == m.Keys + {wrapper}
      && placed[wrapper] == Node(p, "", ContainerData(dir, []))
      && placed[existing] == m[existing].(parent := NIL)
      && placed[p] == Exchange(m[p], existing, slot)
      && forall x :: x in m && x != p && x != existing ==> placed[x] == m[x]
  {
    hide Exchange, IndexOf;
  }

  /** Appending two loose nodes to an empty Container. */
  lemma TwoAppended(k: Nodes, w: Uuid, dir: SplitDir, p: Uuid, one: Uuid, two: Uuid)
    requires w in k && k[w] == Node(p, "", ContainerData(dir, [])) && one in k && two in k
    requires one != two && one != w && two != w && k[one].parent == NIL && k[two].parent == NIL
    ensures var n := TryAppend(TryAppend(k, w, Plain(one)), w, Plain(two));
      && n.Keys == k.Keys
      && n[w] == Node(p, "", ContainerData(dir, [Plain(one), Plain(two)]))
      && n[one] == k[one].(parent := w) && n[two] == k[two].(parent := w)
      && forall x :: x in k && x != w && x != one && x != two ==> n[x] == k[x]
  {
    var once := TryAppend(k, w, Plain(one));
    assert once[w] == Node(p, "", ContainerData(dir, [Plain(one)]));
    assert CanAppend(once, w, Plain(two));
    assert [Plain(one)] + [Plain(two)] == [Plain(one), Plain(two)];
  }

  lemma SplitComputes(m: Nodes, existing: Uuid, dir: SplitDir, incoming: Uuid, first: bool, wrapper: Uuid)
    requires CanSplit(m, existing, incoming) && wrapper !in m && wrapper != NIL
    requires var p := m[existing].parent;
      p in m && p != existing && p != incoming && existing != incoming && CanRemove(m, p, existing)
    requires var created := Create(m, wrapper, ContainerData(dir, []));
      var slot := WrapperSlot(m, existing, wrapper);
      WrapperSlot(created, existing, wrapper) == slot && CanReplace(created, m[existing].parent, existing, slot)
    ensures SplitShape(m, Split(m, existing, dir, incoming, first, wrapper), existing, dir, incoming, first, wrapper)
  {
    hide Replace, TryAppend, Exchange, WrapperSlot;
    var p, slot := m[existing].parent, WrapperSlot(m, existing, wrapper);
    PlacedShape(m, existing, dir, wrapper, slot);
    var placed := Replace(Create(m, wrapper, ContainerData(dir, [])), p, existing, slot);
    TwoAppended(placed, wrapper, dir, p, if first then incoming else existing, if first then existing else incoming);
  }

  /** A split succeeds, keeps the forest invariant and has the promised shape. */
  lemma SplitKeepsInv(m: Nodes, existing: Uuid, dir: SplitDir, incoming: Uuid, first: bool, wrapper: Uuid)
    requires SplitSafe(m, existing, incoming, wrapper)
    ensures Inv(Split(m, existing, dir, incoming, first, wrapper))
    ensures SplitShape(m, Split(m, existing, dir, incoming, first, wrapper), existing, dir, incoming, first, wrapper)
  {
    SplitPlaces(m, existing, dir, incoming, wrapper);
    var created := Create(m, wrapper, ContainerData(dir, []));
    var placed := Replace(created, m[existing].parent, existing, WrapperSlot(m, existing, wrapper));
    PlacedParents(m, existing, dir, incoming, wrapper);
    SplitAppends(m, placed, existing, incoming, wrapper,
                 if first then incoming else existing, if first then existing else incoming);
    SplitComputes(m, existing, dir, incoming, first, wrapper);
  }

  lemma PlacedParents(m: Nodes, existing: Uuid, dir: SplitDir, incoming: Uuid, wrapper: Uuid)
    requires existing in m && m[existing].parent in m && wrapper !in m && m[existing].parent != existing
    requires CanReplace(Create(m, wrapper, ContainerData(dir, [])), m[existing].parent, existing, WrapperSlot(m, existing, wrapper))
    ensures var placed := Replace(Create(m, wrapper, ContainerData(dir, [])), m[existing].parent, existing, WrapperSlot(m, existing, wrapper));
      && wrapper in placed && IsBranch(placed[wrapper].data) && placed[wrapper].parent == m[existing].parent
      && forall x :: x in m ==> x in placed && placed[x].parent == if x == existing then NIL else m[x].parent
  {
  }

  // ---------------------------------------------------------------- collapse

  /** Walk up from `cur`, putting the only child of each one-child Container in its
      Container's place, until `stopAt` or a node that is no such Container. */
  ghost function Collapse(m: Nodes, cur: Uuid, stopAt: Uuid): Nodes
    decreases |m|
  {
    if !Collapses(m, cur, stopAt) then m
    else
      var only, grand := m[cur].data.children[0].id, m[cur].parent;
      assert HasId(Kids(m[cur].data), only);
      var freed := Remove(m, cur, only);
      if !CanReplace(freed, grand, cur, Plain(only)) then freed
      else
        assert |CollapseOnce(m, cur)| < |m| by { CollapseShrinks(m, cur); }
        Collapse(CollapseOnce(m, cur), grand, stopAt)
  }

  predicate Collapses(m: Nodes, cur: Uuid, stopAt: Uuid) {
    && cur != NIL && cur != stopAt && cur in m
    && m[cur].data.ContainerData? && |m[cur].data.children| == 1
    && m[cur].parent != NIL
  }

  ghost function CollapseOnce(m: Nodes, cur: Uuid): Nodes
    requires cur in m && m[cur].data.ContainerData? && |m[cur].data.children| == 1
    requires HasId(Kids(m[cur].data), m[cur].data.children[0].id)
    requires CanReplace(Remove(m, cur, m[cur].data.children[0].id), m[cur].parent, cur, Plain(m[cur].data.children[0].id))
  {
    var only := m[cur].data.children[0].id;
    Prune(Replace(Remove(m, cur, only), m[cur].parent, cur, Plain(only)), {cur})
  }

  lemma CollapseShrinks(m: Nodes, cur: Uuid)
    requires CollapseOnce.requires(m, cur)
    ensures |CollapseOnce(m, cur)| < |m|
  {
    var only := m[cur].data.children[0].id;
    var placed := Replace(Remove(m, cur, only), m[cur].parent, cur, Plain(only));
    assert placed.Keys == m.Keys;
    assert |placed| == |placed.Keys| && |m| == |m.Keys|;
    assert Prune(placed, {cur}).Keys == m.Keys - {cur};
  }

  /** Detaching nodes can only lose ancestors. */
  lemma {:induction false} FewerAncestors(m: Nodes, n: Nodes, a: Uuid, d: Uuid)
    requires Acyclic(m) && Acyclic(n) && NIL !in m && NIL !in n && n.Keys == m.Keys && d in n
    requires forall x :: x in n ==> n[x].parent == m[x].parent || n[x].parent == NIL
    ensures Contains(n, a, d) ==> Contains(m, a, d)
    decreases Above(n, d)
  {
    if a != d && n[d].parent in n {
      assert n[d].parent in Above(n, d);
      FewerAncestors(m, n, a, n[d].parent);
    }
  }

  lemma CollapseOnceKeepsInv(m: Nodes, cur: Uuid, stopAt: Uuid)
    requires Inv(m) && Collapses(m, cur, stopAt)
    ensures CollapseOnce.requires(m, cur) && Inv(CollapseOnce(m, cur))
    ensures m[cur].parent in CollapseOnce(m, cur)
  {
    hide StacksActive, ZoomsLive, Acyclic, NoTwins;
    var only, grand := Kids(m[cur].data)[0].id, m[cur].parent;
    assert HasId(Kids(m[cur].data), only);
    var freed := Remove(m, cur, only);
    RemoveKeepsInv(m, cur, only);
    CollapseTarget(m, cur);
    FewerAncestors(m, freed, only, grand);
    ReplaceKeepsInv(freed, grand, cur, Plain(only));
    var placed := Replace(freed, grand, cur, Plain(only));
    assert Kids(placed[cur].data) == [];
    LinkedMembers(placed);
    forall x | x in placed ensures placed[x].parent != cur {
      assert !Lists(placed, cur, x);
    }
    PruneKeepsInv(placed, {cur});
  }

  lemma CollapseTarget(m: Nodes, cur: Uuid)
    requires Inv(m) && cur in m && m[cur].data.ContainerData? && |m[cur].data.children| == 1 && m[cur].parent != NIL
    ensures var only, grand := m[cur].data.children[0].id, m[cur].parent;
      && HasId(Kids(m[cur].data), only) && only in m && m[only].parent == cur
      && only != cur && grand != cur && only != grand && !Contains(m, only, grand)
      && CanRemove(m, grand, cur)
      && CanReplace(Remove(m, cur, only), grand, cur, Plain(only))
  {
    var only, grand := Kids(m[cur].data)[0].id, m[cur].parent;
    ChildBelow(m, cur, 0);
    ParentNotBelow(m, cur);
    ChildBelow(m, grand, IndexOf(Kids(m[grand].data), cur));
    if Contains(m, only, grand) { ContainsInForest(m, only, grand); }
  }

  lemma {:induction false} CollapseKeepsInv(m: Nodes, cur: Uuid, stopAt: Uuid)
    requires Inv(m)
    ensures Inv(Collapse(m, cur, stopAt))
    decreases |m|
  {
    if Collapses(m, cur, stopAt) {
      CollapseOnceKeepsInv(m, cur, stopAt);
      CollapseShrinks(m, cur);
      CollapseKeepsInv(CollapseOnce(m, cur), m[cur].parent, stopAt);
    }
  }
}
