/** What collapsing one-child Containers does (src/LayoutTree.cpp:805-827): exactly the chain
    that calls for it goes, and the Terminals keep their order. */
module CollapseLaws {
  import opened Forest
  import opened Ancestry
  import opened TreeEdits
  import opened TreeReshape
  import opened Layout
  import opened LeafSwap
  import Zooms

  /** A node after one Container was replaced by its only child. */
  ghost predicate OnePromoted(a: Node, b: Node, cur: Uuid, only: Uuid) {
    && b.data.TerminalData? == a.data.TerminalData? && b.data.TabBarData? == a.data.TabBarData?
    && b.data.ContainerData? == a.data.ContainerData? && b.data.StackData? == a.data.StackData?
    && |Kids(b.data)| == |Kids(a.data)|
    && (forall i :: 0 <= i < |Kids(a.data)| ==>
          Kids(b.data)[i] == if Kids(a.data)[i].id == cur then Plain(only) else Kids(a.data)[i])
    && (a.data.StackData? ==> b.data.activeChild == if a.data.activeChild == cur then only else a.data.activeChild)
  }

  lemma NotListed(n: Node, cur: Uuid)
    requires forall i :: 0 <= i < |Kids(n.data)| ==> Kids(n.data)[i].id != cur
    requires n.data.StackData? ==> n.data.activeChild != cur
    ensures Survivor(n, {cur}).data.StackData? == n.data.StackData? && Survivor(n, {cur}).data.ContainerData? == n.data.ContainerData?
    ensures Survivor(n, {cur}).data.TerminalData? == n.data.TerminalData? && Survivor(n, {cur}).data.TabBarData? == n.data.TabBarData?
    ensures Kids(Survivor(n, {cur}).data) == Kids(n.data)
    ensures n.data.StackData? ==> Survivor(n, {cur}).data.activeChild == n.data.activeChild
  {
    WithoutNothing(Kids(n.data), {cur});
  }

  /** The tree before the emptied Container is erased. */
  lemma PromotedAt(m: Nodes, cur: Uuid, x: Uuid)
    requires Inv(m) && cur in m && m[cur].data.ContainerData? && |m[cur].data.children| == 1 && m[cur].parent != NIL && x in m && x != cur
    ensures CollapseOnce.requires(m, cur)
    ensures var only, p := m[cur].data.children[0].id, m[cur].parent;
      && p in m && CanRemove(m, p, cur) && x in CollapseOnce(m, cur)
      && CollapseOnce(m, cur)[x] == Survivor(
           if x == p then Exchange(m[p], cur, Plain(only)) else if x == only then m[x].(parent := p) else m[x], {cur})
  {
    CollapseTarget(m, cur);
    var only, p := m[cur].data.children[0].id, m[cur].parent;
    hide Exchange, Drop, Survivor, Without, IndexOf, Inv, Contains;
    RemoveShape(m, cur, only);
    ReplaceShape(Remove(m, cur, only), p, cur, Plain(only));
  }

  lemma ListedNowhereElse(m: Nodes, cur: Uuid, x: Uuid)
    requires Inv(m) && cur in m && x in m && m[cur].parent != x
    ensures forall i :: 0 <= i < |Kids(m[x].data)| ==> Kids(m[x].data)[i].id != cur
    ensures m[x].data.StackData? ==> m[x].data.activeChild != cur
  {
    hide ParentLinks, NoTwins, ZoomsLive, Acyclic;
    if m[x].data.StackData? && m[x].data.children != [] {
      assert Kids(m[x].data) == m[x].data.children;
      var i := IndexOf(Kids(m[x].data), m[x].data.activeChild);
      assert m[Kids(m[x].data)[i].id].parent == x;
    }
  }

  lemma ExchangedOnce(n: Node, cur: Uuid, only: Uuid)
    requires IsBranch(n.data) && HasId(Kids(n.data), cur) && DistinctIds(Kids(n.data)) && only != cur
    ensures var e := Exchange(n, cur, Plain(only));
      && e.data.ContainerData? == n.data.ContainerData? && e.data.StackData? == n.data.StackData? && |Kids(e.data)| == |Kids(n.data)|
      && (forall i :: 0 <= i < |Kids(n.data)| ==>
            Kids(e.data)[i] == (if Kids(n.data)[i].id == cur then Plain(only) else Kids(n.data)[i]) && Kids(e.data)[i].id != cur)
      && (n.data.StackData? ==> e.data.activeChild == (if n.data.activeChild == cur then only else n.data.activeChild) && e.data.activeChild != cur)
  {
    var kids, at := Kids(n.data), IndexOf(Kids(n.data), cur);
    forall i | 0 <= i < |kids| && i != at ensures kids[i].id != cur {
      if i < at { assert kids[i].id != kids[at].id; } else { assert kids[at].id != kids[i].id; }
    }
    hide IndexOf;
  }

  lemma PromotedNode(m: Nodes, cur: Uuid, x: Uuid)
    requires Inv(m) && cur in m && m[cur].data.ContainerData? && |m[cur].data.children| == 1 && m[cur].parent != NIL && x in m && x != cur
    ensures CollapseOnce.requires(m, cur) && x in CollapseOnce(m, cur)
    ensures OnePromoted(m[x], CollapseOnce(m, cur)[x], cur, m[cur].data.children[0].id)
  {
    hide ChildLinks, ParentLinks, NoTwins, StacksActive, ZoomsLive, Acyclic, Contains, Exchange, Survivor, CollapseOnce, OnePromoted;
    var only, p := m[cur].data.children[0].id, m[cur].parent;
    PromotedAt(m, cur, x);
    OnlyIsAnother(m, cur);
    if x == p {
      TwinFree(m, p);
      PromotedParent(m[p], cur, only);
    } else {
      ListedNowhereElse(m, cur, x);
      PromotedOther(m[x], if x == only then m[x].(parent := p) else m[x], cur, only);
    }
  }

  lemma OnlyIsAnother(m: Nodes, cur: Uuid)
    requires Inv(m) && cur in m && m[cur].data.ContainerData? && |m[cur].data.children| == 1 && m[cur].parent != NIL
    ensures m[cur].data.children[0].id != cur
  {
    hide Linked, StacksActive, ZoomsLive, Acyclic, Contains;
    CollapseTarget(m, cur);
  }

  lemma PromotedParent(n: Node, cur: Uuid, only: Uuid)
    requires IsBranch(n.data) && HasId(Kids(n.data), cur) && DistinctIds(Kids(n.data)) && only != cur
    ensures OnePromoted(n, Survivor(Exchange(n, cur, Plain(only)), {cur}), cur, only)
  {
    ExchangedOnce(n, cur, only);
    hide Exchange, Survivor;
    NotListed(Exchange(n, cur, Plain(only)), cur);
  }

  lemma PromotedOther(n: Node, e: Node, cur: Uuid, only: Uuid)
    requires e.data == n.data && (forall i :: 0 <= i < |Kids(n.data)| ==> Kids(n.data)[i].id != cur)
    requires n.data.StackData? ==> n.data.activeChild != cur
    ensures OnePromoted(n, Survivor(e, {cur}), cur, only)
  {
    hide Survivor;
    NotListed(e, cur);
  }

  // ---------------------------------------------------------------- what goes

  /** From `cur` up to `x` every node calls for its collapse. */
  ghost predicate Chain(m: Nodes, cur: Uuid, stopAt: Uuid, x: Uuid)
    requires Acyclic(m)
  {
    Contains(m, x, cur) && forall y :: y in m && Contains(m, x, y) && Contains(m, y, cur) ==> Collapses(m, y, stopAt)
  }

  lemma CollapsesStill(m: Nodes, n: Nodes, cur: Uuid, stopAt: Uuid, y: Uuid)
    requires Inv(m) && Collapses(m, cur, stopAt) && CollapseOnce.requires(m, cur) && n == CollapseOnce(m, cur) && y in n && y != cur && y in m
    requires m[y].parent != cur
    ensures Collapses(n, y, stopAt) <==> Collapses(m, y, stopAt)
  {
    hide Inv, CollapseOnce;
    PromotedNode(m, cur, y);
    CollapsedLinks(m, cur, stopAt);
    assert m[y].data.ContainerData? ==> Kids(m[y].data) == m[y].data.children && Kids(n[y].data) == n[y].data.children;
  }

  lemma CollapsedLinks(m: Nodes, cur: Uuid, stopAt: Uuid)
    requires Inv(m) && Collapses(m, cur, stopAt)
    ensures CollapseOnce.requires(m, cur)
    ensures var n := CollapseOnce(m, cur);
      && Inv(n) && n.Keys == m.Keys - {cur} && m[cur].parent in n
      && forall x :: x in n ==> n[x].parent == if m[x].parent == cur then m[cur].parent else m[x].parent
  {
    hide Inv, CollapseOnce;
    CollapseOnceKeepsInv(m, cur, stopAt);
    Zooms.CollapseLinks(m, cur, stopAt);
  }

  /** Ancestors of what stays are ancestors still. */
  lemma ChainStays(m: Nodes, n: Nodes, cur: Uuid, stopAt: Uuid, a: Uuid, x: Uuid)
    requires Inv(m) && Collapses(m, cur, stopAt) && CollapseOnce.requires(m, cur) && n == CollapseOnce(m, cur) && Inv(n)
    requires a in n && x in n
    ensures Contains(n, a, x) <==> Contains(m, a, x)
  {
    hide ChildLinks, ParentLinks, NoTwins, StacksActive, ZoomsLive, Acyclic, CollapseOnce, Contains;
    CollapsedLinks(m, cur, stopAt);
    if Contains(m, a, x) { Zooms.SkippedChain(m, n, cur, a, x); }
    if Contains(n, a, x) { LongerChain(m, n, cur, a, x); }
  }

  lemma {:induction false} LongerChain(m: Nodes, n: Nodes, cur: Uuid, a: Uuid, x: Uuid)
    requires Inv(m) && Inv(n) && cur in m && n.Keys == m.Keys - {cur} && x in n && a in n && Contains(n, a, x)
    requires forall y :: y in n ==> n[y].parent == if m[y].parent == cur then m[cur].parent else m[y].parent
    ensures Contains(m, a, x)
    decreases Above(n, x)
  {
    hide ChildLinks, NoTwins, StacksActive, ZoomsLive;
    if x != a {
      assert n[x].parent in Above(n, x);
      LongerChain(m, n, cur, a, n[x].parent);
    }
  }

  lemma {:induction false} OnlyFewer(m: Nodes, cur: Uuid, stopAt: Uuid)
    requires Inv(m)
    ensures Inv(Collapse(m, cur, stopAt)) && Collapse(m, cur, stopAt).Keys <= m.Keys
    decreases |m|
  {
    hide Inv, CollapseOnce;
    if Collapses(m, cur, stopAt) {
      CollapsedLinks(m, cur, stopAt);
      CollapseUnfolds(m, cur, stopAt);
      OnlyFewer(CollapseOnce(m, cur), m[cur].parent, stopAt);
    }
  }

  lemma CollapseUnfolds(m: Nodes, cur: Uuid, stopAt: Uuid)
    requires Inv(m) && Collapses(m, cur, stopAt)
    ensures CollapseOnce.requires(m, cur) && |CollapseOnce(m, cur)| < |m|
    ensures Collapse(m, cur, stopAt) == Collapse(CollapseOnce(m, cur), m[cur].parent, stopAt)
  {
    hide ChildLinks, ParentLinks, NoTwins, StacksActive, ZoomsLive, Acyclic, Contains;
    CollapseTarget(m, cur);
    CollapseOnceKeepsInv(m, cur, stopAt);
    CollapseShrinks(m, cur);
    hide CollapseOnce, Remove, CanReplace;
  }

  /** Exactly the nodes from `cur` up to the first that has more than one child, is no
      Container, hangs nowhere or is the one to stop at are gone. */
  lemma {:induction false} CollapsedIff(m: Nodes, cur: Uuid, stopAt: Uuid, x: Uuid)
    requires Inv(m) && x in m
    ensures x !in Collapse(m, cur, stopAt) <==> Chain(m, cur, stopAt, x)
    decreases |m|
  {
    hide ChildLinks, ParentLinks, NoTwins, StacksActive, ZoomsLive, Acyclic, Contains, CollapseOnce, Collapses, Collapse;
    if !Collapses(m, cur, stopAt) {
      NothingCollapses(m, cur, stopAt, x);
    } else {
      CollapsedLinks(m, cur, stopAt);
      CollapseUnfolds(m, cur, stopAt);
      var n, grand := CollapseOnce(m, cur), m[cur].parent;
      OnlyFewer(n, grand, stopAt);
      if x == cur {
        CurGoes(m, cur, stopAt);
      } else {
        CollapsedIff(n, grand, stopAt, x);
        ChainUp(m, n, cur, stopAt, x);
      }
    }
  }

  lemma NothingCollapses(m: Nodes, cur: Uuid, stopAt: Uuid, x: Uuid)
    requires Inv(m) && x in m && !Collapses(m, cur, stopAt)
    ensures Collapse(m, cur, stopAt) == m && !Chain(m, cur, stopAt, x)
  {
    hide ChildLinks, ParentLinks, NoTwins, StacksActive, ZoomsLive, Acyclic;
    if cur in m { BelowItself(m, cur); }
  }

  lemma CurGoes(m: Nodes, cur: Uuid, stopAt: Uuid)
    requires Inv(m) && Collapses(m, cur, stopAt)
    ensures Chain(m, cur, stopAt, cur)
  {
    hide ChildLinks, ParentLinks, NoTwins, StacksActive, ZoomsLive, Acyclic;
    BelowItself(m, cur);
    forall y | y in m && Contains(m, cur, y) && Contains(m, y, cur) ensures y == cur {
      ContainsInForest(m, cur, y);
      ContainsInForest(m, y, cur);
    }
  }

  /** The chain from `cur` is `cur` and the chain from its parent. */
  lemma ChainUp(m: Nodes, n: Nodes, cur: Uuid, stopAt: Uuid, x: Uuid)
    requires Inv(m) && Collapses(m, cur, stopAt) && CollapseOnce.requires(m, cur) && n == CollapseOnce(m, cur) && Inv(n) && m[cur].parent in n
    requires n.Keys == m.Keys - {cur} && x in n
    ensures Chain(m, cur, stopAt, x) <==> Chain(n, m[cur].parent, stopAt, x)
  {
    hide ChildLinks, ParentLinks, NoTwins, StacksActive, ZoomsLive, Acyclic, Contains, CollapseOnce, Collapses;
    var up := m[cur].parent;
    forall y | y in n ensures Contains(m, y, cur) <==> Contains(m, y, up) { OneUp(m, cur, y); }
    forall y | y in n ensures (Contains(n, y, up) <==> Contains(m, y, up)) && (Contains(n, x, y) <==> Contains(m, x, y)) {
      ChainStays(m, n, cur, stopAt, y, up);
      ChainStays(m, n, cur, stopAt, x, y);
    }
    forall y | y in n && Contains(m, y, up) ensures Collapses(n, y, stopAt) <==> Collapses(m, y, stopAt) {
      AboveCur(m, cur, y);
      CollapsesStill(m, n, cur, stopAt, y);
    }
  }

  lemma OneUp(m: Nodes, cur: Uuid, y: Uuid)
    requires Inv(m) && cur in m && m[cur].parent in m && y in m && y != cur
    ensures Contains(m, y, cur) <==> Contains(m, y, m[cur].parent)
  {
    hide ChildLinks, ParentLinks, NoTwins, StacksActive, ZoomsLive;
  }

  lemma AboveCur(m: Nodes, cur: Uuid, y: Uuid)
    requires Inv(m) && cur in m && m[cur].parent in m && y in m && Contains(m, y, m[cur].parent)
    ensures m[y].parent != cur && y != cur
  {
    hide ChildLinks, ParentLinks, NoTwins, StacksActive, ZoomsLive;
    ContainsInForest(m, y, m[cur].parent);
  }

  // ---------------------------------------------------------------- what stays

  /** Taking an only child's Container out changes no list of leaves. */
  lemma {:induction false} LeavesOnce(m: Nodes, n: Nodes, cur: Uuid, stopAt: Uuid, id: Uuid, onlyActive: bool)
    requires Inv(m) && Collapses(m, cur, stopAt) && CollapseOnce.requires(m, cur) && n == CollapseOnce(m, cur) && Inv(n)
    requires id in n && id in m && id != cur && n.Keys == m.Keys - {cur}
    ensures Leaves(n, id, onlyActive) == Leaves(m, id, onlyActive)
    decreases RankOf(m, id), 0
  {
    hide ChildLinks, ParentLinks, NoTwins, StacksActive, ZoomsLive, Acyclic, Contains, CollapseOnce;
    PromotedNode(m, cur, id);
    var d, only := m[id].data, m[cur].data.children[0].id;
    if d.StackData? && onlyActive {
      if d.activeChild != NIL {
        ActiveBelow(m, id);
        ActiveLeaves(m, n, cur, stopAt, d.activeChild, id, onlyActive);
      } else {
        NoActive(m, n, cur, id);
      }
    } else if IsBranch(d) {
      forall i | 0 <= i < |Kids(d)| ensures LeafLists(n, id, onlyActive)[i] == LeafLists(m, id, onlyActive)[i] {
        ChildBelow(m, id, i);
        KidLives(m, id, i);
        ActiveLeaves(m, n, cur, stopAt, Kids(d)[i].id, id, onlyActive);
      }
      assert LeafLists(n, id, onlyActive) == LeafLists(m, id, onlyActive);
    }
  }

  lemma KidLives(m: Nodes, id: Uuid, i: nat)
    requires Inv(m) && id in m && i < |Kids(m[id].data)|
    ensures Kids(m[id].data)[i].id in m
  {
    hide ParentLinks, NoTwins, StacksActive, ZoomsLive, Acyclic;
  }

  lemma NoActive(m: Nodes, n: Nodes, cur: Uuid, id: Uuid)
    requires Inv(m) && cur in m && id in m && id in n && m[id].data.StackData? && m[id].data.activeChild == NIL && n[id].data.StackData?
    requires m[id].data.activeChild == cur || n[id].data.activeChild == m[id].data.activeChild
    ensures n[id].data.activeChild == NIL
  {
    hide ChildLinks, ParentLinks, NoTwins, StacksActive, ZoomsLive, Acyclic;
  }

  /** The leaves below a child, whatever its name after the step. */
  lemma {:induction false} ActiveLeaves(m: Nodes, n: Nodes, cur: Uuid, stopAt: Uuid, kid: Uuid, id: Uuid, onlyActive: bool)
    requires Inv(m) && Collapses(m, cur, stopAt) && CollapseOnce.requires(m, cur) && n == CollapseOnce(m, cur) && Inv(n)
    requires id in m && kid in m && RankOf(m, kid) < RankOf(m, id) && n.Keys == m.Keys - {cur}
    ensures Leaves(n, if kid == cur then m[cur].data.children[0].id else kid, onlyActive) == Leaves(m, kid, onlyActive)
    decreases RankOf(m, kid), 1
  {
    hide ChildLinks, ParentLinks, NoTwins, StacksActive, ZoomsLive, Acyclic, Contains, CollapseOnce;
    if kid == cur {
      var only := m[cur].data.children[0].id;
      assert Kids(m[cur].data) == m[cur].data.children;
      ChildBelow(m, cur, 0);
      KidLives(m, cur, 0);
      OnlyIsAnother(m, cur);
      LeavesOnce(m, n, cur, stopAt, only, onlyActive);
      OneList(m, cur, onlyActive);
    } else {
      LeavesOnce(m, n, cur, stopAt, kid, onlyActive);
    }
  }

  lemma OneList(m: Nodes, cur: Uuid, onlyActive: bool)
    requires Inv(m) && cur in m && m[cur].data.ContainerData? && |m[cur].data.children| == 1
    ensures Leaves(m, cur, onlyActive) == Leaves(m, m[cur].data.children[0].id, onlyActive)
  {
    hide ChildLinks, ParentLinks, NoTwins, StacksActive, ZoomsLive, Acyclic, Contains;
    assert Kids(m[cur].data) == m[cur].data.children;
    var parts := LeafLists(m, cur, onlyActive);
    assert Concat(parts, 1) == Concat(parts, 0) + parts[0];
    assert Concat(parts, 0) == [];
  }

  /** The Terminals below every node that stays are the same, in the same order, and so are
      those that Stacks have active. */
  lemma {:induction false} CollapseKeepsLeaves(m: Nodes, cur: Uuid, stopAt: Uuid, id: Uuid, onlyActive: bool)
    requires Inv(m) && id in m && id in Collapse(m, cur, stopAt)
    ensures Inv(Collapse(m, cur, stopAt)) && Leaves(Collapse(m, cur, stopAt), id, onlyActive) == Leaves(m, id, onlyActive)
    decreases |m|
  {
    hide ChildLinks, ParentLinks, NoTwins, StacksActive, ZoomsLive, Acyclic, Contains, CollapseOnce, Collapses, Collapse, Leaves;
    if !Collapses(m, cur, stopAt) {
      NothingCollapses(m, cur, stopAt, id);
    } else {
      CollapsedLinks(m, cur, stopAt);
      CollapseUnfolds(m, cur, stopAt);
      var n, grand := CollapseOnce(m, cur), m[cur].parent;
      OnlyFewer(n, grand, stopAt);
      CollapseKeepsLeaves(n, grand, stopAt, id, onlyActive);
      LeavesOnce(m, n, cur, stopAt, id, onlyActive);
    }
  }
}
