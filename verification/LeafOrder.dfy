/** Which Terminals the traversal lists, and in which order (src/LayoutTree.cpp:766-787). */
module LeafOrder {
  import opened Forest
  import opened Ancestry
  import opened Layout
  import opened LeafSwap

  lemma {:induction false} InConcat(parts: seq<seq<Uuid>>, k: nat, i: nat, x: Uuid)
    requires i < k <= |parts| && x in parts[i]
    ensures x in Concat(parts, k)
  {
    if i < k - 1 { InConcat(parts, k - 1, i, x); }
  }

  lemma {:induction false} FromConcat(parts: seq<seq<Uuid>>, k: nat, x: Uuid) returns (i: nat)
    requires k <= |parts| && x in Concat(parts, k)
    ensures i < k && x in parts[i]
  {
    if x in parts[k - 1] { i := k - 1; } else { i := FromConcat(parts, k - 1, x); }
  }

  /** Every Stack on the way down to the node has the child above it active. */
  ghost predicate AllActive(m: Nodes, id: Uuid, x: Uuid)
    requires Acyclic(m)
  {
    forall s :: s in m && m[s].data.StackData? && Contains(m, id, s) && Contains(m, s, x) ==> Contains(m, m[s].data.activeChild, x)
  }

  lemma ListedBelow(m: Nodes, id: Uuid, onlyActive: bool, x: Uuid)
    requires Walkable(m) && id in m && x in Leaves(m, id, onlyActive)
    ensures x in m && m[x].data.TerminalData? && Contains(m, id, x)
  {
    hide Walkable, Leaves, Contains;
    var j :| 0 <= j < |Leaves(m, id, onlyActive)| && Leaves(m, id, onlyActive)[j] == x;
    LeavesBelow(m, id, onlyActive, j);
  }

  lemma StrictlyBelow(m: Nodes, id: Uuid, i: nat, x: Uuid)
    requires Acyclic(m) && Linked(m) && id in m && i < |Kids(m[id].data)| && x in m && Contains(m, Kids(m[id].data)[i].id, x)
    ensures Contains(m, id, x) && Kids(m[id].data)[i].id in m
    ensures RankOf(m, Kids(m[id].data)[i].id) < RankOf(m, id)
  {
    hide ParentLinks, NoTwins;
    ChildBelow(m, id, i);
    ContainsTransitive(m, id, Kids(m[id].data)[i].id, x);
  }

  /** The traversal lists exactly the Terminals below its start. */
  lemma {:induction false} LeavesAll(m: Nodes, id: Uuid, x: Uuid)
    requires Walkable(m) && id in m
    ensures x in Leaves(m, id, false) <==> x in m && m[x].data.TerminalData? && Contains(m, id, x)
    decreases RankOf(m, id)
  {
    hide Acyclic, Linked, StacksActive;
    if x in Leaves(m, id, false) { ListedBelow(m, id, false, x); }
    if x in m && m[x].data.TerminalData? && Contains(m, id, x) && x != id {
      var i := BelowSomeChild(m, id, x);
      StrictlyBelow(m, id, i, x);
      LeavesAll(m, Kids(m[id].data)[i].id, x);
      InConcat(LeafLists(m, id, false), |Kids(m[id].data)|, i, x);
    }
  }

  /** What lies between a node and something below one of its children is below that child. */
  lemma Between(m: Nodes, id: Uuid, kid: Uuid, s: Uuid, x: Uuid)
    requires Acyclic(m) && Linked(m) && id in m && kid in m && x in m && s in m && m[kid].parent == id
    requires Contains(m, kid, x) && Contains(m, id, s) && Contains(m, s, x) && s != id
    ensures Contains(m, kid, s)
  {
    hide ChildLinks, ParentLinks, NoTwins;
    AncestorsComparable(m, kid, s, x);
    if !Contains(m, kid, s) {
      assert Contains(m, s, id);
      ContainsInForest(m, s, id);
      ContainsInForest(m, id, s);
    }
  }

  lemma ActiveNarrows(m: Nodes, id: Uuid, kid: Uuid, x: Uuid)
    requires Acyclic(m) && Linked(m) && id in m && kid in m && x in m && m[kid].parent == id && Contains(m, kid, x)
    ensures AllActive(m, id, x) <==>
      AllActive(m, kid, x) && (m[id].data.StackData? ==> Contains(m, m[id].data.activeChild, x))
  {
    hide Acyclic, ChildLinks, ParentLinks, NoTwins;
    KidBelow(m, id, kid, x);
    if AllActive(m, id, x) {
      forall s | s in m && m[s].data.StackData? && Contains(m, kid, s) && Contains(m, s, x) ensures Contains(m, m[s].data.activeChild, x) {
        ContainsTransitive(m, id, kid, s);
      }
    } else {
      var s :| s in m && m[s].data.StackData? && Contains(m, id, s) && Contains(m, s, x) && !Contains(m, m[s].data.activeChild, x);
      if s != id { Between(m, id, kid, s, x); }
    }
  }

  lemma KidBelow(m: Nodes, id: Uuid, kid: Uuid, x: Uuid)
    requires Acyclic(m) && Linked(m) && id in m && kid in m && x in m && m[kid].parent == id && Contains(m, kid, x)
    ensures Contains(m, id, kid) && Contains(m, id, x) && Contains(m, id, id) && RankOf(m, kid) < RankOf(m, id)
  {
    hide ChildLinks, NoTwins;
    BelowItself(m, id);
    assert Contains(m, id, kid);
    ContainsTransitive(m, id, kid, x);
  }

  lemma OnlyItself(m: Nodes, id: Uuid, x: Uuid)
    requires Acyclic(m) && Linked(m) && id in m && x in m && !m[id].data.StackData? && x == id
    ensures AllActive(m, id, x)
  {
    hide ChildLinks, ParentLinks, NoTwins;
    forall s | s in m && m[s].data.StackData? && Contains(m, id, s) && Contains(m, s, x) ensures s == id {
      ContainsInForest(m, id, s);
      ContainsInForest(m, s, id);
    }
  }

  /** Restricted to what is active it lists exactly the Terminals that stand below the active
      child of every Stack on the way. */
  lemma {:induction false} LeavesShown(m: Nodes, id: Uuid, x: Uuid)
    requires Walkable(m) && id in m
    ensures x in Leaves(m, id, true) <==> x in m && m[x].data.TerminalData? && Contains(m, id, x) && AllActive(m, id, x)
    decreases RankOf(m, id)
  {
    hide Acyclic, Linked, StacksActive, AllActive, Contains;
    var d := m[id].data;
    if x in Leaves(m, id, true) { ListedBelow(m, id, true, x); }
    if x in m && m[x].data.TerminalData? && Contains(m, id, x) {
      if x == id {
        OnlyItself(m, id, x);
      } else {
        var i := BelowSomeChild(m, id, x);
        StrictlyBelow(m, id, i, x);
        KidOf(m, id, i);
        var kid := Kids(d)[i].id;
        ActiveNarrows(m, id, kid, x);
        if d.StackData? {
          StackShown(m, id, i, x);
        } else {
          LeavesShown(m, kid, x);
          if x in Leaves(m, id, true) { ListedOnce(m, id, i, x); }
          if x in Leaves(m, kid, true) { InConcat(LeafLists(m, id, true), |Kids(d)|, i, x); }
        }
      }
    }
  }

  lemma KidOf(m: Nodes, id: Uuid, i: nat)
    requires Linked(m) && id in m && i < |Kids(m[id].data)|
    ensures Kids(m[id].data)[i].id in m && m[Kids(m[id].data)[i].id].parent == id
  {
  }

  /** A leaf below a child is listed by that child if by any. */
  lemma ListedOnce(m: Nodes, id: Uuid, i: nat, x: Uuid)
    requires Walkable(m) && id in m && m[id].data.ContainerData? && i < |Kids(m[id].data)| && x in m
    requires Contains(m, Kids(m[id].data)[i].id, x) && x in Leaves(m, id, true)
    ensures Kids(m[id].data)[i].id in m && x in Leaves(m, Kids(m[id].data)[i].id, true)
  {
    hide Acyclic, ParentLinks, NoTwins, StacksActive, Contains;
    KidOf(m, id, i);
    var j := FromConcat(LeafLists(m, id, true), |Kids(m[id].data)|, x);
    KidOf(m, id, j);
    ListedBelow(m, Kids(m[id].data)[j].id, true, x);
    SameChild(m, id, i, j, x);
  }

  /** A Stack lists what its active child lists. */
  lemma {:induction false} StackShown(m: Nodes, id: Uuid, i: nat, x: Uuid)
    requires Walkable(m) && id in m && m[id].data.StackData? && i < |Kids(m[id].data)| && x in m && m[x].data.TerminalData?
    requires Contains(m, Kids(m[id].data)[i].id, x) && Kids(m[id].data)[i].id in m
    ensures x in Leaves(m, id, true) <==> Contains(m, m[id].data.activeChild, x) && AllActive(m, Kids(m[id].data)[i].id, x)
    decreases RankOf(m, id), 0
  {
    hide Acyclic, ParentLinks, NoTwins, StacksActive, AllActive, Contains;
    var a := m[id].data.activeChild;
    if a == NIL {
      NilHolds(m, x);
    } else {
      ActiveBelow(m, id);
      LeavesShown(m, a, x);
      if Contains(m, a, x) {
        ActiveAmong(m, id);
        SameChild(m, id, i, IndexOf(Kids(m[id].data), a), x);
      }
    }
  }

  lemma NilHolds(m: Nodes, x: Uuid)
    requires Acyclic(m)
    ensures !Contains(m, NIL, x)
  {
  }

  lemma ActiveAmong(m: Nodes, id: Uuid)
    requires StacksActive(m) && id in m && m[id].data.StackData? && m[id].data.activeChild != NIL
    ensures HasId(Kids(m[id].data), m[id].data.activeChild)
  {
    assert Kids(m[id].data) == m[id].data.children;
  }

  /** The list is in the order in which layout comes to the Terminals. */
  lemma {:induction false} LeavesOrder(m: Nodes, id: Uuid, onlyActive: bool, j: nat, k: nat)
    requires Walkable(m) && id in m && j < k < |Leaves(m, id, onlyActive)|
    ensures var s := Leaves(m, id, onlyActive); Before(m, s[j], s[k]) && !Before(m, s[k], s[j])
    decreases RankOf(m, id)
  {
    hide Acyclic, Linked, StacksActive, Contains, Before;
    var d := m[id].data;
    if d.StackData? && onlyActive {
      ActiveBelow(m, id);
      LeavesOrder(m, d.activeChild, onlyActive, j, k);
    } else {
      var i, o := ConcatFrom(LeafLists(m, id, onlyActive), |Kids(d)|, j);
      var i', o' := ConcatFrom(LeafLists(m, id, onlyActive), |Kids(d)|, k);
      PlacesOrder(LeafLists(m, id, onlyActive), i, o, i', o');
      KidOf(m, id, i);
      KidOf(m, id, i');
      ChildBelow(m, id, i);
      if i == i' {
        LeavesOrder(m, Kids(d)[i].id, onlyActive, o, o');
      } else {
        LeavesBelow(m, Kids(d)[i].id, onlyActive, o);
        LeavesBelow(m, Kids(d)[i'].id, onlyActive, o');
        hide Leaves, LeafLists, Concat, Walkable;
        KidsOrder(m, id, i, i', Leaves(m, id, onlyActive)[j], Leaves(m, id, onlyActive)[k]);
      }
    }
  }

  lemma KidsOrder(m: Nodes, id: Uuid, i: nat, k: nat, x: Uuid, y: Uuid)
    requires Acyclic(m) && Linked(m) && id in m && i < k < |Kids(m[id].data)| && x in m && y in m
    requires Contains(m, Kids(m[id].data)[i].id, x) && Contains(m, Kids(m[id].data)[k].id, y)
    ensures Before(m, x, y) && !Before(m, y, x)
  {
    hide Acyclic, Linked, Before, Contains;
    assert Parted(m, id, i, k, x, y) && Parted(m, id, k, i, y, x);
    BeforeIff(m, id, i, k, x, y);
    BeforeIff(m, id, k, i, y, x);
  }

  lemma PlacesOrder(parts: seq<seq<Uuid>>, i: nat, o: nat, k: nat, q: nat)
    requires i < |parts| && k < |parts| && o < |parts[i]| && q < |parts[k]|
    requires |Concat(parts, i)| + o < |Concat(parts, k)| + q
    ensures i < k || (i == k && o < q)
  {
    if k < i { ConcatGrows(parts, k + 1, i); }
  }

  lemma {:induction false} ConcatGrows(parts: seq<seq<Uuid>>, i: nat, k: nat)
    requires i <= k <= |parts|
    ensures |Concat(parts, i)| <= |Concat(parts, k)|
    decreases k
  {
    if i < k { ConcatGrows(parts, i, k - 1); }
  }
}
