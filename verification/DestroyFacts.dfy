/** Why the recursive teardown of src/LayoutTree.cpp:460-495, child by child, prunes
    exactly the subtree. */
module DestroyFacts {
  import opened Forest
  import opened Ancestry
  import opened TreeEdits

  /** The subtrees of the first `k` children. */
  ghost function KidTrees(m: Nodes, id: Uuid, k: nat): set<Uuid>
    requires Acyclic(m) && id in m && k <= |Kids(m[id].data)|
  {
    if k == 0 then {} else KidTrees(m, id, k - 1) + Subtree(m, Kids(m[id].data)[k - 1].id)
  }

  lemma {:induction false} InKidTrees(m: Nodes, id: Uuid, k: nat, x: Uuid)
    requires Acyclic(m) && id in m && k <= |Kids(m[id].data)|
    ensures x in KidTrees(m, id, k) <==> exists i :: 0 <= i < k && x in Subtree(m, Kids(m[id].data)[i].id)
  {
    if k > 0 { InKidTrees(m, id, k - 1, x); }
  }

  lemma KidTreeBelow(m: Nodes, id: Uuid, i: nat, x: Uuid)
    requires Inv(m) && id in m && i < |Kids(m[id].data)| && x in Subtree(m, Kids(m[id].data)[i].id)
    ensures x in Subtree(m, id) && x != id
  {
    var c := Kids(m[id].data)[i].id;
    ChildBelow(m, id, i);
    ContainsTransitive(m, id, c, x);
    ContainsInForest(m, c, x);
  }

  lemma KidTreesBelow(m: Nodes, id: Uuid, k: nat, x: Uuid)
    requires Inv(m) && id in m && k <= |Kids(m[id].data)| && x in KidTrees(m, id, k)
    ensures x in Subtree(m, id) && x != id
  {
    InKidTrees(m, id, k, x);
    var i :| 0 <= i < k && x in Subtree(m, Kids(m[id].data)[i].id);
    KidTreeBelow(m, id, i, x);
  }

  lemma KidTreesDown(m: Nodes, id: Uuid, k: nat, x: Uuid)
    requires Inv(m) && id in m && k <= |Kids(m[id].data)| && x in m && m[x].parent in KidTrees(m, id, k)
    ensures x in KidTrees(m, id, k)
  {
    InKidTrees(m, id, k, m[x].parent);
    var i :| 0 <= i < k && m[x].parent in Subtree(m, Kids(m[id].data)[i].id);
    ContainsChild(m, Kids(m[id].data)[i].id, x);
    InKidTrees(m, id, k, x);
  }

  lemma KidTreesClosed(m: Nodes, id: Uuid, k: nat)
    requires Inv(m) && id in m && k <= |Kids(m[id].data)|
    ensures DownClosed(m, KidTrees(m, id, k)) && NIL !in KidTrees(m, id, k) && id !in KidTrees(m, id, k)
  {
    forall x | x in m && m[x].parent in KidTrees(m, id, k) ensures x in KidTrees(m, id, k) {
      KidTreesDown(m, id, k, x);
    }
    if NIL in KidTrees(m, id, k) { KidTreesBelow(m, id, k, NIL); }
    if id in KidTrees(m, id, k) { KidTreesBelow(m, id, k, id); }
  }

  lemma AllKidTrees(m: Nodes, id: Uuid)
    requires Inv(m) && id in m
    ensures KidTrees(m, id, |Kids(m[id].data)|) + {id} == Subtree(m, id)
  {
    hide ChildLinks, ParentLinks, NoTwins, StacksActive, ZoomsLive, Acyclic, KidTrees;
    var n := |Kids(m[id].data)|;
    assert Contains(m, id, id);
    forall x | x in KidTrees(m, id, n) ensures x in Subtree(m, id) {
      KidTreesBelow(m, id, n, x);
    }
    forall x | x in Subtree(m, id) && x != id ensures x in KidTrees(m, id, n) {
      var i := BelowSomeChild(m, id, x);
      InKidTrees(m, id, n, x);
    }
  }

  /** Nothing below a later child goes with the earlier ones. */
  lemma NextKidSpared(m: Nodes, id: Uuid, k: nat, x: Uuid)
    requires Inv(m) && id in m && k < |Kids(m[id].data)| && x in m && Contains(m, Kids(m[id].data)[k].id, x)
    ensures x !in KidTrees(m, id, k)
  {
    hide ParentLinks, StacksActive, ZoomsLive, Acyclic, KidTrees, Subtree;
    InKidTrees(m, id, k, x);
    if i :| 0 <= i < k && x in Subtree(m, Kids(m[id].data)[i].id) {
      InSubtree(m, Kids(m[id].data)[i].id, x);
      SiblingsDisjoint(m, Kids(m[id].data)[i].id, Kids(m[id].data)[k].id, x);
    }
  }

  lemma InSubtree(m: Nodes, a: Uuid, x: Uuid)
    requires Acyclic(m)
    ensures x in Subtree(m, a) <==> x in m && Contains(m, a, x)
  {
  }

  lemma KidKnown(m: Nodes, id: Uuid, k: nat)
    requires Inv(m) && id in m && k < |Kids(m[id].data)|
    ensures var c := Kids(m[id].data)[k].id; c in m && m[c].parent == id && Contains(m, c, c)
  {
    hide ParentLinks, NoTwins, StacksActive, ZoomsLive;
    BelowItself(m, Kids(m[id].data)[k].id);
  }

  /** A subtree of which nothing went is the same subtree. */
  lemma SparedSubtree(m: Nodes, n: Nodes, dead: set<Uuid>, c: Uuid)
    requires Inv(m) && Inv(n) && n == Prune(m, dead) && DownClosed(m, dead)
    requires forall x :: x in m && Contains(m, c, x) ==> x !in dead
    ensures Subtree(n, c) == Subtree(m, c)
  {
    hide ChildLinks, ParentLinks, NoTwins, StacksActive, ZoomsLive, Acyclic, Survivor, DownClosed;
    forall x | x in n ensures Contains(n, c, x) == Contains(m, c, x) {
      ChainAlive(m, n, dead, c, x);
    }
  }

  /** Later children keep their subtrees while earlier ones go. */
  lemma NextKidTree(m: Nodes, id: Uuid, k: nat)
    requires Inv(m) && id in m && k < |Kids(m[id].data)|
    ensures var n := Prune(m, KidTrees(m, id, k)); var c := Kids(m[id].data)[k].id;
      Inv(n) && id in n && c in n && Subtree(n, c) == Subtree(m, c) && |Subtree(m, c)| < |Subtree(m, id)|
    ensures KidTrees(m, id, k + 1) == KidTrees(m, id, k) + Subtree(m, Kids(m[id].data)[k].id)
  {
    hide ChildLinks, ParentLinks, NoTwins, StacksActive, ZoomsLive, Acyclic, DownClosed, Subtree, Contains;
    var dead, c := KidTrees(m, id, k), Kids(m[id].data)[k].id;
    KidTreesClosed(m, id, k);
    PruneKeepsInv(m, dead);
    KidKnown(m, id, k);
    forall x | x in m && Contains(m, c, x) ensures x !in dead { NextKidSpared(m, id, k, x); }
    SparedSubtree(m, Prune(m, dead), dead, c);
    SmallerSubtree(m, id, c);
  }

  lemma {:induction false} ChainAlive(m: Nodes, n: Nodes, dead: set<Uuid>, a: Uuid, x: Uuid)
    requires Inv(m) && Inv(n) && n == Prune(m, dead) && DownClosed(m, dead) && x in n
    ensures Contains(n, a, x) == Contains(m, a, x)
    decreases Above(m, x)
  {
    if x != a && m[x].parent != NIL {
      assert m[x].parent in Above(m, x);
      ChainAlive(m, n, dead, a, m[x].parent);
    }
  }

  lemma SmallerSubtree(m: Nodes, id: Uuid, c: Uuid)
    requires Inv(m) && id in m && c in m && m[c].parent == id
    ensures |Subtree(m, c)| < |Subtree(m, id)|
  {
    assert Contains(m, id, id) && Contains(m, id, c);
    forall x | x in Subtree(m, c) ensures x in Subtree(m, id) {
      ContainsTransitive(m, id, c, x);
    }
    if Contains(m, c, id) { ContainsInForest(m, c, id); }
    StrictSubset(Subtree(m, c), Subtree(m, id), id);
  }

  lemma StrictSubset(s: set<Uuid>, t: set<Uuid>, x: Uuid)
    requires s <= t && x in t && x !in s
    ensures |s| < |t|
  {
    assert t == s + (t - s);
    assert x in t - s;
  }

  // ---------------------------------------------------------------- the node itself

  function Unzoomed(n: Node, id: Uuid): Node {
    if n.data.StackData? && n.data.zoomTarget == id then n.(data := n.data.(zoomTarget := NIL)) else n
  }

  /** Erase a childless node that is detached already, then clear zooms on it. */
  function Erased(m: Nodes, id: Uuid): Nodes {
    map x | x in m && x != id :: Unzoomed(m[x], id)
  }

  /** Detaching a childless node, erasing it and clearing zooms on it is pruning it. */
  lemma DetachEraseIsPrune(m: Nodes, id: Uuid)
    requires Inv(m) && id in m && Kids(m[id].data) == []
    ensures m[id].parent != NIL ==> CanRemove(m, m[id].parent, id) && m[id].parent != id
    ensures Erased(if m[id].parent != NIL then Remove(m, m[id].parent, id) else m, id) == Prune(m, {id})
  {
    hide ZoomsLive, Acyclic, ChildLinks, ParentLinks;
    LinkedMembers(m);
    var p := m[id].parent;
    if p != NIL { assert Lists(m, p, id); }
    assert !Lists(m, id, id);
    forall x | x in m && x != id && x != p ensures Unzoomed(m[x], id) == Survivor(m[x], {id}) {
      assert !Lists(m, x, id);
      OthersUntouched(m[x], id);
    }
    if p != NIL { DroppedSurvives(m[p], id); }
  }

  lemma OthersUntouched(n: Node, id: Uuid)
    requires !HasId(Kids(n.data), id) && ActiveValid(n.data) && id != NIL
    ensures Unzoomed(n, id) == Survivor(n, {id})
  {
    forall i | 0 <= i < |Kids(n.data)| ensures Kids(n.data)[i].id !in {id} {
      assert HasId(Kids(n.data), Kids(n.data)[i].id);
    }
    WithoutNothing(Kids(n.data), {id});
  }

  lemma DroppedSurvives(n: Node, id: Uuid)
    requires IsBranch(n.data) && HasId(Kids(n.data), id) && DistinctIds(Kids(n.data)) && id != NIL
    ensures Unzoomed(Drop(n, id), id) == Survivor(n, {id})
  {
    WithoutOne(Kids(n.data), id, IndexOf(Kids(n.data), id));
  }
}
