/** The steps the methods of the layout tree take, proved to compose to the edits they
    stand for. */
module MethodFacts {
  import opened Arithmetic
  import opened Forest
  import opened Ancestry
  import opened TreeEdits
  import opened TreeReshape
  import opened DestroyFacts
  import SplitClose

  /** The range [first, last) turned so that `middle` comes first. */
  function RotateRange(s: seq<ChildSlot>, first: nat, middle: nat, last: nat): seq<ChildSlot>
    requires first <= middle <= last <= |s|
  {
    s[..first] + s[middle..last] + s[first..middle] + s[last..]
  }

  lemma RotateRangeRelocates(s: seq<ChildSlot>, i: nat, j: nat)
    requires i < |s| && j < |s| && i != j
    ensures Relocated(s, i, j) == if i < j then RotateRange(s, i, i + 1, j + 1) else RotateRange(s, j, i, i + 1)
  {
  }

  /** A child rotated over the ones between it and its target. */
  function Shifted(s: seq<ChildSlot>, i: nat, j: nat): (r: seq<ChildSlot>)
    requires i < |s| && j < |s| && i != j
    ensures r == Relocated(s, i, j)
  {
    RotateRangeRelocates(s, i, j);
    if i < j then RotateRange(s, i, i + 1, j + 1) else RotateRange(s, j, i, i + 1)
  }

  /** The remainder of a division that truncates toward zero. */
  function Truncated(a: int, n: int): int
    requires n > 0
  {
    if a >= 0 then a % n else -((-a) % n)
  }

  lemma NormalizedShift(delta: int, n: int)
    requires n > 0
    ensures Truncated(Truncated(delta, n) + n, n) == delta % n
  {
    if delta >= 0 {
      QuotientUnique(delta % n + n, 1, delta % n, n);
    } else {
      var r, q := (-delta) % n, (-delta) / n;
      if r == 0 {
        assert delta == (-q) * n + 0;
        QuotientUnique(delta, -q, 0, n);
        QuotientUnique(n, 1, 0, n);
      } else {
        assert delta == (-q - 1) * n + (n - r);
        QuotientUnique(delta, -q - 1, n - r, n);
        QuotientUnique(n - r, 0, n - r, n);
      }
    }
  }

  lemma RotateRangeRotates(s: seq<ChildSlot>, delta: int)
    requires s != []
    ensures RotateRange(s, 0, |s| - delta % |s|, |s|) == Rotated(s, delta)
  {
  }

  // ---------------------------------------------------------------- swap

  function SlotRenamed(m: Nodes, p: Uuid, i: nat, id: Uuid): (r: Nodes)
    requires p in m && IsBranch(m[p].data) && i < |Kids(m[p].data)|
    ensures r.Keys == m.Keys
  {
    m[p := WithKids(m[p], Kids(m[p].data)[i := Kids(m[p].data)[i].(id := id)])]
  }

  function ActiveRetargeted(m: Nodes, p: Uuid, was: Uuid, now: Uuid): (r: Nodes)
    requires p in m
    ensures r.Keys == m.Keys
  {
    if m[p].data.StackData? && m[p].data.activeChild == was then m[p := WithActive(m[p], now)] else m
  }

  /** The two slots, their positions known, whose ids a swap exchanges. */
  ghost predicate SwapSite(m: Nodes, a: Uuid, b: Uuid, i: nat, j: nat) {
    && a in m && b in m && m[a].parent in m && m[b].parent in m && a != b && a != NIL && b != NIL
    && IsBranch(m[m[a].parent].data) && IsBranch(m[m[b].parent].data)
    && i < |Kids(m[m[a].parent].data)| && Kids(m[m[a].parent].data)[i].id == a
    && j < |Kids(m[m[b].parent].data)| && Kids(m[m[b].parent].data)[j].id == b
    && m[a].parent != a && m[b].parent != b && m[a].parent != b && m[b].parent != a
  }

  /** The steps of a swap, one after the other. */
  ghost function SwapSteps(m: Nodes, a: Uuid, b: Uuid, i: nat, j: nat): (r: Nodes)
    requires SwapSite(m, a, b, i, j)
    ensures r.Keys == m.Keys
  {
    var pa, pb := m[a].parent, m[b].parent;
    var named := SlotRenamed(SlotRenamed(m, pa, i, b), pb, j, a);
    if pa == pb then named
    else
      var moved := named[a := WithParent(named[a], pb)];
      var both := moved[b := WithParent(moved[b], pa)];
      ActiveRetargeted(ActiveRetargeted(both, pa, a, b), pb, b, a)
  }

  lemma RenamedElsewhere(s: seq<ChildSlot>, a: Uuid, b: Uuid)
    requires !HasId(s, a) && !HasId(s, b)
    ensures Renamed(s, a, b) == s
  {
    forall k | 0 <= k < |s| ensures Renamed(s, a, b)[k] == s[k] {
      assert HasId(s, s[k].id);
    }
  }

  lemma RenamedOne(s: seq<ChildSlot>, a: Uuid, b: Uuid, i: nat)
    requires i < |s| && s[i].id == a && DistinctIds(s) && !HasId(s, b)
    ensures Renamed(s, a, b) == s[i := s[i].(id := b)]
    ensures Renamed(s, b, a) == s[i := s[i].(id := b)]
  {
    forall k | 0 <= k < |s| && k != i ensures s[k].id != a && s[k].id != b {
      assert HasId(s, s[k].id);
    }
  }

  lemma RenamedTwo(s: seq<ChildSlot>, a: Uuid, b: Uuid, i: nat, j: nat)
    requires i < |s| && s[i].id == a && j < |s| && s[j].id == b && DistinctIds(s) && a != b
    ensures Renamed(s, a, b) == s[i := s[i].(id := b)][j := s[j].(id := a)]
  {
  }

  /** A node that is neither parent: only its own parent link may change. */
  lemma SwapAtOther(m: Nodes, a: Uuid, b: Uuid, i: nat, j: nat, x: Uuid)
    requires SwapSite(m, a, b, i, j) && x in m && x != m[a].parent && x != m[b].parent
    requires !HasId(Kids(m[x].data), a) && !HasId(Kids(m[x].data), b) && ActiveValid(m[x].data)
    ensures SwapSteps(m, a, b, i, j)[x] == Swapped(m, a, b)[x]
  {
    UntouchedData(m[x], m[Other(a, b, x)].parent, a, b, m[a].parent != m[b].parent);
    StepsElsewhere(m, a, b, i, j, x);
    hide SwapNode, SwapSteps;
  }

  lemma StepsElsewhere(m: Nodes, a: Uuid, b: Uuid, i: nat, j: nat, x: Uuid)
    requires SwapSite(m, a, b, i, j) && x in m && x != m[a].parent && x != m[b].parent
    ensures SwapSteps(m, a, b, i, j)[x] == m[x].(parent := m[Other(a, b, x)].parent)
  {
  }

  /** A node that lists neither of the two keeps its data. */
  lemma UntouchedData(n: Node, parent: Uuid, a: Uuid, b: Uuid, retarget: bool)
    requires !HasId(Kids(n.data), a) && !HasId(Kids(n.data), b) && ActiveValid(n.data) && a != NIL && b != NIL
    ensures SwapNode(n, parent, a, b, retarget) == n.(parent := parent)
  {
    hide Renamed;
    RenamedElsewhere(Kids(n.data), a, b);
  }

  lemma SwapAtCommonParent(m: Nodes, a: Uuid, b: Uuid, i: nat, j: nat, x: Uuid)
    requires SwapSite(m, a, b, i, j) && x in m && x == m[a].parent && x == m[b].parent
    requires DistinctIds(Kids(m[x].data))
    ensures SwapSteps(m, a, b, i, j)[x] == Swapped(m, a, b)[x]
  {
    var s := Kids(m[x].data);
    RenamedTwo(s, a, b, i, j);
    assert s[i := s[i].(id := b)][j] == s[j];
  }

  lemma SwapAtFirstParent(m: Nodes, a: Uuid, b: Uuid, i: nat, j: nat, x: Uuid)
    requires SwapSite(m, a, b, i, j) && x in m && x == m[a].parent && x != m[b].parent
    requires DistinctIds(Kids(m[x].data)) && !HasId(Kids(m[x].data), b) && ActiveValid(m[x].data)
    ensures SwapSteps(m, a, b, i, j)[x] == Swapped(m, a, b)[x]
  {
    RenamedOne(Kids(m[x].data), a, b, i);
  }

  lemma SwapAtSecondParent(m: Nodes, a: Uuid, b: Uuid, i: nat, j: nat, x: Uuid)
    requires SwapSite(m, a, b, i, j) && x in m && x != m[a].parent && x == m[b].parent
    requires DistinctIds(Kids(m[x].data)) && !HasId(Kids(m[x].data), a) && ActiveValid(m[x].data)
    ensures SwapSteps(m, a, b, i, j)[x] == Swapped(m, a, b)[x]
  {
    RenamedOne(Kids(m[x].data), b, a, j);
  }

  lemma SwapStepsAt(m: Nodes, a: Uuid, b: Uuid, i: nat, j: nat, x: Uuid)
    requires SwapSite(m, a, b, i, j) && Members(m) && NoTwins(m) && StacksActive(m) && x in m
    ensures SwapSteps(m, a, b, i, j)[x] == Swapped(m, a, b)[x]
  {
    assert Lists(m, x, a) <==> m[a].parent == x;
    assert Lists(m, x, b) <==> m[b].parent == x;
    if x == m[a].parent && x == m[b].parent {
      SwapAtCommonParent(m, a, b, i, j, x);
    } else if x == m[a].parent {
      SwapAtFirstParent(m, a, b, i, j, x);
    } else if x == m[b].parent {
      SwapAtSecondParent(m, a, b, i, j, x);
    } else {
      SwapAtOther(m, a, b, i, j, x);
    }
  }

  lemma SwapSiteKnown(m: Nodes, a: Uuid, b: Uuid)
    requires Inv(m) && CanSwap(m, a, b)
    ensures SwapSite(m, a, b, IndexOf(Kids(m[m[a].parent].data), a), IndexOf(Kids(m[m[b].parent].data), b))
  {
    ParentNotBelow(m, a);
    ParentNotBelow(m, b);
    assert Contains(m, a, a) && Contains(m, b, b);
    ContainsChild(m, a, b);
    ContainsChild(m, b, a);
  }

  lemma SwapStepsSwap(m: Nodes, a: Uuid, b: Uuid, i: nat, j: nat)
    requires SwapSite(m, a, b, i, j) && Members(m) && NoTwins(m) && StacksActive(m)
    ensures SwapSteps(m, a, b, i, j) == Swapped(m, a, b)
  {
    assert a in m && b in m;
    hide Members, NoTwins, StacksActive, SwapSite, SwapNode, SwapSteps;
    forall x | x in m ensures SwapSteps(m, a, b, i, j)[x] == Swapped(m, a, b)[x] {
      SwapStepsAt(m, a, b, i, j, x);
    }
  }

  // ---------------------------------------------------------------- destroy

  lemma PruneNothing(m: Nodes)
    ensures Prune(m, {}) == m
  {
    forall x | x in m ensures Survivor(m[x], {}) == m[x] {
      WithoutNothing(Kids(m[x].data), {});
    }
  }

  /** With all its children gone a node has an empty list. */
  lemma LastBarren(m: Nodes, id: Uuid)
    requires Inv(m) && id in m
    ensures var k := Prune(m, KidTrees(m, id, |Kids(m[id].data)|));
      id in k && Kids(k[id].data) == []
  {
    var kids := Kids(m[id].data);
    KidTreesClosed(m, id, |kids|);
    forall i | 0 <= i < |kids| ensures kids[i].id in KidTrees(m, id, |kids|) {
      ChildBelow(m, id, i);
      InKidTrees(m, id, |kids|, kids[i].id);
    }
    WithoutAll(kids, KidTrees(m, id, |kids|));
  }

  /** Destroying the next child turns the first `k` subtrees gone into `k + 1`. */
  lemma KidTornDown(m: Nodes, id: Uuid, k: nat)
    requires Inv(m) && id in m && k < |Kids(m[id].data)|
    ensures var n, c := Prune(m, KidTrees(m, id, k)), Kids(m[id].data)[k].id;
      && Inv(n) && c in n && Subtree(n, c) == Subtree(m, c) && |Subtree(n, c)| < |Subtree(m, id)|
      && Prune(n, Subtree(n, c)) == Prune(m, KidTrees(m, id, k + 1))
    ensures KidTrees(m, id, k + 1) == KidTrees(m, id, k) + Subtree(m, Kids(m[id].data)[k].id)
    ensures NIL !in KidTrees(m, id, k + 1)
  {
    NextKidTree(m, id, k);
    KidTreesClosed(m, id, k);
    KidTreesClosed(m, id, k + 1);
    SplitClose.SubtreeClosed(m, Kids(m[id].data)[k].id);
    PruneTwice(m, KidTrees(m, id, k), Subtree(m, Kids(m[id].data)[k].id));
  }

  /** With all child subtrees gone, erasing the node itself finishes its subtree. */
  lemma LastTornDown(m: Nodes, id: Uuid)
    requires Inv(m) && id in m
    ensures var dead := KidTrees(m, id, |Kids(m[id].data)|); var k := Prune(m, dead);
      && Inv(k) && id in k && Kids(k[id].data) == []
      && Prune(k, {id}) == Prune(m, Subtree(m, id))
      && dead + {id} == Subtree(m, id)
  {
    var dead := KidTrees(m, id, |Kids(m[id].data)|);
    LastBarren(m, id);
    KidTreesClosed(m, id, |Kids(m[id].data)|);
    PruneKeepsInv(m, dead);
    PruneTwice(m, dead, {id});
    AllKidTrees(m, id);
  }

  // ---------------------------------------------------------------- collapse

  lemma CollapseStep(m: Nodes, cur: Uuid, stopAt: Uuid)
    requires Inv(m) && Collapses(m, cur, stopAt)
    ensures CollapseOnce.requires(m, cur) && Inv(CollapseOnce(m, cur)) && |CollapseOnce(m, cur)| < |m|
    ensures Collapse(m, cur, stopAt) == Collapse(CollapseOnce(m, cur), m[cur].parent, stopAt)
    ensures CollapseOnce(m, cur).Keys == m.Keys - {cur}
  {
    CollapseOnceKeepsInv(m, cur, stopAt);
    CollapseShrinks(m, cur);
    CollapseTarget(m, cur);
    SplitClose.CollapseKeys(m, cur);
  }

  lemma CollapseMoves(m: Nodes, cur: Uuid)
    requires Inv(m) && cur in m && m[cur].data.ContainerData? && |m[cur].data.children| == 1 && m[cur].parent != NIL
    ensures var only, grand := m[cur].data.children[0].id, m[cur].parent;
      && CanRemove(m, cur, only)
      && var freed := Remove(m, cur, only);
      && Inv(freed) && CanReplace(freed, grand, cur, Plain(only)) && !Contains(freed, only, grand)
      && Inv(Replace(freed, grand, cur, Plain(only)))
  {
    hide ChildLinks, ParentLinks, NoTwins, StacksActive, ZoomsLive, Acyclic;
    var only, grand := m[cur].data.children[0].id, m[cur].parent;
    CollapseTarget(m, cur);
    RemoveKeepsInv(m, cur, only);
    var freed := Remove(m, cur, only);
    FewerAncestors(m, freed, only, grand);
    ReplaceKeepsInv(freed, grand, cur, Plain(only));
  }

  lemma CollapsedAlone(m: Nodes, cur: Uuid)
    requires Inv(m) && cur in m && m[cur].data.ContainerData? && |m[cur].data.children| == 1 && m[cur].parent != NIL
    ensures CollapseOnce.requires(m, cur)
    ensures var only, grand := m[cur].data.children[0].id, m[cur].parent;
      var placed := Replace(Remove(m, cur, only), grand, cur, Plain(only));
      Inv(placed) && cur in placed && Subtree(placed, cur) == {cur}
  {
    var only, grand := m[cur].data.children[0].id, m[cur].parent;
    CollapseTarget(m, cur);
    CollapseMoves(m, cur);
    var placed := Replace(Remove(m, cur, only), grand, cur, Plain(only));
    EmptiedKids(m, cur);
    BarrenSubtree(placed, cur);
  }

  lemma EmptiedKids(m: Nodes, cur: Uuid)
    requires cur in m && m[cur].data.ContainerData? && |m[cur].data.children| == 1 && m[cur].parent in m
    requires m[cur].parent != cur && CollapseOnce.requires(m, cur) && m[cur].data.children[0].id != cur
    ensures var only := m[cur].data.children[0].id;
      var placed := Replace(Remove(m, cur, only), m[cur].parent, cur, Plain(only));
      cur in placed && Kids(placed[cur].data) == []
  {
  }

  lemma BarrenSubtree(m: Nodes, cur: Uuid)
    requires Inv(m) && cur in m && Kids(m[cur].data) == []
    ensures Subtree(m, cur) == {cur}
  {
    assert Contains(m, cur, cur);
    forall x | x in m && Contains(m, cur, x) ensures x == cur {
      BarrenHoldsOnlyItself(m, cur, x);
    }
  }
}
