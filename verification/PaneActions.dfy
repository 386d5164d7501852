/** The pane actions that move Terminals through the traversal order of a tab, built on
    swaps of the layout tree (src/platform/Platform_Actions.cpp:145-226).  The panes of a
    tab are its Terminals in traversal order, over all children of every Stack. */
module PaneActions {
  import opened Arithmetic
  import opened Forest
  import opened TreeEdits
  import opened TreeReshape
  import opened MethodFacts
  import opened LeafSwap
  import opened TreeRuns
  import opened LayoutTrees

  ghost function Panes(m: Nodes, tab: Uuid): seq<Uuid>
    requires Inv(m)
  {
    Leaves(m, tab, false)
  }

  /** Two places of a list exchanged. */
  function SwapAt<T>(s: seq<T>, i: nat, j: nat): (r: seq<T>)
    requires i < |s| && j < |s|
    ensures |r| == |s|
  {
    s[i := s[j]][j := s[i]]
  }

  lemma HasParent(m: Nodes, tab: Uuid, x: Uuid)
    requires Inv(m) && x in m && x != tab && Contains(m, tab, x)
    ensures m[x].parent in m && CanRemove(m, m[x].parent, x)
  {
  }

  lemma PanesDiffer(m: Nodes, tab: Uuid, i: nat, j: nat)
    requires Inv(m) && tab in m && i < |Panes(m, tab)| && j < |Panes(m, tab)| && i != j
    ensures Panes(m, tab)[i] != Panes(m, tab)[j]
  {
    if i < j { LeavesDistinct(m, tab, false, i, j); } else { LeavesDistinct(m, tab, false, j, i); }
  }

  lemma NotATerminal(m: Nodes, tab: Uuid)
    requires Inv(m) && tab in m && |Panes(m, tab)| >= 2
    ensures !m[tab].data.TerminalData?
  {
  }

  lemma PaneKnown(m: Nodes, tab: Uuid, i: nat)
    requires Inv(m) && tab in m && i < |Panes(m, tab)| && |Panes(m, tab)| >= 2
    ensures var a := Panes(m, tab)[i];
      && a in m && a != NIL && m[a].data.TerminalData? && a != tab && Contains(m, tab, a)
  {
    LeavesBelow(m, tab, false, i);
    NotATerminal(m, tab);
  }

  /** Any two panes of a tab can be swapped. */
  lemma PanesMaySwap(m: Nodes, tab: Uuid, i: nat, j: nat)
    requires Inv(m) && tab in m && i < |Panes(m, tab)| && j < |Panes(m, tab)| && i != j
    ensures CanSwap(m, Panes(m, tab)[i], Panes(m, tab)[j])
  {
    hide Leaves, ChildLinks, ParentLinks, NoTwins, StacksActive, ZoomsLive, Acyclic, Contains;
    var a, b := Panes(m, tab)[i], Panes(m, tab)[j];
    PanesDiffer(m, tab, i, j);
    PaneKnown(m, tab, i);
    PaneKnown(m, tab, j);
    HasParent(m, tab, a);
    HasParent(m, tab, b);
    TerminalHoldsNothing(m, a, b);
    TerminalHoldsNothing(m, b, a);
  }

  /** Swapping two panes exchanges their places and moves no other pane. */
  lemma SwapMovesPanes(m: Nodes, tab: Uuid, i: nat, j: nat)
    requires Inv(m) && tab in m && i < |Panes(m, tab)| && j < |Panes(m, tab)| && i != j
    ensures CanSwap(m, Panes(m, tab)[i], Panes(m, tab)[j])
    ensures var n := Swapped(m, Panes(m, tab)[i], Panes(m, tab)[j]);
      Inv(n) && tab in n && Panes(n, tab) == SwapAt(Panes(m, tab), i, j)
  {
    hide Leaves, ChildLinks, ParentLinks, NoTwins, StacksActive, ZoomsLive, Acyclic;
    var s := Panes(m, tab);
    PanesMaySwap(m, tab, i, j);
    PaneKnown(m, tab, i);
    PaneKnown(m, tab, j);
    SwapKeepsInv(m, s[i], s[j]);
    SwapExchangesLeaves(m, s[i], s[j], tab);
    OthersAt(m, tab, i, j);
  }

  lemma OthersAt(m: Nodes, tab: Uuid, i: nat, j: nat)
    requires Inv(m) && tab in m && i < |Panes(m, tab)| && j < |Panes(m, tab)| && i != j
    ensures var s := Panes(m, tab); OthersIn(s, s[i], s[j]) == SwapAt(s, i, j)
  {
    hide Inv, Panes;
    var s := Panes(m, tab);
    forall k | 0 <= k < |s| ensures OthersIn(s, s[i], s[j])[k] == SwapAt(s, i, j)[k] {
      if k != i { PanesDiffer(m, tab, k, i); }
      if k != j { PanesDiffer(m, tab, k, j); }
    }
  }

  // ---------------------------------------------------------------- rotation

  lemma NextQuotient(a: int, q: int, r: int, n: nat)
    requires n > 0 && a == q * n + r && 0 <= r < n
    ensures (a + 1) % n == if r + 1 < n then r + 1 else 0
  {
    if r + 1 < n {
      QuotientUnique(a + 1, q, r + 1, n);
    } else {
      assert (q + 1) * n == q * n + n;
      QuotientUnique(a + 1, q + 1, 0, n);
    }
  }

  lemma NextModulo(a: int, n: nat)
    requires n > 0
    ensures (a % n + 1) % n == (a + 1) % n
  {
    NextQuotient(a, a / n, a % n, n);
    if a % n + 1 < n { QuotientUnique(a % n + 1, 0, a % n + 1, n); } else { QuotientUnique(n, 1, 0, n); }
  }

  /** The last `c` elements first. */
  function Cut<T>(s: seq<T>, c: nat): seq<T>
    requires c <= |s|
  {
    s[|s| - c..] + s[..|s| - c]
  }

  lemma CutOnce<T>(s: seq<T>, c: nat)
    requires c < |s|
    ensures Cut(Cut(s, c), 1) == Cut(s, c + 1)
    ensures Cut(Cut(s, c + 1), |s| - 1) == Cut(s, c)
    ensures Cut(s, |s|) == Cut(s, 0) == s
  {
    var at := |s| - c - 1;
    var front, mid, back := s[..at], [s[at]], s[at + 1..];
    assert s[..at + 1] == front + mid && s[at..] == mid + back;
    assert Cut(s, c) == back + front + mid && Cut(s, c + 1) == mid + back + front;
    assert (back + front + mid)[..|s| - 1] == back + front && (back + front + mid)[|s| - 1..] == mid;
    assert (mid + back + front)[1..] == back + front && (mid + back + front)[..1] == mid;
  }

  lemma RotatedIsCut<T>(s: seq<T>, k: int)
    requires s != []
    ensures Rotated(s, k) == Cut(s, k % |s|)
  {
  }

  /** One step more is one more to turn by. */
  lemma RotatedOnce<T>(s: seq<T>, k: int)
    ensures Rotated(Rotated(s, k), 1) == Rotated(s, k + 1)
    ensures Rotated(Rotated(s, k + 1), -1) == Rotated(s, k)
  {
    var n := |s|;
    if n > 1 {
      NextModulo(k, n);
      QuotientUnique(1, 0, 1, n);
      QuotientUnique(-1, -1, n - 1, n);
      RotatedIsCut(s, k);
      RotatedIsCut(s, k + 1);
      RotatedIsCut(Rotated(s, k), 1);
      RotatedIsCut(Rotated(s, k + 1), -1);
      var c := k % n;
      CutOnce(s, c);
      if c + 1 < n { QuotientUnique(c + 1, 0, c + 1, n); } else { QuotientUnique(n, 1, 0, n); }
    }
  }

  lemma RotatedNone<T>(s: seq<T>, k: int)
    requires k == 0 || |s| < 2
    ensures Rotated(s, k) == s
  {
    if s != [] {
      if k == 0 { QuotientUnique(0, 0, 0, |s|); } else { assert k % 1 == 0; }
    }
  }

  /** Swap the pane at `i` with the one at `j`. */
  method SwapPanes(tree: LayoutTree, tab: Uuid, ghost s: seq<Uuid>, ghost i: nat, ghost j: nat, a: Uuid, b: Uuid)
    requires Inv(tree.nodes) && tab in tree.nodes && Panes(tree.nodes, tab) == s
    requires i < |s| && j < |s| && i != j && a == s[i] && b == s[j]
    modifies tree`nodes, tree`dirty, tree`revision
    ensures Inv(tree.nodes) && tab in tree.nodes && tree.nodes.Keys == old(tree.nodes).Keys
    ensures Panes(tree.nodes, tab) == SwapAt(s, i, j)
  {
    SwapMovesPanes(tree.nodes, tab, i, j);
    var _ := tree.ExchangeLeaves(a, b);
  }

  /** The list while `bubble` stands at place `i`. */
  function Bubbled(rest: seq<Uuid>, bubble: Uuid, i: nat): (r: seq<Uuid>)
    requires i <= |rest|
    ensures |r| == |rest| + 1
  {
    rest[..i] + [bubble] + rest[i..]
  }

  lemma BubbleMoves(rest: seq<Uuid>, bubble: Uuid, i: nat)
    requires i < |rest|
    ensures SwapAt(Bubbled(rest, bubble, i), i, i + 1) == Bubbled(rest, bubble, i + 1)
    ensures SwapAt(Bubbled(rest, bubble, i + 1), i + 1, i) == Bubbled(rest, bubble, i)
    ensures Bubbled(rest, bubble, i)[i] == bubble == Bubbled(rest, bubble, i + 1)[i + 1]
    ensures Bubbled(rest, bubble, i)[i + 1] == rest[i] == Bubbled(rest, bubble, i + 1)[i]
  {
  }

  lemma BubbleEnds(p: seq<Uuid>)
    requires |p| >= 2
    ensures var last := |p| - 1;
      && p == Bubbled(p[..last], p[last], last) && Rotated(p, 1) == Bubbled(p[..last], p[last], 0)
      && p == Bubbled(p[1..], p[0], 0) && Rotated(p, -1) == Bubbled(p[1..], p[0], last)
  {
    QuotientUnique(1, 0, 1, |p|);
    QuotientUnique(-1, -1, |p| - 1, |p|);
  }

  /** The last pane bubbles to the front, one swap at a time. */
  method BubbleForward(tree: LayoutTree, tab: Uuid, p: seq<Uuid>)
    requires Inv(tree.nodes) && tab in tree.nodes && p == Panes(tree.nodes, tab) && |p| >= 2
    modifies tree`nodes, tree`dirty, tree`revision
    ensures Inv(tree.nodes) && tree.nodes.Keys == old(tree.nodes).Keys
    ensures Panes(tree.nodes, tab) == Rotated(p, 1)
  {
    hide Inv, Panes, Bubbled, SwapAt, Rotated;
    BubbleEnds(p);
    var bubble := p[|p| - 1];
    var i := |p| - 1;
    while i > 0
      invariant 0 <= i < |p| && Inv(tree.nodes) && tab in tree.nodes && tree.nodes.Keys == old(tree.nodes).Keys
      invariant Panes(tree.nodes, tab) == Bubbled(p[..|p| - 1], bubble, i)
    {
      i := i - 1;
      BubbleMoves(p[..|p| - 1], bubble, i);
      SwapPanes(tree, tab, Bubbled(p[..|p| - 1], bubble, i + 1), i + 1, i, bubble, p[i]);
    }
  }

  /** The first pane bubbles to the back. */
  method BubbleBackward(tree: LayoutTree, tab: Uuid, p: seq<Uuid>)
    requires Inv(tree.nodes) && tab in tree.nodes && p == Panes(tree.nodes, tab) && |p| >= 2
    modifies tree`nodes, tree`dirty, tree`revision
    ensures Inv(tree.nodes) && tree.nodes.Keys == old(tree.nodes).Keys
    ensures Panes(tree.nodes, tab) == Rotated(p, -1)
  {
    hide Inv, Panes, Bubbled, SwapAt, Rotated;
    BubbleEnds(p);
    var bubble := p[0];
    for i := 1 to |p|
      invariant Inv(tree.nodes) && tab in tree.nodes && tree.nodes.Keys == old(tree.nodes).Keys
      invariant Panes(tree.nodes, tab) == Bubbled(p[1..], bubble, i - 1)
    {
      BubbleMoves(p[1..], bubble, i - 1);
      SwapPanes(tree, tab, Bubbled(p[1..], bubble, i - 1), i - 1, i, bubble, p[i]);
    }
  }

  /** Rotating the panes of a tab moves every pane `delta` places through the traversal
      order, around the end, whatever the shape of the tree. */
  method RotatePanes(tree: LayoutTree, tab: Uuid, delta: int)
    requires StateInv(tree.St()) && tab in tree.nodes
    modifies tree`nodes, tree`dirty, tree`revision
    ensures StateInv(tree.St()) && tree.nodes.Keys == old(tree.nodes).Keys
    ensures Panes(tree.nodes, tab) == Rotated(old(Panes(tree.nodes, tab)), delta)
  {
    hide ChildLinks, ParentLinks, NoTwins, StacksActive, ZoomsLive, Acyclic, Leaves, Rotated;
    ghost var start := Panes(tree.nodes, tab);
    RotatedNone(start, 0);
    if delta == 0 { return; }
    var rounds := if delta < 0 then -delta else delta;
    var s := 0;
    while s < rounds
      invariant 0 <= s <= rounds
      invariant Inv(tree.nodes) && tab in tree.nodes && tree.nodes.Keys == old(tree.nodes).Keys
      invariant Panes(tree.nodes, tab) == Rotated(start, if delta > 0 then s else -s)
    {
      var p := tree.TerminalLeavesIn(tab, false);
      if |p| < 2 {
        RotatedNone(start, delta);
        RotatedNone(start, if delta > 0 then s else -s);
        break;
      }
      if delta > 0 { BubbleForward(tree, tab, p); } else { BubbleBackward(tree, tab, p); }
      RotatedOnce(start, if delta > 0 then s else -s - 1);
      s := s + 1;
    }
  }

  // ---------------------------------------------------------------- next and previous

  /** `focused` changed places with its neighbour in `s`. */
  ghost predicate Traded(s: seq<Uuid>, t: seq<Uuid>, focused: Uuid, next: bool) {
    exists i: nat :: i < |s| && s[i] == focused && t == SwapAt(s, i, (if next then i + 1 else i - 1) % |s|)
  }

  /** The focused pane changes places with the next or previous one, around the end. */
  method SwapWithNeighbour(tree: LayoutTree, tab: Uuid, focused: Uuid, next: bool) returns (swapped: bool)
    requires StateInv(tree.St()) && tab in tree.nodes
    modifies tree`nodes, tree`dirty, tree`revision
    ensures StateInv(tree.St()) && tree.nodes.Keys == old(tree.nodes).Keys
    ensures swapped <==> focused in old(Panes(tree.nodes, tab)) && |old(Panes(tree.nodes, tab))| >= 2
    ensures !swapped ==> tree.nodes == old(tree.nodes)
    ensures swapped ==> Traded(old(Panes(tree.nodes, tab)), Panes(tree.nodes, tab), focused, next)
  {
    hide ChildLinks, ParentLinks, NoTwins, StacksActive, ZoomsLive, Acyclic, Leaves, SwapAt;
    var p := tree.TerminalLeavesIn(tab, false);
    if |p| < 2 { return false; }
    var cur := 0;
    while cur < |p| && p[cur] != focused
      invariant 0 <= cur <= |p| && focused !in p[..cur]
    {
      cur := cur + 1;
    }
    if cur == |p| { return false; }
    var n := |p|;
    var idx := Truncated(Truncated(if next then cur + 1 else cur - 1, n) + n, n);
    NormalizedShift(if next then cur + 1 else cur - 1, n);
    NeighbourDiffers(cur, n);
    SwapPanes(tree, tab, p, cur, idx, focused, p[idx]);
    swapped := true;
  }

  lemma NeighbourDiffers(i: nat, n: nat)
    requires i < n && n >= 2
    ensures (i + 1) % n != i && (i - 1) % n != i
  {
    if i + 1 < n { QuotientUnique(i + 1, 0, i + 1, n); } else { QuotientUnique(n, 1, 0, n); }
    if i > 0 { QuotientUnique(i - 1, 0, i - 1, n); } else { QuotientUnique(-1, -1, n - 1, n); }
  }
}
