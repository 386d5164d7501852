/** The node store of the layout tree (src/LayoutTree.h): a map from identities to
    nodes with two-way parent/child links.  This module holds the data types, the
    forest invariant, the ancestor relation and the ranking that makes recursion
    over the links well founded. */
module Forest {

  /** A UUID, kept abstract as a number; the nil UUID is 0. */
  type Uuid = nat

  const NIL: Uuid := 0

  datatype SplitDir = Horizontal | Vertical

  /** Per-child sizing hints of a Container; a Stack ignores all but the id. */
  datatype ChildSlot = ChildSlot(id: Uuid, stretch: int, minCells: int, maxCells: int, fixedCells: int)

  datatype NodeData =
    | TerminalData
    | ContainerData(dir: SplitDir, children: seq<ChildSlot>)
    | StackData(children: seq<ChildSlot>, activeChild: Uuid, zoomTarget: Uuid)
    | TabBarData(boundStack: Uuid)

  datatype Node = Node(parent: Uuid, caption: string, data: NodeData)

  type Nodes = map<Uuid, Node>

  predicate IsBranch(d: NodeData) {
    d.ContainerData? || d.StackData?
  }

  function Kids(d: NodeData): seq<ChildSlot> {
    if IsBranch(d) then d.children else []
  }

  // ---------------------------------------------------------------- child lists

  predicate HasId(s: seq<ChildSlot>, id: Uuid) {
    exists i :: 0 <= i < |s| && s[i].id == id
  }

  predicate DistinctIds(s: seq<ChildSlot>) {
    forall i, j :: 0 <= i < j < |s| ==> s[i].id != s[j].id
  }

  lemma {:induction false} FirstIndexExists(s: seq<ChildSlot>, id: Uuid)
    requires HasId(s, id)
    ensures exists i: nat :: i < |s| && s[i].id == id && forall j :: 0 <= j < i ==> s[j].id != id
  {
    var k :| 0 <= k < |s| && s[k].id == id;
    if j :| 0 <= j < k && s[j].id == id {
      assert s[..k][j].id == id;
      FirstIndexExists(s[..k], id);
      var i: nat :| i < k && s[..k][i].id == id && forall j :: 0 <= j < i ==> s[..k][j].id != id;
      assert s[i].id == id;
      assert forall j :: 0 <= j < i ==> s[j].id == s[..k][j].id;
    }
  }

  /** Position of the first slot holding `id`. */
  ghost function IndexOf(s: seq<ChildSlot>, id: Uuid): (i: nat)
    requires HasId(s, id)
    ensures i < |s| && s[i].id == id
    ensures forall j :: 0 <= j < i ==> s[j].id != id
  {
    FirstIndexExists(s, id);
    var i: nat :| i < |s| && s[i].id == id && forall j :: 0 <= j < i ==> s[j].id != id;
    i
  }

  /** The list without the slots whose id is in `dead`. */
  function Without(s: seq<ChildSlot>, dead: set<Uuid>): (r: seq<ChildSlot>)
    ensures |r| <= |s|
  {
    if s == [] then []
    else if s[|s| - 1].id in dead then Without(s[..|s| - 1], dead)
    else Without(s[..|s| - 1], dead) + [s[|s| - 1]]
  }

  lemma {:induction false} WithoutMembers(s: seq<ChildSlot>, dead: set<Uuid>, id: Uuid)
    ensures HasId(Without(s, dead), id) <==> HasId(s, id) && id !in dead
  {
    if s != [] {
      var t, last := s[..|s| - 1], s[|s| - 1];
      WithoutMembers(t, dead, id);
      if HasId(s, id) && last.id != id {
        var k :| 0 <= k < |s| && s[k].id == id;
        assert t[k].id == id;
      }
      if HasId(t, id) {
        var k :| 0 <= k < |t| && t[k].id == id;
        assert s[k].id == id;
      }
      var w := Without(t, dead);
      if last.id !in dead {
        assert Without(s, dead)[|w|] == last;
        if HasId(w, id) {
          var k :| 0 <= k < |w| && w[k].id == id;
          assert Without(s, dead)[k].id == id;
        }
        if HasId(Without(s, dead), id) && id != last.id {
          var k :| 0 <= k < |w + [last]| && (w + [last])[k].id == id;
          assert w[k].id == id;
        }
      }
      if last.id == id {
        assert s[|s| - 1].id == id;
      }
    }
  }

  lemma {:induction false} WithoutKeepsDistinct(s: seq<ChildSlot>, dead: set<Uuid>)
    requires DistinctIds(s)
    ensures DistinctIds(Without(s, dead))
  {
    if s != [] {
      var t, last := s[..|s| - 1], s[|s| - 1];
      WithoutKeepsDistinct(t, dead);
      WithoutMembers(t, dead, last.id);
      var w := Without(t, dead);
      forall i | 0 <= i < |w| ensures w[i].id != last.id {
        WithoutMembers(t, dead, w[i].id);
        assert HasId(w, w[i].id);
        var k :| 0 <= k < |t| && t[k].id == w[i].id;
        assert s[k].id != s[|s| - 1].id;
      }
    }
  }

  lemma {:induction false} WithoutNothing(s: seq<ChildSlot>, dead: set<Uuid>)
    requires forall i :: 0 <= i < |s| ==> s[i].id !in dead
    ensures Without(s, dead) == s
  {
    if s != [] {
      WithoutNothing(s[..|s| - 1], dead);
      assert s == s[..|s| - 1] + [s[|s| - 1]];
    }
  }

  lemma {:induction false} WithoutAll(s: seq<ChildSlot>, dead: set<Uuid>)
    requires forall i :: 0 <= i < |s| ==> s[i].id in dead
    ensures Without(s, dead) == []
  {
    if s != [] {
      WithoutAll(s[..|s| - 1], dead);
    }
  }

  lemma {:induction false} WithoutTwice(s: seq<ChildSlot>, d: set<Uuid>, e: set<Uuid>)
    ensures Without(Without(s, d), e) == Without(s, d + e)
  {
    if s != [] {
      var t, last := s[..|s| - 1], s[|s| - 1];
      WithoutTwice(t, d, e);
      if last.id !in d {
        var w := Without(t, d) + [last];
        assert w[..|w| - 1] == Without(t, d);
      }
    }
  }

  /** Erasing the one slot that holds `id` is filtering it out. */
  lemma {:induction false} WithoutOne(s: seq<ChildSlot>, id: Uuid, k: nat)
    requires DistinctIds(s) && k < |s| && s[k].id == id
    ensures Without(s, {id}) == s[..k] + s[k + 1..]
  {
    var t, last := s[..|s| - 1], s[|s| - 1];
    if k == |s| - 1 {
      WithoutNothing(t, {id});
      assert s[..k] + s[k + 1..] == t;
    } else {
      WithoutOne(t, id, k);
      assert s[..k] + s[k + 1..] == t[..k] + t[k + 1..] + [last];
    }
  }

  // ---------------------------------------------------------------- invariant

  ghost predicate ChildLinks(m: Nodes) {
    forall p, i :: p in m && 0 <= i < |Kids(m[p].data)| ==>
      && Kids(m[p].data)[i].id in m
      && m[Kids(m[p].data)[i].id].parent == p
  }

  ghost predicate ParentLinks(m: Nodes) {
    forall c :: c in m && m[c].parent != NIL ==>
      m[c].parent in m && HasId(Kids(m[m[c].parent].data), c)
  }

  ghost predicate NoTwins(m: Nodes) {
    forall p :: p in m ==> DistinctIds(Kids(m[p].data))
  }

  /** A Stack's active child is nil exactly when it has no children and is one of
      them otherwise. */
  ghost predicate ActiveValid(d: NodeData) {
    d.StackData? ==>
      if d.children == [] then d.activeChild == NIL else HasId(d.children, d.activeChild)
  }

  ghost predicate StacksActive(m: Nodes) {
    forall p :: p in m ==> ActiveValid(m[p].data)
  }

  ghost predicate ZoomsLive(m: Nodes) {
    forall p :: p in m && m[p].data.StackData? && m[p].data.zoomTarget != NIL ==>
      m[p].data.zoomTarget in m
  }

  /** Ranks strictly grow from child to parent. */
  ghost predicate Ranked(m: Nodes, r: map<Uuid, nat>) {
    && r.Keys == m.Keys
    && forall c :: c in m && m[c].parent in m ==> r[c] < r[m[c].parent]
  }

  /** Every parent chain ends. */
  ghost predicate Acyclic(m: Nodes) {
    exists r: map<Uuid, nat> :: Ranked(m, r)
  }

  ghost predicate Linked(m: Nodes) {
    NIL !in m && ChildLinks(m) && ParentLinks(m) && NoTwins(m)
  }

  /** The forest invariant. */
  ghost predicate Inv(m: Nodes) {
    Linked(m) && StacksActive(m) && ZoomsLive(m) && Acyclic(m)
  }

  /** Some ranking of the forest; a function of the forest. */
  ghost function Rank(m: Nodes): (r: map<Uuid, nat>)
    requires Acyclic(m)
    ensures Ranked(m, r)
  {
    var r: map<Uuid, nat> :| Ranked(m, r);
    r
  }

  /** Nodes ranked above `id`: what is left to visit on the way up. */
  ghost function Above(m: Nodes, id: Uuid): set<Uuid>
    requires Acyclic(m)
  {
    if id in m then set x | x in m && Rank(m)[x] > Rank(m)[id] else {}
  }

  /** Whether the parent chain from `d` meets `a`; reflexive, and false for nil. */
  ghost predicate Contains(m: Nodes, a: Uuid, d: Uuid)
    requires Acyclic(m)
    decreases Above(m, d), if d in m then 1 else 0
  {
    && a != NIL
    && d != NIL
    && (d == a ||
        (d in m &&
         (if m[d].parent in m then
            assert m[d].parent in Above(m, d) && m[d].parent !in Above(m, m[d].parent);
            Contains(m, a, m[d].parent)
          else m[d].parent == a)))
  }
}
