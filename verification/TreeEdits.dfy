/** The structural edits of the layout tree as functions on the node store
    (src/LayoutTree.cpp:28-495), each with a proof that it keeps the forest
    invariant. */
module TreeEdits {
  import opened Arithmetic
  import opened Forest
  import opened Ancestry

  function WithKids(n: Node, kids: seq<ChildSlot>): (r: Node)
    requires IsBranch(n.data)
    ensures IsBranch(r.data) && Kids(r.data) == kids && r.parent == n.parent
  {
    n.(data := n.data.(children := kids))
  }

  function WithActive(n: Node, active: Uuid): Node
    requires n.data.StackData?
  {
    n.(data := n.data.(activeChild := active))
  }

  function WithParent(n: Node, p: Uuid): Node { n.(parent := p) }

  // ---------------------------------------------------------------- invariant, reread

  ghost predicate Lists(m: Nodes, p: Uuid, c: Uuid) {
    p in m && HasId(Kids(m[p].data), c)
  }

  /** Being listed by `p` and naming `p` as parent are the same thing. */
  ghost predicate Members(m: Nodes) {
    && (forall p, c {:trigger Lists(m, p, c)} :: p in m ==> (Lists(m, p, c) <==> c in m && m[c].parent == p))
    && (forall c :: c in m ==> m[c].parent == NIL || m[c].parent in m)
  }

  lemma LinkedMembers(m: Nodes)
    requires Linked(m)
    ensures Members(m)
  {
  }

  lemma MembersLinked(m: Nodes)
    requires NIL !in m && Members(m) && NoTwins(m)
    ensures Linked(m)
  {
    forall p, i | p in m && 0 <= i < |Kids(m[p].data)|
      ensures Kids(m[p].data)[i].id in m && m[Kids(m[p].data)[i].id].parent == p
    {
      assert Lists(m, p, Kids(m[p].data)[i].id);
    }
    forall c | c in m && m[c].parent != NIL
      ensures HasId(Kids(m[m[c].parent].data), c)
    {
      assert Lists(m, m[c].parent, c);
    }
  }

  /** Only the node `p` changes its data. */
  ghost predicate LocalEdit(m: Nodes, n: Nodes, p: Uuid) {
    && n.Keys == m.Keys && p in m
    && forall x :: x in m && x != p ==> n[x].data == m[x].data
  }

  /** Parent links move only between `p` and nil, in step with the list of `p`. */
  ghost predicate LinksMove(m: Nodes, n: Nodes, p: Uuid)
    requires LocalEdit(m, n, p)
  {
    && (forall c :: c in m && n[c].parent != m[c].parent ==>
          (m[c].parent == p || m[c].parent == NIL) && (n[c].parent == p || n[c].parent == NIL))
    && (forall c {:trigger Lists(n, p, c)} :: Lists(n, p, c) <==> c in n && n[c].parent == p)
  }

  lemma LocalEditMembers(m: Nodes, n: Nodes, p: Uuid)
    requires NIL !in m && Members(m) && LocalEdit(m, n, p) && LinksMove(m, n, p)
    ensures Members(n)
  {
    forall x, c | x in n ensures Lists(n, x, c) <==> c in n && n[c].parent == x {
      if x != p { assert Lists(m, x, c) <==> Lists(n, x, c); }
    }
  }

  lemma LocalEditRest(m: Nodes, n: Nodes, p: Uuid)
    requires NoTwins(m) && StacksActive(m) && ZoomsLive(m) && LocalEdit(m, n, p)
    requires DistinctIds(Kids(n[p].data)) && ActiveValid(n[p].data)
    requires n[p].data.StackData? && n[p].data.zoomTarget != NIL ==> n[p].data.zoomTarget in m
    ensures NoTwins(n) && StacksActive(n) && ZoomsLive(n)
  {
  }

  /** Keeping the invariant across a change at one node. */
  lemma LocalEditKeepsInv(m: Nodes, n: Nodes, p: Uuid)
    requires Inv(m) && LocalEdit(m, n, p) && LinksMove(m, n, p) && Acyclic(n)
    requires DistinctIds(Kids(n[p].data)) && ActiveValid(n[p].data)
    requires n[p].data.StackData? && n[p].data.zoomTarget != NIL ==> n[p].data.zoomTarget in m
    ensures Inv(n)
  {
    LinkedMembers(m);
    LocalEditMembers(m, n, p);
    LocalEditRest(m, n, p);
    MembersLinked(n);
  }

  /** An edit that detaches nodes or leaves the links alone makes no cycle. */
  lemma FewerLinksAcyclic(m: Nodes, n: Nodes)
    requires Acyclic(m) && NIL !in m && n.Keys <= m.Keys
    requires forall x :: x in n ==> n[x].parent == m[x].parent || n[x].parent == NIL
    ensures Acyclic(n)
  {
    AcyclicByLift(m, n, {});
  }

  /** Hanging a subtree below a node outside it makes no cycle. */
  lemma AttachAcyclic(m: Nodes, n: Nodes, c: Uuid, p: Uuid)
    requires Acyclic(m) && NIL !in m && n.Keys <= m.Keys && c in m && !Contains(m, c, p)
    requires forall x :: x in n && x != c ==> n[x].parent == m[x].parent || n[x].parent == NIL
    requires c in n ==> n[c].parent == p
    requires m[c].parent == NIL
    ensures Acyclic(n)
  {
    var low := Subtree(m, c);
    forall x | x in n && x != c && n[x].parent in n && n[x].parent in low ensures x in low {
      assert Contains(m, c, m[x].parent);
    }
    AcyclicByLift(m, n, low);
  }

  // ---------------------------------------------------------------- create

  function Create(m: Nodes, id: Uuid, d: NodeData): Nodes {
    m[id := Node(NIL, "", d)]
  }

  /** A node as one of the four create functions makes it. */
  predicate Blank(d: NodeData) {
    match d
    case TerminalData => true
    case ContainerData(_, kids) => kids == []
    case StackData(kids, active, zoom) => kids == [] && active == NIL && zoom == NIL
    case TabBarData(s) => s == NIL
  }

  lemma CreateKeepsLinks(m: Nodes, id: Uuid, d: NodeData)
    requires Linked(m) && id != NIL && id !in m && Blank(d)
    ensures Linked(Create(m, id, d))
  {
    LinkedMembers(m);
    var n := Create(m, id, d);
    forall p, c | p in n ensures Lists(n, p, c) <==> c in n && n[c].parent == p {
      assert p in m ==> (Lists(m, p, c) <==> Lists(n, p, c));
    }
    MembersLinked(n);
  }

  lemma CreateKeepsInv(m: Nodes, id: Uuid, d: NodeData)
    requires Inv(m) && id != NIL && id !in m && Blank(d)
    ensures Inv(Create(m, id, d))
  {
    hide Linked;
    CreateKeepsLinks(m, id, d);
    CreateRanked(m, id, d);
  }

  lemma CreateRanked(m: Nodes, id: Uuid, d: NodeData)
    requires Acyclic(m) && Linked(m) && id != NIL && id !in m
    ensures Acyclic(Create(m, id, d))
  {
    assert Ranked(Create(m, id, d), Rank(m)[id := 0]);
  }

  // ---------------------------------------------------------------- append

  predicate CanAppend(m: Nodes, parent: Uuid, slot: ChildSlot) {
    && parent in m && IsBranch(m[parent].data)
    && slot.id in m && m[slot.id].parent == NIL
  }

  function Adopt(n: Node, slot: ChildSlot): Node
    requires IsBranch(n.data)
  {
    var k := WithKids(n, Kids(n.data) + [slot]);
    if k.data.StackData? && k.data.activeChild == NIL then WithActive(k, slot.id) else k
  }

  function Append(m: Nodes, parent: Uuid, slot: ChildSlot): Nodes
    requires CanAppend(m, parent, slot)
  {
    var attached := m[slot.id := WithParent(m[slot.id], parent)];
    attached[parent := Adopt(attached[parent], slot)]
  }

  lemma AppendMoves(m: Nodes, parent: Uuid, slot: ChildSlot)
    requires NIL !in m && Members(m) && CanAppend(m, parent, slot) && slot.id != parent
    ensures LocalEdit(m, Append(m, parent, slot), parent) && LinksMove(m, Append(m, parent, slot), parent)
    ensures Kids(Append(m, parent, slot)[parent].data) == Kids(m[parent].data) + [slot]
  {
    var n := Append(m, parent, slot);
    forall c ensures Lists(n, parent, c) <==> c in n && n[c].parent == parent {
      AppendedMembers(Kids(m[parent].data), slot, c);
      assert Lists(m, parent, c) <==> HasId(Kids(m[parent].data), c);
    }
  }

  lemma AppendKeepsInv(m: Nodes, parent: Uuid, slot: ChildSlot)
    requires Inv(m) && CanAppend(m, parent, slot) && !Contains(m, slot.id, parent)
    ensures Inv(Append(m, parent, slot))
  {
    hide ChildLinks, ParentLinks, LinksMove, Acyclic;
    var n := Append(m, parent, slot);
    LinkedMembers(m);
    AppendMoves(m, parent, slot);
    AttachAcyclic(m, n, slot.id, parent);
    assert !Lists(m, parent, slot.id);
    AppendActive(m[parent], slot);
    LocalEditKeepsInv(m, n, parent);
  }

  lemma AppendActive(n: Node, slot: ChildSlot)
    requires IsBranch(n.data) && ActiveValid(n.data) && DistinctIds(Kids(n.data)) && !HasId(Kids(n.data), slot.id)
    ensures ActiveValid(Adopt(n, slot).data) && DistinctIds(Kids(Adopt(n, slot).data))
  {
    var s := Kids(n.data);
    forall c ensures HasId(s + [slot], c) <==> HasId(s, c) || c == slot.id {
      AppendedMembers(s, slot, c);
    }
  }

  lemma AppendedMembers(s: seq<ChildSlot>, slot: ChildSlot, c: Uuid)
    ensures HasId(s + [slot], c) <==> HasId(s, c) || c == slot.id
  {
    var t := s + [slot];
    if HasId(s, c) {
      var i :| 0 <= i < |s| && s[i].id == c;
      assert t[i].id == c;
    }
    assert t[|s|].id == slot.id;
    if HasId(t, c) && c != slot.id {
      var i :| 0 <= i < |t| && t[i].id == c;
      assert s[i].id == c;
    }
  }

  // ---------------------------------------------------------------- remove

  predicate CanRemove(m: Nodes, parent: Uuid, child: Uuid) {
    parent in m && IsBranch(m[parent].data) && HasId(Kids(m[parent].data), child)
  }

  function FirstId(s: seq<ChildSlot>): Uuid {
    if s == [] then NIL else s[0].id
  }

  /** The parent without one child; a Stack that showed it falls back to its first
      remaining child. */
  ghost function Drop(n: Node, child: Uuid): Node
    requires IsBranch(n.data) && HasId(Kids(n.data), child)
  {
    var i := IndexOf(Kids(n.data), child);
    var rest := Kids(n.data)[..i] + Kids(n.data)[i + 1..];
    var k := WithKids(n, rest);
    if k.data.StackData? && k.data.activeChild == child then WithActive(k, FirstId(rest)) else k
  }

  ghost function Remove(m: Nodes, parent: Uuid, child: Uuid): Nodes
    requires CanRemove(m, parent, child)
  {
    var dropped := m[parent := Drop(m[parent], child)];
    if child in m then dropped[child := WithParent(dropped[child], NIL)] else dropped
  }

  lemma RemovedMembers(s: seq<ChildSlot>, i: nat, c: Uuid)
    requires i < |s| && DistinctIds(s)
    ensures HasId(s[..i] + s[i + 1..], c) <==> HasId(s, c) && c != s[i].id
  {
    WithoutOne(s, s[i].id, i);
    WithoutMembers(s, {s[i].id}, c);
  }

  lemma RemoveMoves(m: Nodes, parent: Uuid, child: Uuid)
    requires NIL !in m && Members(m) && NoTwins(m) && CanRemove(m, parent, child) && child != parent
    ensures child in m && m[child].parent == parent
    ensures LocalEdit(m, Remove(m, parent, child), parent) && LinksMove(m, Remove(m, parent, child), parent)
  {
    assert Lists(m, parent, child);
    RemoveShape(m, parent, child);
    DropKids(m[parent], child);
    TwinFree(m, parent);
    hide Drop, IndexOf, NoTwins, DistinctIds;
    var s, n := Kids(m[parent].data), Remove(m, parent, child);
    hide Remove;
    forall c ensures Lists(n, parent, c) <==> c in n && n[c].parent == parent {
      RemovedMembers(s, IndexOf(s, child), c);
      assert Lists(m, parent, c) <==> HasId(s, c);
    }
  }

  lemma RemoveShape(m: Nodes, parent: Uuid, child: Uuid)
    requires CanRemove(m, parent, child) && child in m && child != parent
    ensures var n := Remove(m, parent, child);
      && n.Keys == m.Keys && n[parent] == Drop(m[parent], child) && n[child] == m[child].(parent := NIL)
      && forall x :: x in m && x != parent && x != child ==> n[x] == m[x]
  {
    hide Drop;
  }

  lemma DropKids(n: Node, child: Uuid)
    requires IsBranch(n.data) && HasId(Kids(n.data), child)
    ensures var s := Kids(n.data); var i := IndexOf(s, child);
      IsBranch(Drop(n, child).data) && Kids(Drop(n, child).data) == s[..i] + s[i + 1..] && Drop(n, child).parent == n.parent
    ensures var d := Drop(n, child).data;
      && d.StackData? == n.data.StackData?
      && (d.StackData? ==> d.zoomTarget == n.data.zoomTarget)
  {
    hide IndexOf;
  }

  lemma DropActive(n: Node, child: Uuid)
    requires n.data.StackData? && HasId(Kids(n.data), child)
    ensures var d := Drop(n, child).data;
      d.StackData? && d.activeChild == if n.data.activeChild == child then FirstId(Kids(d)) else n.data.activeChild
  {
    hide IndexOf;
  }

  lemma DropValid(n: Node, child: Uuid)
    requires IsBranch(n.data) && HasId(Kids(n.data), child) && DistinctIds(Kids(n.data)) && ActiveValid(n.data)
    ensures ActiveValid(Drop(n, child).data) && DistinctIds(Kids(Drop(n, child).data))
  {
    var s := Kids(n.data);
    var i := IndexOf(s, child);
    DropKids(n, child);
    var rest := s[..i] + s[i + 1..];
    hide Drop, IndexOf;
    WithoutOne(s, child, i);
    WithoutKeepsDistinct(s, {child});
    hide DistinctIds, Without;
    if n.data.StackData? {
      DropActive(n, child);
      RemovedMembers(s, i, n.data.activeChild);
      HasFirst(rest);
      BranchKids(n.data);
      BranchKids(Drop(n, child).data);
    }
  }

  lemma HasFirst(s: seq<ChildSlot>)
    ensures s != [] ==> HasId(s, FirstId(s))
  {
    if s != [] { assert s[0].id == FirstId(s); }
  }

  lemma BranchKids(d: NodeData)
    requires IsBranch(d)
    ensures Kids(d) == d.children
  {
  }

  lemma DropZoom(m: Nodes, parent: Uuid, child: Uuid)
    requires ZoomsLive(m) && CanRemove(m, parent, child)
    ensures var d := Drop(m[parent], child).data; d.StackData? && d.zoomTarget != NIL ==> d.zoomTarget in m
    ensures Drop(m[parent], child).parent == m[parent].parent
  {
    DropKids(m[parent], child);
    hide Drop;
  }

  lemma RemoveKeepsInv(m: Nodes, parent: Uuid, child: Uuid)
    requires Inv(m) && CanRemove(m, parent, child)
    ensures Inv(Remove(m, parent, child))
    ensures child in m && Remove(m, parent, child)[child].parent == NIL
  {
    hide ChildLinks, ParentLinks, LinksMove, Acyclic, ZoomsLive;
    var n := Remove(m, parent, child);
    ChildBelow(m, parent, IndexOf(Kids(m[parent].data), child));
    LinkedMembers(m);
    RemoveMoves(m, parent, child);
    DropValid(m[parent], child);
    DropZoom(m, parent, child);
    hide Drop, IndexOf;
    FewerLinksAcyclic(m, n);
    LocalEditKeepsInv(m, n, parent);
  }

  // ---------------------------------------------------------------- replace

  predicate CanReplace(m: Nodes, parent: Uuid, was: Uuid, slot: ChildSlot) {
    && parent in m && IsBranch(m[parent].data) && HasId(Kids(m[parent].data), was)
    && slot.id in m && m[slot.id].parent == NIL
  }

  ghost function Exchange(n: Node, was: Uuid, slot: ChildSlot): Node
    requires IsBranch(n.data) && HasId(Kids(n.data), was)
  {
    var k := WithKids(n, Kids(n.data)[IndexOf(Kids(n.data), was) := slot]);
    if k.data.StackData? && k.data.activeChild == was then WithActive(k, slot.id) else k
  }

  ghost function Replace(m: Nodes, parent: Uuid, was: Uuid, slot: ChildSlot): Nodes
    requires CanReplace(m, parent, was, slot)
  {
    var detached := if was in m then m[was := WithParent(m[was], NIL)] else m;
    var listed := detached[parent := Exchange(detached[parent], was, slot)];
    listed[slot.id := WithParent(listed[slot.id], parent)]
  }

  lemma ReplacedMembers(s: seq<ChildSlot>, i: nat, slot: ChildSlot, c: Uuid)
    requires i < |s| && DistinctIds(s) && !HasId(s, slot.id)
    ensures HasId(s[i := slot], c) <==> c == slot.id || (HasId(s, c) && c != s[i].id)
  {
    var t := s[i := slot];
    if HasId(t, c) && c != slot.id {
      var k :| 0 <= k < |t| && t[k].id == c;
      assert s[k].id == c;
    }
    if HasId(s, c) && c != s[i].id {
      var k :| 0 <= k < |s| && s[k].id == c;
      assert t[k].id == c;
    }
    assert t[i].id == slot.id;
  }

  lemma ExchangeKids(n: Node, was: Uuid, slot: ChildSlot)
    requires IsBranch(n.data) && HasId(Kids(n.data), was)
    ensures var s, e := Kids(n.data), Exchange(n, was, slot);
      IsBranch(e.data) && Kids(e.data) == s[IndexOf(s, was) := slot] && e.parent == n.parent
    ensures var d := Exchange(n, was, slot).data;
      d.StackData? == n.data.StackData? && (d.StackData? ==> d.zoomTarget == n.data.zoomTarget)
  {
    hide IndexOf;
  }

  lemma ReplaceShape(m: Nodes, parent: Uuid, was: Uuid, slot: ChildSlot)
    requires CanReplace(m, parent, was, slot) && was in m && was != parent && slot.id != parent && slot.id != was
    ensures var n := Replace(m, parent, was, slot);
      && n.Keys == m.Keys && n[parent] == Exchange(m[parent], was, slot)
      && n[was] == m[was].(parent := NIL) && n[slot.id] == m[slot.id].(parent := parent)
      && forall x :: x in m && x != parent && x != was && x != slot.id ==> n[x] == m[x]
  {
    hide Exchange;
  }

  lemma ReplaceMoves(m: Nodes, parent: Uuid, was: Uuid, slot: ChildSlot)
    requires NIL !in m && Members(m) && NoTwins(m) && CanReplace(m, parent, was, slot)
    requires was != parent && slot.id != parent
    ensures was in m && m[was].parent == parent && slot.id != was
    ensures LocalEdit(m, Replace(m, parent, was, slot), parent) && LinksMove(m, Replace(m, parent, was, slot), parent)
  {
    var n := Replace(m, parent, was, slot);
    var s := Kids(m[parent].data);
    assert Lists(m, parent, was) && !Lists(m, parent, slot.id);
    ReplaceShape(m, parent, was, slot);
    ExchangeKids(m[parent], was, slot);
    TwinFree(m, parent);
    hide Exchange, IndexOf, NoTwins, DistinctIds, Replace;
    forall c ensures Lists(n, parent, c) <==> c in n && n[c].parent == parent {
      ReplacedMembers(s, IndexOf(s, was), slot, c);
      assert Lists(m, parent, c) <==> HasId(s, c);
    }
  }

  lemma ExchangeValid(n: Node, was: Uuid, slot: ChildSlot)
    requires IsBranch(n.data) && HasId(Kids(n.data), was) && DistinctIds(Kids(n.data)) && ActiveValid(n.data)
    requires !HasId(Kids(n.data), slot.id)
    ensures ActiveValid(Exchange(n, was, slot).data) && DistinctIds(Kids(Exchange(n, was, slot).data))
  {
    var s := Kids(n.data);
    var i := IndexOf(s, was);
    forall k | 0 <= k < |s| ensures s[k].id != slot.id {
      assert HasId(s, s[k].id);
    }
    if n.data.StackData? {
      ReplacedMembers(s, i, slot, n.data.activeChild);
      ReplacedMembers(s, i, slot, slot.id);
    }
  }

  lemma ReplaceKeepsInv(m: Nodes, parent: Uuid, was: Uuid, slot: ChildSlot)
    requires Inv(m) && CanReplace(m, parent, was, slot) && !Contains(m, slot.id, parent)
    ensures Inv(Replace(m, parent, was, slot))
  {
    hide ChildLinks, ParentLinks, LinksMove, Acyclic;
    var n := Replace(m, parent, was, slot);
    ChildBelow(m, parent, IndexOf(Kids(m[parent].data), was));
    LinkedMembers(m);
    ReplaceMoves(m, parent, was, slot);
    assert !Lists(m, parent, slot.id);
    ExchangeValid(m[parent], was, slot);
    ExchangeKids(m[parent], was, slot);
    hide Exchange, IndexOf, Contains;
    AttachAcyclic(m, n, slot.id, parent);
    LocalEditKeepsInv(m, n, parent);
  }

  // ---------------------------------------------------------------- reorder and resize

  /** The slots hold the same ids in both lists, each once. */
  ghost predicate SameIds(s: seq<ChildSlot>, t: seq<ChildSlot>) {
    && |s| == |t|
    && DistinctIds(t)
    && forall c :: HasId(s, c) <==> HasId(t, c)
  }

  function SetKids(m: Nodes, parent: Uuid, kids: seq<ChildSlot>): Nodes
    requires parent in m && IsBranch(m[parent].data)
  {
    m[parent := WithKids(m[parent], kids)]
  }

  lemma SetKidsKeepsInv(m: Nodes, parent: Uuid, kids: seq<ChildSlot>)
    requires Inv(m) && parent in m && IsBranch(m[parent].data)
    requires SameIds(Kids(m[parent].data), kids)
    ensures Inv(SetKids(m, parent, kids))
  {
    var n := SetKids(m, parent, kids);
    assert Kids(n[parent].data) == kids;
    LinkedMembers(m);
    FewerLinksAcyclic(m, n);
    LocalEditKeepsInv(m, n, parent);
  }

  /** Element `i` taken out and put back so that it ends at position `j`. */
  function Relocated(s: seq<ChildSlot>, i: nat, j: nat): (r: seq<ChildSlot>)
    requires i < |s| && j < |s|
    ensures |r| == |s|
  {
    var rest := s[..i] + s[i + 1..];
    rest[..j] + [s[i]] + rest[j..]
  }

  lemma RelocatedSameIds(s: seq<ChildSlot>, i: nat, j: nat)
    requires i < |s| && j < |s| && DistinctIds(s)
    ensures SameIds(s, Relocated(s, i, j))
  {
    var rest := s[..i] + s[i + 1..];
    WithoutOne(s, s[i].id, i);
    WithoutKeepsDistinct(s, {s[i].id});
    hide DistinctIds, HasId;
    forall c ensures HasId(s, c) <==> HasId(Relocated(s, i, j), c) {
      RemovedMembers(s, i, c);
      InsertedMembers(rest, j, s[i], c);
    }
    RemovedMembers(s, i, s[i].id);
    InsertedDistinct(rest, j, s[i]);
  }

  lemma InsertedMembers(s: seq<ChildSlot>, j: nat, slot: ChildSlot, c: Uuid)
    requires j <= |s|
    ensures HasId(s[..j] + [slot] + s[j..], c) <==> HasId(s, c) || c == slot.id
  {
    var t := s[..j] + [slot] + s[j..];
    if HasId(s, c) {
      var k :| 0 <= k < |s| && s[k].id == c;
      assert t[if k < j then k else k + 1].id == c;
    }
    assert t[j].id == slot.id;
    if HasId(t, c) && c != slot.id {
      var k :| 0 <= k < |t| && t[k].id == c;
      assert s[if k < j then k else k - 1].id == c;
    }
  }

  lemma InsertedDistinct(s: seq<ChildSlot>, j: nat, slot: ChildSlot)
    requires j <= |s| && DistinctIds(s) && !HasId(s, slot.id)
    ensures DistinctIds(s[..j] + [slot] + s[j..])
  {
    forall k | 0 <= k < |s| ensures s[k].id != slot.id { assert HasId(s, s[k].id); }
    hide HasId;
    var t := s[..j] + [slot] + s[j..];
    assert forall k :: 0 <= k < |t| ==> t[k] == if k < j then s[k] else if k == j then slot else s[k - 1];
  }

  /** Element `i` moves to position `(i + delta) mod n`. */
  function Rotated<T>(s: seq<T>, delta: int): (r: seq<T>)
    ensures |r| == |s|
  {
    if s == [] then []
    else
      var shift := delta % |s|;
      s[|s| - shift..] + s[..|s| - shift]
  }

  lemma RotatedAt<T>(s: seq<T>, delta: int, i: nat)
    requires i < |s|
    ensures Rotated(s, delta)[(i + delta) % |s|] == s[i]
  {
    var n := |s|;
    var q, shift := delta / n, delta % n;
    if i + shift < n {
      QuotientUnique(i + delta, q, i + shift, n);
    } else {
      assert (q + 1) * n == q * n + n;
      QuotientUnique(i + delta, q + 1, i + shift - n, n);
    }
  }

  lemma RotatedSameIds(s: seq<ChildSlot>, delta: int)
    requires DistinctIds(s)
    ensures SameIds(s, Rotated(s, delta))
  {
    if s != [] {
      var t := Rotated(s, delta);
      var cut := |s| - delta % |s|;
      forall c ensures HasId(s, c) <==> HasId(t, c) {
        if HasId(s, c) {
          var k :| 0 <= k < |s| && s[k].id == c;
          assert t[if k < cut then k + |s| - cut else k - cut].id == c;
        }
        if HasId(t, c) {
          var k :| 0 <= k < |t| && t[k].id == c;
          assert s[if k < |s| - cut then k + cut else k - (|s| - cut)].id == c;
        }
      }
    }
  }

  // ---------------------------------------------------------------- data fields

  lemma TweakMoves(m: Nodes, id: Uuid, node: Node)
    requires Members(m) && id in m && node.parent == m[id].parent && Kids(node.data) == Kids(m[id].data)
    ensures LocalEdit(m, m[id := node], id) && LinksMove(m, m[id := node], id)
  {
    var n := m[id := node];
    forall c ensures Lists(n, id, c) <==> c in n && n[c].parent == id {
      assert Lists(n, id, c) <==> Lists(m, id, c);
    }
  }

  lemma TwinFree(m: Nodes, id: Uuid)
    requires NoTwins(m) && id in m
    ensures DistinctIds(Kids(m[id].data))
  {
  }

  /** A change inside a node that leaves its links alone. */
  lemma TweakKeepsInv(m: Nodes, id: Uuid, node: Node)
    requires Inv(m) && id in m && node.parent == m[id].parent
    requires Kids(node.data) == Kids(m[id].data)
    requires ActiveValid(node.data)
    requires node.data.StackData? && node.data.zoomTarget != NIL ==> node.data.zoomTarget in m
    ensures Inv(m[id := node])
  {
    hide ChildLinks, ParentLinks, LinksMove, Acyclic, NoTwins, StacksActive;
    LinkedMembers(m);
    TweakMoves(m, id, node);
    TwinFree(m, id);
    hide Members, ZoomsLive;
    FewerLinksAcyclic(m, m[id := node]);
    LocalEditKeepsInv(m, m[id := node], id);
  }

  // ---------------------------------------------------------------- swap

  ghost predicate CanSwap(m: Nodes, a: Uuid, b: Uuid)
    requires Acyclic(m)
  {
    && a != NIL && b != NIL && a != b && a in m && b in m
    && m[a].parent != NIL && m[b].parent != NIL
    && !Contains(m, a, b) && !Contains(m, b, a)
    && CanRemove(m, m[a].parent, a) && CanRemove(m, m[b].parent, b)
  }

  function Other(a: Uuid, b: Uuid, x: Uuid): Uuid {
    if x == a then b else if x == b then a else x
  }

  function Renamed(s: seq<ChildSlot>, a: Uuid, b: Uuid): (r: seq<ChildSlot>)
    ensures |r| == |s|
    ensures forall i :: 0 <= i < |s| ==> r[i] == s[i].(id := Other(a, b, s[i].id))
  {
    seq(|s|, i requires 0 <= i < |s| => s[i].(id := Other(a, b, s[i].id)))
  }

  function SwapNode(n: Node, parent: Uuid, a: Uuid, b: Uuid, retarget: bool): (r: Node)
    ensures r.parent == parent && Kids(r.data) == Renamed(Kids(n.data), a, b)
  {
    match n.data
    case ContainerData(dir, kids) => n.(parent := parent, data := ContainerData(dir, Renamed(kids, a, b)))
    case StackData(kids, active, zoom) =>
      n.(parent := parent, data := StackData(Renamed(kids, a, b), if retarget then Other(a, b, active) else active, zoom))
    case _ => n.(parent := parent)
  }

  /** Slots keep their weights; only the ids standing in them are exchanged.  A Stack
      that loses one of the two and gains the other retargets its active child. */
  function Swapped(m: Nodes, a: Uuid, b: Uuid): (r: Nodes)
    requires a in m && b in m
    ensures r.Keys == m.Keys
  {
    map x | x in m :: SwapNode(m[x], m[Other(a, b, x)].parent, a, b, m[a].parent != m[b].parent)
  }

  lemma RenamedMembers(s: seq<ChildSlot>, a: Uuid, b: Uuid, c: Uuid)
    ensures HasId(Renamed(s, a, b), Other(a, b, c)) <==> HasId(s, c)
  {
    var r := Renamed(s, a, b);
    if HasId(s, c) {
      var k :| 0 <= k < |s| && s[k].id == c;
      assert r[k].id == Other(a, b, c);
    }
    if HasId(r, Other(a, b, c)) {
      var k :| 0 <= k < |r| && r[k].id == Other(a, b, c);
      assert s[k].id == c;
    }
  }

  lemma SwapMembers(m: Nodes, a: Uuid, b: Uuid)
    requires Members(m) && a in m && b in m
    ensures Members(Swapped(m, a, b))
  {
    var n := Swapped(m, a, b);
    forall p, c | p in n ensures Lists(n, p, c) <==> c in n && n[c].parent == p {
      assert Kids(n[p].data) == Renamed(Kids(m[p].data), a, b);
      RenamedMembers(Kids(m[p].data), a, b, Other(a, b, c));
      assert Lists(m, p, Other(a, b, c)) <==> Lists(n, p, c);
    }
    forall c | c in n ensures n[c].parent == NIL || n[c].parent in n {
      assert n[c].parent == m[Other(a, b, c)].parent;
    }
  }

  /** A Stack keeps a valid active child: it follows the rename, and when the two
      nodes are its own children it still lists them both. */
  lemma SwapActive(d: NodeData, a: Uuid, b: Uuid, retarget: bool)
    requires d.StackData? && ActiveValid(d) && a != NIL && b != NIL
    requires !retarget ==> (HasId(d.children, a) <==> HasId(d.children, b))
    ensures ActiveValid(StackData(Renamed(d.children, a, b), if retarget then Other(a, b, d.activeChild) else d.activeChild, d.zoomTarget))
  {
    if d.children != [] {
      RenamedMembers(d.children, a, b, d.activeChild);
      RenamedMembers(d.children, a, b, Other(a, b, d.activeChild));
    }
  }

  lemma RenamedDistinct(s: seq<ChildSlot>, a: Uuid, b: Uuid)
    requires DistinctIds(s)
    ensures DistinctIds(Renamed(s, a, b))
  {
  }

  lemma SwapAcyclic(m: Nodes, a: Uuid, b: Uuid)
    requires Acyclic(m) && Linked(m) && CanSwap(m, a, b)
    ensures Acyclic(Swapped(m, a, b))
  {
    var low := Subtree(m, a) + Subtree(m, b);
    NotBelowOwnParent(m, a);
    NotBelowOwnParent(m, b);
    ContainsChild(m, a, b);
    ContainsChild(m, b, a);
    forall x | x in m && m[x].parent in low ensures x in low {
      ContainsChild(m, a, x);
      ContainsChild(m, b, x);
    }
    SwapLifts(m, a, b, low);
  }

  lemma ContainsChild(m: Nodes, a: Uuid, x: Uuid)
    requires Acyclic(m) && NIL !in m && x in m && m[x].parent in m
    ensures Contains(m, a, m[x].parent) ==> Contains(m, a, x)
  {
  }

  lemma SwapLifts(m: Nodes, a: Uuid, b: Uuid, low: set<Uuid>)
    requires Acyclic(m) && a in m && b in m && a in low && b in low
    requires m[a].parent !in low && m[b].parent !in low
    requires forall x :: x in m && m[x].parent in low ==> x in low
    ensures Acyclic(Swapped(m, a, b))
  {
    var n := Swapped(m, a, b);
    forall x | x in n && n[x].parent in n
      ensures (n[x].parent == m[x].parent && (n[x].parent in low ==> x in low)) || (x in low && n[x].parent !in low)
    {
      assert n[x].parent == m[Other(a, b, x)].parent;
    }
    AcyclicByLift(m, n, low);
  }

  lemma NotBelowOwnParent(m: Nodes, a: Uuid)
    requires Acyclic(m) && Linked(m) && a in m && m[a].parent != NIL
    ensures !Contains(m, a, m[a].parent)
  {
    if Contains(m, a, m[a].parent) { ContainsInForest(m, a, m[a].parent); }
  }

  lemma SwapNodesValid(m: Nodes, a: Uuid, b: Uuid, x: Uuid)
    requires Members(m) && NoTwins(m) && StacksActive(m) && a in m && b in m && x in m && a != NIL && b != NIL
    ensures DistinctIds(Kids(Swapped(m, a, b)[x].data)) && ActiveValid(Swapped(m, a, b)[x].data)
  {
    RenamedDistinct(Kids(m[x].data), a, b);
    if m[x].data.StackData? {
      assert Lists(m, x, a) <==> m[a].parent == x;
      assert Lists(m, x, b) <==> m[b].parent == x;
      SwapActive(m[x].data, a, b, m[a].parent != m[b].parent);
    }
  }

  lemma SwapRest(m: Nodes, a: Uuid, b: Uuid)
    requires Members(m) && NoTwins(m) && StacksActive(m) && ZoomsLive(m)
    requires a in m && b in m && a != NIL && b != NIL
    ensures NoTwins(Swapped(m, a, b)) && StacksActive(Swapped(m, a, b)) && ZoomsLive(Swapped(m, a, b))
  {
    var n := Swapped(m, a, b);
    forall x | x in n ensures DistinctIds(Kids(n[x].data)) && ActiveValid(n[x].data) {
      SwapNodesValid(m, a, b, x);
    }
  }

  lemma SwapKeepsInv(m: Nodes, a: Uuid, b: Uuid)
    requires Inv(m) && CanSwap(m, a, b)
    ensures Inv(Swapped(m, a, b))
  {
    LinkedMembers(m);
    SwapMembers(m, a, b);
    SwapRest(m, a, b);
    SwapAcyclic(m, a, b);
    MembersLinked(Swapped(m, a, b));
  }

  // ---------------------------------------------------------------- destroy

  /** A set of nodes that contains the children of its members. */
  ghost predicate DownClosed(m: Nodes, dead: set<Uuid>) {
    forall x :: x in m && m[x].parent in dead ==> x in dead
  }

  /** What is left of a surviving node when `dead` goes. */
  function Survivor(n: Node, dead: set<Uuid>): (r: Node)
    ensures Kids(r.data) == Without(Kids(n.data), dead)
  {
    match n.data
    case ContainerData(dir, kids) => n.(data := ContainerData(dir, Without(kids, dead)))
    case StackData(kids, active, zoom) =>
      var rest := Without(kids, dead);
      n.(data := StackData(rest, if active in dead then FirstId(rest) else active, if zoom in dead then NIL else zoom))
    case _ => n
  }

  function Prune(m: Nodes, dead: set<Uuid>): (r: Nodes)
    ensures r.Keys == m.Keys - dead
  {
    map x | x in m && x !in dead :: Survivor(m[x], dead)
  }

  lemma PruneMembers(m: Nodes, dead: set<Uuid>)
    requires Members(m) && DownClosed(m, dead)
    ensures Members(Prune(m, dead))
  {
    var n := Prune(m, dead);
    forall p, c | p in n ensures Lists(n, p, c) <==> c in n && n[c].parent == p {
      WithoutMembers(Kids(m[p].data), dead, c);
      assert Lists(m, p, c) <==> HasId(Kids(m[p].data), c);
    }
  }

  lemma PruneActive(d: NodeData, dead: set<Uuid>)
    requires d.StackData? && ActiveValid(d) && NIL !in dead
    ensures ActiveValid(Survivor(Node(NIL, "", d), dead).data)
  {
    var rest := Without(d.children, dead);
    if d.children != [] {
      WithoutMembers(d.children, dead, d.activeChild);
    }
    if rest != [] {
      assert HasId(rest, rest[0].id);
    }
  }

  lemma PruneKeepsInv(m: Nodes, dead: set<Uuid>)
    requires Inv(m) && DownClosed(m, dead) && NIL !in dead
    ensures Inv(Prune(m, dead))
  {
    hide ChildLinks, ParentLinks, Acyclic, ZoomsLive;
    var n := Prune(m, dead);
    LinkedMembers(m);
    PruneMembers(m, dead);
    forall x | x in n ensures DistinctIds(Kids(n[x].data)) && ActiveValid(n[x].data) {
      WithoutKeepsDistinct(Kids(m[x].data), dead);
      if m[x].data.StackData? { PruneActive(m[x].data, dead); }
    }
    PruneZooms(m, dead);
    FewerLinksAcyclic(m, n);
    MembersLinked(n);
  }

  lemma PruneZooms(m: Nodes, dead: set<Uuid>)
    requires ZoomsLive(m)
    ensures ZoomsLive(Prune(m, dead))
  {
  }

  /** Pruning in two rounds is pruning the union. */
  lemma PruneTwice(m: Nodes, d: set<Uuid>, e: set<Uuid>)
    requires NIL !in d && NIL !in e
    ensures Prune(Prune(m, d), e) == Prune(m, d + e)
  {
    forall x | x in m && x !in d && x !in e
      ensures Survivor(Survivor(m[x], d), e) == Survivor(m[x], d + e)
    {
      WithoutTwice(Kids(m[x].data), d, e);
      if m[x].data.StackData? {
        FirstAfterTwo(m[x].data.children, d, e);
        assert Kids(m[x].data) == m[x].data.children;
      }
    }
  }

  lemma {:induction false} FirstSurvives(s: seq<ChildSlot>, e: set<Uuid>)
    requires s != [] && s[0].id !in e
    ensures Without(s, e) != [] && Without(s, e)[0] == s[0]
  {
    if |s| > 1 { FirstSurvives(s[..|s| - 1], e); }
  }

  lemma FirstAfterTwo(s: seq<ChildSlot>, d: set<Uuid>, e: set<Uuid>)
    ensures FirstId(Without(s, d)) !in e ==> FirstId(Without(s, d + e)) == FirstId(Without(s, d))
  {
    WithoutTwice(s, d, e);
    var w := Without(s, d);
    if w != [] && w[0].id !in e { FirstSurvives(w, e); }
  }
}
