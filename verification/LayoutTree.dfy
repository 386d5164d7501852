/** The layout tree itself: the mutable object of src/LayoutTree.h, whose methods
    change the node store in place.  Each method is tied to the operation of the same
    name in TreeRuns, or to the function it computes. */
module LayoutTrees {
  import opened Forest
  import opened Ancestry
  import opened SpaceDivision
  import opened TreeEdits
  import opened TreeReshape
  import opened Preconditions
  import opened Layout
  import opened LeafSwap
  import opened EdgeResize
  import opened TreeRuns
  import opened DestroyFacts
  import opened MethodFacts
  import opened TreeWalks

  class LayoutTree {
    var nodes: Nodes
    var root: Uuid
    var dirty: bool
    var revision: nat

    ghost function St(): State
      reads this
    {
      State(nodes, root, dirty, revision)
    }

    constructor ()
      ensures St() == State(map[], NIL, true, 1) && StateInv(St())
    {
      nodes, root, dirty, revision := map[], NIL, true, 1;
      new;
      var r: map<Uuid, nat> := map[];
      assert Ranked(nodes, r);
    }

    method MarkDirty()
      modifies this`dirty, this`revision
      ensures dirty && revision == old(revision) + 1
    {
      dirty := true;
      revision := revision + 1;
    }

    /** Write back a changed child list and note the change. */
    method StoreChildren(parent: Uuid, kids: seq<ChildSlot>)
      requires parent in nodes && IsBranch(nodes[parent].data)
      modifies this`nodes, this`dirty, this`revision
      ensures nodes == SetKids(old(nodes), parent, kids) && dirty && revision == old(revision) + 1
    {
      nodes := nodes[parent := WithKids(nodes[parent], kids)];
      MarkDirty();
    }

    method TakeDirty() returns (d: bool)
      requires StateInv(St())
      modifies this`dirty
      ensures d == old(dirty) && Step(old(St()), Op.TakeDirty, St())
    {
      d := dirty;
      dirty := false;
    }

    method CreateNode(id: Uuid, d: NodeData)
      requires StateInv(St()) && Safe(nodes, Op.CreateNode(id, d))
      modifies this`nodes
      ensures Step(old(St()), Op.CreateNode(id, d), St()) && StateInv(St())
    {
      nodes := nodes[id := Node(NIL, "", d)];
      StepKeepsInv(old(St()), Op.CreateNode(id, d), St());
    }

    method SetRoot(id: Uuid) returns (ok: bool)
      requires StateInv(St())
      modifies this`root, this`dirty, this`revision
      ensures Step(old(St()), Op.SetRoot(id), St()) && StateInv(St())
      ensures ok == old(Accepts(nodes, Op.SetRoot(id)))
      ensures !ok ==> St() == old(St())
    {
      if id !in nodes { return false; }
      if nodes[id].parent != NIL { return false; }
      root := id;
      MarkDirty();
      ok := true;
    }

    method Contains(ancestor: Uuid, descendant: Uuid) returns (found: bool)
      requires Inv(nodes)
      ensures found == Forest.Contains(nodes, ancestor, descendant)
    {
      if ancestor == NIL || descendant == NIL { return false; }
      var cur := descendant;
      while cur != NIL
        invariant Forest.Contains(nodes, ancestor, descendant) == Forest.Contains(nodes, ancestor, cur)
        decreases Above(nodes, cur), if cur in nodes then 1 else 0
      {
        if cur == ancestor { return true; }
        if cur !in nodes { return false; }
        assert nodes[cur].parent in nodes ==> nodes[cur].parent in Above(nodes, cur) && nodes[cur].parent !in Above(nodes, nodes[cur].parent);
        cur := nodes[cur].parent;
      }
      return false;
    }

    /** Whatever the store looks like the child is appended or nothing happens; from a safe
        state that is the step of the same name. */
    method AppendChild(parent: Uuid, slot: ChildSlot) returns (ok: bool)
      modifies this`nodes, this`dirty, this`revision
      ensures ok == old(CanAppend(nodes, parent, slot))
      ensures nodes == TryAppend(old(nodes), parent, slot)
      ensures if ok then dirty && revision > old(revision) else St() == old(St())
      ensures old(StateInv(St()) && Safe(nodes, Op.AppendChild(parent, slot))) ==>
        Step(old(St()), Op.AppendChild(parent, slot), St()) && StateInv(St())
    {
      hide ChildLinks, ParentLinks, NoTwins, StacksActive, ZoomsLive, Acyclic;
      ok := Attach(parent, slot);
      if old(StateInv(St()) && Safe(nodes, Op.AppendChild(parent, slot))) {
        StepKeepsInv(old(St()), Op.AppendChild(parent, slot), St());
      }
    }

    /** What appending a child does to the store, whatever the store looks like. */
    method Attach(parent: Uuid, slot: ChildSlot) returns (ok: bool)
      modifies this`nodes, this`dirty, this`revision
      ensures ok == old(CanAppend(nodes, parent, slot))
      ensures nodes == TryAppend(old(nodes), parent, slot)
      ensures if ok then dirty && revision == old(revision) + 1 else dirty == old(dirty) && revision == old(revision)
    {
      if parent !in nodes || !IsBranch(nodes[parent].data) { return false; }
      if slot.id !in nodes { return false; }
      if nodes[slot.id].parent != NIL { return false; }
      nodes := nodes[slot.id := WithParent(nodes[slot.id], parent)];
      nodes := nodes[parent := WithKids(nodes[parent], nodes[parent].data.children + [slot])];
      RetargetActive(parent, NIL, slot.id);
      MarkDirty();
      ok := true;
    }

    method RemoveChild(parent: Uuid, child: Uuid) returns (ok: bool)
      requires StateInv(St())
      modifies this`nodes, this`dirty, this`revision
      ensures Step(old(St()), Op.RemoveChild(parent, child), St()) && StateInv(St())
      ensures ok == old(CanRemove(nodes, parent, child))
      ensures !ok ==> St() == old(St())
    {
      hide ChildLinks, ParentLinks, NoTwins, StacksActive, ZoomsLive, Acyclic;
      ok := Detach(parent, child);
      StepKeepsInv(old(St()), Op.RemoveChild(parent, child), St());
    }

    /** What removing a child does to the store, whatever the store looks like. */
    method Detach(parent: Uuid, child: Uuid) returns (ok: bool)
      modifies this`nodes, this`dirty, this`revision
      ensures ok == old(CanRemove(nodes, parent, child))
      ensures nodes == if ok then Remove(old(nodes), parent, child) else old(nodes)
      ensures if ok then dirty && revision == old(revision) + 1 else dirty == old(dirty) && revision == old(revision)
    {
      if parent !in nodes || !IsBranch(nodes[parent].data) { return false; }
      var kids := nodes[parent].data.children;
      var i := FindSlot(kids, child);
      if i == |kids| { return false; }
      hide IndexOf;
      kids := kids[..i] + kids[i + 1..];
      nodes := nodes[parent := WithKids(nodes[parent], kids)];
      if child in nodes { nodes := nodes[child := WithParent(nodes[child], NIL)]; }
      RetargetActive(parent, child, if kids == [] then NIL else kids[0].id);
      MarkDirty();
      ok := true;
    }

    /** Whatever the store looks like the child is replaced or nothing happens; from a safe
        state that is the step of the same name. */
    method ReplaceChild(parent: Uuid, oldChild: Uuid, newSlot: ChildSlot) returns (ok: bool)
      modifies this`nodes, this`dirty, this`revision
      ensures ok == old(CanReplace(nodes, parent, oldChild, newSlot))
      ensures nodes == if ok then Replace(old(nodes), parent, oldChild, newSlot) else old(nodes)
      ensures if ok then dirty && revision > old(revision) else St() == old(St())
      ensures old(StateInv(St()) && Safe(nodes, Op.ReplaceChild(parent, oldChild, newSlot))) ==>
        Step(old(St()), Op.ReplaceChild(parent, oldChild, newSlot), St()) && StateInv(St())
    {
      hide ChildLinks, ParentLinks, NoTwins, StacksActive, ZoomsLive, Acyclic;
      ok := PutInstead(parent, oldChild, newSlot);
      if old(StateInv(St()) && Safe(nodes, Op.ReplaceChild(parent, oldChild, newSlot))) {
        StepKeepsInv(old(St()), Op.ReplaceChild(parent, oldChild, newSlot), St());
      }
    }

    /** What replacing a child does to the store, whatever the store looks like. */
    method PutInstead(parent: Uuid, oldChild: Uuid, newSlot: ChildSlot) returns (ok: bool)
      modifies this`nodes, this`dirty, this`revision
      ensures ok == old(CanReplace(nodes, parent, oldChild, newSlot))
      ensures nodes == if ok then Replace(old(nodes), parent, oldChild, newSlot) else old(nodes)
      ensures if ok then dirty && revision == old(revision) + 1 else dirty == old(dirty) && revision == old(revision)
    {
      if parent !in nodes || !IsBranch(nodes[parent].data) { return false; }
      var kids := nodes[parent].data.children;
      var i := FindSlot(kids, oldChild);
      if i == |kids| { return false; }
      if newSlot.id !in nodes { return false; }
      if nodes[newSlot.id].parent != NIL { return false; }
      if oldChild in nodes { nodes := nodes[oldChild := WithParent(nodes[oldChild], NIL)]; }
      nodes := nodes[parent := WithKids(nodes[parent], kids[i := newSlot])];
      nodes := nodes[newSlot.id := WithParent(nodes[newSlot.id], parent)];
      RetargetActive(parent, oldChild, newSlot.id);
      MarkDirty();
      ok := true;
    }

    method MoveChild(parent: Uuid, child: Uuid, delta: int) returns (ok: bool)
      requires StateInv(St())
      modifies this`nodes, this`dirty, this`revision
      ensures Step(old(St()), Op.MoveChild(parent, child, delta), St()) && StateInv(St())
      ensures ok == old(Accepts(nodes, Op.MoveChild(parent, child, delta)))
      ensures !ok ==> St() == old(St())
    {
      hide ChildLinks, ParentLinks, NoTwins, StacksActive, ZoomsLive, Acyclic, Accepts, After, Relocated;
      MoveStep(nodes, parent, child, delta);
      if delta == 0 { return false; }
      if parent !in nodes || !IsBranch(nodes[parent].data) { return false; }
      var kids := nodes[parent].data.children;
      var idx := FindSlot(kids, child);
      if idx == |kids| { return false; }
      var target := idx + delta;
      if target < 0 || target >= |kids| { return false; }
      kids := Shifted(kids, idx, target);
      StoreChildren(parent, kids);
      StepKeepsInv(old(St()), Op.MoveChild(parent, child, delta), St());
      ok := true;
    }

    method RotateChildren(parent: Uuid, delta: int) returns (ok: bool)
      requires StateInv(St())
      modifies this`nodes, this`dirty, this`revision
      ensures Step(old(St()), Op.RotateChildren(parent, delta), St()) && StateInv(St())
      ensures ok == old(Accepts(nodes, Op.RotateChildren(parent, delta)))
      ensures !ok ==> St() == old(St())
    {
      hide ChildLinks, ParentLinks, NoTwins, StacksActive, ZoomsLive, Acyclic;
      if delta == 0 { return false; }
      if parent !in nodes || !IsBranch(nodes[parent].data) { return false; }
      var kids := nodes[parent].data.children;
      var n := |kids|;
      if n < 2 { return false; }
      var shift := Truncated(Truncated(delta, n) + n, n);
      NormalizedShift(delta, n);
      if shift == 0 { return false; }
      RotateRangeRotates(kids, delta);
      kids := RotateRange(kids, 0, n - shift, n);
      StoreChildren(parent, kids);
      StepKeepsInv(old(St()), Op.RotateChildren(parent, delta), St());
      ok := true;
    }

    method SetActiveChild(stack: Uuid, child: Uuid) returns (ok: bool)
      requires StateInv(St())
      modifies this`nodes, this`dirty, this`revision
      ensures Step(old(St()), Op.SetActiveChild(stack, child), St()) && StateInv(St())
      ensures ok == old(Accepts(nodes, Op.SetActiveChild(stack, child)))
      ensures !ok ==> St() == old(St())
    {
      hide ChildLinks, ParentLinks, NoTwins, StacksActive, ZoomsLive, Acyclic;
      if stack !in nodes || !nodes[stack].data.StackData? { return false; }
      var i := FindSlot(nodes[stack].data.children, child);
      if i == |nodes[stack].data.children| { return false; }
      nodes := nodes[stack := nodes[stack].(data := nodes[stack].data.(activeChild := child))];
      MarkDirty();
      StepKeepsInv(old(St()), Op.SetActiveChild(stack, child), St());
      ok := true;
    }

    method SetTabBarStack(bar: Uuid, stack: Uuid) returns (ok: bool)
      requires StateInv(St())
      modifies this`nodes, this`dirty, this`revision
      ensures Step(old(St()), Op.SetTabBarStack(bar, stack), St()) && StateInv(St())
      ensures ok == old(Accepts(nodes, Op.SetTabBarStack(bar, stack)))
      ensures !ok ==> St() == old(St())
    {
      hide ChildLinks, ParentLinks, NoTwins, StacksActive, ZoomsLive, Acyclic;
      if bar !in nodes || !nodes[bar].data.TabBarData? { return false; }
      if stack != NIL {
        if stack !in nodes || !nodes[stack].data.StackData? { return false; }
      }
      nodes := nodes[bar := nodes[bar].(data := TabBarData(stack))];
      MarkDirty();
      StepKeepsInv(old(St()), Op.SetTabBarStack(bar, stack), St());
      ok := true;
    }

    method SetLabel(id: Uuid, text: string)
      requires StateInv(St())
      modifies this`nodes
      ensures Step(old(St()), Op.SetLabel(id, text), St()) && StateInv(St())
    {
      hide ChildLinks, ParentLinks, NoTwins, StacksActive, ZoomsLive, Acyclic;
      if id in nodes { nodes := nodes[id := nodes[id].(caption := text)]; }
      StepKeepsInv(old(St()), Op.SetLabel(id, text), St());
    }

    method SetStackZoom(stack: Uuid, target: Uuid) returns (ok: bool)
      requires StateInv(St())
      modifies this`nodes, this`dirty, this`revision
      ensures Step(old(St()), Op.SetStackZoom(stack, target), St()) && StateInv(St())
      ensures ok == old(Accepts(nodes, Op.SetStackZoom(stack, target)))
      ensures !ok ==> St() == old(St())
    {
      hide ChildLinks, ParentLinks, NoTwins, StacksActive, ZoomsLive, Acyclic;
      if stack !in nodes || !nodes[stack].data.StackData? { return false; }
      if target != NIL {
        if target == stack { return false; }
        var inside := Contains(stack, target);
        if !inside { return false; }
      }
      nodes := nodes[stack := nodes[stack].(data := nodes[stack].data.(zoomTarget := target))];
      MarkDirty();
      StepKeepsInv(old(St()), Op.SetStackZoom(stack, target), St());
      ok := true;
    }

    /** The four slot setters, which differ in the field they set. */
    method SetSlot(parent: Uuid, child: Uuid, knob: Knob, value: int) returns (ok: bool)
      requires StateInv(St())
      modifies this`nodes, this`dirty, this`revision
      ensures Step(old(St()), Op.SetSlot(parent, child, knob, value), St()) && StateInv(St())
      ensures ok == old(Accepts(nodes, Op.SetSlot(parent, child, knob, value)))
      ensures !ok ==> St() == old(St())
    {
      hide ChildLinks, ParentLinks, NoTwins, StacksActive, ZoomsLive, Acyclic;
      if parent !in nodes || !nodes[parent].data.ContainerData? { return false; }
      var kids := nodes[parent].data.children;
      var i := FindSlot(kids, child);
      if i == |kids| { return false; }
      var v := if value < 0 then 0 else value;
      match knob {
        case StretchKnob => kids := kids[i := kids[i].(stretch := v)];
        case MinKnob => kids := kids[i := kids[i].(minCells := v)];
        case MaxKnob => kids := kids[i := kids[i].(maxCells := v)];
        case FixedKnob => kids := kids[i := kids[i].(fixedCells := v)];
      }
      StoreChildren(parent, kids);
      StepKeepsInv(old(St()), Op.SetSlot(parent, child, knob, value), St());
      ok := true;
    }

    method SwapLeaves(a: Uuid, b: Uuid) returns (ok: bool)
      requires StateInv(St())
      modifies this`nodes, this`dirty, this`revision
      ensures Step(old(St()), Op.SwapLeaves(a, b), St()) && StateInv(St())
      ensures ok == old(CanSwap(nodes, a, b))
      ensures !ok ==> St() == old(St())
    {
      hide ChildLinks, ParentLinks, NoTwins, StacksActive, ZoomsLive, Acyclic;
      ok := ExchangeLeaves(a, b);
      StepKeepsInv(old(St()), Op.SwapLeaves(a, b), St());
    }

    method ExchangeLeaves(a: Uuid, b: Uuid) returns (ok: bool)
      requires Inv(nodes)
      modifies this`nodes, this`dirty, this`revision
      ensures ok == CanSwap(old(nodes), a, b)
      ensures nodes == if ok then Swapped(old(nodes), a, b) else old(nodes)
      ensures if ok then dirty && revision == old(revision) + 1 else dirty == old(dirty) && revision == old(revision)
    {
      ok := MaySwap(a, b);
      if ok {
        Interchange(a, b);
        MarkDirty();
      }
    }

    /** The checks a swap makes before it touches anything. */
    method MaySwap(a: Uuid, b: Uuid) returns (ok: bool)
      requires Inv(nodes)
      ensures ok == CanSwap(nodes, a, b)
    {
      if a == NIL || b == NIL || a == b { return false; }
      if a !in nodes || b !in nodes { return false; }
      if nodes[a].parent == NIL || nodes[b].parent == NIL { return false; }
      var below := Contains(a, b);
      if below { return false; }
      below := Contains(b, a);
      return !below;
    }

    /** Find both slots and make the writes of a swap. */
    method Interchange(a: Uuid, b: Uuid)
      requires Inv(nodes) && CanSwap(nodes, a, b)
      modifies this`nodes
      ensures nodes == Swapped(old(nodes), a, b)
    {
      SwapSiteKnown(nodes, a, b);
      var i := FindSlot(Kids(nodes[nodes[a].parent].data), a);
      var j := FindSlot(Kids(nodes[nodes[b].parent].data), b);
      LinkedMembers(nodes);
      SwapStepsSwap(nodes, a, b, i, j);
      WriteSwap(a, b, i, j);
    }

    method WriteSwap(a: Uuid, b: Uuid, i: nat, j: nat)
      requires SwapSite(nodes, a, b, i, j)
      modifies this`nodes
      ensures nodes == SwapSteps(old(nodes), a, b, i, j)
    {
      var pa, pb := nodes[a].parent, nodes[b].parent;
      RenameSlot(pa, i, b);
      RenameSlot(pb, j, a);
      if pa != pb {
        nodes := nodes[a := WithParent(nodes[a], pb)];
        nodes := nodes[b := WithParent(nodes[b], pa)];
        RetargetActive(pa, a, b);
        RetargetActive(pb, b, a);
      }
    }

    /** Put another id into one slot; its weights stay. */
    method RenameSlot(p: Uuid, i: nat, id: Uuid)
      requires p in nodes && IsBranch(nodes[p].data) && i < |Kids(nodes[p].data)|
      modifies this`nodes
      ensures nodes == SlotRenamed(old(nodes), p, i, id)
    {
      var kids := nodes[p].data.children;
      nodes := nodes[p := WithKids(nodes[p], kids[i := kids[i].(id := id)])];
    }

    method RetargetActive(p: Uuid, was: Uuid, now: Uuid)
      requires p in nodes
      modifies this`nodes
      ensures nodes == ActiveRetargeted(old(nodes), p, was, now)
    {
      if nodes[p].data.StackData? && nodes[p].data.activeChild == was {
        nodes := nodes[p := WithActive(nodes[p], now)];
      }
    }

    method DestroyNode(id: Uuid)
      requires StateInv(St())
      modifies this`nodes, this`root, this`dirty, this`revision
      ensures Step(old(St()), Op.DestroyNode(id), St()) && StateInv(St())
    {
      hide ChildLinks, ParentLinks, NoTwins, StacksActive, ZoomsLive, Acyclic;
      if id !in nodes { return; }
      TearDown(id);
      StepKeepsInv(old(St()), Op.DestroyNode(id), St());
    }

    /** Tear down a node and everything below it, children first. */
    method TearDown(id: Uuid)
      requires Inv(nodes) && id in nodes
      modifies this`nodes, this`root, this`dirty, this`revision
      ensures nodes == Prune(old(nodes), Subtree(old(nodes), id))
      ensures root == if old(root) in Subtree(old(nodes), id) then NIL else old(root)
      ensures dirty && revision > old(revision)
      decreases |Subtree(nodes, id)|, 1
    {
      hide ChildLinks, ParentLinks, NoTwins, StacksActive, ZoomsLive, Acyclic;
      LastTornDown(nodes, id);
      TearDownBelow(id);
      EraseBarren(id);
      MarkDirty();
    }

    /** The child ids are copied first: tearing a child down changes the list. */
    method TearDownBelow(id: Uuid)
      requires Inv(nodes) && id in nodes
      modifies this`nodes, this`root, this`dirty, this`revision
      ensures nodes == Prune(old(nodes), KidTrees(old(nodes), id, |Kids(old(nodes)[id].data)|))
      ensures root == if old(root) in KidTrees(old(nodes), id, |Kids(old(nodes)[id].data)|) then NIL else old(root)
      ensures revision >= old(revision)
      decreases |Subtree(nodes, id)|, 0
    {
      hide ChildLinks, ParentLinks, NoTwins, StacksActive, ZoomsLive, Acyclic;
      ghost var m := nodes;
      var kids := Kids(nodes[id].data);
      PruneNothing(m);
      for k := 0 to |kids|
        invariant nodes == Prune(m, KidTrees(m, id, k))
        invariant root == if old(root) in KidTrees(m, id, k) then NIL else old(root)
        invariant revision >= old(revision)
      {
        KidTornDown(m, id, k);
        TearDown(kids[k].id);
      }
    }

    /** Detach, erase and forget a node that has no children any more. */
    method EraseBarren(id: Uuid)
      requires Inv(nodes) && id in nodes && Kids(nodes[id].data) == []
      modifies this`nodes, this`root, this`dirty, this`revision
      ensures nodes == Prune(old(nodes), {id})
      ensures root == if old(root) == id then NIL else old(root)
      ensures revision >= old(revision)
    {
      hide ChildLinks, ParentLinks, NoTwins, StacksActive, ZoomsLive, Acyclic;
      DetachEraseIsPrune(nodes, id);
      if nodes[id].parent != NIL {
        var _ := Detach(nodes[id].parent, id);
      }
      if root == id { root := NIL; }
      nodes := nodes - {id};
      ClearZooms(id);
    }

    /** Clear every zoom that points at `id`. */
    method ClearZooms(id: Uuid)
      modifies this`nodes
      ensures nodes == map x | x in old(nodes) :: Unzoomed(old(nodes)[x], id)
    {
      var todo := nodes.Keys;
      while todo != {}
        invariant todo <= nodes.Keys == old(nodes).Keys
        invariant forall x :: x in nodes ==>
          nodes[x] == if x in todo then old(nodes)[x] else Unzoomed(old(nodes)[x], id)
        decreases todo
      {
        var x :| x in todo;
        if nodes[x].data.StackData? && nodes[x].data.zoomTarget == id {
          nodes := nodes[x := nodes[x].(data := nodes[x].data.(zoomTarget := NIL))];
        }
        todo := todo - {x};
      }
    }

    method CollapseSingletonsAbove(fromParent: Uuid, stopAt: Uuid)
      requires StateInv(St())
      modifies this`nodes, this`root, this`dirty, this`revision
      ensures Step(old(St()), Op.CollapseSingletonsAbove(fromParent, stopAt), St()) && StateInv(St())
    {
      hide ChildLinks, ParentLinks, NoTwins, StacksActive, ZoomsLive, Acyclic;
      if fromParent == NIL || stopAt == NIL { return; }
      Climb(fromParent, stopAt);
      StepKeepsInv(old(St()), Op.CollapseSingletonsAbove(fromParent, stopAt), St());
    }

    method Climb(fromParent: Uuid, stopAt: Uuid)
      requires StateInv(St()) && fromParent != NIL
      modifies this`nodes, this`root, this`dirty, this`revision
      ensures nodes == Collapse(old(nodes), fromParent, stopAt)
      ensures root == if old(root) in nodes then old(root) else NIL
      ensures if Collapses(old(nodes), fromParent, stopAt) then dirty && revision > old(revision) else St() == old(St())
    {
      hide ChildLinks, ParentLinks, NoTwins, StacksActive, ZoomsLive, Acyclic;
      var cur := fromParent;
      while cur != NIL && cur != stopAt
        invariant StateInv(St())
        invariant Collapse(old(nodes), fromParent, stopAt) == Collapse(nodes, cur, stopAt)
        invariant nodes.Keys <= old(nodes).Keys
        invariant root == if old(root) in nodes then old(root) else NIL
        invariant (St() == old(St()) && cur == fromParent) ||
          (Collapses(old(nodes), fromParent, stopAt) && dirty && revision > old(revision))
        decreases |nodes|
      {
        if cur !in nodes { break; }
        if !nodes[cur].data.ContainerData? || |nodes[cur].data.children| != 1 { break; }
        var grand := nodes[cur].parent;
        if grand == NIL { break; }
        var ok := HoistOnlyChild(cur, stopAt);
        if !ok { break; }
        cur := grand;
      }
    }

    /** Put the only child of a Container in its place and destroy the Container. */
    method HoistOnlyChild(cur: Uuid, ghost stopAt: Uuid) returns (ok: bool)
      requires StateInv(St()) && Collapses(nodes, cur, stopAt)
      modifies this`nodes, this`root, this`dirty, this`revision
      ensures ok && StateInv(St()) && |nodes| < |old(nodes)| && nodes.Keys <= old(nodes).Keys
      ensures Collapse(old(nodes), cur, stopAt) == Collapse(nodes, old(nodes)[cur].parent, stopAt)
      ensures root == if old(root) in nodes then old(root) else NIL
      ensures dirty && revision > old(revision)
    {
      hide ChildLinks, ParentLinks, NoTwins, StacksActive, ZoomsLive, Acyclic;
      CollapseStep(nodes, cur, stopAt);
      ok := Hoist(cur);
    }

    method Hoist(cur: Uuid) returns (ok: bool)
      requires Inv(nodes) && cur in nodes && nodes[cur].data.ContainerData? && |nodes[cur].data.children| == 1
      requires nodes[cur].parent != NIL
      modifies this`nodes, this`root, this`dirty, this`revision
      ensures ok && CollapseOnce.requires(old(nodes), cur) && nodes == CollapseOnce(old(nodes), cur)
      ensures root == if old(root) == cur then NIL else old(root)
      ensures dirty && revision > old(revision)
    {
      hide ChildLinks, ParentLinks, NoTwins, StacksActive, ZoomsLive, Acyclic;
      var grand, only := nodes[cur].parent, nodes[cur].data.children[0].id;
      CollapseMoves(nodes, cur);
      CollapsedAlone(nodes, cur);
      var _ := Detach(cur, only);
      ok := PutInstead(grand, cur, Plain(only));
      if ok { TearDown(cur); }
    }

    // ---------------------------------------------------------------- split

    /** Wrap `existing` together with `incoming` in a fresh Container; nil when the
        tree refuses.  Where the incoming node does not contain the place it goes to, that
        is the step of the same name. */
    method SplitByWrapping(existing: Uuid, dir: SplitDir, incoming: Uuid, newIsFirst: bool, newId: Uuid)
        returns (wrapper: Uuid)
      requires StateInv(St()) && newId != NIL && newId !in nodes
      modifies this`nodes, this`dirty, this`revision
      ensures wrapper == if old(CanSplit(nodes, existing, incoming)) then newId else NIL
      ensures wrapper != NIL ==>
        nodes == Split(old(nodes), existing, dir, incoming, newIsFirst, newId) && dirty && revision > old(revision)
      ensures wrapper == NIL ==> St() == old(St())
      ensures old(Safe(nodes, Op.SplitByWrapping(existing, dir, incoming, newIsFirst, newId))) ==>
        Step(old(St()), Op.SplitByWrapping(existing, dir, incoming, newIsFirst, newId), St()) && StateInv(St())
    {
      hide ChildLinks, ParentLinks, NoTwins, StacksActive, ZoomsLive, Acyclic;
      if existing !in nodes { return NIL; }
      if incoming !in nodes { return NIL; }
      if nodes[existing].parent == NIL { return NIL; }
      if nodes[incoming].parent != NIL { return NIL; }
      wrapper := Wrap(existing, dir, incoming, newIsFirst, newId);
      if old(Safe(nodes, Op.SplitByWrapping(existing, dir, incoming, newIsFirst, newId))) {
        StepKeepsInv(old(St()), Op.SplitByWrapping(existing, dir, incoming, newIsFirst, newId), St());
      }
    }

    method Wrap(existing: Uuid, dir: SplitDir, incoming: Uuid, newIsFirst: bool, newId: Uuid) returns (wrapper: Uuid)
      requires Inv(nodes) && CanSplit(nodes, existing, incoming) && newId != NIL && newId !in nodes
      modifies this`nodes, this`dirty, this`revision
      ensures nodes == Split(old(nodes), existing, dir, incoming, newIsFirst, newId)
      ensures wrapper == newId && dirty && revision > old(revision)
    {
      SplitPlaced(nodes, existing, dir, newId);
      nodes := Create(nodes, newId, ContainerData(dir, []));
      var slot := InheritedSlot(existing, newId);
      var ok := PutInstead(nodes[existing].parent, existing, slot);
      if !ok { return NIL; }
      if newIsFirst {
        var _ := Attach(newId, Plain(incoming));
        var _ := Attach(newId, Plain(existing));
      } else {
        var _ := Attach(newId, Plain(existing));
        var _ := Attach(newId, Plain(incoming));
      }
      wrapper := newId;
    }

    /** The slot of `existing`, renamed to hold `wrapper`. */
    method InheritedSlot(existing: Uuid, wrapper: Uuid) returns (slot: ChildSlot)
      requires existing in nodes
      ensures slot == WrapperSlot(nodes, existing, wrapper)
    {
      slot := Plain(wrapper);
      var p := nodes[existing].parent;
      if p in nodes && nodes[p].data.ContainerData? {
        var i := FindSlot(nodes[p].data.children, existing);
        if i < |nodes[p].data.children| { slot := nodes[p].data.children[i].(id := wrapper); }
      }
    }

    // ---------------------------------------------------------------- layout

    method ComputeRectsFrom(start: Uuid, window: Rect, cell: CellSize) returns (out: map<Uuid, Rect>)
      requires LayoutEnds(nodes, start, window, cell)
      ensures out == Layout.ComputeRects(nodes, start, window, cell)
    {
      out := map[];
      if start == NIL || IsEmpty(window) { return; }
      out := LayoutSubtree(nodes, start, window, cell, out);
    }

    method ComputeRects(window: Rect, cell: CellSize) returns (out: map<Uuid, Rect>)
      requires LayoutEnds(nodes, root, window, cell)
      ensures out == Layout.ComputeRects(nodes, root, window, cell)
    {
      out := ComputeRectsFrom(root, window, cell);
    }

    // ---------------------------------------------------------------- resize

    method ResizeEdgeAlongAxis(target: Uuid, axis: SplitDir, pixelDelta: int, ancestorRoot: Uuid,
                               window: Rect, cell: CellSize) returns (ok: bool)
      requires StateInv(St()) && ResizeEnds(nodes, target, axis, ancestorRoot, window, cell)
      modifies this`nodes, this`dirty, this`revision
      ensures Step(old(St()), Op.ResizeEdge(target, axis, pixelDelta, ancestorRoot, window, cell), St()) && StateInv(St())
      ensures ok == old(CanResize(nodes, target, axis, ancestorRoot, window, cell))
      ensures !ok ==> St() == old(St())
    {
      hide ChildLinks, ParentLinks, NoTwins, StacksActive, ZoomsLive, Acyclic;
      ok := DragEdge(target, axis, pixelDelta, ancestorRoot, window, cell);
      StepKeepsInv(old(St()), Op.ResizeEdge(target, axis, pixelDelta, ancestorRoot, window, cell), St());
    }

    method DragEdge(target: Uuid, axis: SplitDir, pixelDelta: int, ancestorRoot: Uuid,
                    window: Rect, cell: CellSize) returns (ok: bool)
      requires Inv(nodes) && ResizeEnds(nodes, target, axis, ancestorRoot, window, cell)
      modifies this`nodes, this`dirty, this`revision
      ensures ok == CanResize(old(nodes), target, axis, ancestorRoot, window, cell)
      ensures nodes == Resize(old(nodes), target, axis, pixelDelta, ancestorRoot, window, cell)
      ensures if ok then dirty && revision == old(revision) + 1 else dirty == old(dirty) && revision == old(revision)
    {
      if target == NIL || ancestorRoot == NIL { return false; }
      var e := FindEdge(nodes, target, axis, ancestorRoot);
      EdgeIsInside(nodes, target, axis, ancestorRoot);
      if e.NoEdge? { return false; }
      var rects := ComputeRectsFrom(ancestorRoot, window, cell);
      ok := MoveEdge(e, axis, pixelDelta, rects);
    }

    /** Turn the pixels around an edge into stretch weights. */
    method MoveEdge(e: Edge, axis: SplitDir, pixelDelta: int, rects: map<Uuid, Rect>) returns (ok: bool)
      requires EdgeFits(nodes, e)
      modifies this`nodes, this`dirty, this`revision
      ensures ok == EdgeVisible(old(nodes), e, rects)
      ensures nodes == if ok then Resized(old(nodes), e, axis, pixelDelta, rects) else old(nodes)
      ensures if ok then dirty && revision == old(revision) + 1 else dirty == old(dirty) && revision == old(revision)
    {
      var kids := nodes[e.container].data.children;
      var a, b := kids[e.index], kids[e.neighbour];
      if a.id !in rects || b.id !in rects { return false; }
      var axisA, axisB := Extent(axis, rects[a.id]), Extent(axis, rects[b.id]);
      var signedDelta := if e.neighbour == e.index + 1 then pixelDelta else -pixelDelta;
      var newA, newB := Max(1, axisA + signedDelta), Max(1, axisB - signedDelta);
      kids := kids[e.index := a.(stretch := newA, fixedCells := 0)];
      kids := kids[e.neighbour := b.(stretch := newB, fixedCells := 0)];
      StoreChildren(e.container, kids);
      ok := true;
    }

    // ---------------------------------------------------------------- leaves

    method TerminalLeavesIn(start: Uuid, onlyActiveStack: bool) returns (out: seq<Uuid>)
      requires Inv(nodes)
      ensures out == Leaves(nodes, start, onlyActiveStack)
    {
      out := WalkLeaves(nodes, start, onlyActiveStack, []);
    }
  }
}
