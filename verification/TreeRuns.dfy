/** Runs of layout tree operations: the invariant over every run, and the revision
    counter as a sound key for cached layouts (src/LayoutTree.h:228-244). */
module TreeRuns {
  import opened Forest
  import opened Ancestry
  import opened SpaceDivision
  import opened TreeEdits
  import opened TreeReshape
  import opened Layout
  import opened LayoutFacts
  import opened EdgeResize
  import SplitClose

  datatype State = State(nodes: Nodes, root: Uuid, dirty: bool, revision: nat)

  datatype Knob = StretchKnob | MinKnob | MaxKnob | FixedKnob

  /** The public mutators.  A generated identity is a parameter of the operation. */
  datatype Op =
    | CreateNode(id: Uuid, data: NodeData)
    | SetRoot(id: Uuid)
    | AppendChild(parent: Uuid, slot: ChildSlot)
    | RemoveChild(parent: Uuid, child: Uuid)
    | ReplaceChild(parent: Uuid, was: Uuid, slot: ChildSlot)
    | SetActiveChild(stack: Uuid, child: Uuid)
    | SetTabBarStack(bar: Uuid, stack: Uuid)
    | SetLabel(id: Uuid, text: string)
    | MoveChild(parent: Uuid, child: Uuid, delta: int)
    | RotateChildren(parent: Uuid, delta: int)
    | SwapLeaves(a: Uuid, b: Uuid)
    | SetStackZoom(stack: Uuid, target: Uuid)
    | SetSlot(parent: Uuid, child: Uuid, knob: Knob, value: int)
    | DestroyNode(id: Uuid)
    | CollapseSingletonsAbove(id: Uuid, stopAt: Uuid)
    | SplitByWrapping(existing: Uuid, dir: SplitDir, incoming: Uuid, newIsFirst: bool, wrapper: Uuid)
    | ResizeEdge(target: Uuid, axis: SplitDir, pixels: int, ancestor: Uuid, window: Rect, cell: CellSize)
    | MarkDirty
    | TakeDirty

  ghost predicate StateInv(s: State) {
    Inv(s.nodes) && (s.root == NIL || s.root in s.nodes)
  }

  /** What an operation needs from its caller: new identities are fresh, a node is
      not attached below itself, and a layout that a resize asks for ends. */
  ghost predicate Safe(m: Nodes, op: Op)
    requires Inv(m)
  {
    match op
    case CreateNode(id, d) => id != NIL && id !in m && Blank(d)
    case AppendChild(p, slot) => !Contains(m, slot.id, p)
    case ReplaceChild(p, _, slot) => !Contains(m, slot.id, p)
    case SplitByWrapping(ex, _, inc, _, w) =>
      w != NIL && w !in m && (CanSplit(m, ex, inc) ==> !Contains(m, inc, m[ex].parent))
    case ResizeEdge(t, axis, _, root, window, cell) => ResizeEnds(m, t, axis, root, window, cell)
    case _ => true
  }

  ghost predicate HasChild(m: Nodes, p: Uuid, c: Uuid) {
    p in m && IsBranch(m[p].data) && HasId(Kids(m[p].data), c)
  }

  function Turned(s: ChildSlot, knob: Knob, value: int): (r: ChildSlot)
    ensures r.id == s.id
  {
    match knob
    case StretchKnob => s.(stretch := Max(0, value))
    case MinKnob => s.(minCells := Max(0, value))
    case MaxKnob => s.(maxCells := Max(0, value))
    case FixedKnob => s.(fixedCells := Max(0, value))
  }

  /** Whether the operation changes geometry; the boolean mutators return this. */
  ghost predicate Accepts(m: Nodes, op: Op)
    requires Inv(m) && Safe(m, op)
  {
    match op
    case CreateNode(_, _) => false
    case SetRoot(id) => id in m && m[id].parent == NIL
    case AppendChild(p, slot) => CanAppend(m, p, slot)
    case RemoveChild(p, c) => CanRemove(m, p, c)
    case ReplaceChild(p, was, slot) => CanReplace(m, p, was, slot)
    case SetActiveChild(s, c) => s in m && m[s].data.StackData? && HasId(m[s].data.children, c)
    case SetTabBarStack(b, s) =>
      b in m && m[b].data.TabBarData? && (s == NIL || (s in m && m[s].data.StackData?))
    case SetLabel(_, _) => false
    case MoveChild(p, c, delta) =>
      delta != 0 && HasChild(m, p, c) && 0 <= IndexOf(Kids(m[p].data), c) + delta < |Kids(m[p].data)|
    case RotateChildren(p, delta) =>
      delta != 0 && p in m && IsBranch(m[p].data) && |Kids(m[p].data)| >= 2 && delta % |Kids(m[p].data)| != 0
    case SwapLeaves(a, b) => CanSwap(m, a, b)
    case SetStackZoom(s, t) =>
      s in m && m[s].data.StackData? && (t == NIL || (t != s && Contains(m, s, t)))
    case SetSlot(p, c, _, _) => p in m && m[p].data.ContainerData? && HasId(m[p].data.children, c)
    case DestroyNode(id) => id in m
    case CollapseSingletonsAbove(id, stopAt) => stopAt != NIL && Collapses(m, id, stopAt)
    case SplitByWrapping(ex, _, inc, _, _) => CanSplit(m, ex, inc)
    case ResizeEdge(t, axis, _, root, window, cell) => CanResize(m, t, axis, root, window, cell)
    case MarkDirty => true
    case TakeDirty => false
  }

  /** The node store after an operation. */
  ghost function After(m: Nodes, op: Op): Nodes
    requires Inv(m) && Safe(m, op)
  {
    match op
    case CreateNode(id, d) => Create(m, id, d)
    case SetLabel(id, text) => if id in m then m[id := m[id].(caption := text)] else m
    case _ => if !Accepts(m, op) then m else Accepted(m, op)
  }

  ghost function Accepted(m: Nodes, op: Op): Nodes
    requires Inv(m) && Safe(m, op) && Accepts(m, op)
  {
    match op
    case AppendChild(p, slot) => Append(m, p, slot)
    case RemoveChild(p, c) => Remove(m, p, c)
    case ReplaceChild(p, was, slot) => Replace(m, p, was, slot)
    case SetActiveChild(s, c) => m[s := WithActive(m[s], c)]
    case SetTabBarStack(b, s) => m[b := m[b].(data := TabBarData(s))]
    case MoveChild(p, c, delta) =>
      var i := IndexOf(Kids(m[p].data), c);
      SetKids(m, p, Relocated(Kids(m[p].data), i, i + delta))
    case RotateChildren(p, delta) => SetKids(m, p, Rotated(Kids(m[p].data), delta))
    case SwapLeaves(a, b) => Swapped(m, a, b)
    case SetStackZoom(s, t) => m[s := m[s].(data := m[s].data.(zoomTarget := t))]
    case SetSlot(p, c, knob, value) =>
      var i := IndexOf(m[p].data.children, c);
      SetKids(m, p, m[p].data.children[i := Turned(m[p].data.children[i], knob, value)])
    case DestroyNode(id) => Prune(m, Subtree(m, id))
    case CollapseSingletonsAbove(id, stopAt) => Collapse(m, id, stopAt)
    case SplitByWrapping(ex, dir, inc, first, w) => Split(m, ex, dir, inc, first, w)
    case ResizeEdge(t, axis, pixels, root, window, cell) => Resize(m, t, axis, pixels, root, window, cell)
    case _ => m
  }

  lemma MoveStep(m: Nodes, parent: Uuid, child: Uuid, delta: int)
    requires Inv(m)
    ensures var op := Op.MoveChild(parent, child, delta);
      if delta != 0 && HasChild(m, parent, child) && 0 <= IndexOf(Kids(m[parent].data), child) + delta < |Kids(m[parent].data)|
      then
        var i := IndexOf(Kids(m[parent].data), child);
        Accepts(m, op) && After(m, op) == SetKids(m, parent, Relocated(Kids(m[parent].data), i, i + delta))
      else !Accepts(m, op) && After(m, op) == m
  {
    hide Inv;
  }

  function RootAfter(s: State, op: Op, n: Nodes, accepted: bool): Uuid {
    if op.SetRoot? && accepted then op.id else if s.root in n then s.root else NIL
  }

  /** One operation of a run. */
  ghost predicate Step(s: State, op: Op, t: State)
    requires StateInv(s) && Safe(s.nodes, op)
  {
    && t.nodes == After(s.nodes, op)
    && t.root == RootAfter(s, op, t.nodes, Accepts(s.nodes, op))
    && if Accepts(s.nodes, op) then t.revision > s.revision && t.dirty
       else t.revision == s.revision && t.dirty == (s.dirty && !op.TakeDirty?)
  }

  // ---------------------------------------------------------------- the invariant

  /** New children for a node that are the same children keep the invariant. */
  lemma SameKidsKeepInv(m: Nodes, p: Uuid, kids: seq<ChildSlot>)
    requires Inv(m) && p in m && IsBranch(m[p].data) && (DistinctIds(Kids(m[p].data)) ==> SameIds(Kids(m[p].data), kids))
    ensures Inv(SetKids(m, p, kids))
  {
    TwinFree(m, p);
    SetKidsKeepsInv(m, p, kids);
  }

  lemma MoveKeepsInv(m: Nodes, p: Uuid, i: nat, j: nat)
    requires Inv(m) && p in m && IsBranch(m[p].data) && i < |Kids(m[p].data)| && j < |Kids(m[p].data)|
    ensures Inv(SetKids(m, p, Relocated(Kids(m[p].data), i, j)))
  {
    hide Inv, Relocated;
    if DistinctIds(Kids(m[p].data)) { RelocatedSameIds(Kids(m[p].data), i, j); }
    SameKidsKeepInv(m, p, Relocated(Kids(m[p].data), i, j));
  }

  lemma RotateKeepsInv(m: Nodes, p: Uuid, delta: int)
    requires Inv(m) && p in m && IsBranch(m[p].data)
    ensures Inv(SetKids(m, p, Rotated(Kids(m[p].data), delta)))
  {
    hide Inv, Rotated;
    if DistinctIds(Kids(m[p].data)) { RotatedSameIds(Kids(m[p].data), delta); }
    SameKidsKeepInv(m, p, Rotated(Kids(m[p].data), delta));
  }

  lemma TurnKeepsInv(m: Nodes, p: Uuid, i: nat, slot: ChildSlot)
    requires Inv(m) && p in m && IsBranch(m[p].data) && i < |Kids(m[p].data)| && slot.id == Kids(m[p].data)[i].id
    ensures Inv(SetKids(m, p, Kids(m[p].data)[i := slot]))
  {
    hide Inv;
    if DistinctIds(Kids(m[p].data)) { SameIdsPointwise(Kids(m[p].data), Kids(m[p].data)[i := slot]); }
    SameKidsKeepInv(m, p, Kids(m[p].data)[i := slot]);
  }

  lemma ReorderKeepsInv(m: Nodes, op: Op)
    requires Inv(m) && Safe(m, op) && Accepts(m, op)
    requires op.MoveChild? || op.RotateChildren? || op.SetSlot?
    ensures Inv(Accepted(m, op))
  {
    hide Inv, SetKids, Relocated, Rotated, Turned;
    var p := op.parent;
    var kids := Kids(m[p].data);
    match op
    case MoveChild(_, c, delta) => MoveKeepsInv(m, p, IndexOf(kids, c), IndexOf(kids, c) + delta);
    case RotateChildren(_, delta) => RotateKeepsInv(m, p, delta);
    case SetSlot(_, c, knob, value) => TurnKeepsInv(m, p, IndexOf(kids, c), Turned(kids[IndexOf(kids, c)], knob, value));
  }

  lemma ActiveSetKeepsInv(m: Nodes, s: Uuid, c: Uuid)
    requires Inv(m) && s in m && m[s].data.StackData? && HasId(m[s].data.children, c)
    ensures Inv(m[s := WithActive(m[s], c)])
  {
    hide Linked, Acyclic;
    TweakKeepsInv(m, s, WithActive(m[s], c));
  }

  lemma ZoomSetKeepsInv(m: Nodes, s: Uuid, t: Uuid)
    requires Inv(m) && s in m && m[s].data.StackData? && (t == NIL || Contains(m, s, t))
    ensures Inv(m[s := m[s].(data := m[s].data.(zoomTarget := t))])
  {
    hide Linked, Acyclic;
    assert t == NIL || t == s || t in m;
    TweakKeepsInv(m, s, m[s].(data := m[s].data.(zoomTarget := t)));
  }

  lemma TweakOpKeepsInv(m: Nodes, op: Op)
    requires Inv(m) && Safe(m, op) && Accepts(m, op)
    requires op.SetActiveChild? || op.SetTabBarStack? || op.SetStackZoom?
    ensures Inv(Accepted(m, op))
  {
    match op
    case SetActiveChild(s, c) => ActiveSetKeepsInv(m, s, c);
    case SetTabBarStack(b, s) => TweakKeepsInv(m, b, m[b].(data := TabBarData(s)));
    case SetStackZoom(s, t) => ZoomSetKeepsInv(m, s, t);
  }

  lemma AcceptedKeepsInv(m: Nodes, op: Op)
    requires Inv(m) && Safe(m, op) && Accepts(m, op)
    ensures Inv(Accepted(m, op))
  {
    hide ChildLinks, ParentLinks, NoTwins, StacksActive, ZoomsLive, Acyclic;
    match op
    case AppendChild(p, slot) => AppendKeepsInv(m, p, slot);
    case RemoveChild(p, c) => RemoveKeepsInv(m, p, c);
    case ReplaceChild(p, was, slot) => ReplaceKeepsInv(m, p, was, slot);
    case SetActiveChild(_, _) => TweakOpKeepsInv(m, op);
    case SetTabBarStack(_, _) => TweakOpKeepsInv(m, op);
    case MoveChild(_, _, _) => ReorderKeepsInv(m, op);
    case RotateChildren(_, _) => ReorderKeepsInv(m, op);
    case SwapLeaves(a, b) => SwapKeepsInv(m, a, b);
    case SetStackZoom(_, _) => TweakOpKeepsInv(m, op);
    case SetSlot(_, _, _, _) => ReorderKeepsInv(m, op);
    case DestroyNode(id) =>
      SplitClose.SubtreeClosed(m, id);
      PruneKeepsInv(m, Subtree(m, id));
    case CollapseSingletonsAbove(id, stopAt) => CollapseKeepsInv(m, id, stopAt);
    case SplitByWrapping(ex, dir, inc, first, w) => SplitKeepsInv(m, ex, dir, inc, first, w);
    case ResizeEdge(t, axis, pixels, root, window, cell) => ResizeKeepsInv(m, t, axis, pixels, root, window, cell);
    case _ =>
  }

  lemma LabelKeepsInv(m: Nodes, id: Uuid, text: string)
    requires Inv(m)
    ensures Inv(if id in m then m[id := m[id].(caption := text)] else m)
  {
    hide Linked, Acyclic;
    if id in m { TweakKeepsInv(m, id, m[id].(caption := text)); }
  }

  lemma AfterKeepsInv(m: Nodes, op: Op)
    requires Inv(m) && Safe(m, op)
    ensures Inv(After(m, op))
  {
    hide Inv, Accepted, Accepts;
    match op {
      case CreateNode(id, d) => CreateKeepsInv(m, id, d);
      case SetLabel(id, text) => LabelKeepsInv(m, id, text);
      case _ => if Accepts(m, op) { AcceptedKeepsInv(m, op); }
    }
  }

  /** Every operation keeps the forest invariant. */
  lemma StepKeepsInv(s: State, op: Op, t: State)
    requires StateInv(s) && Safe(s.nodes, op) && Step(s, op, t)
    ensures StateInv(t)
  {
    hide Inv, Safe, After;
    AfterKeepsInv(s.nodes, op);
    RootStays(s, op, t);
  }

  lemma RootStays(s: State, op: Op, t: State)
    requires StateInv(s) && Safe(s.nodes, op) && Step(s, op, t)
    ensures t.root == NIL || t.root in t.nodes
  {
    hide Inv;
  }

  /** After destroying a node exactly its subtree is gone and no survivor refers to
      a destroyed node as parent, child, active child or zoom target. */
  lemma DestroyLeavesNothing(m: Nodes, id: Uuid)
    requires Inv(m) && id in m
    ensures var n := Prune(m, Subtree(m, id));
      && n.Keys == m.Keys - Subtree(m, id) && Inv(n)
      && forall x, d :: x in n && Contains(m, id, d) && d in m ==>
           n[x].parent != d && !SplitClose.Mentions(n[x].data, d)
  {
    SplitClose.SubtreeClosed(m, id);
    PruneKeepsInv(m, Subtree(m, id));
    var n := Prune(m, Subtree(m, id));
    forall x, d | x in n && Contains(m, id, d) && d in m
      ensures n[x].parent != d && !SplitClose.Mentions(n[x].data, d)
    {
      WithoutMembers(Kids(m[x].data), Subtree(m, id), d);
      assert n[x].data.StackData? ==> Kids(n[x].data) == n[x].data.children;
      assert n[x].data.StackData? ==> ActiveValid(n[x].data);
    }
  }

  // ---------------------------------------------------------------- revisions

  /** Nothing a layout can see changed: old nodes keep their links and data, new
      ones are blank and hang nowhere. */
  ghost predicate SameGeometry(s: State, t: State) {
    && t.root == s.root
    && (forall x :: x in s.nodes ==> x in t.nodes && t.nodes[x].data == s.nodes[x].data && t.nodes[x].parent == s.nodes[x].parent)
    && (forall x :: x in t.nodes && x !in s.nodes ==> Blank(t.nodes[x].data) && t.nodes[x].parent == NIL)
  }

  lemma QuietStep(s: State, op: Op, t: State)
    requires StateInv(s) && Safe(s.nodes, op) && Step(s, op, t)
    ensures t.revision >= s.revision
    ensures t.revision == s.revision ==> SameGeometry(s, t)
  {
  }

  /** Equal geometry means equal layouts, for every window and cell size for which the
      layout ends. */
  lemma SameGeometrySameLayout(s: State, t: State, window: Rect, cell: CellSize)
    requires StateInv(s) && SameGeometry(s, t) && LayoutEnds(s.nodes, s.root, window, cell)
    ensures LayoutEnds(t.nodes, t.root, window, cell)
    ensures ComputeRects(s.nodes, s.root, window, cell) == ComputeRects(t.nodes, t.root, window, cell)
  {
    hide Linked, Acyclic, StacksActive, ZoomsLive, EndsIn;
    if s.root != NIL && !IsEmpty(window) {
      var k: nat :| EndsIn(s.nodes, s.root, window, cell, k);
      SameDataRects(s.nodes, t.nodes, s.root, window, cell, k);
    }
  }

  /** An operation that is refused, and one that only creates, labels or consumes the dirty
      flag, leaves every layout as it was. */
  lemma QuietKeepsLayout(s: State, op: Op, t: State, window: Rect, cell: CellSize)
    requires StateInv(s) && Safe(s.nodes, op) && Step(s, op, t) && !Accepts(s.nodes, op)
    requires LayoutEnds(s.nodes, s.root, window, cell)
    ensures LayoutEnds(t.nodes, t.root, window, cell)
    ensures ComputeRects(s.nodes, s.root, window, cell) == ComputeRects(t.nodes, t.root, window, cell)
  {
    hide Inv, SameGeometry, Safe, Accepts, After, RootAfter, LayoutEnds;
    QuietStep(s, op, t);
    SameGeometrySameLayout(s, t, window, cell);
  }

  /** A run: states and the operations between them. */
  ghost predicate Run(states: seq<State>, ops: seq<Op>) {
    && |states| == |ops| + 1
    && StateInv(states[0])
    && forall i :: 0 <= i < |ops| && StateInv(states[i]) ==>
         Safe(states[i].nodes, ops[i]) && Step(states[i], ops[i], states[i + 1])
  }

  lemma {:induction false} RunKeepsInv(states: seq<State>, ops: seq<Op>, k: nat)
    requires Run(states, ops) && k < |states|
    ensures StateInv(states[k])
  {
    hide ChildLinks, ParentLinks, NoTwins, StacksActive, ZoomsLive, Acyclic;
    if k > 0 {
      RunKeepsInv(states, ops, k - 1);
      StepKeepsInv(states[k - 1], ops[k - 1], states[k]);
    }
  }

  lemma {:induction false} RevisionTellsGeometry(states: seq<State>, ops: seq<Op>, i: nat, j: nat)
    requires Run(states, ops) && i <= j < |states|
    ensures states[i].revision <= states[j].revision
    ensures states[i].revision == states[j].revision ==> SameGeometry(states[i], states[j])
    decreases j
  {
    hide ChildLinks, ParentLinks, NoTwins, StacksActive, ZoomsLive, Acyclic;
    if i < j {
      RevisionTellsGeometry(states, ops, i, j - 1);
      RunKeepsInv(states, ops, j - 1);
      QuietStep(states[j - 1], ops[j - 1], states[j]);
    }
  }

  /** A layout cached under a revision number is right as long as the number is the
      same: over every run, for every window and cell size for which the layout ends. */
  lemma RevisionKeysLayout(states: seq<State>, ops: seq<Op>, i: nat, j: nat, window: Rect, cell: CellSize)
    requires Run(states, ops) && i <= j < |states|
    requires states[i].revision == states[j].revision && LayoutEnds(states[i].nodes, states[i].root, window, cell)
    ensures LayoutEnds(states[j].nodes, states[j].root, window, cell)
    ensures ComputeRects(states[i].nodes, states[i].root, window, cell) == ComputeRects(states[j].nodes, states[j].root, window, cell)
  {
    hide ChildLinks, ParentLinks, NoTwins, StacksActive, ZoomsLive, Acyclic;
    RevisionTellsGeometry(states, ops, i, j);
    RunKeepsInv(states, ops, i);
    SameGeometrySameLayout(states[i], states[j], window, cell);
  }

  // ---------------------------------------------------------------- reachable states

  const EMPTY := State(map[], NIL, true, 1)

  ghost predicate Reachable(s: State) {
    exists states, ops :: Run(states, ops) && states[0] == EMPTY && states[|ops|] == s
  }

  lemma ReachNext(s: State, op: Op, t: State)
    requires Reachable(s) && StateInv(s) && Safe(s.nodes, op) && Step(s, op, t)
    ensures Reachable(t) && StateInv(t)
  {
    hide Inv, Step, Safe;
    StepKeepsInv(s, op, t);
    var states, ops :| Run(states, ops) && states[0] == EMPTY && states[|ops|] == s;
    var more := states + [t];
    forall i | 0 <= i < |ops + [op]| && StateInv(more[i]) ensures Safe(more[i].nodes, (ops + [op])[i]) && Step(more[i], (ops + [op])[i], more[i + 1]) {
      if i < |ops| { assert more[i] == states[i] && more[i + 1] == states[i + 1]; }
    }
    assert Run(more, ops + [op]);
  }

  lemma ReachEmpty()
    ensures Reachable(EMPTY) && StateInv(EMPTY)
  {
    assert Ranked(map[], map[]);
    assert Run([EMPTY], []);
  }

  lemma ReachAccepted(m: Nodes, revision: nat, op: Op, n: Nodes)
    requires var s := State(m, NIL, true, revision); Reachable(s) && StateInv(s)
    requires Safe(m, op) && Accepts(m, op) && Accepted(m, op) == n && !op.SetRoot? && !op.CreateNode? && !op.SetLabel?
    ensures var t := State(n, NIL, true, revision + 1); Reachable(t) && StateInv(t)
  {
    hide Reachable, Inv, Safe, Accepts, Accepted;
    var s := State(m, NIL, true, revision);
    AcceptedKeepsInv(m, op);
    assert NIL !in n by { NilOutside(n); }
    ReachNext(s, op, State(n, NIL, true, revision + 1));
  }

  lemma NilOutside(m: Nodes)
    requires Inv(m)
    ensures NIL !in m
  {
  }

  lemma ReachCreated(m: Nodes, id: Uuid, d: NodeData)
    requires var s := State(m, NIL, true, 1); Reachable(s) && StateInv(s)
    requires id != NIL && id !in m && Blank(d)
    ensures var t := State(Create(m, id, d), NIL, true, 1); Reachable(t) && StateInv(t)
  {
    hide Reachable, Inv;
    CreateKeepsInv(m, id, d);
    NilOutside(Create(m, id, d));
    ReachNext(State(m, NIL, true, 1), CreateNode(id, d), State(Create(m, id, d), NIL, true, 1));
  }

  /** Neither of two roots is below the other. */
  lemma RootsApart(m: Nodes, p: Uuid, c: Uuid)
    requires Inv(m) && p in m && m[p].parent == NIL && c != p && c != NIL
    ensures !Contains(m, c, p)
  {
    NilOutside(m);
  }
  lemma ReachAppended(m: Nodes, revision: nat, p: Uuid, slot: ChildSlot)
    requires var s := State(m, NIL, true, revision); Reachable(s) && StateInv(s)
    requires CanAppend(m, p, slot) && m[p].parent == NIL && slot.id != p
    ensures var t := State(Append(m, p, slot), NIL, true, revision + 1); Reachable(t) && StateInv(t)
  {
    hide Reachable, Inv, Append, Contains;
    NilOutside(m);
    RootsApart(m, p, slot.id);
    ReachAccepted(m, revision, AppendChild(p, slot), Append(m, p, slot));
  }
  lemma ParentHolds(m: Nodes, p: Uuid, c: Uuid)
    requires Inv(m) && p in m && c in m && m[c].parent == p
    ensures Contains(m, p, c)
  {
    BelowItself(m, p);
    NilOutside(m);
  }
}
