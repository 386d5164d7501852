/** The hand-over of one-shot requests from the main thread to the render thread
    (src/platform/RenderSync.h, src/platform/RenderThread.cpp:61-151,
    src/platform/PlatformDawn.cpp:58-83). */
module RequestHandover {

  type Uuid = nat

  /** Keys of popup and embedded render state: the pane and what names the child. */
  datatype Key = Key(pane: Uuid, child: nat)

  datatype StructuralOp =
    | CreatePane(pane: Uuid)
    | ResizePane(pane: Uuid)
    | DestroyPane(pane: Uuid)
    | CreatePopup(pane: Uuid, popup: nat)
    | ResizePopup(pane: Uuid, popup: nat)
    | DestroyPopup(pane: Uuid, popup: nat)
    | DestroyEmbedded(pane: Uuid, line: nat)

  datatype Flag =
    | FocusChanged | MainFontAtlasChanged | TabBarFontAtlasChanged | MainFontRemoved | TabBarFontRemoved
    | ReleaseAllPaneTextures | ReleaseTabBarTexture | InvalidateAllRowCaches

  /** The main thread's accumulator. */
  datatype Pending = Pending(
    releasePanes: seq<Uuid>, releasePopups: seq<Key>, releaseEmbeddeds: seq<Key>,
    structuralOps: seq<StructuralOp>, flags: set<Flag>)

  /** The one-shot part of the shadow state, and of a snapshot of it. */
  datatype OneShot = OneShot(
    releasePanes: seq<Uuid>, releasePopups: seq<Key>, releaseEmbeddeds: seq<Key>,
    destroyedPanes: seq<Uuid>, destroyedPopups: seq<Key>, destroyedEmbeddeds: seq<Key>, flags: set<Flag>)

  const NOTHING_PENDING := Pending([], [], [], [], {})

  const NOTHING := OneShot([], [], [], [], [], [], {})

  /** One list of requests after the other, channel by channel. */
  function Then(a: OneShot, b: OneShot): OneShot {
    OneShot(a.releasePanes + b.releasePanes, a.releasePopups + b.releasePopups, a.releaseEmbeddeds + b.releaseEmbeddeds,
            a.destroyedPanes + b.destroyedPanes, a.destroyedPopups + b.destroyedPopups,
            a.destroyedEmbeddeds + b.destroyedEmbeddeds, a.flags + b.flags)
  }

  function More(a: Pending, b: Pending): Pending {
    Pending(a.releasePanes + b.releasePanes, a.releasePopups + b.releasePopups, a.releaseEmbeddeds + b.releaseEmbeddeds,
            a.structuralOps + b.structuralOps, a.flags + b.flags)
  }

  function PaneOf(op: StructuralOp): seq<Uuid> {
    match op
    case DestroyPane(p) => [p]
    case _ => []
  }

  function PopupOf(op: StructuralOp): seq<Key> {
    match op
    case DestroyPopup(p, n) => [Key(p, n)]
    case _ => []
  }

  function EmbeddedOf(op: StructuralOp): seq<Key> {
    match op
    case DestroyEmbedded(p, n) => [Key(p, n)]
    case _ => []
  }

  function PanesDestroyed(ops: seq<StructuralOp>): seq<Uuid> {
    if ops == [] then [] else PanesDestroyed(ops[..|ops| - 1]) + PaneOf(ops[|ops| - 1])
  }

  function PopupsDestroyed(ops: seq<StructuralOp>): seq<Key> {
    if ops == [] then [] else PopupsDestroyed(ops[..|ops| - 1]) + PopupOf(ops[|ops| - 1])
  }

  function EmbeddedsDestroyed(ops: seq<StructuralOp>): seq<Key> {
    if ops == [] then [] else EmbeddedsDestroyed(ops[..|ops| - 1]) + EmbeddedOf(ops[|ops| - 1])
  }

  /** What an accumulator asks of the render thread: releases and, of the structural
      operations, the destroys. */
  function Asks(p: Pending): OneShot {
    OneShot(p.releasePanes, p.releasePopups, p.releaseEmbeddeds, PanesDestroyed(p.structuralOps),
            PopupsDestroyed(p.structuralOps), EmbeddedsDestroyed(p.structuralOps), p.flags)
  }

  lemma NoneDestroyed()
    ensures PanesDestroyed([]) == [] && PopupsDestroyed([]) == [] && EmbeddedsDestroyed([]) == []
  {
  }

  lemma {:induction false} DestroyedAppend(a: seq<StructuralOp>, b: seq<StructuralOp>)
    ensures PanesDestroyed(a + b) == PanesDestroyed(a) + PanesDestroyed(b)
    ensures PopupsDestroyed(a + b) == PopupsDestroyed(a) + PopupsDestroyed(b)
    ensures EmbeddedsDestroyed(a + b) == EmbeddedsDestroyed(a) + EmbeddedsDestroyed(b)
  {
    hide PanesDestroyed, PopupsDestroyed, EmbeddedsDestroyed, PaneOf, PopupOf, EmbeddedOf;
    if b == [] {
      assert a + b == a;
      NoneDestroyed();
    } else {
      DestroyedAppend(a, b[..|b| - 1]);
      DestroyedLast(a + b);
      DestroyedLast(b);
      assert (a + b)[..|a + b| - 1] == a + b[..|b| - 1] && (a + b)[|a + b| - 1] == b[|b| - 1];
      Regroup(PanesDestroyed(a), PanesDestroyed(b[..|b| - 1]), PaneOf(b[|b| - 1]));
      Regroup(PopupsDestroyed(a), PopupsDestroyed(b[..|b| - 1]), PopupOf(b[|b| - 1]));
      Regroup(EmbeddedsDestroyed(a), EmbeddedsDestroyed(b[..|b| - 1]), EmbeddedOf(b[|b| - 1]));
    }
  }

  lemma Regroup<T>(a: seq<T>, b: seq<T>, c: seq<T>)
    ensures (a + b) + c == a + (b + c)
  {
  }

  lemma DestroyedLast(s: seq<StructuralOp>)
    requires s != []
    ensures var t, last := s[..|s| - 1], s[|s| - 1];
      && PanesDestroyed(s) == PanesDestroyed(t) + PaneOf(last)
      && PopupsDestroyed(s) == PopupsDestroyed(t) + PopupOf(last)
      && EmbeddedsDestroyed(s) == EmbeddedsDestroyed(t) + EmbeddedOf(last)
  {
  }

  lemma CountLast<T>(s: seq<T>, x: T)
    requires s != []
    ensures multiset(s)[x] == multiset(s[..|s| - 1])[x] + if s[|s| - 1] == x then 1 else 0
  {
    assert s == s[..|s| - 1] + [s[|s| - 1]];
  }

  lemma CountMore<T>(s: seq<T>, t: seq<T>, x: T)
    ensures multiset(s + t)[x] == multiset(s)[x] + multiset(t)[x]
  {
  }

  /** A destroy is passed on as often as it was asked for, and nothing else is. */
  lemma {:induction false} DestroyedCounts(ops: seq<StructuralOp>, p: Uuid, n: nat)
    ensures multiset(PanesDestroyed(ops))[p] == multiset(ops)[DestroyPane(p)]
    ensures multiset(PopupsDestroyed(ops))[Key(p, n)] == multiset(ops)[DestroyPopup(p, n)]
    ensures multiset(EmbeddedsDestroyed(ops))[Key(p, n)] == multiset(ops)[DestroyEmbedded(p, n)]
  {
    if ops != [] {
      var t, last := ops[..|ops| - 1], ops[|ops| - 1];
      DestroyedCounts(t, p, n);
      DestroyedLast(ops);
      CountLast(ops, DestroyPane(p));
      CountLast(ops, DestroyPopup(p, n));
      CountLast(ops, DestroyEmbedded(p, n));
      hide PanesDestroyed, PopupsDestroyed, EmbeddedsDestroyed;
      CountMore(PanesDestroyed(t), PaneOf(last), p);
      CountMore(PopupsDestroyed(t), PopupOf(last), Key(p, n));
      CountMore(EmbeddedsDestroyed(t), EmbeddedOf(last), Key(p, n));
    }
  }

  /** Exactly the destroys are passed on. */
  lemma DestroyedIff(ops: seq<StructuralOp>, p: Uuid, n: nat)
    ensures p in PanesDestroyed(ops) <==> DestroyPane(p) in ops
    ensures Key(p, n) in PopupsDestroyed(ops) <==> DestroyPopup(p, n) in ops
    ensures Key(p, n) in EmbeddedsDestroyed(ops) <==> DestroyEmbedded(p, n) in ops
  {
    hide PanesDestroyed, PopupsDestroyed, EmbeddedsDestroyed;
    DestroyedCounts(ops, p, n);
    assert p in PanesDestroyed(ops) <==> multiset(PanesDestroyed(ops))[p] > 0;
    assert Key(p, n) in PopupsDestroyed(ops) <==> multiset(PopupsDestroyed(ops))[Key(p, n)] > 0;
    assert Key(p, n) in EmbeddedsDestroyed(ops) <==> multiset(EmbeddedsDestroyed(ops))[Key(p, n)] > 0;
    assert DestroyPane(p) in ops <==> multiset(ops)[DestroyPane(p)] > 0;
    assert DestroyPopup(p, n) in ops <==> multiset(ops)[DestroyPopup(p, n)] > 0;
    assert DestroyEmbedded(p, n) in ops <==> multiset(ops)[DestroyEmbedded(p, n)] > 0;
  }

  lemma DestroyedOne(op: StructuralOp)
    ensures PanesDestroyed([op]) == (if op.DestroyPane? then [op.pane] else [])
    ensures PopupsDestroyed([op]) == (if op.DestroyPopup? then [Key(op.pane, op.popup)] else [])
    ensures EmbeddedsDestroyed([op]) == (if op.DestroyEmbedded? then [Key(op.pane, op.line)] else [])
  {
    assert [op][..0] == [];
  }

  /** And they are passed on in the order they were asked for: each stands behind those of
      the operations before it and before those of the operations after. */
  lemma DestroyedInOrder(a: seq<StructuralOp>, op: StructuralOp, b: seq<StructuralOp>)
    ensures PanesDestroyed(a + [op] + b) == PanesDestroyed(a) + (if op.DestroyPane? then [op.pane] else []) + PanesDestroyed(b)
    ensures PopupsDestroyed(a + [op] + b) == PopupsDestroyed(a) + (if op.DestroyPopup? then [Key(op.pane, op.popup)] else []) + PopupsDestroyed(b)
    ensures EmbeddedsDestroyed(a + [op] + b) == EmbeddedsDestroyed(a) + (if op.DestroyEmbedded? then [Key(op.pane, op.line)] else []) + EmbeddedsDestroyed(b)
  {
    hide PanesDestroyed, PopupsDestroyed, EmbeddedsDestroyed;
    DestroyedOne(op);
    DestroyedAppend(a, [op]);
    DestroyedAppend(a + [op], b);
  }

  lemma AsksMore(a: Pending, b: Pending)
    ensures Asks(More(a, b)) == Then(Asks(a), Asks(b))
  {
    DestroyedAppend(a.structuralOps, b.structuralOps);
  }

  lemma ThenAssociative(a: OneShot, b: OneShot, c: OneShot)
    ensures Then(Then(a, b), c) == Then(a, Then(b, c))
  {
  }

  lemma ThenNothing(a: OneShot)
    ensures Then(a, NOTHING) == a && Then(NOTHING, a) == a
  {
  }

  // ---------------------------------------------------------------- protocol

  /** The shared state with its history: everything asked outside a rebuild, everything
      asked during one, and the snapshots that were handed out. */
  datatype Desk = Desk(pending: Pending, shadow: OneShot, asked: OneShot, duringRebuild: OneShot, delivered: seq<OneShot>)

  datatype Step =
    | Record(request: Pending)
    | Apply(rebuild: Pending)       // what the rebuild itself records
    | Snapshot(width: nat, height: nat)

  function Accepted(s: Step): bool { s.Snapshot? && s.width != 0 && s.height != 0 }

  function Next(d: Desk, s: Step): Desk {
    match s
    case Record(r) => d.(pending := More(d.pending, r), asked := Then(d.asked, Asks(r)))
    case Apply(r) =>
      d.(pending := NOTHING_PENDING, shadow := Then(d.shadow, Asks(d.pending)), duringRebuild := Then(d.duringRebuild, Asks(r)))
    case Snapshot(_, _) =>
      if Accepted(s) then d.(shadow := NOTHING, delivered := d.delivered + [d.shadow]) else d
  }

  function AllOf(s: seq<OneShot>): OneShot {
    if s == [] then NOTHING else Then(AllOf(s[..|s| - 1]), s[|s| - 1])
  }

  const OPEN := Desk(NOTHING_PENDING, NOTHING, NOTHING, NOTHING, [])

  /** Whatever was asked was delivered, waits in the shadow state or waits to be
      applied, in that order. */
  ghost predicate Accounted(d: Desk) {
    d.asked == Then(Then(AllOf(d.delivered), d.shadow), Asks(d.pending))
  }

  lemma StepKeepsAccount(d: Desk, s: Step)
    requires Accounted(d)
    ensures Accounted(Next(d, s))
  {
    match s
    case Record(r) =>
      AsksMore(d.pending, r);
      ThenAssociative(Then(AllOf(d.delivered), d.shadow), Asks(d.pending), Asks(r));
    case Apply(r) =>
      ThenAssociative(AllOf(d.delivered), d.shadow, Asks(d.pending));
      ThenNothing(Then(Then(AllOf(d.delivered), d.shadow), Asks(d.pending)));
    case Snapshot(_, _) =>
      var more := d.delivered + [d.shadow];
      assert more[..|more| - 1] == d.delivered;
      ThenNothing(AllOf(more));
  }

  ghost predicate Run(desks: seq<Desk>, steps: seq<Step>) {
    && |desks| == |steps| + 1 && desks[0] == OPEN
    && forall i :: 0 <= i < |steps| ==> desks[i + 1] == Next(desks[i], steps[i])
  }

  /** Exactly-once hand-over: over every run, refused snapshots included, the history of
      requests is the delivered snapshots, then the shadow state, then the pending
      state, in order and without loss or repetition. */
  lemma {:induction false} ExactlyOnce(desks: seq<Desk>, steps: seq<Step>, k: nat)
    requires Run(desks, steps) && k < |desks|
    ensures Accounted(desks[k])
  {
    if k == 0 {
      NoneDestroyed();
    } else {
      ExactlyOnce(desks, steps, k - 1);
      StepKeepsAccount(desks[k - 1], steps[k - 1]);
    }
  }

  /** Up to the next apply a request stays in the accumulator, behind what was there and
      before what comes later, while snapshots only move what was applied before. */
  lemma {:induction false} Gathering(desks: seq<Desk>, steps: seq<Step>, i: nat, x: nat) returns (later: Pending)
    requires Run(desks, steps) && i < x < |desks| && steps[i].Record?
    requires forall y :: i < y < x ==> !steps[y].Apply?
    ensures desks[x].pending == More(More(desks[i].pending, steps[i].request), later)
    ensures Then(AllOf(desks[x].delivered), desks[x].shadow) == Then(AllOf(desks[i].delivered), desks[i].shadow)
  {
    hide Asks, Then;
    var d, e := desks[x - 1], desks[x];
    assert e == Next(d, steps[x - 1]);
    if i + 1 == x {
      later := NOTHING_PENDING;
    } else {
      later := Gathering(desks, steps, i, x - 1);
      if steps[x - 1].Record? { later := More(later, steps[x - 1].request); }
    }
    if Accepted(steps[x - 1]) {
      assert e.delivered[..|e.delivered| - 1] == d.delivered;
      ThenNothing(AllOf(e.delivered));
    }
  }

  /** Up to the next accepted snapshot the shadow state only grows at its end. */
  lemma {:induction false} Resting(desks: seq<Desk>, steps: seq<Step>, j: nat, x: nat) returns (more: OneShot)
    requires Run(desks, steps) && j <= x < |desks|
    requires forall y :: j <= y < x ==> !Accepted(steps[y])
    ensures desks[x].delivered == desks[j].delivered && desks[x].shadow == Then(desks[j].shadow, more)
  {
    if j == x {
      more := NOTHING;
    } else {
      more := Resting(desks, steps, j, x - 1);
      assert desks[x] == Next(desks[x - 1], steps[x - 1]);
      if steps[x - 1].Apply? {
        ThenAssociative(desks[j].shadow, more, Asks(desks[x - 1].pending));
        more := Then(more, Asks(desks[x - 1].pending));
      }
    }
  }

  lemma Framed(c: OneShot, d: OneShot, p: OneShot, r: OneShot, l: OneShot, m: OneShot)
    ensures Then(Then(d, Then(Then(p, r), l)), m) == Then(Then(Then(d, p), r), Then(l, m))
    ensures Then(c, Then(d, p)) == Then(Then(c, d), p)
  {
    hide Then;
    ThenAssociative(c, d, p);
    ThenAssociative(d, Then(p, r), l);
    ThenAssociative(d, p, r);
    ThenAssociative(Then(Then(d, p), r), l, m);
  }

  /** Over every run, whatever else is recorded, applied or refused in between: a request
      recorded at `i` goes out with the first accepted snapshot `k` after the first apply
      `j` after it, as one stretch of each channel.  The stretch begins where everything
      asked before it ends, so no earlier snapshot holds any of it. */
  lemma NextSnapshotDelivers(desks: seq<Desk>, steps: seq<Step>, i: nat, j: nat, k: nat) returns (before: OneShot, after: OneShot)
    requires Run(desks, steps) && i < j < k < |steps| && steps[i].Record? && steps[j].Apply?
    requires steps[k].Snapshot? && steps[k].width > 0 && steps[k].height > 0
    requires forall y :: i < y < j ==> !steps[y].Apply?
    requires forall y :: j < y < k ==> !Accepted(steps[y])
    ensures |desks[k + 1].delivered| == |desks[k].delivered| + 1 && desks[k].delivered <= desks[k + 1].delivered
    ensures desks[k + 1].delivered[|desks[k].delivered|] == Then(Then(before, Asks(steps[i].request)), after)
    ensures Then(AllOf(desks[k].delivered), before) == desks[i].asked
  {
    hide AllOf, Asks;
    var later := Gathering(desks, steps, i, j);
    var more := Resting(desks, steps, j + 1, k);
    ExactlyOnce(desks, steps, i);
    var d, p, r, l := desks[j].shadow, Asks(desks[i].pending), Asks(steps[i].request), Asks(later);
    AsksMore(More(desks[i].pending, steps[i].request), later);
    AsksMore(desks[i].pending, steps[i].request);
    Framed(AllOf(desks[j].delivered), d, p, r, l, more);
    before, after := Then(d, p), Then(l, more);
    assert desks[j + 1] == Next(desks[j], steps[j]) && desks[k + 1] == Next(desks[k], steps[k]);
  }

  /** What a request asks for stands in the snapshot, list by list, between `before` and
      `after`: the releases as they are, of the structural operations exactly the destroys,
      and the flags. */
  ghost predicate Holds(snapshot: OneShot, before: OneShot, request: Pending, after: OneShot) {
    && snapshot.releasePanes == before.releasePanes + request.releasePanes + after.releasePanes
    && snapshot.releasePopups == before.releasePopups + request.releasePopups + after.releasePopups
    && snapshot.releaseEmbeddeds == before.releaseEmbeddeds + request.releaseEmbeddeds + after.releaseEmbeddeds
    && snapshot.flags == before.flags + request.flags + after.flags
    && (exists panes, popups, embeddeds ::
          && Destroys(request.structuralOps, panes, popups, embeddeds)
          && snapshot.destroyedPanes == before.destroyedPanes + panes + after.destroyedPanes
          && snapshot.destroyedPopups == before.destroyedPopups + popups + after.destroyedPopups
          && snapshot.destroyedEmbeddeds == before.destroyedEmbeddeds + embeddeds + after.destroyedEmbeddeds)
  }

  /** The lists hold each destroy of the operations as often as it is asked for. */
  ghost predicate Destroys(ops: seq<StructuralOp>, panes: seq<Uuid>, popups: seq<Key>, embeddeds: seq<Key>) {
    && (forall p :: multiset(panes)[p] == multiset(ops)[DestroyPane(p)])
    && (forall k: Key :: multiset(popups)[k] == multiset(ops)[DestroyPopup(k.pane, k.child)])
    && (forall k: Key :: multiset(embeddeds)[k] == multiset(ops)[DestroyEmbedded(k.pane, k.child)])
  }

  lemma DestroysKnown(ops: seq<StructuralOp>)
    ensures Destroys(ops, PanesDestroyed(ops), PopupsDestroyed(ops), EmbeddedsDestroyed(ops))
  {
    hide PanesDestroyed, PopupsDestroyed, EmbeddedsDestroyed;
    forall p ensures multiset(PanesDestroyed(ops))[p] == multiset(ops)[DestroyPane(p)] { DestroyedCounts(ops, p, 0); }
    forall k: Key ensures multiset(PopupsDestroyed(ops))[k] == multiset(ops)[DestroyPopup(k.pane, k.child)] { DestroyedCounts(ops, k.pane, k.child); }
    forall k: Key ensures multiset(EmbeddedsDestroyed(ops))[k] == multiset(ops)[DestroyEmbedded(k.pane, k.child)] { DestroyedCounts(ops, k.pane, k.child); }
  }

  /** Request by request: over every run, everything recorded at `i` is in that snapshot, no
      more often than asked for, and in none before it. */
  lemma SnapshotHolds(desks: seq<Desk>, steps: seq<Step>, i: nat, j: nat, k: nat) returns (before: OneShot, after: OneShot)
    requires Run(desks, steps) && i < j < k < |steps| && steps[i].Record? && steps[j].Apply?
    requires steps[k].Snapshot? && steps[k].width > 0 && steps[k].height > 0
    requires forall y :: i < y < j ==> !steps[y].Apply?
    requires forall y :: j < y < k ==> steps[y].Snapshot? ==> steps[y].width == 0 || steps[y].height == 0
    ensures |desks[k + 1].delivered| == |desks[k].delivered| + 1 && desks[k].delivered <= desks[k + 1].delivered
    ensures Holds(desks[k + 1].delivered[|desks[k].delivered|], before, steps[i].request, after)
    ensures Then(AllOf(desks[k].delivered), before) == desks[i].asked
    ensures forall p :: DestroyPane(p) in steps[i].request.structuralOps ==> p in desks[k + 1].delivered[|desks[k].delivered|].destroyedPanes
  {
    hide AllOf, PanesDestroyed, PopupsDestroyed, EmbeddedsDestroyed, Next;
    before, after := NextSnapshotDelivers(desks, steps, i, j, k);
    var ops := steps[i].request.structuralOps;
    DestroysKnown(ops);
    forall p | DestroyPane(p) in ops ensures p in PanesDestroyed(ops) { DestroyedIff(ops, p, 0); }
    hide Run, Destroys;
  }

  /** A snapshot is refused for want of an area, and then changes nothing. */
  lemma RefusedIff(d: Desk, s: Step)
    requires s.Snapshot?
    ensures Next(d, s) == d <==> s.width == 0 || s.height == 0
    ensures s.width > 0 && s.height > 0 ==> Next(d, s).delivered == d.delivered + [d.shadow] && Next(d, s).shadow == NOTHING
  {
    if Accepted(s) { assert |Next(d, s).delivered| == |d.delivered| + 1; }
  }

  /** How many single requests the lists hold. */
  function Size(a: OneShot): nat {
    |a.releasePanes| + |a.releasePopups| + |a.releaseEmbeddeds| + |a.destroyedPanes| + |a.destroyedPopups| + |a.destroyedEmbeddeds|
  }

  function HandedOn(d: Desk): OneShot { Then(Then(AllOf(d.delivered), d.shadow), Asks(d.pending)) }

  /** As many list requests were handed on as made, and every flag raised was handed on. */
  ghost predicate Complete(d: Desk) {
    && Size(d.asked) + Size(d.duringRebuild) == Size(HandedOn(d))
    && d.asked.flags + d.duringRebuild.flags == HandedOn(d).flags
  }

  /** Requests the rebuild makes are wiped: counting them in, nothing is lost over a run
      exactly when no rebuild asked for anything but flags that were raised outside too. */
  lemma LostExactlyDuringRebuild(desks: seq<Desk>, steps: seq<Step>, k: nat)
    requires Run(desks, steps) && k < |desks|
    ensures Complete(desks[k]) <==>
      forall i :: 0 <= i < k && steps[i].Apply? ==>
        Size(Asks(steps[i].rebuild)) == 0 && steps[i].rebuild.flags <= desks[k].asked.flags
  {
    hide Asks, AllOf, Then, Size;
    ExactlyOnce(desks, steps, k);
    RebuildSum(desks, steps, k, desks[k].asked.flags);
    assert HandedOn(desks[k]) == desks[k].asked;
  }

  lemma {:induction false} RebuildSum(desks: seq<Desk>, steps: seq<Step>, k: nat, raised: set<Flag>)
    requires Run(desks, steps) && k < |desks|
    ensures Size(desks[k].duringRebuild) == 0 && desks[k].duringRebuild.flags <= raised <==>
      forall i :: 0 <= i < k && steps[i].Apply? ==> Size(Asks(steps[i].rebuild)) == 0 && steps[i].rebuild.flags <= raised
  {
    hide Next, Asks, Size;
    if k == 0 {
      NothingAsked();
    } else {
      RebuildSum(desks, steps, k - 1, raised);
      RebuildAdds(desks[k - 1], steps[k - 1]);
    }
  }

  lemma NothingAsked()
    ensures Size(NOTHING) == 0 && NOTHING.flags == {}
  {
  }

  lemma RebuildAdds(d: Desk, s: Step)
    ensures var t := Next(d, s).duringRebuild;
      && Size(t) == Size(d.duringRebuild) + (if s.Apply? then Size(Asks(s.rebuild)) else 0)
      && t.flags == d.duringRebuild.flags + (if s.Apply? then s.rebuild.flags else {})
  {
    hide PanesDestroyed, PopupsDestroyed, EmbeddedsDestroyed;
  }

  function Silenced(s: Step): Step { if s.Apply? then Apply(NOTHING_PENDING) else s }

  /** What rebuilds record, flags included, has no effect: a run whose rebuilds record
      nothing has the same accumulator, shadow state and snapshots throughout. */
  lemma {:induction false} RebuildRequestsVanish(desks: seq<Desk>, quiet: seq<Desk>, steps: seq<Step>, k: nat)
    requires Run(desks, steps) && Run(quiet, seq(|steps|, i requires 0 <= i < |steps| => Silenced(steps[i]))) && k < |desks|
    ensures desks[k].pending == quiet[k].pending && desks[k].shadow == quiet[k].shadow && desks[k].delivered == quiet[k].delivered
  {
    if k > 0 {
      hide Asks, Then, More;
      RebuildRequestsVanish(desks, quiet, steps, k - 1);
      assert desks[k] == Next(desks[k - 1], steps[k - 1]) && quiet[k] == Next(quiet[k - 1], Silenced(steps[k - 1]));
    }
  }

  // ---------------------------------------------------------------- the objects

  /** Both sides' state as the fields the threads update in place; the history is kept
      beside it. */
  class RenderSync {
    var pending: Pending
    var renderState: OneShot
    ghost var asked: OneShot
    ghost var duringRebuild: OneShot
    ghost var delivered: seq<OneShot>

    ghost function St(): Desk
      reads this
    {
      Desk(pending, renderState, asked, duringRebuild, delivered)
    }

    constructor ()
      ensures St() == OPEN && Accounted(St())
    {
      pending, renderState := NOTHING_PENDING, NOTHING;
      asked, duringRebuild, delivered := NOTHING, NOTHING, [];
      new;
      NoneDestroyed();
    }

    /** Any call site that adds to the accumulator. */
    method Record(request: Pending)
      requires Accounted(St())
      modifies this`pending, this`asked
      ensures St() == Next(old(St()), Step.Record(request)) && Accounted(St())
    {
      StepKeepsAccount(St(), Step.Record(request));
      pending := More(pending, request);
      asked := Then(asked, Asks(request));
    }

    /** The end of a tick.  `rebuild` is what the rebuild of the shadow copy adds to the
        accumulator while it runs; the accumulator is cleared after it. */
    method ApplyPendingMutations(rebuild: Pending)
      requires Accounted(St())
      modifies this
      ensures St() == Next(old(St()), Apply(rebuild)) && Accounted(St())
    {
      StepKeepsAccount(St(), Apply(rebuild));
      renderState := renderState.(flags := renderState.flags + pending.flags);
      renderState := renderState.(releasePanes := renderState.releasePanes + pending.releasePanes);
      renderState := renderState.(releasePopups := renderState.releasePopups + pending.releasePopups);
      renderState := renderState.(releaseEmbeddeds := renderState.releaseEmbeddeds + pending.releaseEmbeddeds);
      DistillDestroys();
      pending := More(pending, rebuild);
      duringRebuild := Then(duringRebuild, Asks(rebuild));
      pending := NOTHING_PENDING;
    }

    /** Of the structural operations only the removals are passed on. */
    method DistillDestroys()
      modifies this`renderState
      ensures renderState == old(renderState).(
        destroyedPanes := old(renderState).destroyedPanes + PanesDestroyed(pending.structuralOps),
        destroyedPopups := old(renderState).destroyedPopups + PopupsDestroyed(pending.structuralOps),
        destroyedEmbeddeds := old(renderState).destroyedEmbeddeds + EmbeddedsDestroyed(pending.structuralOps))
    {
      hide PaneOf, PopupOf, EmbeddedOf;
      var ops := pending.structuralOps;
      for i := 0 to |ops|
        invariant renderState == old(renderState).(
          destroyedPanes := old(renderState).destroyedPanes + PanesDestroyed(ops[..i]),
          destroyedPopups := old(renderState).destroyedPopups + PopupsDestroyed(ops[..i]),
          destroyedEmbeddeds := old(renderState).destroyedEmbeddeds + EmbeddedsDestroyed(ops[..i]))
      {
        DestroyedLast(ops[..i + 1]);
        assert ops[..i + 1][..i] == ops[..i];
        Regroup(old(renderState).destroyedPanes, PanesDestroyed(ops[..i]), PaneOf(ops[i]));
        Regroup(old(renderState).destroyedPopups, PopupsDestroyed(ops[..i]), PopupOf(ops[i]));
        Regroup(old(renderState).destroyedEmbeddeds, EmbeddedsDestroyed(ops[..i]), EmbeddedOf(ops[i]));
        PassOn(ops[i]);
      }
      assert ops[..|ops|] == ops;
    }

    method PassOn(op: StructuralOp)
      modifies this`renderState
      ensures renderState == old(renderState).(
        destroyedPanes := old(renderState).destroyedPanes + PaneOf(op),
        destroyedPopups := old(renderState).destroyedPopups + PopupOf(op),
        destroyedEmbeddeds := old(renderState).destroyedEmbeddeds + EmbeddedOf(op))
    {
      match op {
        case DestroyPane(p) =>
          renderState := renderState.(destroyedPanes := renderState.destroyedPanes + [p]);
        case DestroyPopup(p, n) =>
          renderState := renderState.(destroyedPopups := renderState.destroyedPopups + [Key(p, n)]);
        case DestroyEmbedded(p, n) =>
          renderState := renderState.(destroyedEmbeddeds := renderState.destroyedEmbeddeds + [Key(p, n)]);
        case _ =>
      }
      assert renderState.destroyedPanes == old(renderState).destroyedPanes + PaneOf(op);
      assert renderState.destroyedPopups == old(renderState).destroyedPopups + PopupOf(op);
      assert renderState.destroyedEmbeddeds == old(renderState).destroyedEmbeddeds + EmbeddedOf(op);
    }

    /** The render thread takes a copy and clears the one-shot requests, unless the
        framebuffer has no area. */
    method SnapshotUnderLock(fbWidth: nat, fbHeight: nat) returns (ok: bool, out: OneShot)
      requires Accounted(St())
      modifies this`renderState, this`delivered
      ensures St() == Next(old(St()), Snapshot(fbWidth, fbHeight)) && Accounted(St())
      ensures ok == Accepted(Snapshot(fbWidth, fbHeight)) && (ok ==> out == old(renderState))
    {
      StepKeepsAccount(St(), Snapshot(fbWidth, fbHeight));
      if fbWidth == 0 || fbHeight == 0 { return false, NOTHING; }
      out := renderState;
      renderState := NOTHING;
      delivered := delivered + [out];
      ok := true;
    }
  }
}
