/** What a run of the frame protocol leaves behind, told from its steps alone: who owns
    what, what a frame holds, and when an object is freed
    (src/platform/Platform_EventLoop.cpp:368-402, src/platform/Graveyard.h:39-72). */
module FrameLaws {
  import opened Graveyards
  import opened FrameProtocol

  /** How often a step was taken. */
  function Times(steps: seq<Step>, s: Step): nat {
    if steps == [] then 0
    else Times(steps[..|steps| - 1], s) + if steps[|steps| - 1] == s then 1 else 0
  }

  /** What was taken out of the tree, in order. */
  function Extracted(steps: seq<Step>): seq<Entry> {
    if steps == [] then []
    else Extracted(steps[..|steps| - 1]) + match steps[|steps| - 1] case Extract(x, stamp) => [Entry(stamp, x)] case _ => []
  }

  predicate Extracts(s: Step, x: Obj) { s.Extract? && s.x == x }

  predicate Leaves(steps: seq<Step>, x: Obj) {
    exists i :: 0 <= i < |steps| && Extracts(steps[i], x)
  }

  /** One step of a run. */
  lemma Later(worlds: seq<World>, steps: seq<Step>, k: nat)
    requires Run(worlds, steps) && k < |steps|
    ensures Enabled(worlds[k], steps[k]) && worlds[k + 1] == Next(worlds[k], steps[k])
    ensures steps[..k + 1] == steps[..k] + [steps[k]]
  {
    hide Enabled, Next;
  }

  lemma First(worlds: seq<World>, steps: seq<Step>)
    requires Run(worlds, steps)
    ensures worlds[0] == Start() && steps[..0] == []
  {
    hide Enabled, Next;
  }

  lemma TimesMore(past: seq<Step>, s: Step, t: Step)
    ensures Times(past + [s], t) == Times(past, t) + if s == t then 1 else 0
  {
    assert (past + [s])[..|past|] == past;
  }

  lemma ExtractedMore(past: seq<Step>, s: Step)
    ensures Extracted(past + [s]) == Extracted(past) + if s.Extract? then [Entry(s.stamp, s.x)] else []
  {
    assert (past + [s])[..|past|] == past;
  }

  // ---------------------------------------------------------------- counts

  lemma CountStep(w: World, s: Step, x: Obj)
    requires Enabled(w, s)
    ensures Next(w, s).completed == w.completed + if s == EndFrame then 1 else 0
    ensures Next(w, s).parsing[x] + (if s == EndParse(x) then 1 else 0) == w.parsing[x] + if s == BeginParse(x) then 1 else 0
  {
    hide Kept, Swept;
  }

  /** The counter counts the frames that ended. */
  lemma {:induction false} FramesCounted(worlds: seq<World>, steps: seq<Step>, k: nat)
    requires Run(worlds, steps) && k < |worlds|
    ensures worlds[k].completed == Times(steps[..k], EndFrame)
  {
    hide Next, Enabled;
    if k > 0 {
      FramesCounted(worlds, steps, k - 1);
      Later(worlds, steps, k - 1);
      hide Run;
      TimesMore(steps[..k - 1], steps[k - 1], EndFrame);
      CountStep(worlds[k - 1], steps[k - 1], 0);
    } else {
      First(worlds, steps);
    }
  }

  /** The parses in flight are those begun and not yet ended. */
  lemma {:induction false} ParsesCounted(worlds: seq<World>, steps: seq<Step>, k: nat, x: Obj)
    requires Run(worlds, steps) && k < |worlds|
    ensures Times(steps[..k], BeginParse(x)) == worlds[k].parsing[x] + Times(steps[..k], EndParse(x))
  {
    hide Next, Enabled;
    if k > 0 {
      ParsesCounted(worlds, steps, k - 1, x);
      Later(worlds, steps, k - 1);
      hide Run;
      TimesMore(steps[..k - 1], steps[k - 1], BeginParse(x));
      TimesMore(steps[..k - 1], steps[k - 1], EndParse(x));
      CountStep(worlds[k - 1], steps[k - 1], x);
    } else {
      First(worlds, steps);
    }
  }

  // ---------------------------------------------------------------- ownership

  lemma MemberMore(past: seq<Step>, s: Step, t: Step, x: Obj)
    ensures t in past + [s] <==> t in past || s == t
    ensures Leaves(past + [s], x) <==> Leaves(past, x) || Extracts(s, x)
  {
    var now := past + [s];
    if i :| 0 <= i < |past| && Extracts(past[i], x) { assert Extracts(now[i], x); }
    if Extracts(s, x) { assert Extracts(now[|past|], x); }
  }

  lemma SweepOwned(w: World, seen: nat)
    requires Enabled(w, Sweep(seen))
    ensures Owned(Next(w, Sweep(seen))) == Owned(w)
  {
    hide Kept, Swept, Objects;
    var swept := Swept(w.grave, seen, Busy(w.parsing));
    SweepConserves(w.grave, seen, Busy(w.parsing));
    assert multiset(w.freed + swept) == multiset(w.freed) + multiset(swept);
  }

  lemma EvictOwned(w: World, x: Obj)
    requires Once(w) && Enabled(w, Evict(x))
    ensures Owned(Next(w, Evict(x))) == Owned(w)
  {
    hide Objects;
    var v := Next(w, Evict(x));
    assert Owned(w)[x] <= 1;
    assert multiset(v.live) + multiset(v.evicted) == multiset(w.live) + multiset(w.evicted);
  }

  /** Only a creation brings in an object, and nothing takes one away. */
  lemma OwnedStep(w: World, s: Step, x: Obj)
    requires Inv(w) && Enabled(w, s)
    ensures x in Owned(Next(w, s)) <==> x in Owned(w) || s == Create(x)
  {
    hide Once, FrameSound, ParseSound, Kept, Swept, Objects;
    match s
    case Extract(y, stamp) => hide Next, Owned; ExtractOwned(w, y, stamp);
    case Evict(y) => hide Next, Owned; EvictOwned(w, y);
    case Defer => hide Next, Owned; DeferOwned(w);
    case Sweep(seen) => hide Next, Owned; SweepOwned(w, seen);
    case _ =>
  }

  /** What the tree owns after a step, set aside or not. */
  lemma TreeStep(w: World, s: Step, x: Obj)
    requires Inv(w) && Enabled(w, s)
    ensures var v := Next(w, s);
      && (x in v.live || x in v.evicted <==> (x in w.live || x in w.evicted || s == Create(x)) && !Extracts(s, x))
      && (x in v.evicted <==> (x in w.evicted || s == Evict(x)) && !Extracts(s, x))
      && (s == Create(x) ==> x !in Owned(w))
      && (Extracts(s, x) ==> x in w.live || x in w.evicted)
      && (s == Evict(x) ==> x in w.live)
      && (x in w.live || x in w.evicted ==> x in Owned(w))
  {
    hide Inv, Kept, Swept;
  }

  /** The tree owns what was created and not taken out, and of that, what a parse set
      aside is set aside; nothing created is ever lost. */
  lemma {:induction false} OwnedIff(worlds: seq<World>, steps: seq<Step>, k: nat, x: Obj)
    requires Run(worlds, steps) && k < |worlds|
    ensures x in Owned(worlds[k]) <==> Create(x) in steps[..k]
    ensures x in worlds[k].live || x in worlds[k].evicted <==> Create(x) in steps[..k] && !Leaves(steps[..k], x)
    ensures x in worlds[k].evicted <==> Evict(x) in steps[..k] && !Leaves(steps[..k], x)
    ensures Leaves(steps[..k], x) || Evict(x) in steps[..k] ==> Create(x) in steps[..k]
  {
    if k > 0 {
      OwnedIff(worlds, steps, k - 1, x);
      Later(worlds, steps, k - 1);
      RunKeepsInv(worlds, steps, k - 1);
      hide Run, Inv, Next, Enabled, Owned, Leaves;
      MemberMore(steps[..k - 1], steps[k - 1], Create(x), x);
      MemberMore(steps[..k - 1], steps[k - 1], Evict(x), x);
      OwnedStep(worlds[k - 1], steps[k - 1], x);
      TreeStep(worlds[k - 1], steps[k - 1], x);
    } else {
      First(worlds, steps);
    }
  }

  // ---------------------------------------------------------------- frames

  lemma ShadowStep(w: World, s: Step, x: Obj)
    requires Enabled(w, s) && !s.Rebuild?
    ensures x in Next(w, s).shadow <==> x in w.shadow && !Extracts(s, x)
  {
    hide Kept, Swept;
  }

  lemma RebuildShows(w: World, s: Step)
    requires Enabled(w, s) && s.Rebuild?
    ensures Next(w, s).shadow == s.panes
  {
  }

  lemma {:induction false} ShadowIs(worlds: seq<World>, steps: seq<Step>, r: nat, k: nat, x: Obj)
    requires Run(worlds, steps) && r < k < |worlds| && steps[r].Rebuild? && forall i :: r < i < k ==> !steps[i].Rebuild?
    ensures x in worlds[k].shadow <==> x in steps[r].panes && forall i :: r < i < k ==> !Extracts(steps[i], x)
  {
    hide Next, Enabled, Extracts;
    Later(worlds, steps, k - 1);
    if k > r + 1 {
      ShadowIs(worlds, steps, r, k - 1, x);
      hide Run;
      ShadowStep(worlds[k - 1], steps[k - 1], x);
    } else {
      hide Run;
      RebuildShows(worlds[r], steps[r]);
    }
  }

  lemma FrameStep(w: World, s: Step)
    requires Enabled(w, s) && w.frame.Holding? && !s.EndFrame?
    ensures Next(w, s).frame == w.frame
  {
    hide Kept, Swept;
  }

  lemma SnapshotTakes(w: World)
    requires Enabled(w, Snapshot(true))
    ensures Next(w, Snapshot(true)).frame == Holding(w.shadow)
  {
  }

  /** A frame holds the panes of the last rebuild before its snapshot, but for those taken
      out in between, and holds them until it ends. */
  lemma {:induction false} FrameHolds(worlds: seq<World>, steps: seq<Step>, r: nat, k: nat, m: nat, x: Obj)
    requires Run(worlds, steps) && r < k < m < |worlds| && steps[r].Rebuild? && forall i :: r < i < k ==> !steps[i].Rebuild?
    requires steps[k] == Snapshot(true) && forall i :: k < i < m ==> !steps[i].EndFrame?
    ensures worlds[m].frame.Holding?
    ensures x in worlds[m].frame.pointers <==> x in steps[r].panes && forall i :: r < i < k ==> !Extracts(steps[i], x)
  {
    hide Next, Enabled, Extracts;
    Later(worlds, steps, m - 1);
    if m > k + 1 {
      FrameHolds(worlds, steps, r, k, m - 1, x);
      hide Run;
      FrameStep(worlds[m - 1], steps[m - 1]);
    } else {
      ShadowIs(worlds, steps, r, k, x);
      hide Run;
      SnapshotTakes(worlds[k]);
    }
  }

  // ---------------------------------------------------------------- freeing

  lemma HandStep(w: World, s: Step)
    requires Enabled(w, s)
    ensures var more := if s.Extract? then [Entry(s.stamp, s.x)] else [];
      Next(w, s).hand == if s == Step.Defer then w.hand[1..] else w.hand + more
    ensures s == Step.Defer ==> w.hand != []
  {
    hide Kept, Swept;
  }

  /** The hand holds what was taken out and not yet passed on, in that order, and what was
      passed on is in the queue or freed. */
  ghost predicate InOrder(w: World, past: seq<Step>) {
    var all, n := Extracted(past), Times(past, Step.Defer);
    && n <= |all| && w.hand == all[n..]
    && forall i :: 0 <= i < n ==> Passed(w, all[i])
  }

  predicate Passed(w: World, e: Entry) { e in w.grave || e.obj in w.freed }

  lemma PassedStays(w: World, s: Step, e: Entry)
    requires Inv(w) && Enabled(w, s) && Passed(w, e)
    ensures Passed(Next(w, s), e)
  {
    hide Inv, Kept, Swept;
    match s
    case Sweep(seen) => SweepSplits(w.grave, seen, Busy(w.parsing));
    case _ =>
  }

  lemma DeferPasses(w: World)
    requires Enabled(w, Step.Defer)
    ensures w.hand != [] && Passed(Next(w, Step.Defer), w.hand[0])
  {
    var v := Next(w, Step.Defer);
    assert v.grave[|w.grave|] == w.hand[0];
  }

  lemma OrderStep(w: World, past: seq<Step>, s: Step)
    requires Inv(w) && Enabled(w, s) && InOrder(w, past)
    ensures InOrder(Next(w, s), past + [s])
  {
    hide Inv, Next, Enabled, Times, Extracted, Passed;
    TimesMore(past, s, Step.Defer);
    ExtractedMore(past, s);
    HandStep(w, s);
    var v, all, n := Next(w, s), Extracted(past), Times(past, Step.Defer);
    forall i | 0 <= i < n ensures Passed(v, all[i]) { PassedStays(w, s, all[i]); }
    if s == Step.Defer { DeferPasses(w); }
  }

  /** Objects are passed on in the order in which they were taken out, and none gets lost. */
  lemma {:induction false} HandInOrder(worlds: seq<World>, steps: seq<Step>, k: nat)
    requires Run(worlds, steps) && k < |worlds|
    ensures InOrder(worlds[k], steps[..k])
  {
    if k > 0 {
      hide Next, Enabled, Inv, InOrder;
      HandInOrder(worlds, steps, k - 1);
      RunKeepsInv(worlds, steps, k - 1);
      Later(worlds, steps, k - 1);
      OrderStep(worlds[k - 1], steps[..k - 1], steps[k - 1]);
    } else {
      First(worlds, steps);
    }
  }

  lemma {:induction false} ExtractedBy(steps: seq<Step>, n: nat)
    requires n <= |steps|
    ensures Extracted(steps[..n]) <= Extracted(steps)
  {
    if n < |steps| {
      ExtractedBy(steps[..|steps| - 1], n);
      assert steps[..|steps| - 1][..n] == steps[..n];
    } else {
      assert steps[..n] == steps;
    }
  }

  /** What was taken out is freed by every sweep that comes once the main thread has passed
      on as many objects as were taken out till then, if it sees that a frame ended since
      and nobody parses the object; otherwise that sweep does not free it. */
  lemma TakenOutIsFreed(worlds: seq<World>, steps: seq<Step>, j: nat, k: nat)
    requires Run(worlds, steps) && j < k < |steps| && steps[j].Extract? && steps[k].Sweep?
    requires |Extracted(steps[..j + 1])| <= Times(steps[..k], Step.Defer)
    ensures var x := steps[j].x;
      x in worlds[k + 1].freed <==> x in worlds[k].freed || (steps[j].stamp < steps[k].seen && Times(steps[..k], BeginParse(x)) == Times(steps[..k], EndParse(x)))
  {
    hide Next, Enabled, Inv, Times, Extracted;
    var e := Entry(steps[j].stamp, steps[j].x);
    HandInOrder(worlds, steps, k);
    RunKeepsInv(worlds, steps, k);
    ParsesCounted(worlds, steps, k, e.obj);
    Later(worlds, steps, k);
    Later(worlds, steps, j);
    hide Run;
    ExtractedMore(steps[..j], steps[j]);
    ExtractedBy(steps[..k], j + 1);
    assert steps[..k][..j + 1] == steps[..j + 1];
    var all := Extracted(steps[..k]);
    assert all[|Extracted(steps[..j])|] == e;
    assert Passed(worlds[k], e);
    FreedStays(worlds[k], steps[k], e.obj);
    if e in worlds[k].grave { SweepFreesRipe(worlds[k], e, steps[k].seen); }
  }

  lemma FreedStays(w: World, s: Step, x: Obj)
    requires Enabled(w, s)
    ensures s.Sweep? ==> s.seen <= w.completed
    ensures s.Extract? ==> s.stamp <= w.completed
    ensures x in w.freed ==> x in Next(w, s).freed
  {
    hide Kept, Swept;
  }

  /** A frame that ended after an object was taken out is enough, if the sweep sees it. */
  lemma FrameEndFrees(worlds: seq<World>, steps: seq<Step>, j: nat, k: nat)
    requires Run(worlds, steps) && j < k < |steps| && steps[j].Extract? && steps[k].Sweep?
    requires |Extracted(steps[..j + 1])| <= Times(steps[..k], Step.Defer)
    requires Times(steps[..j], EndFrame) < steps[k].seen
    requires var x := steps[j].x; Times(steps[..k], BeginParse(x)) == Times(steps[..k], EndParse(x))
    ensures steps[j].x in worlds[k + 1].freed
  {
    hide Next, Enabled, Inv, Times, Extracted;
    TakenOutIsFreed(worlds, steps, j, k);
    FramesCounted(worlds, steps, j);
    Later(worlds, steps, j);
    FreedStays(worlds[j], steps[j], steps[j].x);
  }

  /** What waits in the hand or the queue was taken out. */
  ghost predicate Awaits(w: World, past: seq<Step>) {
    forall e :: e in w.hand || e in w.grave ==> e in Extracted(past)
  }

  lemma AwaitsStep(w: World, past: seq<Step>, s: Step)
    requires Enabled(w, s) && Awaits(w, past)
    ensures Awaits(Next(w, s), past + [s])
  {
    hide Kept, Swept, Extracted;
    ExtractedMore(past, s);
    if s.Sweep? { SweepSplits(w.grave, s.seen, Busy(w.parsing)); }
  }

  lemma {:induction false} AwaitsFor(worlds: seq<World>, steps: seq<Step>, k: nat)
    requires Run(worlds, steps) && k < |worlds|
    ensures Awaits(worlds[k], steps[..k])
  {
    if k > 0 {
      hide Next, Enabled, Awaits;
      AwaitsFor(worlds, steps, k - 1);
      Later(worlds, steps, k - 1);
      AwaitsStep(worlds[k - 1], steps[..k - 1], steps[k - 1]);
    } else {
      First(worlds, steps);
    }
  }

  lemma FreedStep(w: World, s: Step, x: Obj) returns (e: Entry)
    requires Enabled(w, s) && x !in w.freed && x in Next(w, s).freed
    ensures s.Sweep? && e in w.grave && e.obj == x && e.stamp < s.seen && x !in w.parsing
  {
    hide Kept, Swept;
    assert s.Sweep?;
    SweepSplits(w.grave, s.seen, Busy(w.parsing));
    e :| e in w.grave && Ripe(e, s.seen, Busy(w.parsing)) && e.obj == x;
  }

  /** Only what was taken out is freed, by a sweep that saw a later count than the stamp it
      was taken out with, at a moment when nobody parses it. */
  lemma {:induction false} FreedFor(worlds: seq<World>, steps: seq<Step>, k: nat, x: Obj) returns (i: nat, e: Entry)
    requires Run(worlds, steps) && k < |worlds| && x in worlds[k].freed
    ensures i < k && steps[i].Sweep? && e in Extracted(steps[..i]) && e.obj == x && e.stamp < steps[i].seen
    ensures Times(steps[..i], BeginParse(x)) == Times(steps[..i], EndParse(x))
  {
    if k > 0 {
      hide Next, Enabled, Extracted, Times;
      if x in worlds[k - 1].freed {
        i, e := FreedFor(worlds, steps, k - 1, x);
      } else {
        Later(worlds, steps, k - 1);
        i := k - 1;
        e := FreedStep(worlds[i], steps[i], x);
        AwaitsFor(worlds, steps, i);
        ParsesCounted(worlds, steps, i, x);
      }
    } else {
      First(worlds, steps);
    }
  }

  // ---------------------------------------------------------------- a pane's life

  /** A pane that the running frame holds, taken out of the tree and queued. */
  function Closed(x: Obj): World {
    Start().(grave := [Entry(0, x)], frame := Holding({x}))
  }

  lemma Drawn(x: Obj)
    ensures var w := Start().(live := {x}); var v := w.(shadow := {x});
      && Enabled(w, Rebuild({x})) && Next(w, Rebuild({x})) == v
      && Enabled(v, BeginFrame) && Next(v, BeginFrame) == v.(frame := Begun)
      && Enabled(v.(frame := Begun), Snapshot(true)) && Next(v.(frame := Begun), Snapshot(true)) == v.(frame := Holding({x}))
  {
  }

  lemma TakenOut(x: Obj)
    ensures var w := Start().(live := {x}, shadow := {x}, frame := Holding({x})); var v := w.(live := {}, shadow := {}, hand := [Entry(0, x)]);
      && Enabled(w, Extract(x, 0)) && Next(w, Extract(x, 0)) == v
      && Enabled(v, Step.Defer) && Next(v, Step.Defer) == Closed(x)
  {
  }

  lemma SweptOnce(x: Obj, seen: nat)
    ensures Kept([Entry(0, x)], seen, {}) == if seen > 0 then [] else [Entry(0, x)]
    ensures Swept([Entry(0, x)], seen, {}) == if seen > 0 then [x] else []
  {
    NothingToSweep(seen, {});
    assert [Entry(0, x)][..0] == [];
  }

  lemma SweptAtLast(x: Obj)
    ensures var v := Closed(x).(frame := Idle, completed := 1);
      && Enabled(Closed(x), Sweep(0)) && Next(Closed(x), Sweep(0)) == Closed(x)
      && Enabled(Closed(x), EndFrame) && Next(Closed(x), EndFrame) == v
      && Enabled(v, Sweep(1)) && Next(v, Sweep(1)) == v.(grave := [], freed := [x])
  {
    hide Kept, Swept;
    SweptOnce(x, 0);
    SweptOnce(x, 1);
    assert Busy(multiset{}) == {};
  }

  /** A pane closed while a frame draws it outlives the frame and not the next sweep. */
  lemma LifeOfAPane(x: Obj) returns (worlds: seq<World>, steps: seq<Step>)
    ensures Run(worlds, steps) && |worlds| == 10
    ensures steps == [Create(x), Rebuild({x}), BeginFrame, Snapshot(true), Extract(x, 0), Step.Defer, Sweep(0), EndFrame, Sweep(1)]
    ensures worlds[7].frame == Holding({x}) && worlds[7].freed == [] && worlds[9].freed == [x]
  {
    hide Next, Enabled;
    ParseBegins(x);
    Drawn(x);
    TakenOut(x);
    SweptAtLast(x);
    var w := Start().(live := {x});
    var v := w.(shadow := {x});
    var h := v.(frame := Holding({x}));
    var ended := Closed(x).(frame := Idle, completed := 1);
    steps := [Create(x), Rebuild({x}), BeginFrame, Snapshot(true), Extract(x, 0), Step.Defer, Sweep(0), EndFrame, Sweep(1)];
    worlds := [Start(), w, v, v.(frame := Begun), h, h.(live := {}, shadow := {}, hand := [Entry(0, x)]),
               Closed(x), Closed(x), ended, ended.(grave := [], freed := [x])];
  }
}
