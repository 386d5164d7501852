/** Deferred destruction between the main thread and the render thread, as interleaved
    steps (src/platform/Graveyard.h:12-25, src/platform/Platform_EventLoop.cpp:368-402,
    :535-567, :850-877, :899-900, src/platform/RenderThread.h:55-67).  A step is what one
    thread does between two synchronisations with the other. */
module FrameProtocol {
  import opened Graveyards

  /** What the render thread is doing: nothing, a frame that has not taken a snapshot or
      was refused one, or a frame holding the pointers of its snapshot. */
  datatype Frame = Idle | Begun | Holding(pointers: set<Obj>)

  datatype World = World(
    live: set<Obj>,        // owned by the pane tree
    evicted: set<Obj>,     // set aside by a parse, still owned by their pane
    hand: seq<Entry>,      // extracted and stamped, not yet in the queue
    grave: seq<Entry>,     // the deferred destruction queue
    freed: seq<Obj>,       // everything freed so far, in order
    shadow: set<Obj>,      // pointers in the shadow copy of the pane list
    frame: Frame,
    completed: nat,        // the completed-frames counter
    snapshotAt: nat,       // its value when the latest snapshot was taken
    parsing: multiset<Obj> // parses in flight
  )

  datatype Step =
    | Create(x: Obj)
    | Evict(x: Obj)
    | Extract(x: Obj, stamp: nat)
    | Defer
    | Rebuild(panes: set<Obj>)
    | BeginFrame
    | Snapshot(accepted: bool)
    | EndFrame
    | Sweep(seen: nat)
    | BeginParse(x: Obj)
    | EndParse(x: Obj)

  function Busy(parsing: multiset<Obj>): set<Obj> { set x | x in parsing }

  /** How often each object is owned. */
  function Owned(w: World): multiset<Obj> {
    multiset(w.live) + multiset(w.evicted) + multiset(Objects(w.hand)) + multiset(Objects(w.grave)) + multiset(w.freed)
  }

  /** Whether a step may happen.  The stamp is the counter read under the render mutex:
      it counts at least the frames that ended before the latest snapshot.  A sweep may
      see the counter late. */
  predicate Enabled(w: World, s: Step) {
    match s
    case Create(x) => x !in Owned(w)
    case Evict(x) => x in w.live
    case Extract(x, stamp) => (x in w.live || x in w.evicted) && w.snapshotAt <= stamp <= w.completed
    case Defer => w.hand != []
    case Rebuild(panes) => panes <= w.live
    case BeginFrame => w.frame.Idle?
    case Snapshot(_) => w.frame.Begun?
    case EndFrame => !w.frame.Idle?
    case Sweep(seen) => seen <= w.completed
    case BeginParse(x) => x in Owned(w) && x !in w.freed
    case EndParse(x) => x in w.parsing
  }

  function Next(w: World, s: Step): World
    requires Enabled(w, s)
  {
    match s
    case Create(x) => w.(live := w.live + {x})
    case Evict(x) => w.(live := w.live - {x}, evicted := w.evicted + {x})
    case Extract(x, stamp) =>
      w.(live := w.live - {x}, evicted := w.evicted - {x}, shadow := w.shadow - {x}, hand := w.hand + [Entry(stamp, x)])
    case Defer => w.(hand := w.hand[1..], grave := w.grave + [w.hand[0]])
    case Rebuild(panes) => w.(shadow := panes)
    case BeginFrame => w.(frame := Begun)
    case Snapshot(accepted) => if accepted then w.(frame := Holding(w.shadow), snapshotAt := w.completed) else w
    case EndFrame => w.(frame := Idle, completed := w.completed + 1)
    case Sweep(seen) =>
      var busy := Busy(w.parsing);
      w.(grave := Kept(w.grave, seen, busy), freed := w.freed + Swept(w.grave, seen, busy))
    case BeginParse(x) => w.(parsing := w.parsing + multiset{x})
    case EndParse(x) => w.(parsing := w.parsing - multiset{x})
  }

  // ---------------------------------------------------------------- safety

  /** A staged entry that the running frame keeps from being freed. */
  ghost predicate Guarded(w: World, x: Obj) {
    exists e :: (e in w.hand || e in w.grave) && e.obj == x && e.stamp >= w.completed
  }

  ghost predicate Once(w: World) {
    forall x :: Owned(w)[x] <= 1
  }

  ghost predicate FrameSound(w: World) {
    w.frame.Holding? ==>
      && w.snapshotAt == w.completed
      && forall x :: x in w.frame.pointers ==> x in w.live || x in w.evicted || Guarded(w, x)
  }

  ghost predicate ParseSound(w: World) {
    forall x :: x in w.parsing ==> x in Owned(w) && x !in w.freed
  }

  ghost predicate Inv(w: World) {
    && Once(w) && FrameSound(w) && ParseSound(w)
    && w.shadow <= w.live + w.evicted && w.snapshotAt <= w.completed
  }

  /** No freed object is in the snapshot of a frame still running or has a parse in
      flight, and no object was freed twice. */
  ghost predicate Safe(w: World) {
    && (w.frame.Holding? ==> forall x :: x in w.frame.pointers ==> x !in w.freed)
    && (forall x :: x in w.parsing ==> x !in w.freed)
    && (forall i, j :: 0 <= i < j < |w.freed| ==> w.freed[i] != w.freed[j])
  }

  lemma {:induction false} DuplicateCounts(s: seq<Obj>, i: nat, j: nat)
    requires i < j < |s| && s[i] == s[j]
    ensures multiset(s)[s[i]] >= 2
  {
    assert s == s[..j] + s[j..];
    assert s[i] in s[..j] && s[j] in s[j..];
  }

  lemma StagedCounts(s: seq<Entry>, e: Entry)
    requires e in s
    ensures e.obj in multiset(Objects(s))
  {
    var i :| 0 <= i < |s| && s[i] == e;
    assert Objects(s)[i] == e.obj;
  }

  lemma InvSafe(w: World)
    requires Inv(w)
    ensures Safe(w)
  {
    forall i, j | 0 <= i < j < |w.freed| ensures w.freed[i] != w.freed[j] {
      assert Owned(w)[w.freed[i]] <= 1;
      if w.freed[i] == w.freed[j] { DuplicateCounts(w.freed, i, j); }
    }
    if w.frame.Holding? {
      forall x | x in w.frame.pointers ensures x !in w.freed {
        assert Owned(w)[x] <= 1;
        assert x in w.freed ==> x in multiset(w.freed);
        if Guarded(w, x) {
          var e :| (e in w.hand || e in w.grave) && e.obj == x && e.stamp >= w.completed;
          if e in w.hand { StagedCounts(w.hand, e); } else { StagedCounts(w.grave, e); }
        }
      }
    }
  }

  lemma ObjectsMore(s: seq<Entry>, e: Entry)
    ensures Objects(s + [e]) == Objects(s) + [e.obj]
    ensures multiset(Objects(s + [e])) == multiset(Objects(s)) + multiset{e.obj}
  {
  }

  lemma SweptMore(s: seq<Entry>, e: Entry, seen: nat, busy: set<Obj>)
    ensures Kept(s + [e], seen, busy) == if Ripe(e, seen, busy) then Kept(s, seen, busy) else Kept(s, seen, busy) + [e]
    ensures Swept(s + [e], seen, busy) == if Ripe(e, seen, busy) then Swept(s, seen, busy) + [e.obj] else Swept(s, seen, busy)
  {
    assert (s + [e])[..|s|] == s;
  }

  lemma MultisetMore(s: seq<Obj>, x: Obj)
    ensures multiset(s + [x]) == multiset(s) + multiset{x}
  {
  }

  /** A sweep moves objects from the queue to the freed ones, losing none. */
  lemma {:induction false} SweepConserves(s: seq<Entry>, seen: nat, busy: set<Obj>)
    ensures multiset(Objects(Kept(s, seen, busy))) + multiset(Swept(s, seen, busy)) == multiset(Objects(s))
  {
    if s != [] {
      hide Objects, Ripe;
      var t, last := s[..|s| - 1], s[|s| - 1];
      assert s == t + [last];
      SweepConserves(t, seen, busy);
      ObjectsMore(t, last);
      SweptMore(t, last, seen, busy);
      ObjectsMore(Kept(t, seen, busy), last);
      MultisetMore(Swept(t, seen, busy), last.obj);
      hide Kept, Swept;
    }
  }

  lemma SweepKeepsInv(w: World, seen: nat)
    requires Inv(w) && seen <= w.completed
    ensures Inv(Next(w, Sweep(seen)))
  {
    var v, busy := Next(w, Sweep(seen)), Busy(w.parsing);
    SweepConserves(w.grave, seen, busy);
    SweepSplits(w.grave, seen, busy);
    assert Owned(v) == Owned(w);
    forall x | x in v.parsing ensures x !in v.freed {
      assert x in busy;
    }
    if v.frame.Holding? {
      forall x | x in v.frame.pointers && Guarded(w, x) ensures Guarded(v, x) {
        var e :| (e in w.hand || e in w.grave) && e.obj == x && e.stamp >= w.completed;
        assert e in v.hand || e in v.grave;
      }
    }
  }

  lemma ExtractOwned(w: World, x: Obj, stamp: nat)
    requires Once(w) && Enabled(w, Extract(x, stamp))
    ensures Owned(Next(w, Extract(x, stamp))) == Owned(w)
  {
    var v := Next(w, Extract(x, stamp));
    assert Objects(v.hand) == Objects(w.hand) + [x];
    assert multiset(v.live) + multiset(v.evicted) + multiset{x} == multiset(w.live) + multiset(w.evicted) by {
      assert Owned(w)[x] <= 1;
    }
  }

  lemma ExtractKeepsInv(w: World, x: Obj, stamp: nat)
    requires Inv(w) && Enabled(w, Extract(x, stamp))
    ensures Inv(Next(w, Extract(x, stamp)))
  {
    hide Owned, Objects;
    ExtractOwned(w, x, stamp);
    var v := Next(w, Extract(x, stamp));
    if v.frame.Holding? {
      forall y | y in v.frame.pointers ensures y in v.live || y in v.evicted || Guarded(v, y) {
        if y == x {
          assert Entry(stamp, x) in v.hand;
        } else if Guarded(w, y) {
          var e :| (e in w.hand || e in w.grave) && e.obj == y && e.stamp >= w.completed;
          assert e in v.hand || e in v.grave;
        }
      }
    }
  }

  lemma DeferOwned(w: World)
    requires w.hand != []
    ensures Owned(Next(w, Step.Defer)) == Owned(w)
    ensures forall e :: e in w.hand || e in w.grave ==> e in Next(w, Step.Defer).hand || e in Next(w, Step.Defer).grave
  {
    var v := Next(w, Step.Defer);
    assert w.hand == [w.hand[0]] + w.hand[1..];
    assert Objects(w.hand) == [w.hand[0].obj] + Objects(v.hand);
    assert Objects(v.grave) == Objects(w.grave) + [w.hand[0].obj];
  }

  lemma DeferKeepsInv(w: World)
    requires Inv(w) && Enabled(w, Step.Defer)
    ensures Inv(Next(w, Step.Defer))
  {
    hide Owned, Objects;
    DeferOwned(w);
    var v := Next(w, Step.Defer);
    if v.frame.Holding? {
      forall y | y in v.frame.pointers && Guarded(w, y) ensures Guarded(v, y) {
        var e :| (e in w.hand || e in w.grave) && e.obj == y && e.stamp >= w.completed;
        assert e in v.hand || e in v.grave;
      }
    }
  }

  lemma CreateKeepsInv(w: World, x: Obj)
    requires Inv(w) && Enabled(w, Create(x))
    ensures Inv(Next(w, Create(x)))
  {
    var v := Next(w, Create(x));
    assert multiset(v.live) == multiset(w.live) + multiset{x};
    assert Owned(v) == Owned(w) + multiset{x};
    if v.frame.Holding? {
      forall y | y in v.frame.pointers && Guarded(w, y) ensures Guarded(v, y) {
        var e :| (e in w.hand || e in w.grave) && e.obj == y && e.stamp >= w.completed;
        assert e in v.hand || e in v.grave;
      }
    }
  }

  lemma EvictKeepsInv(w: World, x: Obj)
    requires Inv(w) && Enabled(w, Evict(x))
    ensures Inv(Next(w, Evict(x)))
  {
    var v := Next(w, Evict(x));
    assert Owned(w)[x] <= 1;
    assert multiset(v.live) + multiset(v.evicted) == multiset(w.live) + multiset(w.evicted);
    assert Owned(v) == Owned(w);
    if v.frame.Holding? {
      forall y | y in v.frame.pointers && Guarded(w, y) ensures Guarded(v, y) {
        var e :| (e in w.hand || e in w.grave) && e.obj == y && e.stamp >= w.completed;
        assert e in v.hand || e in v.grave;
      }
    }
  }

  lemma OtherStepKeepsInv(w: World, s: Step)
    requires Inv(w) && Enabled(w, s) && !s.Sweep? && !s.Extract? && !s.Defer? && !s.Create? && !s.Evict?
    ensures Inv(Next(w, s))
  {
    var v := Next(w, s);
    assert Owned(v) == Owned(w);
    if v.frame.Holding? && w.frame.Holding? {
      forall y | y in v.frame.pointers && Guarded(w, y) ensures Guarded(v, y) {
        var e :| (e in w.hand || e in w.grave) && e.obj == y && e.stamp >= w.completed;
        assert e in v.hand || e in v.grave;
      }
    }
  }

  lemma StepKeepsInv(w: World, s: Step)
    requires Inv(w) && Enabled(w, s)
    ensures Inv(Next(w, s))
  {
    hide Once, FrameSound, ParseSound, Next, Owned;
    match s
    case Sweep(seen) => SweepKeepsInv(w, seen);
    case Extract(x, stamp) => ExtractKeepsInv(w, x, stamp);
    case Defer => DeferKeepsInv(w);
    case Create(x) => CreateKeepsInv(w, x);
    case Evict(x) => EvictKeepsInv(w, x);
    case _ => OtherStepKeepsInv(w, s);
  }

  // ---------------------------------------------------------------- runs

  function Start(): World {
    World({}, {}, [], [], [], {}, Idle, 0, 0, multiset{})
  }

  /** The worlds of a run: any interleaving of enabled steps. */
  ghost predicate Run(worlds: seq<World>, steps: seq<Step>) {
    && |worlds| == |steps| + 1
    && worlds[0] == Start()
    && forall i :: 0 <= i < |steps| ==> Enabled(worlds[i], steps[i]) && worlds[i + 1] == Next(worlds[i], steps[i])
  }

  lemma {:induction false} RunKeepsInv(worlds: seq<World>, steps: seq<Step>, k: nat)
    requires Run(worlds, steps) && k < |worlds|
    ensures Inv(worlds[k])
  {
    if k > 0 {
      RunKeepsInv(worlds, steps, k - 1);
      StepKeepsInv(worlds[k - 1], steps[k - 1]);
    }
  }

  /** Deferred destruction is safe in every interleaving. */
  lemma RunSafe(worlds: seq<World>, steps: seq<Step>, k: nat)
    requires Run(worlds, steps) && k < |worlds|
    ensures Safe(worlds[k])
  {
    RunKeepsInv(worlds, steps, k);
    InvSafe(worlds[k]);
  }

  /** Nothing stays in the queue for ever: once a frame has ended since the entry was
      staged and no parse runs on the object, the next sweep that sees it frees it. */
  lemma SweepFreesRipe(w: World, e: Entry, seen: nat)
    requires Inv(w) && e in w.grave && seen <= w.completed
    ensures e.obj in Next(w, Sweep(seen)).freed <==> e.stamp < seen && e.obj !in w.parsing
  {
    hide Kept, Swept, Objects, FrameSound, ParseSound;
    var busy := Busy(w.parsing);
    SweepSplits(w.grave, seen, busy);
    StagedCounts(w.grave, e);
    assert Owned(w)[e.obj] <= 1;
    if e.obj in Swept(w.grave, seen, busy) {
      var f :| f in w.grave && Ripe(f, seen, busy) && f.obj == e.obj;
      if f != e { TwiceStaged(w.grave, e, f); }
    }
  }

  lemma TwiceStaged(s: seq<Entry>, e: Entry, f: Entry)
    requires e in s && f in s && e != f && e.obj == f.obj
    ensures multiset(Objects(s))[e.obj] >= 2
  {
    var i :| 0 <= i < |s| && s[i] == e;
    var j :| 0 <= j < |s| && s[j] == f;
    if i < j { DuplicateCounts(Objects(s), i, j); } else { DuplicateCounts(Objects(s), j, i); }
  }

  /** The queue freed at shutdown without a look at stamps or parses. */
  function Drained(w: World): World {
    w.(grave := [], freed := w.freed + Objects(w.grave))
  }

  /** Draining the queue at shutdown, when no frame runs, is safe exactly when no queued
      object is being parsed; the drain itself does not look. */
  lemma DrainSafeIff(w: World)
    requires Inv(w) && w.frame.Idle? && w.hand == []
    ensures Safe(Drained(w)) <==>
      forall e :: e in w.grave ==> e.obj !in w.parsing
  {
    var v := Drained(w);
    assert multiset(v.freed) == multiset(w.freed) + multiset(Objects(w.grave));
    forall i, j | 0 <= i < j < |v.freed| ensures v.freed[i] != v.freed[j] {
      assert Owned(w)[v.freed[i]] <= 1;
      if v.freed[i] == v.freed[j] { DuplicateCounts(v.freed, i, j); }
    }
    if x :| x in w.parsing && x in v.freed {
      assert x in Objects(w.grave);
      var k :| 0 <= k < |w.grave| && Objects(w.grave)[k] == x;
      assert w.grave[k] in w.grave && w.grave[k].obj == x;
    }
    if e :| e in w.grave && e.obj in w.parsing {
      StagedCounts(w.grave, e);
      assert e.obj in v.freed by { assert e.obj in multiset(v.freed); }
    }
  }

  /** A pane in the middle of a parse. */
  function Parsed(x: Obj): World {
    Start().(live := {x}, parsing := multiset{x})
  }

  lemma ParseBegins(x: Obj)
    ensures Enabled(Start(), Create(x)) && Next(Start(), Create(x)) == Start().(live := {x})
    ensures Enabled(Start().(live := {x}), BeginParse(x)) && Next(Start().(live := {x}), BeginParse(x)) == Parsed(x)
  {
    assert x in multiset({x});
  }

  lemma ParsedLeaves(x: Obj)
    ensures Enabled(Parsed(x), Extract(x, 0))
    ensures Next(Parsed(x), Extract(x, 0)) == Parsed(x).(live := {}, hand := [Entry(0, x)])
    ensures Enabled(Parsed(x).(live := {}, hand := [Entry(0, x)]), Step.Defer)
    ensures Next(Parsed(x).(live := {}, hand := [Entry(0, x)]), Step.Defer) == Parsed(x).(live := {}, grave := [Entry(0, x)])
  {
  }

  lemma ParsedRun(x: Obj) returns (worlds: seq<World>, steps: seq<Step>)
    ensures Run(worlds, steps) && steps == [Create(x), BeginParse(x), Extract(x, 0), Step.Defer] && |worlds| == 5
    ensures worlds[4] == Parsed(x).(live := {}, grave := [Entry(0, x)])
  {
    hide Next, Enabled;
    ParseBegins(x);
    ParsedLeaves(x);
    var w := Parsed(x).(live := {}, grave := [Entry(0, x)]);
    steps := [Create(x), BeginParse(x), Extract(x, 0), Step.Defer];
    worlds := [Start(), Start().(live := {x}), Parsed(x), Parsed(x).(live := {}, hand := [Entry(0, x)]), w];
  }

  /** Such a state is reached by four steps: a pane is taken out of the tree while it is
      parsed.  No pane that is left is being parsed, which is all the wait before the drain
      looks at. */
  lemma UnsafeDrainReachable(x: Obj) returns (worlds: seq<World>, steps: seq<Step>)
    ensures Run(worlds, steps) && steps == [Create(x), BeginParse(x), Extract(x, 0), Step.Defer]
    ensures var w := worlds[4];
      && w.frame.Idle? && w.hand == [] && w.grave == [Entry(0, x)] && w.parsing == multiset{x}
      && w.live + w.evicted == {} && !Safe(Drained(w))
  {
    hide Next, Enabled, Inv, Safe, Drained, Run;
    worlds, steps := ParsedRun(x);
    RunKeepsInv(worlds, steps, 4);
    assert worlds[4].grave[0].obj in worlds[4].parsing;
    DrainSafeIff(worlds[4]);
  }
}
