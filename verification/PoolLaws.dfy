/** What a run of the worker pool leaves behind, told from its steps alone: tasks start in
    the order in which they were queued, and a task that dispatches waits until that very
    batch returns (src/WorkerPool.h:52-114). */
module PoolLaws {
  import opened WorkerPool

  function Times(steps: seq<Step>, s: Step): nat {
    if steps == [] then 0
    else Times(steps[..|steps| - 1], s) + if steps[|steps| - 1] == s then 1 else 0
  }

  /** What the steps queue, in order. */
  function Queued(steps: seq<Step>): seq<Task> {
    if steps == [] then [] else Queued(steps[..|steps| - 1]) + Adds(steps[|steps| - 1])
  }

  function Adds(s: Step): seq<Task> {
    match s
    case Submit(id) => [Submitted(id)]
    case Dispatch(b, n, _) => seq(n, i requires 0 <= i < n => Item(b, i))
    case _ => []
  }

  /** The tasks whose function was called, in order. */
  function Called(steps: seq<Step>): seq<Task> {
    if steps == [] then []
    else Called(steps[..|steps| - 1]) + match steps[|steps| - 1] case Call(t) => [t] case _ => []
  }

  lemma Later(pools: seq<Pool>, steps: seq<Step>, k: nat)
    requires Run(pools, steps) && k < |steps|
    ensures Enabled(pools[k], steps[k]) && pools[k + 1] == Next(pools[k], steps[k])
    ensures steps[..k + 1] == steps[..k] + [steps[k]]
  {
    hide Enabled, Next;
  }

  lemma More(past: seq<Step>, s: Step, t: Step)
    ensures Times(past + [s], t) == Times(past, t) + if s == t then 1 else 0
    ensures Queued(past + [s]) == Queued(past) + Adds(s)
    ensures Called(past + [s]) == Called(past) + if s.Call? then [s.task] else []
    ensures t in past + [s] <==> t in past || s == t
  {
    assert (past + [s])[..|past|] == past;
  }

  lemma QueueStep(p: Pool, s: Step)
    requires Enabled(p, s)
    ensures s == Take ==> p.queue != [] && Next(p, s).queue == p.queue[1..] && Next(p, s).taken == p.taken + multiset{p.queue[0]}
    ensures s != Take ==> Next(p, s).queue == p.queue + Adds(s)
  {
    hide GoesOn, Waits;
    if s.Dispatch? { assert Items(s.batch, s.size) == Adds(s); }
  }

  lemma CountStep(p: Pool, s: Step)
    requires Enabled(p, s)
    ensures Next(p, s).ran == p.ran + if s.Call? then [s.task] else []
    ensures Next(p, s).exited == p.exited + if s == Exit then 1 else 0
    ensures Next(p, s).stopping <==> p.stopping || s == Stop
  {
    hide Items, GoesOn, Waits;
  }

  ghost predicate InOrder(p: Pool, past: seq<Step>) {
    && Times(past, Take) <= |Queued(past)| && p.queue == Queued(past)[Times(past, Take)..]
    && p.ran == Called(past) && p.exited == Times(past, Exit)
    && (p.stopping <==> Stop in past)
  }

  lemma OrderStep(p: Pool, past: seq<Step>, s: Step)
    requires Enabled(p, s) && InOrder(p, past)
    ensures InOrder(Next(p, s), past + [s])
  {
    hide Enabled, Next, Times, Queued, Called, Adds;
    More(past, s, Take);
    More(past, s, Exit);
    More(past, s, Stop);
    QueueStep(p, s);
    CountStep(p, s);
    if s == Take {
      assert Adds(s) == [] by { NothingAdded(); }
    }
  }

  lemma NothingAdded()
    ensures Adds(Take) == []
  {
  }

  lemma {:induction false} OrderKept(pools: seq<Pool>, steps: seq<Step>, k: nat)
    requires Run(pools, steps) && k < |pools|
    ensures InOrder(pools[k], steps[..k])
  {
    hide Enabled, Next;
    if k > 0 {
      hide InOrder;
      OrderKept(pools, steps, k - 1);
      Later(pools, steps, k - 1);
      OrderStep(pools[k - 1], steps[..k - 1], steps[k - 1]);
    } else {
      assert steps[..0] == [];
    }
  }

  /** First in, first out: the n-th task a worker takes is the n-th that was queued; what is
      left in the queue is the rest, and the functions that ran are those called, in order. */
  lemma FirstInFirstOut(pools: seq<Pool>, steps: seq<Step>, k: nat)
    requires Run(pools, steps) && k < |pools|
    ensures var n := Times(steps[..k], Take);
      && n <= |Queued(steps[..k])| && pools[k].queue == Queued(steps[..k])[n..] && pools[k].ran == Called(steps[..k])
      && (k < |steps| && steps[k] == Take ==>
            n < |Queued(steps[..k])| && pools[k + 1].taken == pools[k].taken + multiset{Queued(steps[..k])[n]})
    ensures pools[k].exited == Times(steps[..k], Exit) && (pools[k].stopping <==> Stop in steps[..k])
  {
    hide Enabled, Next, Times, Queued, Called;
    OrderKept(pools, steps, k);
    if k < |steps| {
      Later(pools, steps, k);
      QueueStep(pools[k], steps[k]);
    }
  }

  // ---------------------------------------------------------------- waiting

  predicate Dispatches(s: Step, t: Task, b: nat) { s.Dispatch? && s.batch == b && s.caller == Some(t) }

  ghost predicate Dispatched(past: seq<Step>, t: Task, b: nat) {
    exists i :: 0 <= i < |past| && Dispatches(past[i], t, b)
  }

  lemma DispatchedMore(past: seq<Step>, s: Step, t: Task, b: nat)
    ensures Dispatched(past + [s], t, b) <==> Dispatched(past, t, b) || Dispatches(s, t, b)
  {
    var now := past + [s];
    if i :| 0 <= i < |past| && Dispatches(past[i], t, b) { assert Dispatches(now[i], t, b); }
    if Dispatches(s, t, b) { assert Dispatches(now[|past|], t, b); }
  }

  predicate WaitsFor(p: Pool, t: Task, b: nat) { t in p.waiting && p.waiting[t] == b }

  lemma WaitsStep(p: Pool, s: Step, t: Task, b: nat)
    requires Enabled(p, s)
    ensures WaitsFor(Next(p, s), t, b) <==> (WaitsFor(p, t, b) || Dispatches(s, t, b)) && s != Return(b)
  {
    hide Items;
  }

  lemma BatchStep(p: Pool, s: Step, b: nat)
    requires Enabled(p, s)
    ensures b in Next(p, s).batches <==> b in p.batches || (s.Dispatch? && s.batch == b)
    ensures s == Return(b) ==> b in p.batches
    ensures s.Dispatch? && s.batch == b ==> b !in p.batches
  {
    hide Items, GoesOn, Waits;
  }

  /** A task waits for a batch exactly from its dispatch to the return of that batch. */
  lemma {:induction false} WaitsIff(pools: seq<Pool>, steps: seq<Step>, k: nat, t: Task, b: nat)
    requires Run(pools, steps) && k < |pools|
    ensures WaitsFor(pools[k], t, b) <==> Dispatched(steps[..k], t, b) && Return(b) !in steps[..k]
    ensures Dispatched(steps[..k], t, b) || Return(b) in steps[..k] ==> b in pools[k].batches
  {
    hide Enabled, Next;
    if k > 0 {
      WaitsIff(pools, steps, k - 1, t, b);
      Later(pools, steps, k - 1);
      hide Run, WaitsFor, Dispatched;
      More(steps[..k - 1], steps[k - 1], Return(b));
      DispatchedMore(steps[..k - 1], steps[k - 1], t, b);
      WaitsStep(pools[k - 1], steps[k - 1], t, b);
      BatchStep(pools[k - 1], steps[k - 1], b);
    } else {
      assert steps[..0] == [];
    }
  }
}
