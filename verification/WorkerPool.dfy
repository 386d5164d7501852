/** The worker pool as interleaved steps of any number of workers, submitters and
    dispatchers (src/WorkerPool.h:26-121).  A step is what one thread does in one locked
    section or with one atomic operation. */
module WorkerPool {

  /** A submitted task, or one item of a batch by its position. */
  datatype Task = Submitted(id: nat) | Item(batch: nat, index: nat)

  datatype Batch = Batch(size: nat, remaining: int, returned: bool)

  datatype Option<T> = None | Some(value: T)

  /** Workers are alike; what counts is how many wait and how many have left, which tasks
      a worker holds until their function has run, and which are not yet counted off. */
  datatype Pool = Pool(
    workers: nat,
    idle: nat,
    exited: nat,
    queue: seq<Task>,
    taken: multiset<Task>,
    finishing: multiset<Task>,
    ran: seq<Task>,            // every call of a task's function, in order
    finished: multiset<Task>,
    enqueued: multiset<Task>,  // everything that was ever queued
    batches: map<nat, Batch>,
    waiting: map<Task, nat>,   // running tasks that wait in a dispatch of their own
    stopping: bool)

  datatype Step =
    | Submit(id: nat)
    | Dispatch(batch: nat, size: nat, caller: Option<Task>)
    | Take
    | Call(task: Task)
    | Finish(task: Task)
    | Return(batch: nat)
    | Stop
    | Exit

  function Start(workers: nat): Pool {
    Pool(workers, workers, 0, [], multiset{}, multiset{}, [], multiset{}, multiset{}, map[], map[], false)
  }

  /** The tasks of a batch in the order they are queued. */
  function Items(batch: nat, size: nat): (r: seq<Task>)
    ensures |r| == size && forall i :: 0 <= i < size ==> r[i] == Item(batch, i)
  {
    seq(size, i requires 0 <= i < size => Item(batch, i))
  }

  /** A task in the middle of its function. */
  predicate Running(p: Pool, t: Task) { t in p.taken && t !in p.waiting }

  /** Once the pool is being destroyed only running tasks can queue more.  Identities are
      fresh, and batches are numbered in the order of their dispatch. */
  ghost predicate Enabled(p: Pool, s: Step) {
    match s
    case Submit(id) => (!p.stopping || exists t :: Running(p, t)) && Submitted(id) !in p.enqueued
    case Dispatch(b, n, caller) =>
      && (if caller.Some? then Running(p, caller.value) else !p.stopping)
      && n > 0 && forall x :: x in p.batches ==> x < b
    case Take => p.idle > 0 && p.queue != []
    case Call(t) => Running(p, t)
    case Finish(t) => t in p.finishing
    case Return(b) => b in p.batches && p.batches[b].remaining == 0 && !p.batches[b].returned
    case Stop => true
    case Exit => p.idle > 0 && p.stopping && p.queue == []
  }

  /** A running task that dispatches waits for its batch, and goes on when it returns. */
  function Waits(p: Pool, caller: Option<Task>, b: nat): map<Task, nat> {
    if caller.Some? then p.waiting[caller.value := b] else p.waiting
  }

  function GoesOn(p: Pool, b: nat): map<Task, nat> {
    map t | t in p.waiting && p.waiting[t] != b :: p.waiting[t]
  }

  ghost function Next(p: Pool, s: Step): Pool
    requires Enabled(p, s)
  {
    match s
    case Submit(id) => p.(queue := p.queue + [Submitted(id)], enqueued := p.enqueued + multiset{Submitted(id)})
    case Dispatch(b, n, caller) =>
      p.(queue := p.queue + Items(b, n), enqueued := p.enqueued + multiset(Items(b, n)),
         batches := p.batches[b := Batch(n, n, false)], waiting := Waits(p, caller, b))
    case Take => p.(idle := p.idle - 1, queue := p.queue[1..], taken := p.taken + multiset{p.queue[0]})
    case Call(t) => p.(taken := p.taken - multiset{t}, ran := p.ran + [t], finishing := p.finishing + multiset{t})
    case Finish(t) =>
      var done := p.(finishing := p.finishing - multiset{t}, finished := p.finished + multiset{t}, idle := p.idle + 1);
      if t.Item? && t.batch in p.batches
      then done.(batches := p.batches[t.batch := p.batches[t.batch].(remaining := p.batches[t.batch].remaining - 1)])
      else done
    case Return(b) => p.(batches := p.batches[b := p.batches[b].(returned := true)], waiting := GoesOn(p, b))
    case Stop => p.(stopping := true)
    case Exit => p.(idle := p.idle - 1, exited := p.exited + 1)
  }

  // ---------------------------------------------------------------- invariant

  /** Queued, about to run, or not yet counted off. */
  function Open(p: Pool): multiset<Task> { multiset(p.queue) + p.taken + p.finishing }

  function Owed(p: Pool, b: nat): set<nat>
    requires b in p.batches
  {
    set i | 0 <= i < p.batches[b].size && Item(b, i) in Open(p)
  }

  /** Every task is queued once and is in one place. */
  ghost predicate Conserved(p: Pool) {
    && (forall t :: p.enqueued[t] <= 1)
    && p.enqueued == multiset(p.queue) + p.taken + multiset(p.ran)
    && multiset(p.ran) == p.finishing + p.finished
  }

  /** The queued items are those of the batches. */
  ghost predicate Known(p: Pool) {
    forall b: nat, i: nat :: Item(b, i) in p.enqueued <==> b in p.batches && i < p.batches[b].size
  }

  /** A counter counts the items still owed. */
  ghost predicate Owing(p: Pool) {
    && (forall b :: b in p.batches ==> p.batches[b].remaining == |Owed(p, b)|)
    && (forall b :: b in p.batches && p.batches[b].returned ==> p.batches[b].remaining == 0)
  }

  ghost predicate Counted(p: Pool) { Known(p) && Owing(p) }

  ghost predicate Staffed(p: Pool) {
    && p.workers == p.idle + |p.taken| + |p.finishing| + p.exited
    && (p.exited > 0 ==> p.stopping)
    && (p.exited == p.workers > 0 ==> p.queue == [])
  }

  /** A waiting task is held by a worker, and its batch is younger than its own. */
  ghost predicate Nested(p: Pool) {
    forall t :: t in p.waiting ==>
      && t in p.taken && p.waiting[t] in p.batches && !p.batches[p.waiting[t]].returned
      && (t.Item? ==> t.batch < p.waiting[t])
  }

  ghost predicate Inv(p: Pool) {
    Conserved(p) && Counted(p) && Staffed(p) && Nested(p)
  }

  lemma {:induction false} ItemsOnce(b: nat, n: nat, t: Task)
    ensures multiset(Items(b, n))[t] == if t.Item? && t.batch == b && t.index < n then 1 else 0
  {
    if n > 0 {
      ItemsOnce(b, n - 1, t);
      assert Items(b, n) == Items(b, n - 1) + [Item(b, n - 1)];
    }
  }

  lemma OwedSame(p: Pool, q: Pool, b: nat)
    requires b in p.batches && b in q.batches && p.batches[b].size == q.batches[b].size
    requires forall i :: 0 <= i < p.batches[b].size ==> (Item(b, i) in Open(p) <==> Item(b, i) in Open(q))
    ensures Owed(p, b) == Owed(q, b)
  {
  }

  lemma SubmitKeeps(p: Pool, id: nat)
    requires Inv(p) && Enabled(p, Submit(id))
    ensures Inv(Next(p, Submit(id)))
  {
    var q := Next(p, Submit(id));
    assert Open(q) == Open(p) + multiset{Submitted(id)};
    forall b | b in p.batches ensures Owed(q, b) == Owed(p, b) { OwedSame(p, q, b); }
  }

  lemma OwedAll(p: Pool, b: nat)
    requires b in p.batches && forall i :: 0 <= i < p.batches[b].size ==> Item(b, i) in Open(p)
    ensures |Owed(p, b)| == p.batches[b].size
  {
    assert Owed(p, b) == Below(p.batches[b].size);
  }

  function Below(n: nat): (r: set<nat>)
    ensures |r| == n && forall i: nat :: i in r <==> i < n
  {
    if n == 0 then {} else Below(n - 1) + {n - 1}
  }

  lemma DispatchEnqueues(p: Pool, b: nat, n: nat, caller: Option<Task>, t: Task)
    requires Conserved(p) && Known(p) && Enabled(p, Dispatch(b, n, caller))
    ensures var q := Next(p, Dispatch(b, n, caller));
      q.enqueued[t] <= 1 && (t in q.enqueued <==> t in p.enqueued || (t.Item? && t.batch == b && t.index < n))
  {
    hide Items;
    ItemsOnce(b, n, t);
  }

  lemma DispatchConserves(p: Pool, b: nat, n: nat, caller: Option<Task>)
    requires Conserved(p) && Known(p) && Enabled(p, Dispatch(b, n, caller))
    ensures Conserved(Next(p, Dispatch(b, n, caller)))
  {
    hide Items, Known, Enabled;
    var q := Next(p, Dispatch(b, n, caller));
    forall t ensures q.enqueued[t] <= 1 { DispatchEnqueues(p, b, n, caller, t); }
    assert multiset(q.queue) == multiset(p.queue) + multiset(Items(b, n));
  }

  lemma DispatchKnows(p: Pool, b: nat, n: nat, caller: Option<Task>)
    requires Conserved(p) && Known(p) && Enabled(p, Dispatch(b, n, caller))
    ensures Known(Next(p, Dispatch(b, n, caller)))
  {
    hide Items, Conserved;
    var q := Next(p, Dispatch(b, n, caller));
    forall x: nat, i: nat ensures Item(x, i) in q.enqueued <==> Item(x, i) in p.enqueued || (x == b && i < n) {
      DispatchEnqueues(p, b, n, caller, Item(x, i));
    }
  }

  lemma DispatchOwes(p: Pool, b: nat, n: nat, caller: Option<Task>)
    requires Owing(p) && Enabled(p, Dispatch(b, n, caller))
    ensures Owing(Next(p, Dispatch(b, n, caller)))
  {
    hide Items;
    var q := Next(p, Dispatch(b, n, caller));
    assert Open(q) == Open(p) + multiset(Items(b, n));
    forall x | x in q.batches ensures q.batches[x].remaining == |Owed(q, x)| {
      forall i | 0 <= i < q.batches[x].size ensures Item(x, i) in Open(q) <==> x == b || Item(x, i) in Open(p) {
        ItemsOnce(b, n, Item(x, i));
      }
      if x == b { OwedAll(q, b); } else { OwedSame(p, q, x); }
    }
  }

  lemma DispatchNests(p: Pool, b: nat, n: nat, caller: Option<Task>)
    requires Conserved(p) && Known(p) && Nested(p) && Enabled(p, Dispatch(b, n, caller))
    ensures Nested(Next(p, Dispatch(b, n, caller)))
  {
    hide Items;
    if caller.Some? && caller.value.Item? {
      assert caller.value in p.enqueued;
      assert Item(caller.value.batch, caller.value.index) in p.enqueued;
    }
  }

  lemma DispatchKeeps(p: Pool, b: nat, n: nat, caller: Option<Task>)
    requires Inv(p) && Enabled(p, Dispatch(b, n, caller))
    ensures Inv(Next(p, Dispatch(b, n, caller)))
  {
    hide Conserved, Known, Owing, Nested, Items;
    DispatchConserves(p, b, n, caller);
    DispatchKnows(p, b, n, caller);
    DispatchOwes(p, b, n, caller);
    DispatchNests(p, b, n, caller);
  }

  /** Moving a task on changes nothing that is counted. */
  lemma MoveKeeps(p: Pool, q: Pool)
    requires Counted(p) && q.batches == p.batches && q.enqueued == p.enqueued && Open(q) == Open(p)
    ensures Counted(q)
  {
    forall b | b in p.batches ensures Owed(q, b) == Owed(p, b) { OwedSame(p, q, b); }
  }

  lemma TakeKeeps(p: Pool)
    requires Inv(p) && Enabled(p, Take)
    ensures Inv(Next(p, Take))
  {
    var q := Next(p, Take);
    assert p.queue == [p.queue[0]] + q.queue;
    MoveKeeps(p, q);
  }

  lemma CallConserves(p: Pool, t: Task)
    requires Conserved(p) && Running(p, t)
    ensures Conserved(Next(p, Call(t))) && Open(Next(p, Call(t))) == Open(p)
  {
    assert multiset(Next(p, Call(t)).ran) == multiset(p.ran) + multiset{t};
  }

  lemma CallKeeps(p: Pool, t: Task)
    requires Inv(p) && Enabled(p, Call(t))
    ensures Inv(Next(p, Call(t)))
  {
    hide Counted, Conserved, Open;
    CallConserves(p, t);
    MoveKeeps(p, Next(p, Call(t)));
  }

  lemma OpenOnce(p: Pool, t: Task)
    requires Conserved(p)
    ensures Open(p)[t] + p.finished[t] == p.enqueued[t] <= 1
  {
  }

  lemma OpenWithout(p: Pool, t: Task)
    requires t in p.finishing
    ensures Open(Next(p, Finish(t))) == Open(p) - multiset{t} && t in Open(p)
  {
    var q := Next(p, Finish(t));
    assert q.queue == p.queue && q.taken == p.taken && q.finishing == p.finishing - multiset{t};
    hide Next;
    OneLess(multiset(p.queue) + p.taken, p.finishing, t);
  }

  lemma OneLess(a: multiset<Task>, b: multiset<Task>, t: Task)
    requires t in b
    ensures a + (b - multiset{t}) == a + b - multiset{t}
  {
  }

  lemma FinishOwes(p: Pool, t: Task, b: nat)
    requires Conserved(p) && Known(p) && Owing(p) && t in p.finishing && b in p.batches
    ensures var q := Next(p, Finish(t));
      && b in q.batches && q.batches[b].size == p.batches[b].size
      && q.batches[b].remaining == |Owed(q, b)| && q.batches[b].returned == p.batches[b].returned
      && (q.batches[b].returned ==> q.batches[b].remaining == 0)
  {
    hide Conserved, Known, Owed, Open;
    var q := Next(p, Finish(t));
    OpenWithout(p, t);
    OpenOnce(p, t);
    if t.Item? && t.batch == b {
      OneLessOwed(p, q, t);
    } else {
      OwedSame(p, q, b);
    }
  }

  lemma OneLessOwed(p: Pool, q: Pool, t: Task)
    requires t.Item? && t.batch in p.batches && t.batch in q.batches && q.batches[t.batch].size == p.batches[t.batch].size
    requires Known(p) && t in p.enqueued && Open(p)[t] == 1 && Open(q) == Open(p) - multiset{t}
    ensures |Owed(q, t.batch)| == |Owed(p, t.batch)| - 1
  {
    assert Item(t.batch, t.index) in p.enqueued;
    assert Owed(q, t.batch) == Owed(p, t.batch) - {t.index};
    assert t.index in Owed(p, t.batch);
  }

  lemma FinishConserves(p: Pool, t: Task)
    requires Conserved(p) && t in p.finishing
    ensures Conserved(Next(p, Finish(t)))
  {
    assert (p.finishing - multiset{t}) + (p.finished + multiset{t}) == p.finishing + p.finished;
  }

  lemma FinishKnows(p: Pool, t: Task)
    requires Known(p) && t in p.finishing
    ensures Known(Next(p, Finish(t)))
  {
  }

  lemma FinishOwing(p: Pool, t: Task)
    requires Conserved(p) && Known(p) && Owing(p) && t in p.finishing
    ensures Owing(Next(p, Finish(t)))
  {
    hide Conserved, Known, Owed, Open;
    var q := Next(p, Finish(t));
    forall b | b in q.batches
      ensures q.batches[b].remaining == |Owed(q, b)| && (q.batches[b].returned ==> q.batches[b].remaining == 0)
    {
      FinishOwes(p, t, b);
    }
  }

  lemma FinishStaffs(p: Pool, t: Task)
    requires Staffed(p) && t in p.finishing
    ensures Staffed(Next(p, Finish(t)))
  {
  }

  lemma FinishNests(p: Pool, t: Task)
    requires Nested(p) && t in p.finishing
    ensures Nested(Next(p, Finish(t)))
  {
    var q := Next(p, Finish(t));
    assert q.waiting == p.waiting && q.taken == p.taken;
    assert forall b :: b in p.batches ==> b in q.batches && q.batches[b].returned == p.batches[b].returned;
    hide Next;
  }

  lemma FinishKeeps(p: Pool, t: Task)
    requires Inv(p) && Enabled(p, Finish(t))
    ensures Inv(Next(p, Finish(t)))
  {
    hide Conserved, Known, Owing, Staffed, Nested, Next;
    FinishConserves(p, t);
    FinishKnows(p, t);
    FinishOwing(p, t);
    FinishStaffs(p, t);
    FinishNests(p, t);
  }

  lemma ReturnKeeps(p: Pool, b: nat)
    requires Inv(p) && Enabled(p, Return(b))
    ensures Inv(Next(p, Return(b)))
  {
    var q := Next(p, Return(b));
    forall x | x in p.batches ensures Owed(q, x) == Owed(p, x) { OwedSame(p, q, x); }
  }

  lemma StepKeepsInv(p: Pool, s: Step)
    requires Inv(p) && Enabled(p, s)
    ensures Inv(Next(p, s))
  {
    hide Conserved, Counted;
    match s
    case Submit(id) => SubmitKeeps(p, id);
    case Dispatch(b, n, caller) => DispatchKeeps(p, b, n, caller);
    case Take => TakeKeeps(p);
    case Call(t) => CallKeeps(p, t);
    case Finish(t) => FinishKeeps(p, t);
    case Return(b) => ReturnKeeps(p, b);
    case _ => StopOrExitKeeps(p, s);
  }

  lemma StopOrExitKeeps(p: Pool, s: Step)
    requires Inv(p) && Enabled(p, s) && (s.Stop? || s.Exit?)
    ensures Inv(Next(p, s))
  {
    MoveKeeps(p, Next(p, s));
  }

  // ---------------------------------------------------------------- runs

  ghost predicate Run(pools: seq<Pool>, steps: seq<Step>) {
    && |pools| == |steps| + 1 && pools[0] == Start(pools[0].workers)
    && forall i :: 0 <= i < |steps| ==> Enabled(pools[i], steps[i]) && pools[i + 1] == Next(pools[i], steps[i])
  }

  lemma {:induction false} RunKeepsInv(pools: seq<Pool>, steps: seq<Step>, k: nat)
    requires Run(pools, steps) && k < |pools|
    ensures Inv(pools[k])
  {
    if k > 0 {
      RunKeepsInv(pools, steps, k - 1);
      StepKeepsInv(pools[k - 1], steps[k - 1]);
    }
  }

  /** No task ever runs twice, and a dispatch returns only after the function ran
      exactly once for each of its items. */
  lemma Barrier(pools: seq<Pool>, steps: seq<Step>, k: nat)
    requires Run(pools, steps) && k < |pools|
    ensures forall t :: multiset(pools[k].ran)[t] <= 1
    ensures forall b, i :: b in pools[k].batches && pools[k].batches[b].returned && 0 <= i < pools[k].batches[b].size ==>
      multiset(pools[k].ran)[Item(b, i)] == 1
  {
    RunKeepsInv(pools, steps, k);
    var p := pools[k];
    forall t ensures multiset(p.ran)[t] <= 1 {
      assert p.enqueued[t] <= 1;
    }
    forall b, i | b in p.batches && p.batches[b].returned && 0 <= i < p.batches[b].size
      ensures multiset(p.ran)[Item(b, i)] == 1
    {
      assert Owed(p, b) == {};
      OpenOnce(p, Item(b, i));
      assert i !in Owed(p, b);
      assert Item(b, i) in p.enqueued;
    }
  }

  /** Once all workers have left, every task ever queued has run exactly once, those that
      running tasks queued after the stop included; every batch is complete and no more
      can be queued. */
  lemma AllRunBeforeExit(pools: seq<Pool>, steps: seq<Step>, k: nat)
    requires Run(pools, steps) && k < |pools| && pools[k].exited == pools[k].workers > 0
    ensures var p := pools[k];
      && multiset(p.ran) == p.enqueued && (forall b :: b in p.batches ==> p.batches[b].remaining == 0)
      && forall s: Step :: s.Submit? || s.Dispatch? ==> !Enabled(p, s)
  {
    RunKeepsInv(pools, steps, k);
    var p := pools[k];
    assert p.taken == multiset{} && p.finishing == multiset{};
    assert multiset(p.queue) == multiset{};
    forall b | b in p.batches ensures p.batches[b].remaining == 0 {
      assert Owed(p, b) == {};
    }
  }

  /** Some worker can take a task, finish a call, count a task off, or go on after a
      dispatch of its own. */
  ghost predicate CanAct(p: Pool) {
    Enabled(p, Take) || exists t :: Acts(p, t)
  }

  ghost predicate Acts(p: Pool, t: Task) {
    Enabled(p, Call(t)) || Enabled(p, Finish(t)) || (t in p.waiting && Enabled(p, Return(p.waiting[t])))
  }

  /** The task waits for a batch that is not done. */
  predicate Blocked(p: Pool, t: Task) {
    t in p.waiting && p.waiting[t] in p.batches && p.batches[p.waiting[t]].remaining != 0
  }

  function Younger(p: Pool, b: nat): set<nat> { set x | x in p.batches && x > b }

  lemma OwedSomewhere(p: Pool, b: nat) returns (t: Task)
    requires Counted(p) && b in p.batches && p.batches[b].remaining != 0
    ensures t.Item? && t.batch == b && t in Open(p)
  {
    var i :| i in Owed(p, b);
    t := Item(b, i);
  }

  /** With nothing queued an open batch leaves someone to act: its tasks are held, and one
      that waits does so for a younger batch. */
  lemma {:induction false} HeldActs(p: Pool, b: nat)
    requires Counted(p) && Nested(p) && p.queue == [] && b in p.batches && p.batches[b].remaining != 0
    ensures CanAct(p)
    decreases Younger(p, b)
  {
    hide Counted;
    var t := OwedSomewhere(p, b);
    if Blocked(p, t) && t in p.taken {
      assert p.waiting[t] in Younger(p, b) - Younger(p, p.waiting[t]);
      HeldActs(p, p.waiting[t]);
    } else {
      assert Acts(p, t);
    }
  }

  /** While a batch is open the workers are stuck if and only if each that has not left holds a
      task that waits in a dispatch of its own for a batch that is not done. */
  lemma StuckIff(pools: seq<Pool>, steps: seq<Step>, k: nat, b: nat)
    requires Run(pools, steps) && k < |pools|
    requires b in pools[k].batches && pools[k].batches[b].remaining != 0
    ensures var p := pools[k];
      !CanAct(p) <==> |p.taken| + p.exited == p.workers && forall t :: t in p.taken ==> Blocked(p, t)
  {
    hide Conserved, Counted;
    RunKeepsInv(pools, steps, k);
    var p := pools[k];
    if CanAct(p) {
      if p.idle == 0 {
        var t :| Acts(p, t);
        assert t in p.finishing || (t in p.taken && !Blocked(p, t));
      }
    } else {
      StuckMeans(p, b);
    }
  }

  lemma StuckMeans(p: Pool, b: nat)
    requires Inv(p) && !CanAct(p) && b in p.batches && p.batches[b].remaining != 0
    ensures |p.taken| + p.exited == p.workers && forall t :: t in p.taken ==> Blocked(p, t)
  {
    hide Conserved, Counted;
    if p.finishing != multiset{} {
      var t :| t in p.finishing;
      assert Acts(p, t);
    }
    forall t | t in p.taken ensures Blocked(p, t) {
      assert !Acts(p, t);
    }
    if p.queue == [] { HeldActs(p, b); }
  }

  ghost predicate OpenBatch(p: Pool, b: nat) {
    b in p.batches && p.batches[b].remaining != 0
  }

  /** All that can happen is that more is queued, a dispatch nobody here waits in returns, or
      the pool is told to stop. */
  lemma StuckAllows(p: Pool, s: Step)
    requires Nested(p) && p.idle == 0 && p.finishing == multiset{} && Enabled(p, s)
    requires forall t :: t in p.taken ==> Blocked(p, t)
    ensures s.Submit? || s.Stop? || (s.Dispatch? && s.caller.None?) || (s.Return? && GoesOn(p, s.batch) == p.waiting)
  {
    if s.Return? {
      forall t | t in p.waiting ensures p.waiting[t] != s.batch { assert Blocked(p, t); }
    }
  }

  lemma StuckMoves(p: Pool, s: Step)
    requires Enabled(p, s) && (forall t :: t in p.taken ==> Blocked(p, t))
    requires s.Submit? || s.Stop? || (s.Dispatch? && s.caller.None?) || (s.Return? && GoesOn(p, s.batch) == p.waiting)
    ensures var q := Next(p, s);
      && q.idle == p.idle && q.finishing == p.finishing && q.taken == p.taken && q.ran == p.ran
      && (forall b :: b in p.batches ==> b in q.batches && q.batches[b].remaining == p.batches[b].remaining)
      && forall t :: t in q.taken ==> Blocked(q, t)
  {
    hide Items, GoesOn;
    var q := Next(p, s);
    assert q.waiting == p.waiting;
    forall t | t in q.taken ensures Blocked(q, t) { assert Blocked(p, t); }
  }

  /** None of it lets a worker act. */
  lemma StuckStep(p: Pool, s: Step, b: nat)
    requires Inv(p) && !CanAct(p) && OpenBatch(p, b) && Enabled(p, s)
    ensures var q := Next(p, s);
      OpenBatch(q, b) && q.batches[b].remaining == p.batches[b].remaining && !CanAct(q) && q.ran == p.ran
  {
    hide Conserved, Counted, Next, Enabled, CanAct, Staffed, Nested, Blocked, GoesOn;
    StuckMeans(p, b);
    StuckNothing(p);
    StuckAllows(p, s);
    StuckMoves(p, s);
    StepKeepsInv(p, s);
    AllBlocked(Next(p, s));
  }

  lemma StuckNothing(p: Pool)
    requires Staffed(p) && Nested(p) && |p.taken| + p.exited == p.workers
    ensures p.idle == 0 && p.finishing == multiset{}
  {
  }

  lemma AllBlocked(q: Pool)
    requires q.idle == 0 && q.finishing == multiset{} && Nested(q) && forall t :: t in q.taken ==> Blocked(q, t)
    ensures !CanAct(q)
  {
    forall t ensures !Acts(q, t) {
    }
  }

  /** Stuck workers stay stuck, over whatever follows: no task runs any more and the batch
      stays open. */
  lemma {:induction false} StuckForGood(pools: seq<Pool>, steps: seq<Step>, k: nat, m: nat, b: nat)
    requires Run(pools, steps) && k <= m < |pools| && OpenBatch(pools[k], b) && !CanAct(pools[k])
    ensures OpenBatch(pools[m], b) && !CanAct(pools[m]) && pools[m].ran == pools[k].ran
    ensures !pools[m].batches[b].returned
    decreases m
  {
    hide Next, Enabled, CanAct, Conserved, Staffed, Nested, Known;
    RunKeepsInv(pools, steps, m);
    if k < m {
      StuckForGood(pools, steps, k, m - 1, b);
      RunKeepsInv(pools, steps, m - 1);
      StuckStep(pools[m - 1], steps[m - 1], b);
    }
  }

  /** One worker in the middle of its first task. */
  const ONE_RUNNING := Pool(
    1, 0, 0, [], multiset{Submitted(0)}, multiset{}, [], multiset{}, multiset{Submitted(0)}, map[], map[], false)

  lemma OneRunning()
    ensures Enabled(Start(1), Submit(0)) && Enabled(Next(Start(1), Submit(0)), Take)
    ensures Next(Next(Start(1), Submit(0)), Take) == ONE_RUNNING
  {
    assert Next(Start(1), Submit(0)).queue == [Submitted(0)];
  }

  lemma CallerSticks(n: nat)
    requires n > 0
    ensures var d := Dispatch(0, n, Some(Submitted(0)));
      Enabled(ONE_RUNNING, d) && !CanAct(Next(ONE_RUNNING, d))
  {
    hide Items;
    var p := Next(ONE_RUNNING, Dispatch(0, n, Some(Submitted(0))));
    assert p.waiting == map[Submitted(0) := 0];
    assert forall t :: !Acts(p, t);
  }

  /** One worker whose task dispatches is stuck, and so stays stuck for good. */
  lemma NestedDispatchSticks(n: nat) returns (pools: seq<Pool>, steps: seq<Step>)
    requires n > 0
    ensures Run(pools, steps) && |pools| == 4 && pools[3].workers == 1
    ensures 0 in pools[3].batches && pools[3].batches[0].remaining == n && !CanAct(pools[3])
  {
    hide Items, Enabled, CanAct;
    OneRunning();
    CallerSticks(n);
    steps := [Submit(0), Take, Dispatch(0, n, Some(Submitted(0)))];
    pools := [Start(1), Next(Start(1), steps[0]), ONE_RUNNING, Next(ONE_RUNNING, steps[2])];
  }
}
