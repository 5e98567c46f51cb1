/** The eager scheduler (the main program): every task's children are
materialised as soon as it runs and pushed onto the running worker's deque.

The eager task module (its `execute` and `generate_initial`) is not part of
this model: a task's children are given by the function parameter `expand`
applied to the task and its output, and the initial task list is a
parameter. The only thing assumed of `expand` is that children are strictly
lower than their parent (`Descending`), as the lazy generator guarantees.
 */
module EagerRunner {
  import opened Wrappers
  import opened Words
  import opened Folds
  import opened Tasks
  import opened Queues
  import opened Schedules
  import opened Aggregation

  /** The children the eager `execute` returns for a task and its output. */
  type Expander = (Task, bv64) -> seq<Task>

  datatype Env = Env(evaluate: Evaluator, expand: Expander)

  function Children(env: Env, t: Task): seq<Task> {
    env.expand(t, env.evaluate(t.kind, t.seed))
  }

  /** Every child is strictly lower than its parent (so height 0 has none). */
  ghost predicate Descending(env: Env) {
    forall t: Task, i :: 0 <= i < |Children(env, t)| ==> Children(env, t)[i].height < t.height
  }

  /** The whole tree of tasks rooted at `t`: `t` and the trees of its
      children, following only children lower than their parent. */
  function Tree(env: Env, t: Task): multiset<Task>
    decreases t.height, 1, 0
  {
    multiset{t} + Below(env, Children(env, t), t.height)
  }

  function Below(env: Env, ts: seq<Task>, bound: nat): multiset<Task>
    decreases bound, 0, |ts|
  {
    if |ts| == 0 then multiset{}
    else (if ts[0].height < bound then Tree(env, ts[0]) else multiset{}) + Below(env, ts[1..], bound)
  }

  function TreeOf(env: Env): Task -> multiset<Task> {
    (t: Task) => Tree(env, t)
  }

  /** All tasks that will run because the tasks `ts` are queued. */
  function Pending(env: Env, ts: seq<Task>): multiset<Task> {
    Fold(TreeOf(env), Union, multiset{}, ts)
  }

  lemma {:induction false} BelowIsPending(env: Env, ts: seq<Task>, bound: nat)
    requires forall i :: 0 <= i < |ts| ==> ts[i].height < bound
    ensures Below(env, ts, bound) == Pending(env, ts)
    decreases |ts|
  {
    if |ts| > 0 {
      BelowIsPending(env, ts[1..], bound);
    }
  }

  /** Under `Descending`, a tree is its root plus the trees of its children. */
  lemma TreeUnfolds(env: Env, t: Task)
    requires Descending(env)
    ensures Tree(env, t) == multiset{t} + Pending(env, Children(env, t))
  {
    BelowIsPending(env, Children(env, t), t.height);
  }

  lemma PendingSnoc(env: Env, ts: seq<Task>, t: Task)
    ensures Pending(env, ts + [t]) == Pending(env, ts) + Tree(env, t)
  {
    UnionIsCommutativeMonoid<Task>();
    FoldSnoc(TreeOf(env), Union, multiset{}, ts, t);
  }

  lemma PendingConcat(env: Env, a: seq<Task>, b: seq<Task>)
    ensures Pending(env, a + b) == Pending(env, a) + Pending(env, b)
  {
    UnionIsCommutativeMonoid<Task>();
    FoldConcat(TreeOf(env), Union, multiset{}, a, b);
  }

  lemma PendingPermutation(env: Env, a: seq<Task>, b: seq<Task>)
    requires multiset(a) == multiset(b)
    ensures Pending(env, a) == Pending(env, b)
  {
    UnionIsCommutativeMonoid<Task>();
    FoldPermutation(TreeOf(env), Union, multiset{}, a, b);
  }

  /** Every queued task is itself pending. */
  lemma PendingCoversQueued(env: Env, ts: seq<Task>)
    ensures |ts| <= |Pending(env, ts)|
  {
    PendingContainsQueued(env, ts);
    var p := Pending(env, ts);
    assert p == multiset(ts) + (p - multiset(ts));
  }

  lemma {:induction false} PendingContainsQueued(env: Env, ts: seq<Task>)
    ensures multiset(ts) <= Pending(env, ts)
    decreases |ts|
  {
    if |ts| > 0 {
      PendingContainsQueued(env, ts[1..]);
      assert ts == [ts[0]] + ts[1..];
    }
  }

  /** A task in a tree is no higher than the tree's root. */
  lemma {:induction false} TreeHeights(env: Env, t: Task, x: Task)
    requires x in Tree(env, t)
    ensures x.height <= t.height
    decreases t.height, 1, 0
  {
    if x != t {
      BelowHeights(env, Children(env, t), t.height, x);
    }
  }

  lemma {:induction false} BelowHeights(env: Env, ts: seq<Task>, bound: nat, x: Task)
    requires x in Below(env, ts, bound)
    ensures x.height < bound
    decreases bound, 0, |ts|
  {
    if ts[0].height < bound && x in Tree(env, ts[0]) {
      TreeHeights(env, ts[0], x);
    } else {
      BelowHeights(env, ts[1..], bound, x);
    }
  }

  /** Everything pending below tasks of height at most `h` has height at most `h`. */
  lemma {:induction false} PendingHeights(env: Env, ts: seq<Task>, h: nat, x: Task)
    requires forall i :: 0 <= i < |ts| ==> ts[i].height <= h
    requires x in Pending(env, ts)
    ensures x.height <= h
    decreases |ts|
  {
    if x in Tree(env, ts[0]) {
      TreeHeights(env, ts[0], x);
    } else {
      PendingHeights(env, ts[1..], h, x);
    }
  }

  /** Leaves: with `Descending`, a task of height 0 has no children, and the
      pending work of a forest of height-0 tasks is the forest itself. */
  lemma {:induction false} LeafForest(env: Env, ts: seq<Task>)
    requires Descending(env)
    requires forall i :: 0 <= i < |ts| ==> ts[i].height == 0
    ensures Pending(env, ts) == multiset(ts)
    decreases |ts|
  {
    if |ts| > 0 {
      TreeUnfolds(env, ts[0]);
      if Children(env, ts[0]) != [] {
        assert false;
      }
      LeafForest(env, ts[1..]);
      assert ts == [ts[0]] + ts[1..];
    }
  }

  /** The scheduler's state. `executed` lists the tasks run so far and
      `enqueued` every task ever put into a queue, both in order. */
  datatype State = State(queues: QueueSet<Task>, agg: Aggregate, executed: seq<Task>, enqueued: seq<Task>)

  /** Start-up: the initial tasks all go into the injector before any of the
      `workers` deques (all empty) is used. */
  function Init(taskq: seq<Task>, workers: nat): (s: State)
    ensures s.queues.injector == taskq && All(s.queues) == taskq
    ensures |s.queues.locals| == workers
    ensures forall w :: 0 <= w < workers ==> s.queues.locals[w] == []
    ensures s.executed == [] && s.enqueued == taskq && ReportOf(s.agg) == Report(0, 0, 0, 0)
  {
    State(Fresh(workers, taskq), Initial, [], taskq)
  }

  /** One iteration of worker `w`'s loop: find a task (None: the worker
      stops), count its kind, XOR its output into the accumulator and push
      all its children onto `w`'s own deque. */
  function Step(env: Env, s: State, w: nat): (r: Option<State>)
    requires w < |s.queues.locals|
    ensures r.None? <==> All(s.queues) == []
    ensures r.Some? ==>
              && |r.value.queues.locals| == |s.queues.locals|
              && |r.value.executed| == |s.executed| + 1
              && r.value.executed[..|s.executed|] == s.executed
    ensures r.Some? ==>
              var t := r.value.executed[|s.executed|];
              var cs := Children(env, t);
              && t in multiset(All(s.queues))
              && multiset(All(r.value.queues)) + multiset{t} == multiset(All(s.queues)) + multiset(cs)
              && r.value.enqueued == s.enqueued + cs
              && r.value.queues == PushAll(Find(s.queues, w).rest, w, cs)
              && |cs| <= |r.value.queues.locals[w]|
              && r.value.queues.locals[w][|r.value.queues.locals[w]| - |cs|..] == cs
              && r.value.agg == Contribute(s.agg, t.kind, env.evaluate(t.kind, t.seed))
              && r.value.agg.acc == Xor(s.agg.acc, env.evaluate(t.kind, t.seed))
              && Tally(r.value.agg.counts, t.kind) == Tally(s.agg.counts, t.kind) + 1
              && (forall k :: k != t.kind ==> Tally(r.value.agg.counts, k) == Tally(s.agg.counts, k))
    ensures s.queues.locals[w] != [] ==>
              r.Some? && r.value.executed[|s.executed|] == s.queues.locals[w][|s.queues.locals[w]| - 1]
  {
    var taken := Find(s.queues, w);
    match taken.item
    case None => None
    case Some(t) =>
      var cs := Children(env, t);
      var q := PushAll(taken.rest, w, cs);
      Some(State(q, Contribute(s.agg, t.kind, env.evaluate(t.kind, t.seed)), s.executed + [t], s.enqueued + cs))
  }

  /** The run invariant for a run started from `roots`:
      - conservation: every task ever enqueued is either executed or still
        queued, exactly once;
      - the aggregate summarises exactly the executed tasks;
      - the executed tasks and the trees of the queued ones are exactly the
        trees of the roots. */
  ghost predicate Inv(env: Env, roots: seq<Task>, s: State) {
    && multiset(s.executed) + multiset(All(s.queues)) == multiset(s.enqueued)
    && Summarizes(env.evaluate, s.agg, s.executed)
    && multiset(s.executed) + Pending(env, All(s.queues)) == Pending(env, roots)
  }

  lemma InitEstablishesInv(env: Env, taskq: seq<Task>, workers: nat)
    ensures Inv(env, taskq, Init(taskq, workers))
  {
    InitialSummarizesNothing(env.evaluate);
  }

  lemma StepPreservesInv(env: Env, roots: seq<Task>, s: State, w: nat)
    requires Descending(env)
    requires w < |s.queues.locals|
    requires Inv(env, roots, s)
    requires All(s.queues) != []
    ensures Inv(env, roots, Step(env, s, w).value)
    ensures |Pending(env, All(Step(env, s, w).value.queues))| + 1 == |Pending(env, All(s.queues))|
  {
    var s' := Step(env, s, w).value;
    var t := s'.executed[|s.executed|];
    assert s'.executed == s.executed + [t];
    ExecutingOnePreservesInv(env, roots, s, s', t);
  }

  /** The invariant survives executing one queued task `t`: its children are
      queued in its place and its output and kind are aggregated. */
  lemma ExecutingOnePreservesInv(env: Env, roots: seq<Task>, s: State, s': State, t: Task)
    requires Descending(env)
    requires Inv(env, roots, s)
    requires s'.executed == s.executed + [t]
    requires s'.enqueued == s.enqueued + Children(env, t)
    requires multiset(All(s'.queues)) + multiset{t} == multiset(All(s.queues)) + multiset(Children(env, t))
    requires s'.agg == Contribute(s.agg, t.kind, env.evaluate(t.kind, t.seed))
    ensures Inv(env, roots, s')
    ensures |Pending(env, All(s'.queues))| + 1 == |Pending(env, All(s.queues))|
  {
    EnqueuedAfterStep(s.executed, s.enqueued, All(s.queues), All(s'.queues), t, Children(env, t));
    ContributeExtends(env.evaluate, s.agg, s.executed, t);
    PendingAfterStep(env, roots, s.executed, All(s.queues), All(s'.queues), t);
  }

  /** Conservation of enqueued tasks across executing `t` and enqueuing `cs`. */
  lemma EnqueuedAfterStep(executed: seq<Task>, enqueued: seq<Task>, before: seq<Task>, after: seq<Task>,
                          t: Task, cs: seq<Task>)
    requires multiset(executed) + multiset(before) == multiset(enqueued)
    requires multiset(after) + multiset{t} == multiset(before) + multiset(cs)
    ensures multiset(executed + [t]) + multiset(after) == multiset(enqueued + cs)
  {
    calc {
      multiset(executed + [t]) + multiset(after);
      multiset(executed) + (multiset(after) + multiset{t});
      multiset(executed) + multiset(before) + multiset(cs);
      multiset(enqueued + cs);
    }
  }

  /** The pending-work part of the invariant across executing `t`. */
  lemma PendingAfterStep(env: Env, roots: seq<Task>, executed: seq<Task>, before: seq<Task>, after: seq<Task>, t: Task)
    requires Descending(env)
    requires multiset(executed) + Pending(env, before) == Pending(env, roots)
    requires multiset(after) + multiset{t} == multiset(before) + multiset(Children(env, t))
    ensures multiset(executed + [t]) + Pending(env, after) == Pending(env, roots)
    ensures |Pending(env, after)| + 1 == |Pending(env, before)|
  {
    PendingStep(env, before, after, t);
    assert multiset(executed + [t]) == multiset(executed) + multiset{t};
  }

  /** Replacing a queued task by its children replaces its tree by its
      subtrees: the pending work loses exactly that task. */
  lemma PendingStep(env: Env, before: seq<Task>, after: seq<Task>, t: Task)
    requires Descending(env)
    requires multiset(after) + multiset{t} == multiset(before) + multiset(Children(env, t))
    ensures Pending(env, before) == Pending(env, after) + multiset{t}
  {
    var cs := Children(env, t);
    assert multiset(before + cs) == multiset(after + [t]);
    PendingPermutation(env, before + cs, after + [t]);
    PendingConcat(env, before, cs);
    PendingSnoc(env, after, t);
    TreeUnfolds(env, t);
    MultisetCancel(Pending(env, before), Pending(env, after) + multiset{t}, Pending(env, cs));
  }

  lemma MultisetCancel<T>(a: multiset<T>, b: multiset<T>, c: multiset<T>)
    requires a + c == b + c
    ensures a == b
  {
    assert a == (a + c) - c;
    assert b == (b + c) - c;
  }

  /** One loop iteration of worker `w`: a worker that finds nothing leaves
      the state as it is. */
  function Next(env: Env, s: State, w: nat): (r: State)
    requires w < |s.queues.locals|
    ensures |r.queues.locals| == |s.queues.locals|
    ensures All(s.queues) == [] ==> r == s
    ensures All(s.queues) != [] ==> |r.executed| == |s.executed| + 1
  {
    match Step(env, s, w)
    case None => s
    case Some(s') => s'
  }

  /** Running the loop bodies of the workers named by `schedule`, one after
      the other (a worker that finds nothing leaves the state as it is). */
  function Run(env: Env, s: State, schedule: seq<nat>): (r: State)
    requires ValidSchedule(schedule, |s.queues.locals|)
    ensures |r.queues.locals| == |s.queues.locals|
    decreases |schedule|
  {
    if |schedule| == 0 then s else Run(env, Next(env, s, schedule[0]), schedule[1..])
  }

  lemma RunUnfold(env: Env, s: State, schedule: seq<nat>)
    requires ValidSchedule(schedule, |s.queues.locals|) && |schedule| > 0
    ensures ValidSchedule(schedule[1..], |Next(env, s, schedule[0]).queues.locals|)
    ensures Run(env, s, schedule) == Run(env, Next(env, s, schedule[0]), schedule[1..])
  {
  }

  /** An iteration keeps the invariant; one that executes a task leaves one
      pending task fewer. */
  lemma NextPreservesInv(env: Env, roots: seq<Task>, s: State, w: nat)
    requires Descending(env)
    requires w < |s.queues.locals|
    requires Inv(env, roots, s)
    ensures Inv(env, roots, Next(env, s, w))
    ensures All(s.queues) != [] ==>
              |Pending(env, All(Next(env, s, w).queues))| + 1 == |Pending(env, All(s.queues))|
  {
    if All(s.queues) != [] {
      StepPreservesInv(env, roots, s, w);
    }
  }

  lemma {:induction false} RunPreservesInv(env: Env, roots: seq<Task>, s: State, schedule: seq<nat>)
    requires Descending(env)
    requires ValidSchedule(schedule, |s.queues.locals|)
    requires Inv(env, roots, s)
    ensures Inv(env, roots, Run(env, s, schedule))
    decreases |schedule|
  {
    if |schedule| > 0 {
      RunUnfold(env, s, schedule);
      var next := Next(env, s, schedule[0]);
      NextPreservesInv(env, roots, s, schedule[0]);
      RunPreservesInv(env, roots, next, schedule[1..]);
    }
  }

  /** Termination: once the schedule has at least as many steps as there are
      tasks pending, every queue is empty. */
  lemma {:induction false} RunDrains(env: Env, roots: seq<Task>, s: State, schedule: seq<nat>)
    requires Descending(env)
    requires ValidSchedule(schedule, |s.queues.locals|)
    requires Inv(env, roots, s)
    requires |schedule| >= |Pending(env, All(s.queues))|
    ensures All(Run(env, s, schedule).queues) == []
    decreases |schedule|
  {
    if |schedule| == 0 {
      PendingCoversQueued(env, All(s.queues));
    } else {
      NextKeepsDraining(env, roots, s, schedule[0], |schedule|);
      RunUnfold(env, s, schedule);
      var next := Next(env, s, schedule[0]);
      RunDrains(env, roots, next, schedule[1..]);
    }
  }

  /** An iteration keeps the invariant and leaves no more pending tasks than
      the remaining steps can execute. */
  lemma NextKeepsDraining(env: Env, roots: seq<Task>, s: State, w: nat, k: nat)
    requires Descending(env)
    requires w < |s.queues.locals|
    requires Inv(env, roots, s)
    requires k >= 1 && k >= |Pending(env, All(s.queues))|
    ensures Inv(env, roots, Next(env, s, w))
    ensures k - 1 >= |Pending(env, All(Next(env, s, w).queues))|
  {
    NextPreservesInv(env, roots, s, w);
  }

  /** A complete run from the initial tasks executed exactly their trees,
      and its aggregate summarises them. */
  lemma FinishedRunExecutesTrees(env: Env, taskq: seq<Task>, workers: nat, schedule: seq<nat>)
    requires Descending(env)
    requires ValidSchedule(schedule, workers)
    requires All(Run(env, Init(taskq, workers), schedule).queues) == []
    ensures multiset(Run(env, Init(taskq, workers), schedule).executed) == Pending(env, taskq)
    ensures Summarizes(env.evaluate, Run(env, Init(taskq, workers), schedule).agg,
                       Run(env, Init(taskq, workers), schedule).executed)
  {
    InitEstablishesInv(env, taskq, workers);
    RunPreservesInv(env, taskq, Init(taskq, workers), schedule);
  }

  /** Determinism of the eager program: two complete runs from the same
      initial tasks, with any numbers of workers and any interleavings, print
      the same line. */
  lemma FinishedRunsAgree(env: Env, taskq: seq<Task>, workers1: nat, schedule1: seq<nat>, workers2: nat, schedule2: seq<nat>)
    requires Descending(env)
    requires ValidSchedule(schedule1, workers1) && ValidSchedule(schedule2, workers2)
    requires All(Run(env, Init(taskq, workers1), schedule1).queues) == []
    requires All(Run(env, Init(taskq, workers2), schedule2).queues) == []
    ensures ReportOf(Run(env, Init(taskq, workers1), schedule1).agg) == ReportOf(Run(env, Init(taskq, workers2), schedule2).agg)
  {
    var f1 := Run(env, Init(taskq, workers1), schedule1);
    var f2 := Run(env, Init(taskq, workers2), schedule2);
    FinishedRunExecutesTrees(env, taskq, workers1, schedule1);
    FinishedRunExecutesTrees(env, taskq, workers2, schedule2);
    ReportOrderIndependent(env.evaluate, f1.agg, f1.executed, f2.agg, f2.executed);
  }

  /** Termination: a schedule with at least as many steps as the initial
      tasks' trees have tasks drains every queue, whatever the interleaving. */
  lemma RunsTerminate(env: Env, taskq: seq<Task>, workers: nat, schedule: seq<nat>)
    requires Descending(env)
    requires ValidSchedule(schedule, workers)
    requires |schedule| >= |Pending(env, taskq)|
    ensures All(Run(env, Init(taskq, workers), schedule).queues) == []
  {
    InitEstablishesInv(env, taskq, workers);
    RunDrains(env, taskq, Init(taskq, workers), schedule);
  }

  /** Every executed task is at most as high as the highest initial task. */
  lemma ExecutedHeights(env: Env, roots: seq<Task>, s: State, h: nat)
    requires Inv(env, roots, s)
    requires forall i :: 0 <= i < |roots| ==> roots[i].height <= h
    ensures forall i :: 0 <= i < |s.executed| ==> s.executed[i].height <= h
  {
    forall i | 0 <= i < |s.executed|
      ensures s.executed[i].height <= h
    {
      assert s.executed[i] in multiset(s.executed);
      PendingHeights(env, roots, h, s.executed[i]);
    }
  }

  /** A complete run from initial tasks all at height 0 executes exactly
      those tasks, once each. */
  lemma LeafRunExecutesRoots(env: Env, taskq: seq<Task>, workers: nat, schedule: seq<nat>)
    requires Descending(env)
    requires forall i :: 0 <= i < |taskq| ==> taskq[i].height == 0
    requires ValidSchedule(schedule, workers)
    requires All(Run(env, Init(taskq, workers), schedule).queues) == []
    ensures multiset(Run(env, Init(taskq, workers), schedule).executed) == multiset(taskq)
  {
    FinishedRunExecutesTrees(env, taskq, workers, schedule);
    LeafForest(env, taskq);
  }
}
