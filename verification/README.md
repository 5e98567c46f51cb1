# Concurrent task runner — a Dafny model

The repository runs a forest of randomly generated tasks on a pool of
worker threads. Each worker owns a LIFO deque, and a shared FIFO injector
holds the initial tasks. A task is one of three CPU-heavy kinds (hash,
derive, random), each with a 64-bit seed and a height. Running a task
yields a 64-bit output and its children. In the lazy program the children
are exactly one level lower. The eager model assumes only that they are
strictly lower, since the eager task module is not modelled. The program
prints the XOR of all outputs and how many tasks of each kind ran.
It comes in two versions:

- the eager program (`src/main.rs`) materialises all of a task's children
  as soon as the task has run;
- the lazy program (`bonus/`) queues a *lazy node* instead: a count of
  sibling tasks still to be drawn, plus a handle to the ChaCha20 generator
  they are drawn from. A worker draws one task at a time and re-arms the
  node while it still has tasks.

The model removes the threads. The scheduler state is explicit, and a
*schedule* (a sequence of worker ids) decides which worker runs its loop
body next. Each loop body is one atomic step. A step calls `find_task`:

- pop the worker's own deque;
- otherwise, steal the oldest item of the first non-empty deque;
- otherwise, steal the oldest item of the injector.

The combinators behind `find_task` are modelled on their own, including
`Retry`, the outcome that makes it run another pass. In that model the
deques are abstract, and a pass is described by what each source would
answer.

Modules:

- `Folds`: folds over commutative monoids (XOR, addition, multiset union).
  The key result is that a fold's value depends only on the multiset of its
  inputs.
- `Stealing`: `Steal` outcomes, collecting them, `or_else`, one stealing
  pass, and `find_task`'s repeat-until-not-retry loop.
- `Tasks`: task kinds, tasks, lazy nodes, and the lazy task module
  (`execute`, `generate_initial`, `generate_task`, `generate_lazy`).
- `Queues`: the deques and the injector as sequences, plus `find_task` and
  pushes in one atomic step.
- `Schedules`: a schedule (the sequence of workers whose loop bodies run, in
  order) and what makes one valid.
- `Aggregation`: the XOR accumulator, the per-kind counter map, and the
  printed report.
- `EagerRunner`: the eager loop. It proves conservation, determinism of the
  printed line and termination.
- `LazyRunner`: the lazy loop. It proves the re-push rule, conservation of
  task counts, bounds on heights, and termination through a work measure.

Parameters stand for what the model does not compute:

- The evaluator (`Evaluator`): iterated SHA-256, PBKDF2-HMAC-SHA512 or
  ChaCha20 draws, depending on the kind.
- The ChaCha20 generator (`WordSource`): the 64-bit word at each position
  of the stream for each seed.
- In the eager runner, the children of a task (`Expander`). The eager task
  module, `src/task.rs`, is not part of this model. The eager proofs assume
  only that children are lower than their parent.

## Model

| member | source | states |
|---|---|---|
| Tasks.GenerateTask | bonus/task.rs:79-88 | Drawing a task lowers the node's count by exactly one; only a node with a task left may be drawn from. The task inherits the node's height and child bound. Its kind is the type-array entry at an index in [0, 3) drawn first from the node's generator, and its seed is the next word of the same generator. |
| Tasks.GenerateLazy | bonus/task.rs:91-103 | A fresh generator seeded with the given seed draws the number of children, between 0 and the child bound inclusive. The node carries the given height and child bound. |
| Tasks.Execute | bonus/task.rs:26-49 | The output is the evaluator's result for the task's kind and seed. A task at height 0 yields an exhausted node. Any other task yields a node one level lower with the same child bound, at most that many tasks, and a generator seeded with `seed ^ output`. The number of tasks is the first ranged draw of that generator. A node with tasks is always strictly lower than its task. |
| Tasks.GenerateInitial | bonus/task.rs:51-68 | The number of roots is drawn from the seeded generator in [0, 64]. Every root is a node at the starting height with one task, the child bound, and the shared generator. |
| Stealing.Collect | bonus/main.rs:109 | Collecting the peers' steal outcomes gives the first success. Failing that, it gives `Retry` if any attempt retried, and `Empty` otherwise. Each case holds in both directions. |
| Stealing.OrElse | bonus/main.rs:109-111 | The fallback is only used when the first outcome is not a success. A retry combined with a fallback success is that success. |
| Stealing.RunPass | src/main.rs:102-106 | One pass asks the peers up to and including the first that succeeds. It asks the injector exactly when no peer succeeded. The outcome is that success, the injector's success, `Empty` when every source was empty, or `Retry` otherwise. |
| Stealing.Repeat | bonus/main.rs:107-115 | Passes are repeated while they ask for a retry. The first pass that does not decides the result: a success gives the stolen item, anything else gives none. If every observed pass retried, the result is `Spinning`. |
| Stealing.FindTask | src/main.rs:100-113 | A successful local pop wins without any pass. Otherwise the search spins exactly when every pass retried. |
| Stealing.FindTaskSettles | bonus/main.rs:105-118 | When pass i is the first that did not retry, exactly i+1 passes run. The result is none iff that pass found every source empty, and `Some(x)` iff it stole `x`. |
| Queues.Find | bonus/main.rs:100-119 | In one atomic step, the worker finds nothing iff every deque and the injector are empty, and then nothing changes. Otherwise exactly the returned item leaves the queues. A non-empty own deque gives its top. Otherwise the item is what one pass over the snapshot steals, and the injector is used only when every deque is empty. The queues left behind are exactly those of the pop, of the steal from the first non-empty deque, or of the steal from the injector. |
| Queues.FindIsFindTask | src/main.rs:95-114 | In one atomic step, `Find` gives `Some(x)` iff `find_task`, given the local pop and one pass over the snapshot, finds `x`. It gives nothing iff `find_task` finds nothing: over a snapshot no steal asks for a retry. |
| Queues.StealOnce | src/main.rs:102-106 | With the own deque empty, one pass steals the front of the first non-empty deque, else the front of the injector. It finds nothing iff every queue is empty. The injector is used only when every deque is empty. The queues left behind are exactly `StealPeer` on that deque or `StealInjector`: only the stolen item leaves, and the order of everything else is kept. |
| Queues.PopOwn | src/main.rs:100 | The owner pops the newest item of its own deque. Every other deque and the injector are unchanged, and exactly that item leaves the queues. |
| Queues.StealPeer | src/main.rs:104 | Stealing from a peer takes the oldest item of its deque. Every other deque and the injector are unchanged, and exactly that item leaves the queues. |
| Queues.StealInjector | src/main.rs:106 | Stealing from the injector takes its oldest item and leaves the deques unchanged. |
| Queues.PushAll | src/main.rs:61-63 | Pushing onto the worker's own deque puts the items on top in order. Every other deque and the injector stay unchanged, and the multiset of queued items grows by exactly the pushed items. |
| Queues.Fresh | src/main.rs:28-39 | Creates exactly the given number of deques, all empty. The injector holds the initial tasks in the order they were pushed. |
| Aggregation.Contribute | src/main.rs:53-60 | Executing a task adds one to its kind's counter, creating the counter at 0 if it is missing, and leaves the other kinds' counters unchanged. The task's output is XOR-ed into the accumulator. |
| Aggregation.ContributeExtends | bonus/main.rs:57-64 | If an aggregate summarises the tasks executed so far, contributing one more task gives an aggregate that summarises the extended list. |
| Aggregation.ReportOrderIndependent | src/main.rs:82-91 | The printed line depends only on the multiset of executed tasks: two aggregates of permutations of the same tasks print the same accumulator and counts. |
| Aggregation.ReportCounts | bonus/main.rs:87-96 | `ReportOf` reads the printed line from the aggregate, with a missing counter read as 0 (also src/main.rs:85-91). Each printed count is the number of executed tasks of that kind, and 0 for a kind that never ran. The three counts add up to the number of executed tasks. |
| Aggregation.OccurrencesAddUp | src/main.rs:54 | The numbers of executed tasks of the three kinds add up to the number of executed tasks: each task has exactly one kind. |
| EagerRunner.Init | src/main.rs:28-31 | At start-up every initial task is in the injector, in order, and every deque is empty. The report reads 0,0,0,0. |
| EagerRunner.Step | src/main.rs:52-64 | A worker stops iff every queue is empty. Otherwise it executes exactly one previously queued task: its own top if its deque is non-empty. The resulting queues are exactly those `Find` leaves, with that task's children pushed on top of the worker's own deque. The kind's counter grows by one, no other counter changes, and the output is XOR-ed in. |
| EagerRunner.StepPreservesInv | src/main.rs:52-64 | Each step keeps three things: enqueued tasks are executed or still queued, exactly once; the aggregate summarises the executed tasks; the executed tasks plus the trees of the queued ones are the trees of the initial tasks. The number of pending tasks drops by one. |
| EagerRunner.PendingStep | src/main.rs:56-63 | Replacing a queued task by its children removes exactly that task from the pending work, as long as children are lower than their parent. |
| EagerRunner.RunPreservesInv | src/main.rs:51-65 | Every interleaving of loop iterations keeps the run invariant. |
| EagerRunner.FinishedRunExecutesTrees | src/main.rs:51-65 | A complete run executes exactly the trees of the initial tasks, whatever the interleaving. |
| EagerRunner.FinishedRunsAgree | src/main.rs:85-91 | Any two complete runs from the same initial tasks print the same line, whatever the number of workers and the interleavings. |
| EagerRunner.RunsTerminate | src/main.rs:52 | Any schedule with at least as many steps as the initial trees have tasks empties every queue. |
| EagerRunner.ExecutedHeights | src/main.rs:52-64 | No executed task is higher than the highest initial task. |
| EagerRunner.LeafRunExecutesRoots | src/main.rs:52-64 | When every initial task is at height 0, a complete run executes exactly the initial tasks, once each. |
| LazyRunner.Init | bonus/main.rs:22-23 | At start-up the roots are in the injector and every deque is empty. Their number is the first draw in [0, 64] from the generator seeded with the global seed, and they share that generator as handle 0. |
| LazyRunner.Draw | bonus/main.rs:48-55 | A worker stops iff all queues are empty. Otherwise it draws one task from the node `find_task` returns. The task is `generate_task` applied to that node and its generator, so its kind and seed come from that generator, which may be shared. Only that generator advances, and the task has the node's height and child bound. The node goes back on top of the worker's own deque iff it has tasks left. Every other deque and the injector stay as the take left them. Nodes without tasks never enter a queue. |
| LazyRunner.Rearm | bonus/main.rs:52-55 | The drawn-from node goes back on top of the worker's own deque iff its count is still positive. Otherwise the queues are unchanged. The other deques and the injector are never touched. |
| LazyRunner.DrawRemaining | bonus/main.rs:50-55 | Drawing a task and re-pushing the node lowers the tasks still to draw by exactly one. |
| LazyRunner.Complete | bonus/main.rs:57-68 | The task is counted and its output XOR-ed in. The node of its children is pushed onto the worker's own deque, and recorded as spawned, iff it has at least one task. Such a node is one level lower, has between 1 and the child bound tasks, and gets a new generator, seeded by `execute` and appended to the generator table. The other deques and the injector are never touched, and with no child node the queues are unchanged. |
| LazyRunner.Step | bonus/main.rs:48-69 | One loop iteration executes exactly one task: the one `generate_task` draws from the node `find_task` returns, using that node's generator. The task is counted and its output XOR-ed in. The drawn-from generator advances, and the child node's generator is appended. On the worker's own deque, the re-armed node (if it has tasks left) lies under the child node (if it has tasks). Every other deque and the injector stay as the take left them. Every queued node stays drawable, and at most one new node is added. |
| LazyRunner.StepPreservesInv | bonus/main.rs:48-69 | Each iteration keeps the following invariant. Every queued node has a task left, a height at most the starting height, and the child bound. Every node spawned after the roots is lower than the starting height and has between 1 and the child bound tasks. Executed tasks plus tasks still to draw equal the tasks of all spawned nodes. The aggregate summarises the executed tasks. |
| LazyRunner.StepLowersBacklog | bonus/main.rs:50-68 | Each iteration lowers the work measure: a node's tasks weighted by the size of a full subtree at its height. |
| LazyRunner.BacklogDecreases | bonus/main.rs:50-68 | The work measure drops when a task is drawn and its child node, one level lower with at most the child bound of tasks, is queued. |
| LazyRunner.RunDrains | bonus/main.rs:48-69 | From any state satisfying the invariant, a schedule with at least as many steps as the work measure empties every queue. |
| LazyRunner.RunsTerminate | bonus/main.rs:48 | For any generator, evaluator and interleaving, a schedule of 64 · Work(child bound, starting height) steps empties every queue. |
| LazyRunner.FinishedRunConserves | bonus/main.rs:48-96 | A complete run executes exactly as many tasks as its nodes held, none higher than the starting height. The printed counts add up to that number. |
| LazyRunner.LeafRunExecutesRoots | bonus/task.rs:34-47 | With child bound 0 or starting height 0, a complete run spawns no node beyond the roots and executes exactly one task per root. |

## Left out

- The workloads `do_hash`, `do_derive` and `do_random` are the `Evaluator` parameter. Only the fact that a task's output is a function of its kind and seed is used.
- The ChaCha20 generator is the `WordSource` parameter. A ranged draw reduces one word modulo the bound, and a full draw takes one word. The exact sampling of `gen_range` and how many words each draw consumes are not modelled, so the model fixes only the ranges, not the values.
- Threads, mutexes, lock poisoning and the crossbeam deques' internals are left out. A loop iteration is atomic, so in `Queues.Find` a stealing pass never meets `Retry`. Retries are modelled only in `Stealing`, where the outcome of each pass is an input.
- `Stealing.Repeat`: the source loops for as long as passes retry. The model takes a finite list of passes and returns `Spinning` when all of them retried.
- An atomic step hides the window in which a worker holds a task whose children are not yet pushed. In the source, another worker can see empty queues in that window and exit early. Here every queue is empty only when all work is done, so the number of workers that stay active is not modelled.
- `src/task.rs` is not part of this model. The eager runner takes each task's children as the `Expander` parameter and assumes only that children are lower than their parent.
- `get_args`, `eprintln!`, the timing with `Instant`, and the worker count from `num_cpus::get_physical` are left out. The worker count is a parameter.
- Heights, node counts and the per-kind counters are unbounded naturals. The `usize` overflow of the `count_map` entries is not modelled. A count is decremented only when it is at least 1, which the runner invariant guarantees. Seeds, outputs and the accumulator are `u64` values, kept exactly as `bv64`.
- Tasks.GenerateTask: requires a count of at least 1. At a count of 0, `count -= 1` in the source panics when overflow checks are on, and wraps to `usize::MAX` otherwise. The model does neither, because the lazy loop never draws from an exhausted node: `LazyRunner.Ready` holds at every step.
- The lazy program is not claimed to be deterministic. All roots share one generator, so which root draws which kind and seed depends on the interleaving. The model states this sharing through generator handles and proves only schedule-independent facts about it.
