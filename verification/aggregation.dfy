/** The shared aggregate: an XOR accumulator of task outputs and a per-kind
counter map, and the line printed from them at the end of a run. */
module Aggregation {
  import opened Tasks
  import opened Words
  import opened Folds

  /** The accumulator and the counter map (kinds never executed have no entry). */
  datatype Aggregate = Aggregate(acc: bv64, counts: map<TaskKind, nat>)

  /** The state before any task ran: accumulator 0, empty map. */
  const Initial: Aggregate := Aggregate(0, map[])

  /** The count of a kind as read at the end: a missing entry reads as 0. */
  function Tally(counts: map<TaskKind, nat>, k: TaskKind): nat {
    if k in counts then counts[k] else 0
  }

  /** One executed task's contribution: its kind's counter (created at 0 if
      absent) goes up by one and its output is XOR-ed into the accumulator. */
  function Contribute(a: Aggregate, kind: TaskKind, output: bv64): (r: Aggregate)
    ensures Tally(r.counts, kind) == Tally(a.counts, kind) + 1
    ensures forall k :: k != kind ==> Tally(r.counts, k) == Tally(a.counts, k)
    ensures r.acc == Xor(a.acc, output)
  {
    Aggregate(Xor(a.acc, output), a.counts[kind := Tally(a.counts, kind) + 1])
  }

  /** The printed line `acc,hash,derive,random`. */
  datatype Report = Report(acc: bv64, hash: nat, derive: nat, random: nat)

  /** The line as printed: the accumulator and the three counters, a missing
      counter read as 0. */
  function ReportOf(a: Aggregate): Report {
    Report(a.acc, Tally(a.counts, Hash), Tally(a.counts, Derive), Tally(a.counts, Random))
  }

  /** A task's output under the evaluator. */
  function OutputOf(evaluate: Evaluator): Task -> bv64 {
    (t: Task) => evaluate(t.kind, t.seed)
  }

  /** Indicator of a task being of kind `k`. */
  function IsKind(k: TaskKind): Task -> nat {
    (t: Task) => if t.kind == k then 1 else 0
  }

  /** XOR of the outputs of the executed tasks. */
  function Accumulated(evaluate: Evaluator, executed: seq<Task>): bv64 {
    Fold(OutputOf(evaluate), Xor, 0, executed)
  }

  /** Number of executed tasks of kind `k`. */
  function Occurrences(executed: seq<Task>, k: TaskKind): nat {
    Fold(IsKind(k), Add, 0, executed)
  }

  /** `a` is the aggregate of exactly the tasks in `executed`. */
  ghost predicate Summarizes(evaluate: Evaluator, a: Aggregate, executed: seq<Task>) {
    && a.acc == Accumulated(evaluate, executed)
    && forall k :: Tally(a.counts, k) == Occurrences(executed, k)
  }

  lemma InitialSummarizesNothing(evaluate: Evaluator)
    ensures Summarizes(evaluate, Initial, [])
  {
  }

  /** Contributing a task's output and kind extends the summary by that task. */
  lemma ContributeExtends(evaluate: Evaluator, a: Aggregate, executed: seq<Task>, t: Task)
    requires Summarizes(evaluate, a, executed)
    ensures Summarizes(evaluate, Contribute(a, t.kind, evaluate(t.kind, t.seed)), executed + [t])
  {
    var r := Contribute(a, t.kind, evaluate(t.kind, t.seed));
    AccumulatedSnoc(evaluate, executed, t);
    CountsExtend(a.counts, r.counts, executed, t);
  }

  lemma CountsExtend(before: map<TaskKind, nat>, after: map<TaskKind, nat>, executed: seq<Task>, t: Task)
    requires forall k :: Tally(before, k) == Occurrences(executed, k)
    requires Tally(after, t.kind) == Tally(before, t.kind) + 1
    requires forall k :: k != t.kind ==> Tally(after, k) == Tally(before, k)
    ensures forall k :: Tally(after, k) == Occurrences(executed + [t], k)
  {
    forall k ensures Tally(after, k) == Occurrences(executed + [t], k) {
      OccurrencesSnoc(executed, t, k);
    }
  }

  lemma AccumulatedSnoc(evaluate: Evaluator, executed: seq<Task>, t: Task)
    ensures Accumulated(evaluate, executed + [t]) == Xor(Accumulated(evaluate, executed), evaluate(t.kind, t.seed))
  {
    XorIsCommutativeMonoid();
    FoldSnoc(OutputOf(evaluate), Xor, 0, executed, t);
  }

  lemma OccurrencesSnoc(executed: seq<Task>, t: Task, k: TaskKind)
    ensures Occurrences(executed + [t], k) == Occurrences(executed, k) + (if t.kind == k then 1 else 0)
  {
    AddIsCommutativeMonoid();
    FoldSnoc(IsKind(k), Add, 0, executed, t);
  }

  /** The printed line depends only on WHICH tasks were executed, not on the
      order or the thread that executed them. */
  lemma ReportOrderIndependent(evaluate: Evaluator, a1: Aggregate, e1: seq<Task>, a2: Aggregate, e2: seq<Task>)
    requires Summarizes(evaluate, a1, e1) && Summarizes(evaluate, a2, e2)
    requires multiset(e1) == multiset(e2)
    ensures ReportOf(a1) == ReportOf(a2)
  {
    XorIsCommutativeMonoid();
    AddIsCommutativeMonoid();
    FoldPermutation(OutputOf(evaluate), Xor, 0, e1, e2);
    FoldPermutation(IsKind(Hash), Add, 0, e1, e2);
    FoldPermutation(IsKind(Derive), Add, 0, e1, e2);
    FoldPermutation(IsKind(Random), Add, 0, e1, e2);
  }

  /** The three printed counts are the per-kind numbers of executed tasks (0
      for a kind that never ran) and add up to the number of executed tasks. */
  lemma {:induction false} ReportCounts(evaluate: Evaluator, a: Aggregate, executed: seq<Task>)
    requires Summarizes(evaluate, a, executed)
    ensures ReportOf(a).hash == Occurrences(executed, Hash)
    ensures ReportOf(a).derive == Occurrences(executed, Derive)
    ensures ReportOf(a).random == Occurrences(executed, Random)
    ensures ReportOf(a).hash + ReportOf(a).derive + ReportOf(a).random == |executed|
  {
    OccurrencesAddUp(executed);
  }

  lemma {:induction false} OccurrencesAddUp(executed: seq<Task>)
    ensures Occurrences(executed, Hash) + Occurrences(executed, Derive) + Occurrences(executed, Random) == |executed|
    decreases |executed|
  {
    if |executed| > 0 {
      OccurrencesAddUp(executed[1..]);
    }
  }
}
