/** The lazy scheduler (the bonus program): queues hold lazy nodes, and each
loop iteration draws one task from a node, re-arms the node if it still has
tasks to give, executes the task and queues the node of its children if that
node has any.

Generators are shared by handle: the state keeps a table `rngs` of generator
states, and a node's `rng` field indexes it. All roots share the generator the
initial forest was drawn from; every executed task creates a fresh one.
 */
module LazyRunner {
  import opened Wrappers
  import opened Folds
  import opened Tasks
  import opened Queues
  import opened Schedules
  import opened Aggregation

  datatype Oracles = Oracles(evaluate: Evaluator, word: WordSource)

  /** `executed` lists the tasks run so far; `spawned` every node that entered
      a queue as a new node (the roots and the live child nodes), in order;
      re-armed nodes are not new. */
  datatype State = State(queues: QueueSet<LazyNode>, rngs: seq<Stream>, agg: Aggregate,
                         executed: seq<Task>, spawned: seq<LazyNode>)

  /** What the loop needs of every queued node: a task left to draw and a
      generator that exists. */
  ghost predicate Ready(s: State) {
    forall n :: n in All(s.queues) ==> n.count >= 1 && n.rng < |s.rngs|
  }

  /** Start-up: the initial forest is drawn from a generator seeded with the
      global seed (handle 0) and pushed into the injector; the `workers`
      deques are empty. */
  function Init(word: WordSource, seed: bv64, startingHeight: nat, maxChildren: nat, workers: nat): (s: State)
    ensures |s.queues.locals| == workers
    ensures forall w :: 0 <= w < workers ==> s.queues.locals[w] == []
    ensures s.queues.injector == s.spawned == All(s.queues)
    ensures |s.spawned| <= MaxRoots
    ensures |s.spawned| == GenRange(word, Seeded(seed), MaxRoots + 1).value
    ensures forall i :: 0 <= i < |s.spawned| ==> s.spawned[i] == LazyNode(startingHeight, 1, maxChildren, 0)
    ensures s.rngs == [Stream(seed, 1)] && s.executed == []
    ensures Ready(s)
  {
    var forest := GenerateInitial(word, seed, startingHeight, maxChildren, 0);
    State(Fresh(workers, forest.roots), [forest.stream], Initial, [], forest.roots)
  }

  datatype Drawing = Drawing(task: Task, state: State)

  /** The first half of an iteration: find a node (None: the worker stops),
      draw one task from it, and push the node back onto the worker's own
      deque if and only if it has tasks left. */
  function Draw(word: WordSource, s: State, w: nat): (r: Option<Drawing>)
    requires w < |s.queues.locals|
    requires Ready(s)
    ensures r.None? <==> All(s.queues) == []
    ensures r.Some? ==>
              var n := Find(s.queues, w).item.value;
              var d := r.value.state;
              && n in All(s.queues)
              && r.value.task.height == n.height && r.value.task.maxChildren == n.maxChildren
              && multiset(All(d.queues)) + multiset{n} ==
                   multiset(All(s.queues)) + (if n.count > 1 then multiset{n.(count := n.count - 1)} else multiset{})
              && |d.queues.locals| == |s.queues.locals|
              && d.executed == s.executed && d.agg == s.agg && d.spawned == s.spawned
              && |d.rngs| == |s.rngs|
              && Ready(d)
    ensures r.Some? ==>
              var taken := Find(s.queues, w);
              var n := taken.item.value;
              && (n.count > 1 ==> r.value.state.queues.locals[w] == taken.rest.locals[w] + [n.(count := n.count - 1)])
              && (n.count <= 1 ==> r.value.state.queues == taken.rest)
    ensures r.Some? ==>
              var n := Find(s.queues, w).item.value;
              var g := GenerateTask(word, n, s.rngs[n.rng]);
              && r.value.task == g.task
              && r.value.state.rngs == s.rngs[n.rng := g.stream]
    ensures r.Some? ==>
              var taken := Find(s.queues, w);
              r.value.state.queues == Rearm(taken.rest, w, taken.item.value.(count := taken.item.value.count - 1))
  {
    var taken := Find(s.queues, w);
    match taken.item
    case None => None
    case Some(n) =>
      assert n in multiset(All(s.queues));
      var g := GenerateTask(word, n, s.rngs[n.rng]);
      var rngs := s.rngs[n.rng := g.stream];
      var d := s.(queues := Rearm(taken.rest, w, g.node), rngs := rngs);
      ReadyAfterDraw(s, taken.rest, n, g.node, d);
      RearmedQueues(s.queues, taken.rest, d.queues, n);
      Some(Drawing(g.task, d))
  }

  /** The queues after a draw: the drawn node goes back on top of worker
      `w`'s deque exactly when it still has a task. */
  function Rearm(rest: QueueSet<LazyNode>, w: nat, n: LazyNode): (q: QueueSet<LazyNode>)
    requires w < |rest.locals|
    ensures |q.locals| == |rest.locals|
    ensures multiset(All(q)) == multiset(All(rest)) + (if n.count > 0 then multiset{n} else multiset{})
    ensures n.count > 0 ==> q.locals[w] == rest.locals[w] + [n]
    ensures n.count == 0 ==> q == rest
    ensures forall p :: 0 <= p < |rest.locals| && p != w ==> q.locals[p] == rest.locals[p]
    ensures q.injector == rest.injector
  {
    if n.count > 0 then PushAll(rest, w, [n]) else rest
  }

  /** Taking node `n` and re-arming it leaves the other nodes queued and
      adds the re-armed copy exactly when it has a task left. */
  lemma RearmedQueues(q: QueueSet<LazyNode>, rest: QueueSet<LazyNode>, q': QueueSet<LazyNode>, n: LazyNode)
    requires n.count >= 1
    requires multiset(All(q)) == multiset(All(rest)) + multiset{n}
    requires var n' := n.(count := n.count - 1);
             multiset(All(q')) == multiset(All(rest)) + (if n'.count > 0 then multiset{n'} else multiset{})
    ensures n in All(q)
    ensures multiset(All(q')) + multiset{n} ==
              multiset(All(q)) + (if n.count > 1 then multiset{n.(count := n.count - 1)} else multiset{})
  {
    assert n in multiset(All(q));
  }

  lemma ReadyAfterDraw(s: State, rest: QueueSet<LazyNode>, n: LazyNode, n': LazyNode, d: State)
    requires Ready(s) && n.rng < |s.rngs| && n'.rng == n.rng && |d.rngs| == |s.rngs|
    requires multiset(All(s.queues)) == multiset(All(rest)) + multiset{n}
    requires multiset(All(d.queues)) == multiset(All(rest)) + (if n'.count > 0 then multiset{n'} else multiset{})
    ensures Ready(d)
  {
    forall m | m in All(d.queues) ensures m.count >= 1 && m.rng < |d.rngs| {
      assert m in multiset(All(d.queues));
      if m != n' || n'.count == 0 {
        assert m in multiset(All(rest));
        assert m in multiset(All(s.queues));
      }
    }
  }

  /** The second half: count the task's kind, execute it, XOR its output into
      the accumulator, and push the node of its children onto the worker's
      own deque if and only if that node has tasks to give. */
  function Complete(o: Oracles, s: State, w: nat, t: Task): (r: State)
    requires w < |s.queues.locals|
    ensures
      var child := Execute(o.evaluate, o.word, t, |s.rngs|).child;
      && r.executed == s.executed + [t]
      && r.agg == Contribute(s.agg, t.kind, o.evaluate(t.kind, t.seed))
      && multiset(All(r.queues)) == multiset(All(s.queues)) + (if child.count > 0 then multiset{child} else multiset{})
      && r.spawned == s.spawned + (if child.count > 0 then [child] else [])
      && |r.queues.locals| == |s.queues.locals|
      && (child.count > 0 <==> r.queues.locals[w] == s.queues.locals[w] + [child])
      && (child.count > 0 ==>
            child.height + 1 == t.height && 1 <= child.count <= t.maxChildren
            && child.maxChildren == t.maxChildren && child.rng == |s.rngs|)
      && |r.rngs| == |s.rngs| + 1 && r.rngs[..|s.rngs|] == s.rngs
    ensures r.rngs == s.rngs + [Execute(o.evaluate, o.word, t, |s.rngs|).stream]
    ensures forall p :: 0 <= p < |s.queues.locals| && p != w ==> r.queues.locals[p] == s.queues.locals[p]
    ensures r.queues.injector == s.queues.injector
    ensures Execute(o.evaluate, o.word, t, |s.rngs|).child.count == 0 ==> r.queues == s.queues
    ensures Ready(s) ==> Ready(r)
  {
    var e := Execute(o.evaluate, o.word, t, |s.rngs|);
    var agg := Contribute(s.agg, t.kind, e.output);
    var rngs := s.rngs + [e.stream];
    assert rngs[..|s.rngs|] == s.rngs;
    if e.child.count > 0 then
      var q := PushAll(s.queues, w, [e.child]);
      var r := State(q, rngs, agg, s.executed + [t], s.spawned + [e.child]);
      assert Ready(s) ==> Ready(r) by {
        if Ready(s) {
          forall m | m in All(q) ensures m.count >= 1 && m.rng < |rngs| {
            assert m in multiset(All(q));
          }
        }
      }
      r
    else
      var r := State(s.queues, rngs, agg, s.executed + [t], s.spawned);
      assert s.queues.locals[w] != s.queues.locals[w] + [e.child];
      r
  }

  /** One iteration of worker `w`'s loop. */
  function Step(o: Oracles, s: State, w: nat): (r: Option<State>)
    requires w < |s.queues.locals|
    requires Ready(s)
    ensures r.None? <==> All(s.queues) == []
    ensures r.Some? ==> Ready(r.value) && |r.value.queues.locals| == |s.queues.locals|
    ensures r.Some? ==> |r.value.executed| == |s.executed| + 1 && r.value.executed[..|s.executed|] == s.executed
    ensures r.Some? ==> |s.spawned| <= |r.value.spawned| <= |s.spawned| + 1 && r.value.spawned[..|s.spawned|] == s.spawned
    ensures r.Some? ==>
              var taken := Find(s.queues, w);
              var n := taken.item.value;
              var g := GenerateTask(o.word, n, s.rngs[n.rng]);
              var t := r.value.executed[|s.executed|];
              var e := Execute(o.evaluate, o.word, t, |s.rngs|);
              && t == g.task
              && r.value.agg == Contribute(s.agg, t.kind, o.evaluate(t.kind, t.seed))
              && r.value.rngs == s.rngs[n.rng := g.stream] + [e.stream]
              && r.value.queues.injector == taken.rest.injector
              && (forall p :: 0 <= p < |s.queues.locals| && p != w ==> r.value.queues.locals[p] == taken.rest.locals[p])
              && r.value.queues.locals[w] == taken.rest.locals[w]
                   + (if n.count > 1 then [g.node] else []) + (if e.child.count > 0 then [e.child] else [])
  {
    match Draw(o.word, s, w)
    case None => None
    case Some(d) =>
      var taken := Find(s.queues, w);
      var n := taken.item.value;
      assert n.count >= 1 && n.rng < |s.rngs|;
      var g := GenerateTask(o.word, n, s.rngs[n.rng]);
      assert d.task == g.task && d.state.rngs == s.rngs[n.rng := g.stream];
      assert d.state.queues == Rearm(taken.rest, w, g.node);
      var r := Complete(o, d.state, w, d.task);
      var e := Execute(o.evaluate, o.word, d.task, |s.rngs|);
      assert r.executed == s.executed + [d.task] && r.executed[..|s.executed|] == s.executed;
      assert r.spawned[..|s.spawned|] == s.spawned;
      assert r.rngs == s.rngs[n.rng := g.stream] + [e.stream];
      StepQueues(taken.rest, w, g.node, d.state.queues, e.child, r.queues);
      Some(r)
  }

  /** Re-arming the drawn node and then pushing the child node leaves worker
      `w`'s deque with the re-armed node (if any) under the child node (if
      any), and every other queue as the take left it. */
  lemma StepQueues(rest: QueueSet<LazyNode>, w: nat, n: LazyNode, mid: QueueSet<LazyNode>,
                   child: LazyNode, q: QueueSet<LazyNode>)
    requires w < |rest.locals|
    requires mid == Rearm(rest, w, n)
    requires |q.locals| == |mid.locals| && q.injector == mid.injector
    requires forall p :: 0 <= p < |mid.locals| && p != w ==> q.locals[p] == mid.locals[p]
    requires child.count > 0 ==> q.locals[w] == mid.locals[w] + [child]
    requires child.count == 0 ==> q == mid
    ensures q.injector == rest.injector
    ensures forall p :: 0 <= p < |rest.locals| && p != w ==> q.locals[p] == rest.locals[p]
    ensures q.locals[w] == rest.locals[w] + (if n.count > 0 then [n] else []) + (if child.count > 0 then [child] else [])
  {
  }

  /** The sum of a per-node quantity over some nodes. */
  function Sum(f: LazyNode -> nat, ns: seq<LazyNode>): nat {
    Fold(f, Add, 0, ns)
  }

  lemma SumPermutation(f: LazyNode -> nat, a: seq<LazyNode>, b: seq<LazyNode>)
    requires multiset(a) == multiset(b)
    ensures Sum(f, a) == Sum(f, b)
  {
    AddIsCommutativeMonoid();
    FoldPermutation(f, Add, 0, a, b);
  }

  lemma SumConcat(f: LazyNode -> nat, a: seq<LazyNode>, b: seq<LazyNode>)
    ensures Sum(f, a + b) == Sum(f, a) + Sum(f, b)
  {
    AddIsCommutativeMonoid();
    FoldConcat(f, Add, 0, a, b);
  }

  lemma SumSingleton(f: LazyNode -> nat, x: LazyNode)
    ensures Sum(f, [x]) == f(x)
  {
    assert [x][1..] == [];
    assert Fold(f, Add, 0, [x]) == Add(f(x), Fold(f, Add, 0, []));
  }

  /** The sum only depends on the multiset of nodes. */
  lemma SumSplit(f: LazyNode -> nat, a: seq<LazyNode>, b: seq<LazyNode>, extra: seq<LazyNode>)
    requires multiset(a) == multiset(b) + multiset(extra)
    ensures Sum(f, a) == Sum(f, b) + Sum(f, extra)
  {
    SumPermutation(f, a, b + extra);
    SumConcat(f, b, extra);
  }

  function Count(n: LazyNode): nat {
    n.count
  }

  /** Total number of tasks still to be drawn from some nodes. */
  function Remaining(ns: seq<LazyNode>): nat {
    Sum(Count, ns)
  }

  /** The invariant of a run from `roots`, with starting height `h` and child
      bound `m`:
      - roots come first among the spawned nodes; every later spawned node has
        between 1 and `m` tasks and is lower than `h`;
      - every queued node has a task left, height at most `h`, the child bound
        `m` and an existing generator;
      - every executed task has height at most `h`;
      - conservation: executed tasks plus tasks still to draw from queued
        nodes equal the tasks of all nodes ever spawned;
      - the aggregate summarises exactly the executed tasks. */
  ghost predicate Inv(o: Oracles, roots: seq<LazyNode>, h: nat, m: nat, s: State) {
    && |roots| <= |s.spawned| && s.spawned[..|roots|] == roots
    && (forall i :: |roots| <= i < |s.spawned| ==>
          1 <= s.spawned[i].count <= m && s.spawned[i].height < h && s.spawned[i].maxChildren == m)
    && (forall n :: n in All(s.queues) ==>
          1 <= n.count && n.height <= h && n.maxChildren == m && n.rng < |s.rngs|)
    && (forall i :: 0 <= i < |s.executed| ==> s.executed[i].height <= h && s.executed[i].maxChildren == m)
    && |s.executed| + Remaining(All(s.queues)) == Remaining(s.spawned)
    && Summarizes(o.evaluate, s.agg, s.executed)
  }

  lemma InitEstablishesInv(o: Oracles, seed: bv64, h: nat, m: nat, workers: nat)
    ensures Inv(o, Init(o.word, seed, h, m, workers).spawned, h, m, Init(o.word, seed, h, m, workers))
    ensures forall i :: 0 <= i < |Init(o.word, seed, h, m, workers).spawned| ==>
              Init(o.word, seed, h, m, workers).spawned[i].count == 1
  {
    var s := Init(o.word, seed, h, m, workers);
    assert s.spawned[..|s.spawned|] == s.spawned;
    InitialSummarizesNothing(o.evaluate);
  }

  /** Drawing from node `n` replaces it by its re-armed copy, if that has
      tasks left: any per-node sum changes accordingly. */
  lemma DrawSum(f: LazyNode -> nat, before: seq<LazyNode>, after: seq<LazyNode>, n: LazyNode)
    requires n.count >= 1
    requires multiset(after) + multiset{n} ==
               multiset(before) + (if n.count > 1 then multiset{n.(count := n.count - 1)} else multiset{})
    ensures Sum(f, after) + f(n) == Sum(f, before) + (if n.count > 1 then f(n.(count := n.count - 1)) else 0)
  {
    var n' := n.(count := n.count - 1);
    SumSingleton(f, n);
    SumSingleton(f, n');
    if n.count > 1 {
      assert multiset(after + [n]) == multiset(before) + multiset([n']);
      SumSplit(f, after + [n], before, [n']);
      SumConcat(f, after, [n]);
    } else {
      assert multiset(before) == multiset(after) + multiset([n]);
      SumSplit(f, before, after, [n]);
    }
  }

  /** A drawn-from node gives up exactly one of its tasks. */
  lemma DrawRemaining(before: seq<LazyNode>, after: seq<LazyNode>, n: LazyNode)
    requires n.count >= 1
    requires multiset(after) + multiset{n} ==
               multiset(before) + (if n.count > 1 then multiset{n.(count := n.count - 1)} else multiset{})
    ensures Remaining(after) + 1 == Remaining(before)
  {
    DrawSum(Count, before, after, n);
  }

  /** Every node queued after a draw-and-execute satisfies the queue part of
      the invariant. */
  lemma QueuedAfterStep(h: nat, m: nat, before: seq<LazyNode>, drawn: seq<LazyNode>, after: seq<LazyNode>,
                        n: LazyNode, child: LazyNode, rngs: nat, rngs': nat)
    requires forall x :: x in before ==> 1 <= x.count && x.height <= h && x.maxChildren == m && x.rng < rngs
    requires n in before && rngs <= rngs'
    requires multiset(drawn) + multiset{n} ==
               multiset(before) + (if n.count > 1 then multiset{n.(count := n.count - 1)} else multiset{})
    requires multiset(after) == multiset(drawn) + (if child.count > 0 then multiset{child} else multiset{})
    requires child.count > 0 ==> child.height <= h && child.maxChildren == m && child.rng < rngs'
    ensures forall x :: x in after ==> 1 <= x.count && x.height <= h && x.maxChildren == m && x.rng < rngs'
  {
    var n' := n.(count := n.count - 1);
    forall x | x in after
      ensures 1 <= x.count && x.height <= h && x.maxChildren == m && x.rng < rngs'
    {
      assert x in multiset(after);
      if x != child || child.count == 0 {
        assert x in multiset(drawn);
        assert x in multiset(drawn) + multiset{n};
        if x != n' || n.count <= 1 {
          assert x in multiset(before);
        }
      }
    }
  }

  /** The invariant survives one draw-and-execute, stated over the draw's
      outcome `d` (with the drawn-from node `n` and the task `t`) and the
      completed state `r`. */
  lemma ExecutingPreservesInv(o: Oracles, roots: seq<LazyNode>, h: nat, m: nat,
                              s: State, n: LazyNode, t: Task, d: State, w: nat)
    requires Inv(o, roots, h, m, s)
    requires n in All(s.queues)
    requires t.height == n.height && t.maxChildren == n.maxChildren
    requires multiset(All(d.queues)) + multiset{n} ==
               multiset(All(s.queues)) + (if n.count > 1 then multiset{n.(count := n.count - 1)} else multiset{})
    requires d.executed == s.executed && d.agg == s.agg && d.spawned == s.spawned && |d.rngs| == |s.rngs|
    requires w < |d.queues.locals|
    ensures Inv(o, roots, h, m, Complete(o, d, w, t))
  {
    var r := Complete(o, d, w, t);
    var child := Execute(o.evaluate, o.word, t, |d.rngs|).child;
    assert n.height <= h && n.maxChildren == m;
    CompletedInv(o, roots, h, m, s, n, t, d, child, r);
  }

  /** `ExecutingPreservesInv` with the completed state `r` and the child node
      given by their properties. */
  lemma CompletedInv(o: Oracles, roots: seq<LazyNode>, h: nat, m: nat,
                     s: State, n: LazyNode, t: Task, d: State, child: LazyNode, r: State)
    requires Inv(o, roots, h, m, s)
    requires n in All(s.queues) && n.height <= h && n.maxChildren == m
    requires t.height == n.height && t.maxChildren == n.maxChildren
    requires multiset(All(d.queues)) + multiset{n} ==
               multiset(All(s.queues)) + (if n.count > 1 then multiset{n.(count := n.count - 1)} else multiset{})
    requires d.executed == s.executed && d.agg == s.agg && d.spawned == s.spawned && |d.rngs| == |s.rngs|
    requires r.executed == s.executed + [t]
    requires r.agg == Contribute(s.agg, t.kind, o.evaluate(t.kind, t.seed))
    requires multiset(All(r.queues)) == multiset(All(d.queues)) + (if child.count > 0 then multiset{child} else multiset{})
    requires r.spawned == s.spawned + (if child.count > 0 then [child] else [])
    requires child.count > 0 ==>
               child.height + 1 == t.height && 1 <= child.count <= t.maxChildren
               && child.maxChildren == t.maxChildren && child.rng == |s.rngs|
    requires |r.rngs| == |s.rngs| + 1
    ensures Inv(o, roots, h, m, r)
  {
    SpawnedAfterStep(roots, h, m, s.spawned, r.spawned, child, t);
    QueuedAfterStep(h, m, All(s.queues), All(d.queues), All(r.queues), n, child, |s.rngs|, |r.rngs|);
    ExecutedAfterStep(h, m, s.executed, t);
    ConservedAfterStep(All(s.queues), All(d.queues), All(r.queues), n, child, s.spawned);
    ContributeExtends(o.evaluate, s.agg, s.executed, t);
  }

  /** The spawned part of the invariant survives the spawning of a child node. */
  lemma SpawnedAfterStep(roots: seq<LazyNode>, h: nat, m: nat, before: seq<LazyNode>, after: seq<LazyNode>,
                         child: LazyNode, t: Task)
    requires |roots| <= |before| && before[..|roots|] == roots
    requires forall i :: |roots| <= i < |before| ==>
               1 <= before[i].count <= m && before[i].height < h && before[i].maxChildren == m
    requires after == before + (if child.count > 0 then [child] else [])
    requires child.count > 0 ==>
               child.height + 1 == t.height && 1 <= child.count <= t.maxChildren && child.maxChildren == t.maxChildren
    requires t.height <= h && t.maxChildren == m
    ensures |roots| <= |after| && after[..|roots|] == roots
    ensures forall i :: |roots| <= i < |after| ==>
              1 <= after[i].count <= m && after[i].height < h && after[i].maxChildren == m
  {
    assert after[..|before|] == before;
    assert forall i :: |roots| <= i < |before| ==> after[i] == before[i];
  }

  /** The executed part of the invariant survives executing a task no higher
      than the starting height. */
  lemma ExecutedAfterStep(h: nat, m: nat, before: seq<Task>, t: Task)
    requires forall i :: 0 <= i < |before| ==> before[i].height <= h && before[i].maxChildren == m
    requires t.height <= h && t.maxChildren == m
    ensures forall i :: 0 <= i < |before + [t]| ==> (before + [t])[i].height <= h && (before + [t])[i].maxChildren == m
  {
    assert forall i :: 0 <= i < |before + [t]| ==> (before + [t])[i] == if i < |before| then before[i] else t;
  }

  /** Conservation across one draw-and-execute: the draw removes one task from
      the queues, and a queued child node adds as many to the queues as to the
      spawned nodes. */
  lemma ConservedAfterStep(before: seq<LazyNode>, drawn: seq<LazyNode>, after: seq<LazyNode>,
                           n: LazyNode, child: LazyNode, spawned: seq<LazyNode>)
    requires n.count >= 1
    requires multiset(drawn) + multiset{n} ==
               multiset(before) + (if n.count > 1 then multiset{n.(count := n.count - 1)} else multiset{})
    requires multiset(after) == multiset(drawn) + (if child.count > 0 then multiset{child} else multiset{})
    ensures Remaining(after) + 1 + Remaining(spawned) ==
              Remaining(before) + Remaining(spawned + (if child.count > 0 then [child] else []))
  {
    DrawRemaining(before, drawn, n);
    if child.count > 0 {
      SumSplit(Count, after, drawn, [child]);
      SumConcat(Count, spawned, [child]);
    } else {
      assert spawned + [] == spawned;
      SumPermutation(Count, after, drawn);
    }
  }

  lemma StepPreservesInv(o: Oracles, roots: seq<LazyNode>, h: nat, m: nat, s: State, w: nat)
    requires Inv(o, roots, h, m, s)
    requires w < |s.queues.locals|
    ensures Ready(s)
    ensures Step(o, s, w).Some? ==> Inv(o, roots, h, m, Step(o, s, w).value)
  {
    var dr := Draw(o.word, s, w);
    if dr.Some? {
      var n := Find(s.queues, w).item.value;
      ExecutingPreservesInv(o, roots, h, m, s, n, dr.value.task, dr.value.state, w);
    }
  }

  /** The state after worker `w` runs its loop body once; a worker that
      finds nothing leaves the state as it is. */
  function Next(o: Oracles, s: State, w: nat): (r: State)
    requires w < |s.queues.locals|
    requires Ready(s)
    ensures Ready(r) && |r.queues.locals| == |s.queues.locals|
    ensures All(s.queues) == [] ==> r == s
    ensures All(s.queues) != [] ==> |r.executed| == |s.executed| + 1
  {
    match Step(o, s, w)
    case None => s
    case Some(s') => s'
  }

  /** The workers named by `schedule` run their loop bodies one after the
      other. */
  function Run(o: Oracles, s: State, schedule: seq<nat>): (r: State)
    requires ValidSchedule(schedule, |s.queues.locals|)
    requires Ready(s)
    ensures |r.queues.locals| == |s.queues.locals|
    ensures Ready(r)
    decreases |schedule|
  {
    if |schedule| == 0 then s
    else Run(o, Next(o, s, schedule[0]), schedule[1..])
  }

  lemma RunUnfold(o: Oracles, s: State, schedule: seq<nat>)
    requires ValidSchedule(schedule, |s.queues.locals|) && |schedule| > 0
    requires Ready(s)
    ensures ValidSchedule(schedule[1..], |Next(o, s, schedule[0]).queues.locals|)
    ensures Run(o, s, schedule) == Run(o, Next(o, s, schedule[0]), schedule[1..])
  {
  }

  lemma NextPreservesInv(o: Oracles, roots: seq<LazyNode>, h: nat, m: nat, s: State, w: nat)
    requires Inv(o, roots, h, m, s)
    requires w < |s.queues.locals|
    ensures Ready(s)
    ensures Inv(o, roots, h, m, Next(o, s, w))
  {
    StepPreservesInv(o, roots, h, m, s, w);
  }

  lemma {:induction false} RunPreservesInv(o: Oracles, roots: seq<LazyNode>, h: nat, m: nat, s: State, schedule: seq<nat>)
    requires ValidSchedule(schedule, |s.queues.locals|)
    requires Inv(o, roots, h, m, s)
    ensures Inv(o, roots, h, m, Run(o, s, schedule))
    decreases |schedule|
  {
    if |schedule| > 0 {
      NextPreservesInv(o, roots, h, m, s, schedule[0]);
      RunUnfold(o, s, schedule);
      var next := Next(o, s, schedule[0]);
      RunPreservesInv(o, roots, h, m, next, schedule[1..]);
    }
  }

  /** An upper bound on the tasks one task of a node at `height` accounts
      for (itself and all its descendants) when every node has at most `m`
      tasks. */
  function Work(m: nat, height: nat): (r: nat)
    ensures r >= 1
  {
    if height == 0 then 1 else 1 + Times(m, Work(m, height - 1))
  }

  function NodeWork(m: nat): LazyNode -> nat {
    (n: LazyNode) => Times(n.count, Work(m, n.height))
  }

  /** The work measure of the queued nodes: it drops by at least one with
      every executed task. */
  function Backlog(m: nat, ns: seq<LazyNode>): nat {
    Sum(NodeWork(m), ns)
  }

  /** `a * b` as repeated addition, which keeps the work measure linear for
      the solver. */
  function Times(a: nat, b: nat): nat {
    if a == 0 then 0 else b + Times(a - 1, b)
  }

  lemma {:induction false} TimesIsProduct(a: nat, b: nat)
    ensures Times(a, b) == a * b
    decreases a
  {
    if a > 0 {
      TimesIsProduct(a - 1, b);
    }
  }

  lemma {:induction false} TimesMonotone(a: nat, b: nat, c: nat)
    requires a <= b
    ensures Times(a, c) <= Times(b, c)
    decreases b
  {
    if a < b {
      TimesMonotone(a, b - 1, c);
    }
  }

  /** The children a task yields account for less work than the task. */
  lemma ChildWorkSmaller(m: nat, height: nat, k: nat)
    requires height > 0 && k <= m
    ensures Times(k, Work(m, height - 1)) < Work(m, height)
  {
    TimesMonotone(k, m, Work(m, height - 1));
  }

  lemma ReArmedWork(m: nat, n: LazyNode)
    requires n.count >= 1
    ensures NodeWork(m)(n.(count := n.count - 1)) + Work(m, n.height) == NodeWork(m)(n)
  {
  }

  /** One draw-and-execute lowers the backlog. */
  lemma BacklogDecreases(m: nat, before: seq<LazyNode>, drawn: seq<LazyNode>, after: seq<LazyNode>,
                         n: LazyNode, child: LazyNode)
    requires n.count >= 1 && n.maxChildren == m
    requires multiset(drawn) + multiset{n} ==
               multiset(before) + (if n.count > 1 then multiset{n.(count := n.count - 1)} else multiset{})
    requires multiset(after) == multiset(drawn) + (if child.count > 0 then multiset{child} else multiset{})
    requires child.count > 0 ==> child.height + 1 == n.height && child.count <= m
    ensures Backlog(m, after) < Backlog(m, before)
  {
    var f := NodeWork(m);
    DrawSum(f, before, drawn, n);
    ReArmedWork(m, n);
    if child.count > 0 {
      SumSplit(f, after, drawn, [child]);
      SumSingleton(f, child);
      ChildWorkSmaller(m, n.height, child.count);
    } else {
      SumPermutation(f, after, drawn);
    }
  }

  lemma StepLowersBacklog(o: Oracles, roots: seq<LazyNode>, h: nat, m: nat, s: State, w: nat)
    requires Inv(o, roots, h, m, s)
    requires w < |s.queues.locals|
    requires Step(o, s, w).Some?
    ensures Backlog(m, All(Step(o, s, w).value.queues)) < Backlog(m, All(s.queues))
  {
    var dr := Draw(o.word, s, w).value;
    var n := Find(s.queues, w).item.value;
    var child := Execute(o.evaluate, o.word, dr.task, |dr.state.rngs|).child;
    BacklogDecreases(m, All(s.queues), All(dr.state.queues), All(Step(o, s, w).value.queues), n, child);
  }

  /** A loop body that finds work lowers the backlog; one that does not
      changes nothing. */
  lemma NextLowersBacklog(o: Oracles, roots: seq<LazyNode>, h: nat, m: nat, s: State, w: nat)
    requires Inv(o, roots, h, m, s)
    requires w < |s.queues.locals|
    ensures Ready(s)
    ensures Backlog(m, All(Next(o, s, w).queues)) + (if All(s.queues) == [] then 0 else 1) <= Backlog(m, All(s.queues))
  {
    StepPreservesInv(o, roots, h, m, s, w);
    if All(s.queues) != [] {
      StepLowersBacklog(o, roots, h, m, s, w);
    }
  }

  /** Queued nodes each have a task left, so an empty backlog means empty queues. */
  lemma BacklogCoversQueued(m: nat, ns: seq<LazyNode>)
    requires forall x :: x in ns ==> x.count >= 1
    ensures Backlog(m, ns) == 0 ==> ns == []
  {
    if ns != [] {
      assert ns[0] in ns;
      assert NodeWork(m)(ns[0]) >= 1;
    }
  }

  /** A budget of `k` loop bodies that covers the backlog still covers it,
      less one, after any loop body. */
  lemma NextKeepsDraining(o: Oracles, roots: seq<LazyNode>, h: nat, m: nat, s: State, w: nat, k: nat)
    requires Inv(o, roots, h, m, s)
    requires w < |s.queues.locals|
    requires k > 0 && k >= Backlog(m, All(s.queues))
    ensures Ready(s)
    ensures Inv(o, roots, h, m, Next(o, s, w))
    ensures k - 1 >= Backlog(m, All(Next(o, s, w).queues))
  {
    NextPreservesInv(o, roots, h, m, s, w);
    NextLowersBacklog(o, roots, h, m, s, w);
  }

  /** Termination: once the schedule has at least as many steps as the
      backlog, every queue is empty. */
  lemma {:induction false} RunDrains(o: Oracles, roots: seq<LazyNode>, h: nat, m: nat, s: State, schedule: seq<nat>)
    requires ValidSchedule(schedule, |s.queues.locals|)
    requires Inv(o, roots, h, m, s)
    requires |schedule| >= Backlog(m, All(s.queues))
    ensures All(Run(o, s, schedule).queues) == []
    decreases |schedule|
  {
    if |schedule| == 0 {
      BacklogCoversQueued(m, All(s.queues));
    } else {
      NextKeepsDraining(o, roots, h, m, s, schedule[0], |schedule|);
      RunUnfold(o, s, schedule);
      var next := Next(o, s, schedule[0]);
      RunDrains(o, roots, h, m, next, schedule[1..]);
    }
  }

  /** The initial backlog: every root is one task at the starting height. */
  lemma {:induction false} RootsBacklog(m: nat, roots: seq<LazyNode>, h: nat, handle: nat)
    requires forall i :: 0 <= i < |roots| ==> roots[i] == LazyNode(h, 1, m, handle)
    ensures Backlog(m, roots) == Times(|roots|, Work(m, h))
    decreases |roots|
  {
    if |roots| > 0 {
      RootsBacklog(m, roots[1..], h, handle);
      assert NodeWork(m)(roots[0]) == Times(1, Work(m, h)) == Work(m, h) + Times(0, Work(m, h));
    }
  }

  /** Termination of the lazy program: whatever the generator and the
      interleaving, a schedule of 64 * Work(m, h) steps drains every queue. */
  lemma RunsTerminate(o: Oracles, seed: bv64, h: nat, m: nat, workers: nat, schedule: seq<nat>)
    requires ValidSchedule(schedule, workers)
    requires |schedule| >= MaxRoots * Work(m, h)
    ensures All(Run(o, Init(o.word, seed, h, m, workers), schedule).queues) == []
  {
    var s := Init(o.word, seed, h, m, workers);
    InitEstablishesInv(o, seed, h, m, workers);
    RootsBacklog(m, s.spawned, h, 0);
    TimesMonotone(|s.spawned|, MaxRoots, Work(m, h));
    TimesIsProduct(MaxRoots, Work(m, h));
    RunDrains(o, s.spawned, h, m, s, schedule);
  }

  /** Every root has one task. */
  lemma {:induction false} RootsRemaining(roots: seq<LazyNode>)
    requires forall i :: 0 <= i < |roots| ==> roots[i].count == 1
    ensures Remaining(roots) == |roots|
    decreases |roots|
  {
    if |roots| > 0 {
      RootsRemaining(roots[1..]);
    }
  }

  /** A drained state executed as many tasks as its spawned nodes held. */
  lemma DrainedConserves(o: Oracles, roots: seq<LazyNode>, h: nat, m: nat, f: State)
    requires Inv(o, roots, h, m, f)
    requires All(f.queues) == []
    ensures |f.executed| == Remaining(f.spawned)
    ensures ReportOf(f.agg).hash + ReportOf(f.agg).derive + ReportOf(f.agg).random == |f.executed|
  {
    ReportCounts(o.evaluate, f.agg, f.executed);
  }

  /** A node spawned beyond the roots needs a positive child bound and a
      positive starting height. */
  lemma ChildNodesNeedRoom(o: Oracles, roots: seq<LazyNode>, h: nat, m: nat, f: State)
    requires Inv(o, roots, h, m, f)
    ensures |f.spawned| > |roots| ==> m >= 1 && h >= 1
  {
    if |f.spawned| > |roots| {
      assert 1 <= f.spawned[|roots|].count <= m && f.spawned[|roots|].height < h;
    }
  }

  /** With no children possible, the only spawned nodes are the roots. */
  lemma LeafSpawnsRoots(o: Oracles, roots: seq<LazyNode>, h: nat, m: nat, f: State)
    requires Inv(o, roots, h, m, f)
    requires m == 0 || h == 0
    ensures f.spawned == roots
  {
    ChildNodesNeedRoom(o, roots, h, m, f);
    assert f.spawned == f.spawned[..|roots|];
  }

  /** A complete run of the lazy program executed exactly as many tasks as
      its nodes held (roots included), none higher than the starting height,
      and the printed counts add up to that number. */
  lemma FinishedRunConserves(o: Oracles, seed: bv64, h: nat, m: nat, workers: nat, schedule: seq<nat>)
    requires ValidSchedule(schedule, workers)
    requires All(Run(o, Init(o.word, seed, h, m, workers), schedule).queues) == []
    ensures var f := Run(o, Init(o.word, seed, h, m, workers), schedule);
            && |f.executed| == Remaining(f.spawned)
            && (forall i :: 0 <= i < |f.executed| ==> f.executed[i].height <= h)
            && Summarizes(o.evaluate, f.agg, f.executed)
            && ReportOf(f.agg).hash + ReportOf(f.agg).derive + ReportOf(f.agg).random == |f.executed|
  {
    var s := Init(o.word, seed, h, m, workers);
    InitEstablishesInv(o, seed, h, m, workers);
    RunPreservesInv(o, s.spawned, h, m, s, schedule);
    DrainedConserves(o, s.spawned, h, m, Run(o, s, schedule));
  }

  /** With no children possible, a drained state executed one task per root. */
  lemma LeafDrained(o: Oracles, roots: seq<LazyNode>, h: nat, m: nat, f: State)
    requires Inv(o, roots, h, m, f)
    requires m == 0 || h == 0
    requires forall i :: 0 <= i < |roots| ==> roots[i].count == 1
    requires All(f.queues) == []
    ensures f.spawned == roots && |f.executed| == |roots|
  {
    LeafSpawnsRoots(o, roots, h, m, f);
    DrainedConserves(o, roots, h, m, f);
    RootsRemaining(roots);
  }

  /** With no children possible (child bound 0 or starting height 0) a
      complete run spawns no node beyond the roots and executes exactly one
      task per root. */
  lemma LeafRunExecutesRoots(o: Oracles, seed: bv64, h: nat, m: nat, workers: nat, schedule: seq<nat>)
    requires m == 0 || h == 0
    requires ValidSchedule(schedule, workers)
    requires All(Run(o, Init(o.word, seed, h, m, workers), schedule).queues) == []
    ensures var f := Run(o, Init(o.word, seed, h, m, workers), schedule);
            && f.spawned == Init(o.word, seed, h, m, workers).spawned
            && |f.executed| == |f.spawned|
  {
    var s := Init(o.word, seed, h, m, workers);
    InitEstablishesInv(o, seed, h, m, workers);
    RunPreservesInv(o, s.spawned, h, m, s, schedule);
    LeafDrained(o, s.spawned, h, m, Run(o, s, schedule));
  }
}
