/** Tasks and lazy generation nodes (the lazy program's task module).

A `Task` is one executable unit. A `LazyNode` is a not-yet-materialised set
of sibling tasks: it counts how many tasks are still to be drawn from it and
refers to the random generator those tasks' kinds and seeds come from.

Two things stay abstract:
- the workload evaluator (iterated SHA-256, PBKDF2-HMAC-SHA512 or ChaCha20
  draws, depending on the kind) is a function parameter `evaluate`;
- the ChaCha20 generator is a function parameter `word` giving the 64-bit
  word at each position of the stream seeded with each seed. A ranged draw
  takes one word and reduces it into the range: only the range is modelled,
  not the exact sampling algorithm.
 */
module Tasks {

  datatype TaskKind = Hash | Derive | Random

  /** The kinds a draw picks from, in the order the draw indexes them. */
  const TypeArray: seq<TaskKind> := [Hash, Derive, Random]

  /** Number of root nodes drawn at most for the initial forest. */
  const MaxRoots: nat := 64

  datatype Task = Task(kind: TaskKind, seed: bv64, height: nat, maxChildren: nat)

  /** The workload evaluator: the 64-bit result of a task of a kind and seed. */
  type Evaluator = (TaskKind, bv64) -> bv64

  /** The generator: the word at position `pos` of the stream seeded with `seed`. */
  type WordSource = (bv64, nat) -> bv64

  /** A generator's state: its seed and how many words have been drawn. */
  datatype Stream = Stream(seed: bv64, pos: nat)

  /** Seeding a fresh generator. */
  function Seeded(seed: bv64): Stream {
    Stream(seed, 0)
  }

  datatype Word = Word(value: bv64, next: Stream)

  datatype Ranged = Ranged(value: nat, next: Stream)

  /** Drawing a full 64-bit word. */
  function NextWord(word: WordSource, s: Stream): (r: Word)
    ensures r.value == word(s.seed, s.pos)
    ensures r.next == Stream(s.seed, s.pos + 1)
  {
    Word(word(s.seed, s.pos), Stream(s.seed, s.pos + 1))
  }

  /** Drawing a value in [0, bound). */
  function GenRange(word: WordSource, s: Stream, bound: nat): (r: Ranged)
    requires bound > 0
    ensures r.value < bound
    ensures r.next == Stream(s.seed, s.pos + 1)
  {
    var w := NextWord(word, s);
    Ranged((w.value as nat) % bound, w.next)
  }

  /** A lazy node. `rng` is a handle to its generator: sibling root nodes
      share one, every node created by executing a task gets its own. */
  datatype LazyNode = LazyNode(height: nat, count: nat, maxChildren: nat, rng: nat)

  datatype Drawn = Drawn(task: Task, node: LazyNode, stream: Stream)

  /** Drawing the next task of a node from the node's generator `s`: the
      count goes down by one; the kind is the type-array entry at a drawn index
      and the seed the next full word, both from the same generator. The
      source decrements an unsigned count, so the node must not be exhausted. */
  function GenerateTask(word: WordSource, node: LazyNode, s: Stream): (r: Drawn)
    requires node.count >= 1
    ensures r.node == node.(count := node.count - 1)
    ensures r.task.height == node.height && r.task.maxChildren == node.maxChildren
    ensures exists i :: 0 <= i < |TypeArray| && r.task.kind == TypeArray[i]
                        && i == GenRange(word, s, |TypeArray|).value
    ensures r.task.seed == word(s.seed, s.pos + 1)
    ensures r.stream == Stream(s.seed, s.pos + 2)
  {
    var k := GenRange(word, s, |TypeArray|);
    var w := NextWord(word, k.next);
    Drawn(Task(TypeArray[k.value], w.value, node.height, node.maxChildren),
          node.(count := node.count - 1),
          w.next)
  }

  datatype Spawned = Spawned(node: LazyNode, stream: Stream)

  /** The node for the children of a task: a fresh generator seeded with
      `seed` draws how many children there are, between 0 and `maxChildren`
      inclusive. `handle` is the handle the new generator is known by. */
  function GenerateLazy(word: WordSource, seed: bv64, height: nat, maxChildren: nat, handle: nat): (r: Spawned)
    ensures r.node.count <= maxChildren
    ensures r.node.height == height && r.node.maxChildren == maxChildren && r.node.rng == handle
    ensures r.stream == Stream(seed, 1)
    ensures r.node.count == GenRange(word, Seeded(seed), maxChildren + 1).value
  {
    var n := GenRange(word, Seeded(seed), maxChildren + 1);
    Spawned(LazyNode(height, n.value, maxChildren, handle), n.next)
  }

  datatype Executed = Executed(output: bv64, child: LazyNode, stream: Stream)

  /** Executing a task: its output is the evaluator's result, and its children
      are a lazy node one level lower, generated from `seed ^ output`. A task
      at height 0 yields an exhausted node (and a generator seeded with 0). */
  function Execute(evaluate: Evaluator, word: WordSource, t: Task, handle: nat): (r: Executed)
    ensures r.output == evaluate(t.kind, t.seed)
    ensures t.height == 0 ==> r.child.count == 0
    ensures t.height > 0 ==>
              && r.child.height == t.height - 1
              && r.child.maxChildren == t.maxChildren
              && r.child.rng == handle
              && r.stream == Stream(t.seed ^ r.output, 1)
              && r.child.count <= t.maxChildren
              && r.child.count == GenRange(word, Seeded(t.seed ^ r.output), t.maxChildren + 1).value
    ensures r.child.count > 0 ==> r.child.height < t.height
  {
    var output := evaluate(t.kind, t.seed);
    if t.height == 0 then
      Executed(output, LazyNode(0, 0, 0, handle), Seeded(0))
    else
      var c := GenerateLazy(word, t.seed ^ output, t.height - 1, t.maxChildren, handle);
      Executed(output, c.node, c.stream)
  }

  datatype Forest = Forest(roots: seq<LazyNode>, stream: Stream)

  /** The initial forest: a generator seeded with the global seed draws a
      number of roots in [0, 64]; every root has one task to draw, at the
      starting height, and all roots share that generator (`handle`). */
  function GenerateInitial(word: WordSource, seed: bv64, startingHeight: nat, maxChildren: nat, handle: nat): (r: Forest)
    ensures |r.roots| <= MaxRoots
    ensures |r.roots| == GenRange(word, Seeded(seed), MaxRoots + 1).value
    ensures forall i :: 0 <= i < |r.roots| ==> r.roots[i] == LazyNode(startingHeight, 1, maxChildren, handle)
    ensures r.stream == Stream(seed, 1)
  {
    var n := GenRange(word, Seeded(seed), MaxRoots + 1);
    Forest(seq(n.value, _ => LazyNode(startingHeight, 1, maxChildren, handle)), n.next)
  }
}
