/** The work-stealing queue set with the threads removed.

Each worker owns a LIFO deque, written here as a sequence whose last element
is the top: the owner pushes and pops at the end, stealers take from the
front. The shared injector is a FIFO sequence: pushed at the end, stolen from
the front. A step of the model is atomic, so a pass of `find_task` sees a
snapshot in which no steal needs a retry.
 */
module Queues {
  import opened Wrappers
  import opened Stealing

  datatype QueueSet<T> = QueueSet(locals: seq<seq<T>>, injector: seq<T>)

  /** Everything queued anywhere: the workers' deques in order, then the injector. */
  function Flatten<T>(ss: seq<seq<T>>): seq<T> {
    if |ss| == 0 then [] else ss[0] + Flatten(ss[1..])
  }

  function All<T>(q: QueueSet<T>): seq<T> {
    Flatten(q.locals) + q.injector
  }

  lemma {:induction false} FlattenSplit<T>(ss: seq<seq<T>>, i: nat)
    requires i < |ss|
    ensures Flatten(ss) == Flatten(ss[..i]) + ss[i] + Flatten(ss[i + 1..])
    decreases i
  {
    if i == 0 {
      assert ss[..0] == [];
    } else {
      FlattenSplit(ss[1..], i - 1);
      assert ss[1..][..i - 1] == ss[1..i];
      assert ss[1..][i - 1] == ss[i];
      assert ss[1..][i..] == ss[i + 1..];
      assert ss[..i][1..] == ss[1..i];
      assert ss[..i][0] == ss[0];
    }
  }

  /** Replacing deque `i` by `x` replaces its slice of the flattened queues. */
  lemma FlattenUpdate<T>(ss: seq<seq<T>>, i: nat, x: seq<T>)
    requires i < |ss|
    ensures Flatten(ss) == Flatten(ss[..i]) + ss[i] + Flatten(ss[i + 1..])
    ensures Flatten(ss[i := x]) == Flatten(ss[..i]) + x + Flatten(ss[i + 1..])
  {
    FlattenSplit(ss, i);
    FlattenSplit(ss[i := x], i);
    assert ss[i := x][..i] == ss[..i];
    assert ss[i := x][i + 1..] == ss[i + 1..];
  }

  lemma {:induction false} FlattenEmpty<T>(ss: seq<seq<T>>)
    ensures Flatten(ss) == [] <==> forall i :: 0 <= i < |ss| ==> ss[i] == []
    decreases |ss|
  {
    if |ss| > 0 {
      FlattenEmpty(ss[1..]);
      assert forall i :: 1 <= i < |ss| ==> ss[i] == ss[1..][i - 1];
    }
  }

  /** A set of `n` empty deques and the given injector. */
  function Fresh<T>(n: nat, injector: seq<T>): (q: QueueSet<T>)
    ensures |q.locals| == n
    ensures forall i :: 0 <= i < n ==> q.locals[i] == []
    ensures q.injector == injector
    ensures All(q) == injector
  {
    var q := QueueSet(seq(n, _ => []), injector);
    FlattenEmpty(q.locals);
    q
  }

  /** Index of the first non-empty deque, or |ss| if all are empty. */
  function FirstNonEmpty<T>(ss: seq<seq<T>>): (k: nat)
    ensures k <= |ss|
    ensures forall j :: 0 <= j < k ==> ss[j] == []
    ensures k < |ss| ==> ss[k] != []
  {
    if |ss| == 0 then 0
    else if ss[0] != [] then 0
    else 1 + FirstNonEmpty(ss[1..])
  }

  datatype Taken<T> = Taken(item: Option<T>, rest: QueueSet<T>)

  /** `worker.pop()`: the top of worker `w`'s own deque. */
  function LocalPop<T>(q: QueueSet<T>, w: nat): Option<T>
    requires w < |q.locals|
  {
    if q.locals[w] == [] then None else Some(q.locals[w][|q.locals[w]| - 1])
  }

  /** The pass worker `w` sees in a snapshot of the queues: each stealer
      would yield the front of its deque, the injector its front. */
  function Snapshot<T>(q: QueueSet<T>): Pass<T> {
    Pass(seq(|q.locals|, p requires 0 <= p < |q.locals| =>
                           if q.locals[p] == [] then Empty else Success(q.locals[p][0])),
         if q.injector == [] then Empty else Success(q.injector[0]))
  }

  /** `worker.pop()`: removes the top of worker `w`'s own deque. */
  function PopOwn<T>(q: QueueSet<T>, w: nat): (r: Taken<T>)
    requires w < |q.locals| && q.locals[w] != []
    ensures r.item == Some(q.locals[w][|q.locals[w]| - 1])
    ensures r.rest.locals == q.locals[w := q.locals[w][..|q.locals[w]| - 1]]
    ensures r.rest.injector == q.injector
    ensures multiset(All(q)) == multiset(All(r.rest)) + multiset{r.item.value}
  {
    var own := q.locals[w];
    var top := own[|own| - 1];
    var rest := q.(locals := q.locals[w := own[..|own| - 1]]);
    FlattenUpdate(q.locals, w, own[..|own| - 1]);
    var before, after := Flatten(q.locals[..w]), Flatten(q.locals[w + 1..]) + q.injector;
    assert own == own[..|own| - 1] + [top];
    assert All(q) == (before + own[..|own| - 1]) + [top] + after;
    assert All(rest) == (before + own[..|own| - 1]) + after;
    MultisetRemoveAt(before + own[..|own| - 1], top, after);
    Taken(Some(top), rest)
  }

  /** `stealer.steal()` on peer `p`: removes the bottom (oldest) item of its deque. */
  function StealPeer<T>(q: QueueSet<T>, p: nat): (r: Taken<T>)
    requires p < |q.locals| && q.locals[p] != []
    ensures r.item == Some(q.locals[p][0])
    ensures r.rest.locals == q.locals[p := q.locals[p][1..]]
    ensures r.rest.injector == q.injector
    ensures multiset(All(q)) == multiset(All(r.rest)) + multiset{r.item.value}
  {
    var victim := q.locals[p];
    var rest := q.(locals := q.locals[p := victim[1..]]);
    FlattenUpdate(q.locals, p, victim[1..]);
    var before, after := Flatten(q.locals[..p]), Flatten(q.locals[p + 1..]) + q.injector;
    assert All(q) == before + victim + after;
    assert All(rest) == before + victim[1..] + after;
    MultisetRemoveFront(before, victim, after);
    Taken(Some(victim[0]), rest)
  }

  lemma MultisetRemoveFront<T>(a: seq<T>, xs: seq<T>, b: seq<T>)
    requires xs != []
    ensures multiset(a + xs + b) == multiset(a + xs[1..] + b) + multiset{xs[0]}
  {
    assert xs == [xs[0]] + xs[1..];
    assert multiset(a + xs + b) == multiset(a) + multiset(xs) + multiset(b);
    assert multiset(a + xs[1..] + b) == multiset(a) + multiset(xs[1..]) + multiset(b);
  }

  /** `injector.steal()`: removes the front (oldest) item of the injector. */
  function StealInjector<T>(q: QueueSet<T>): (r: Taken<T>)
    requires q.injector != []
    ensures r.item == Some(q.injector[0])
    ensures r.rest == q.(injector := q.injector[1..])
    ensures multiset(All(q)) == multiset(All(r.rest)) + multiset{r.item.value}
  {
    var rest := q.(injector := q.injector[1..]);
    assert q.injector == [q.injector[0]] + q.injector[1..];
    assert All(q) == Flatten(q.locals) + [q.injector[0]] + q.injector[1..];
    Taken(Some(q.injector[0]), rest)
  }

  /** Worker `w` looking for work in one atomic step: pop its own deque,
      else steal the front of the first non-empty peer deque, else the front
      of the injector. The item leaves the queues. */
  function Find<T>(q: QueueSet<T>, w: nat): (r: Taken<T>)
    requires w < |q.locals|
    ensures |r.rest.locals| == |q.locals|
    ensures r.item.None? <==> All(q) == []
    ensures r.item.None? ==> r.rest == q
    ensures r.item.Some? ==> multiset(All(q)) == multiset(All(r.rest)) + multiset{r.item.value}
    ensures r.item.Some? ==> r.item.value in All(q)
    ensures q.locals[w] != [] ==> r == PopOwn(q, w)
    ensures q.locals[w] == [] && r.item.Some? && r.rest.injector != q.injector ==>
              forall p :: 0 <= p < |q.locals| ==> q.locals[p] == []
    ensures q.locals[w] == [] ==> r.item == Succeeded(RunPass(Snapshot(q)).outcome)
    ensures q.locals[w] == [] && FirstNonEmpty(q.locals) < |q.locals| ==>
              r == StealPeer(q, FirstNonEmpty(q.locals))
    ensures q.locals[w] == [] && FirstNonEmpty(q.locals) == |q.locals| && q.injector != [] ==>
              r == StealInjector(q)
  {
    var r := if q.locals[w] != [] then FlattenEmpty(q.locals); PopOwn(q, w) else StealOnce(q);
    assert r.item.Some? ==> r.item.value in multiset(All(q));
    r
  }

  /** One stealing pass over a snapshot: the front of the first non-empty
      deque, else the front of the injector. */
  function StealOnce<T>(q: QueueSet<T>): (r: Taken<T>)
    ensures |r.rest.locals| == |q.locals|
    ensures r.item.None? <==> All(q) == []
    ensures r.item.None? ==> r.rest == q
    ensures r.item.Some? ==> multiset(All(q)) == multiset(All(r.rest)) + multiset{r.item.value}
    ensures r.item.Some? && r.rest.injector != q.injector ==>
              forall p :: 0 <= p < |q.locals| ==> q.locals[p] == []
    ensures r.item == Succeeded(RunPass(Snapshot(q)).outcome)
    ensures FirstNonEmpty(q.locals) < |q.locals| ==> r == StealPeer(q, FirstNonEmpty(q.locals))
    ensures FirstNonEmpty(q.locals) == |q.locals| && q.injector != [] ==> r == StealInjector(q)
  {
    FlattenEmpty(q.locals);
    var p := FirstNonEmpty(q.locals);
    SnapshotOutcome(q);
    if p < |q.locals| then
      StealPeer(q, p)
    else if q.injector != [] then
      StealInjector(q)
    else
      Taken(None, q)
  }

  /** What a pass over the snapshot steals: the front of the first non-empty
      deque, else the front of the injector. */
  lemma SnapshotOutcome<T>(q: QueueSet<T>)
    ensures var p := FirstNonEmpty(q.locals);
            Succeeded(RunPass(Snapshot(q)).outcome) ==
              if p < |q.locals| then Some(q.locals[p][0])
              else if q.injector != [] then Some(q.injector[0])
              else None
  {
    var p := FirstNonEmpty(q.locals);
    var pass := Snapshot(q);
    FirstSuccessIs(pass.peers, p);
  }

  /** In one atomic step, `Find` returns what `find_task` returns: the
      result of the local pop, else of one stealing pass over the snapshot,
      which never asks for a retry. */
  lemma FindIsFindTask<T>(q: QueueSet<T>, w: nat)
    requires w < |q.locals|
    ensures forall x :: Find(q, w).item == Some(x) <==> FindTask(LocalPop(q, w), [Snapshot(q)]).result == Found(x)
    ensures Find(q, w).item.None? <==> FindTask(LocalPop(q, w), [Snapshot(q)]).result.NotFound?
  {
    if q.locals[w] == [] {
      var pass := Snapshot(q);
      assert forall i :: 0 <= i < |pass.peers| ==> !pass.peers[i].Retry?;
      FindTaskSettles(LocalPop(q, w), [pass], 0);
    }
  }

  lemma MultisetRemoveAt<T>(a: seq<T>, x: T, b: seq<T>)
    ensures multiset(a + [x] + b) == multiset(a + b) + multiset{x}
  {
    assert multiset(a + [x] + b) == multiset(a) + multiset([x]) + multiset(b);
    assert multiset(a + b) == multiset(a) + multiset(b);
  }

  lemma FirstSuccessIs<T>(attempts: seq<Steal<T>>, p: nat)
    requires p <= |attempts|
    requires forall j :: 0 <= j < p ==> !attempts[j].Success?
    requires p < |attempts| ==> attempts[p].Success?
    ensures FirstSuccess(attempts) == p
  {
    var k := FirstSuccess(attempts);
    if k < p {
      assert false;
    } else if k > p {
      assert false;
    }
  }

  /** The queue set after pushing `xs`, in order, onto worker `w`'s deque. */
  function PushAll<T>(q: QueueSet<T>, w: nat, xs: seq<T>): (r: QueueSet<T>)
    requires w < |q.locals|
    ensures |r.locals| == |q.locals|
    ensures r.locals[w] == q.locals[w] + xs
    ensures r.locals[w][|q.locals[w]|..] == xs
    ensures forall p :: 0 <= p < |q.locals| && p != w ==> r.locals[p] == q.locals[p]
    ensures r.injector == q.injector
    ensures multiset(All(r)) == multiset(All(q)) + multiset(xs)
  {
    var r := q.(locals := q.locals[w := q.locals[w] + xs]);
    FlattenUpdate(q.locals, w, q.locals[w] + xs);
    var before, after := Flatten(q.locals[..w]) + q.locals[w], Flatten(q.locals[w + 1..]) + q.injector;
    assert All(q) == before + after;
    assert All(r) == before + xs + after;
    assert (q.locals[w] + xs)[|q.locals[w]|..] == xs;
    r
  }
}
