/** The steal-outcome combinators and the task-finding rule of the scheduler.

`find_task` (identical in the eager and the lazy program) first pops the
worker's own deque. Only if that is empty does it run "passes": a pass asks
every peer's stealer in turn, stopping at the first success, and, unless a
peer succeeded, then asks the shared injector. A pass whose combined outcome
is `Retry` (some attempt lost a race) is run again; the first pass that is
not `Retry` decides the result.

The concurrent deques are not modelled here: a pass is described by the
outcome each source WOULD return if asked during that pass, and the model
reports which sources were actually asked.
 */
module Stealing {
  import opened Wrappers

  /** Outcome of one steal attempt. */
  datatype Steal<T> = Empty | Success(item: T) | Retry

  /** Converts a settled outcome to an option: the item of a success. */
  function Succeeded<T>(s: Steal<T>): (r: Option<T>)
    ensures r.Some? <==> s.Success?
    ensures s.Success? ==> r.value == s.item
  {
    match s
    case Success(x) => Some(x)
    case _ => None
  }

  /** Index of the first successful attempt, or |attempts| if none succeeded. */
  function FirstSuccess<T>(attempts: seq<Steal<T>>): (k: nat)
    ensures k <= |attempts|
    ensures forall j :: 0 <= j < k ==> !attempts[j].Success?
    ensures k < |attempts| ==> attempts[k].Success?
  {
    if |attempts| == 0 then 0
    else if attempts[0].Success? then 0
    else 1 + FirstSuccess(attempts[1..])
  }

  /** Combining attempts made one after the other, `retried` recording whether
      an earlier attempt already asked for a retry: the first success wins and
      ends the combination; otherwise any retry makes the whole a retry. */
  function CollectFrom<T>(attempts: seq<Steal<T>>, retried: bool): (r: Steal<T>)
    ensures r.Success? <==> exists i :: 0 <= i < |attempts| && attempts[i].Success?
    ensures r.Success? ==> r == attempts[FirstSuccess(attempts)]
    ensures r.Empty? <==> !retried && forall i :: 0 <= i < |attempts| ==> attempts[i].Empty?
    ensures r.Retry? <==>
              (forall i :: 0 <= i < |attempts| ==> !attempts[i].Success?)
              && (retried || exists i :: 0 <= i < |attempts| && attempts[i].Retry?)
  {
    if |attempts| == 0 then
      (if retried then Retry else Empty)
    else
      match attempts[0]
      case Success(_) => attempts[0]
      case Empty =>
        var r := CollectFrom(attempts[1..], retried);
        assert forall i :: 1 <= i < |attempts| ==> attempts[i] == attempts[1..][i - 1];
        r
      case Retry =>
        var r := CollectFrom(attempts[1..], true);
        assert forall i :: 1 <= i < |attempts| ==> attempts[i] == attempts[1..][i - 1];
        r
  }

  /** Collecting the peers' steal results into one outcome. */
  function Collect<T>(attempts: seq<Steal<T>>): (r: Steal<T>)
    ensures r.Success? <==> FirstSuccess(attempts) < |attempts|
    ensures r.Success? ==> r == attempts[FirstSuccess(attempts)]
    ensures r.Empty? <==> forall i :: 0 <= i < |attempts| ==> attempts[i].Empty?
    ensures r.Retry? <==>
              (forall i :: 0 <= i < |attempts| ==> !attempts[i].Success?)
              && (exists i :: 0 <= i < |attempts| && attempts[i].Retry?)
  {
    CollectFrom(attempts, false)
  }

  /** Falling back to a second source. `fallback` is what that source would
      answer; it is asked only when `Consults(s)` holds. */
  function OrElse<T>(s: Steal<T>, fallback: Steal<T>): (r: Steal<T>)
    ensures s.Success? ==> r == s
    ensures !s.Success? && fallback.Success? ==> r == fallback
    ensures !s.Success? && !fallback.Success? ==>
              (r.Empty? <==> s.Empty? && fallback.Empty?) && !r.Success?
  {
    match s
    case Success(_) => s
    case Empty => fallback
    case Retry => if fallback.Success? then fallback else Retry
  }

  /** Whether `OrElse(s, _)` asks its fallback source. */
  predicate Consults<T>(s: Steal<T>) {
    !s.Success?
  }

  /** A source a worker can steal from. */
  datatype Source = Peer(index: nat) | Injector

  /** What each source would answer if asked during one pass: the peers'
      stealers in order, then the injector. */
  datatype Pass<T> = Pass(peers: seq<Steal<T>>, injector: Steal<T>)

  /** The combined outcome of a pass and the sources it asked, in order. */
  datatype PassResult<T> = PassResult(outcome: Steal<T>, asked: seq<Source>)

  /** One pass: all peers in turn until one succeeds, then the injector. */
  function RunPass<T>(p: Pass<T>): (r: PassResult<T>)
    ensures forall j: nat :: Peer(j) in r.asked <==> j < |p.peers| && j <= FirstSuccess(p.peers)
    ensures Injector in r.asked <==> forall i :: 0 <= i < |p.peers| ==> !p.peers[i].Success?
    ensures FirstSuccess(p.peers) < |p.peers| ==> r.outcome == p.peers[FirstSuccess(p.peers)]
    ensures FirstSuccess(p.peers) == |p.peers| && p.injector.Success? ==> r.outcome == p.injector
    ensures r.outcome.Empty? <==>
              (forall i :: 0 <= i < |p.peers| ==> p.peers[i].Empty?) && p.injector.Empty?
    ensures r.outcome.Retry? <==>
              && (forall i :: 0 <= i < |p.peers| ==> !p.peers[i].Success?)
              && !p.injector.Success?
              && ((exists i :: 0 <= i < |p.peers| && p.peers[i].Retry?) || p.injector.Retry?)
  {
    var k := FirstSuccess(p.peers);
    var collected := Collect(p.peers);
    var tried := if k < |p.peers| then k + 1 else |p.peers|;
    var asked := seq(tried, j requires 0 <= j < tried => Peer(j));
    assert forall s :: s in asked ==> s.Peer? && s.index < tried;
    assert forall j :: 0 <= j < tried ==> asked[j] == Peer(j);
    PassResult(OrElse(collected, p.injector), asked + if Consults(collected) then [Injector] else [])
  }

  /** The settled outcome of a pass, if any pass settled. */
  datatype Search<T> =
    | Found(item: T)
    | NotFound
      /** Every observed pass asked for a retry: the source keeps spinning. */
    | Spinning

  datatype Lookup<T> = Lookup(result: Search<T>, passesRun: nat)

  /** Every pass before the `i`-th asked for a retry. */
  ghost predicate RetriedBefore<T>(passes: seq<Pass<T>>, i: nat)
    requires i <= |passes|
  {
    forall j :: 0 <= j < i ==> RunPass(passes[j]).outcome.Retry?
  }

  /** Running passes until one does not ask for a retry. */
  function Repeat<T>(passes: seq<Pass<T>>): (r: Lookup<T>)
    ensures r.passesRun <= |passes|
    ensures r.result.Spinning? <==> forall i :: 0 <= i < |passes| ==> RunPass(passes[i]).outcome.Retry?
    ensures r.result.Spinning? ==> r.passesRun == |passes|
    ensures !r.result.Spinning? ==>
              && 1 <= r.passesRun
              && RetriedBefore(passes, r.passesRun - 1)
              && !RunPass(passes[r.passesRun - 1]).outcome.Retry?
              && r.result == (match RunPass(passes[r.passesRun - 1]).outcome
                              case Success(x) => Found(x)
                              case _ => NotFound)
  {
    if |passes| == 0 then Lookup(Spinning, 0)
    else
      var o := RunPass(passes[0]).outcome;
      if o.Retry? then
        var rest := Repeat(passes[1..]);
        assert forall i :: 1 <= i < |passes| ==> passes[i] == passes[1..][i - 1];
        Lookup(rest.result, rest.passesRun + 1)
      else
        Lookup(if o.Success? then Found(o.item) else NotFound, 1)
  }

  /** `find_task`: the local pop wins; otherwise passes are repeated. */
  function FindTask<T>(local: Option<T>, passes: seq<Pass<T>>): (r: Lookup<T>)
    ensures local.Some? ==> r == Lookup(Found(local.value), 0)
    ensures local.None? ==>
              (r.result.Spinning? <==> forall i :: 0 <= i < |passes| ==> RunPass(passes[i]).outcome.Retry?)
    ensures local.None? ==> r == Repeat(passes)
  {
    if local.Some? then Lookup(Found(local.value), 0) else Repeat(passes)
  }

  /** `None` comes back exactly when the first pass that did not ask for a
      retry was empty everywhere, and `Some(x)` exactly when it stole `x`. */
  lemma {:induction false} FindTaskSettles<T>(local: Option<T>, passes: seq<Pass<T>>, i: nat)
    requires local.None?
    requires i < |passes| && RetriedBefore(passes, i) && !RunPass(passes[i]).outcome.Retry?
    ensures FindTask(local, passes).passesRun == i + 1
    ensures FindTask(local, passes).result.NotFound? <==>
              (forall k :: 0 <= k < |passes[i].peers| ==> passes[i].peers[k].Empty?) && passes[i].injector.Empty?
    ensures forall x :: FindTask(local, passes).result == Found(x) <==> RunPass(passes[i]).outcome == Success(x)
  {
    var r := Repeat(passes);
    assert !r.result.Spinning?;
    var n := r.passesRun - 1;
    if n < i {
      assert false;
    } else if n > i {
      assert false;
    }
  }
}
