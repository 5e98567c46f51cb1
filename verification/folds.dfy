/** Order-independent reductions over sequences.

The scheduler combines results with operators that are commutative and
associative (XOR on the 64-bit accumulator, addition on counters). This module
defines one right fold and proves, once, that for such an operator the fold of
a sequence depends only on the multiset of its elements.
 */
module Folds {
  import opened Words

  /** Addition on naturals (counters and work measures). */
  function Add(x: nat, y: nat): nat { x + y }

  /** Multiset union (collections of tasks). */
  function Union<T>(a: multiset<T>, b: multiset<T>): multiset<T> { a + b }

  /** `op` is commutative and associative and has `unit` as identity. */
  ghost predicate IsCommutativeMonoid<B(!new)>(op: (B, B) -> B, unit: B) {
    && (forall x :: op(unit, x) == x)
    && (forall x, y :: op(x, y) == op(y, x))
    && (forall x, y, z :: op(op(x, y), z) == op(x, op(y, z)))
  }

  /** op(f(s[0]), op(f(s[1]), ... op(f(s[n-1]), unit))) */
  function Fold<A, B>(f: A -> B, op: (B, B) -> B, unit: B, s: seq<A>): B {
    if |s| == 0 then unit else op(f(s[0]), Fold(f, op, unit, s[1..]))
  }

  lemma XorIsCommutativeMonoid()
    ensures IsCommutativeMonoid(Xor, 0)
  {
    forall x: bv64 ensures Xor(0, x) == x {
    }
    forall x: bv64, y: bv64 ensures Xor(x, y) == Xor(y, x) {
    }
    forall x: bv64, y: bv64, z: bv64 ensures Xor(Xor(x, y), z) == Xor(x, Xor(y, z)) {
      XorAssociative(x, y, z);
    }
  }

  lemma AddIsCommutativeMonoid()
    ensures IsCommutativeMonoid(Add, 0)
  {
  }

  lemma UnionIsCommutativeMonoid<T(!new)>()
    ensures IsCommutativeMonoid(Union<T>, multiset{})
  {
    forall x: multiset<T> ensures Union(multiset{}, x) == x {
      assert multiset{} + x == x;
    }
    forall x: multiset<T>, y: multiset<T> ensures Union(x, y) == Union(y, x) {
      assert x + y == y + x;
    }
    forall x: multiset<T>, y: multiset<T>, z: multiset<T> ensures Union(Union(x, y), z) == Union(x, Union(y, z)) {
      assert (x + y) + z == x + (y + z);
    }
  }

  /** Folding a concatenation combines the folds of the parts. */
  lemma {:induction false} FoldConcat<A, B(!new)>(f: A -> B, op: (B, B) -> B, unit: B, a: seq<A>, b: seq<A>)
    requires IsCommutativeMonoid(op, unit)
    ensures Fold(f, op, unit, a + b) == op(Fold(f, op, unit, a), Fold(f, op, unit, b))
    decreases |a|
  {
    if |a| == 0 {
      assert a + b == b;
    } else {
      assert (a + b)[1..] == a[1..] + b;
      FoldConcat(f, op, unit, a[1..], b);
    }
  }

  /** Folding one more element at the end. */
  lemma FoldSnoc<A, B(!new)>(f: A -> B, op: (B, B) -> B, unit: B, a: seq<A>, x: A)
    requires IsCommutativeMonoid(op, unit)
    ensures Fold(f, op, unit, a + [x]) == op(Fold(f, op, unit, a), f(x))
  {
    FoldConcat(f, op, unit, a, [x]);
    assert Fold(f, op, unit, [x]) == op(f(x), unit);
  }

  /** The fold of a commutative monoid is invariant under permutation. */
  lemma {:induction false} FoldPermutation<A, B(!new)>(f: A -> B, op: (B, B) -> B, unit: B, a: seq<A>, b: seq<A>)
    requires IsCommutativeMonoid(op, unit)
    requires multiset(a) == multiset(b)
    ensures Fold(f, op, unit, a) == Fold(f, op, unit, b)
    decreases |a|
  {
    if |a| == 0 {
      assert |multiset(b)| == 0;
      assert |b| == 0;
    } else {
      assert a[0] in multiset(b);
      var i :| 0 <= i < |b| && b[i] == a[0];
      RemoveMatching(a, b, i);
      FoldPermutation(f, op, unit, a[1..], b[..i] + b[i + 1..]);
      FoldMiddle(f, op, unit, b[..i], a[0], b[i + 1..]);
    }
  }

  /** Removing the first element of `a` and a matching element of its
      permutation `b` leaves two permutations. */
  lemma RemoveMatching<A>(a: seq<A>, b: seq<A>, i: nat)
    requires multiset(a) == multiset(b)
    requires 0 < |a| && i < |b| && b[i] == a[0]
    ensures b == b[..i] + [a[0]] + b[i + 1..]
    ensures multiset(a[1..]) == multiset(b[..i] + b[i + 1..])
  {
    var before, after := b[..i], b[i + 1..];
    assert b == before + [a[0]] + after;
    assert a == [a[0]] + a[1..];
    assert multiset(a) == multiset{a[0]} + multiset(a[1..]);
    assert multiset(b) == multiset(before) + multiset{a[0]} + multiset(after);
    assert multiset(before + after) == multiset(before) + multiset(after);
    calc {
      multiset(a[1..]);
      multiset(a) - multiset{a[0]};
      multiset(b) - multiset{a[0]};
      multiset(before) + multiset(after);
    }
  }

  /** Folding with one element moved from the middle to the front. */
  lemma FoldMiddle<A, B(!new)>(f: A -> B, op: (B, B) -> B, unit: B, before: seq<A>, x: A, after: seq<A>)
    requires IsCommutativeMonoid(op, unit)
    ensures Fold(f, op, unit, before + [x] + after) == op(f(x), Fold(f, op, unit, before + after))
  {
    FoldConcat(f, op, unit, before, after);
    FoldConcat(f, op, unit, before + [x], after);
    FoldSnoc(f, op, unit, before, x);
    var fb, fa := Fold(f, op, unit, before), Fold(f, op, unit, after);
    calc {
      op(op(fb, f(x)), fa);
      op(op(f(x), fb), fa);
      op(f(x), op(fb, fa));
    }
  }
}
