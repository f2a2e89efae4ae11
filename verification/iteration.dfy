/**
 * Repeated application of a function, and the two facts about it that the
 * CRC-32 proofs need: iterations compose, and iterating a function that
 * distributes over an operation distributes too.
 *
 * The facts are stated for an arbitrary function so that the proofs never
 * look inside the bit-level round of the CRC: the solver then only sees
 * equalities between applications.
 */
module Iteration {

  /** `f` applied `k` times to `x`. */
  function Iterate<T>(f: T -> T, x: T, k: nat): T
  {
    if k == 0 then x else f(Iterate(f, x, k - 1))
  }

  /** Applying `f` `a + b` times is applying it `a` times and then `b` more. */
  lemma {:induction false} IterateSplit<T>(f: T -> T, x: T, a: nat, b: nat)
    ensures Iterate(f, x, a + b) == Iterate(f, Iterate(f, x, a), b)
    decreases b
  {
    if b > 0 {
      IterateSplit(f, x, a, b - 1);
    }
  }

  /** Four double steps make eight single ones. */
  lemma EightInPairs<T>(f: T -> T, x0: T, x2: T, x4: T, x6: T, x8: T)
    requires Iterate(f, x0, 2) == x2 && Iterate(f, x2, 2) == x4
    requires Iterate(f, x4, 2) == x6 && Iterate(f, x6, 2) == x8
    ensures Iterate(f, x0, 8) == x8
  {
    IterateSplit(f, x0, 2, 2);
    IterateSplit(f, x0, 4, 2);
    IterateSplit(f, x0, 6, 2);
  }

  /** `f` distributes over the binary operation `op`. */
  ghost predicate Distributes<T(!new)>(f: T -> T, op: (T, T) -> T)
  {
    forall a: T, b: T {:trigger f(op(a, b))} :: f(op(a, b)) == op(f(a), f(b))
  }

  /** A function that distributes over `op` keeps doing so however often it is applied. */
  lemma {:induction false} IterateDistributes<T(!new)>(f: T -> T, op: (T, T) -> T, x: T, y: T, k: nat)
    requires Distributes(f, op)
    ensures Iterate(f, op(x, y), k) == op(Iterate(f, x, k), Iterate(f, y, k))
  {
    if k > 0 {
      IterateDistributes(f, op, x, y, k - 1);
    }
  }
}
