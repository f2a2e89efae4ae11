/**
 * The single-threaded replacement for `java.util.concurrent.atomic.AtomicInteger`:
 * one mutable Java `int`, read and written by plain field accesses. The
 * arithmetic wraps around like Java `int` arithmetic, and the
 * compare-and-set loops of the update and accumulate families succeed on
 * their first pass because nothing else writes the field.
 */
module Atomic {
  import opened JavaTypes

  class AtomicInteger {
    var value: int32

    constructor (initialValue: int32)
      ensures value == initialValue
    {
      value := initialValue;
    }

    /** The no-argument constructor leaves the field at its default, 0. */
    constructor Default()
      ensures value == 0
    {
      value := 0;
    }

    method Get() returns (r: int32)
      ensures r == value
    {
      r := value;
    }

    method Set(newValue: int32)
      modifies this
      ensures value == newValue
    {
      value := newValue;
    }

    /** Without other threads a lazy set is an ordinary store. */
    method LazySet(newValue: int32)
      modifies this
      ensures value == newValue
    {
      value := newValue;
    }

    method GetAndSet(newValue: int32) returns (r: int32)
      modifies this
      ensures r == old(value) && value == newValue
    {
      r := value;
      value := newValue;
    }

    /** Stores `update` exactly when the value is `expected`, and says whether it did. */
    method CompareAndSet(expected: int32, update: int32) returns (r: bool)
      modifies this
      ensures r <==> old(value) == expected
      ensures value == if r then update else old(value)
    {
      if value == expected {
        value := update;
        return true;
      }
      return false;
    }

    /** The weak form never fails spuriously here: it behaves as CompareAndSet. */
    method WeakCompareAndSet(expected: int32, update: int32) returns (r: bool)
      modifies this
      ensures r <==> old(value) == expected
      ensures value == if r then update else old(value)
    {
      if value == expected {
        value := update;
        return true;
      }
      return false;
    }

    /** `value++`: the old value, and the value one higher, wrapping past MAX_VALUE. */
    method GetAndIncrement() returns (r: int32)
      modifies this
      ensures r == old(value) && value == Wrap(old(value) as int + 1)
    {
      r := value;
      value := Wrap(value as int + 1);
    }

    /** `value--`: the old value, and the value one lower, wrapping past MIN_VALUE. */
    method GetAndDecrement() returns (r: int32)
      modifies this
      ensures r == old(value) && value == Wrap(old(value) as int - 1)
    {
      r := value;
      value := Wrap(value as int - 1);
    }

    method GetAndAdd(delta: int32) returns (r: int32)
      modifies this
      ensures r == old(value) && value == Wrap(old(value) as int + delta as int)
    {
      var oldValue := value;
      value := Wrap(oldValue as int + delta as int);
      return oldValue;
    }

    /** `++value`. */
    method IncrementAndGet() returns (r: int32)
      modifies this
      ensures value == Wrap(old(value) as int + 1) && r == value
    {
      value := Wrap(value as int + 1);
      r := value;
    }

    /** `--value`. */
    method DecrementAndGet() returns (r: int32)
      modifies this
      ensures value == Wrap(old(value) as int - 1) && r == value
    {
      value := Wrap(value as int - 1);
      r := value;
    }

    method AddAndGet(delta: int32) returns (r: int32)
      modifies this
      ensures value == Wrap(old(value) as int + delta as int) && r == value
    {
      var oldValue := Wrap(value as int + delta as int);
      value := oldValue;
      return oldValue;
    }

    /**
     * The compare-and-set loop shared by the update and accumulate families:
     * read, compute, and retry until the store succeeds. Alone on the field,
     * the first store succeeds.
     */
    method UpdateLoop(f: int32 -> int32) returns (prev: int32, next: int32)
      modifies this
      ensures prev == old(value) && next == f(prev) && value == next
    {
      var done := false;
      prev, next := value, f(value);
      while !done
        invariant !done ==> value == old(value)
        invariant done ==> prev == old(value) && next == f(prev) && value == next
        decreases if done then 0 else 1
      {
        prev := Get();
        next := f(prev);
        done := CompareAndSet(prev, next);
      }
    }

    /** Applies `updateFunction` and returns the value before. */
    method GetAndUpdate(updateFunction: int32 -> int32) returns (r: int32)
      modifies this
      ensures r == old(value) && value == updateFunction(old(value))
    {
      var prev, next := UpdateLoop(updateFunction);
      return prev;
    }

    /** Applies `updateFunction` and returns the value after. */
    method UpdateAndGet(updateFunction: int32 -> int32) returns (r: int32)
      modifies this
      ensures value == updateFunction(old(value)) && r == value
    {
      var prev, next := UpdateLoop(updateFunction);
      return next;
    }

    /** Combines the value with `x` by `accumulatorFunction` and returns the value before. */
    method GetAndAccumulate(x: int32, accumulatorFunction: (int32, int32) -> int32) returns (r: int32)
      modifies this
      ensures r == old(value) && value == accumulatorFunction(old(value), x)
    {
      var prev, next := UpdateLoop(v => accumulatorFunction(v, x));
      return prev;
    }

    /** Combines the value with `x` by `accumulatorFunction` and returns the value after. */
    method AccumulateAndGet(x: int32, accumulatorFunction: (int32, int32) -> int32) returns (r: int32)
      modifies this
      ensures value == accumulatorFunction(old(value), x) && r == value
    {
      var prev, next := UpdateLoop(v => accumulatorFunction(v, x));
      return next;
    }

    function IntValue(): (r: int32)
      reads this
      ensures r == value
    {
      value
    }

    /** The value widened to a Java `long`, keeping its sign. */
    function LongValue(): (r: int64)
      reads this
      ensures r as int == value as int && Narrow(r) == value
    {
      NarrowWidened(value);
      value as int as int64
    }
  }

  /** A `long` cast to `int`: its low 32 bits, read as two's complement. */
  function Narrow(x: int64): (r: int32)
    ensures (r as int - x as int) % TWO_32 == 0
  {
    Wrap(x as int)
  }

  /** Narrowing a widened `int` gives the `int` back. */
  lemma NarrowWidened(v: int32)
    ensures Narrow(v as int as int64) == v
  {
  }

  /** Adding `delta` and then subtracting it, both with wrap-around, restores the value. */
  lemma AddThenSubtract(v: int32, delta: int32)
    ensures Wrap(Wrap(v as int + delta as int) as int - delta as int) == v
  {
    WrapAdd(v as int + delta as int, -(delta as int));
    assert v as int + delta as int - delta as int == v as int;
  }

  /** An increment is undone by a decrement, and the other way round, even across the wrap. */
  lemma IncrementThenDecrement(v: int32)
    ensures Wrap(Wrap(v as int + 1) as int - 1) == v
    ensures Wrap(Wrap(v as int - 1) as int + 1) == v
  {
    WrapAdd(v as int + 1, -1);
    WrapAdd(v as int - 1, 1);
  }

  /** Two additions in a row are one addition of the wrapped sum. */
  lemma AddTwice(v: int32, a: int32, b: int32)
    ensures Wrap(Wrap(v as int + a as int) as int + b as int) == Wrap(v as int + Wrap(a as int + b as int) as int)
  {
    WrapAssociates(v as int, a as int, b as int);
  }

  /** Wrapped addition is associative; stated on `int` so that no range facts of `int32` are in scope. */
  lemma WrapAssociates(x: int, y: int, z: int)
    ensures Wrap(Wrap(x + y) as int + z) == Wrap(x + Wrap(y + z) as int)
  {
    var sum := x + y + z;
    WrapAddTo(x + y, z, sum);
    WrapAddTo(y + z, x, sum);
  }

  /** Adding `d` to a wrapped `x`, on either side, wraps like the plain sum `s`. */
  lemma WrapAddTo(x: int, d: int, s: int)
    requires x + d == s
    ensures Wrap(Wrap(x) as int + d) == Wrap(s)
    ensures Wrap(d + Wrap(x) as int) == Wrap(s)
  {
    WrapCongruent(Wrap(x) as int + d, s);
    WrapCongruent(d + Wrap(x) as int, s);
  }

  /** `k` increments, one after the other, from `v`. */
  function Increments(v: int32, k: nat): int32
  {
    if k == 0 then v else Wrap(Increments(v, k - 1) as int + 1)
  }

  /** `k` increments add `k`, modulo 2^32: 2^32 of them bring the value back. */
  lemma {:induction false} IncrementsAdd(v: int32, k: nat)
    ensures Increments(v, k) == Wrap(v as int + k)
  {
    if k > 0 {
      var before := v as int + (k - 1);
      IncrementsAdd(v, k - 1);
      var prev := Increments(v, k - 1);
      assert Increments(v, k) == Wrap(prev as int + 1);
      assert prev == Wrap(before);
      WrapAdd(before, 1);
      assert before + 1 == v as int + k;
    }
  }

  /** The two ends of the `int` range meet: incrementing MAX_VALUE gives MIN_VALUE, and decrementing MIN_VALUE gives MAX_VALUE. */
  lemma IncrementWraps()
    ensures Wrap(MAX_INT + 1) as int == MIN_INT
    ensures Wrap(MIN_INT - 1) as int == MAX_INT
  {
    WrapCongruent(MAX_INT + 1, MIN_INT);
    WrapCongruent(MIN_INT - 1, MAX_INT);
  }
}
