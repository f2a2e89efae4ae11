/**
 * Java value types shared by the whole model: 32- and 64-bit two's complement
 * integers, the exceptions the modelled code can raise, and the
 * Option/Result/Outcome wrappers used for null references and thrown exceptions.
 */
module JavaTypes {

  const TWO_32: int := 0x1_0000_0000
  const MIN_INT: int := -0x8000_0000
  const MAX_INT: int := 0x7FFF_FFFF

  /** Java `int`. */
  newtype int32 = x: int | -0x8000_0000 <= x < 0x8000_0000

  /** Java `byte`. */
  newtype int8 = x: int | -0x80 <= x < 0x80

  /** Java `char`: one UTF-16 code unit. */
  newtype char16 = x: int | 0 <= x < 0x1_0000

  /** Java `long`. */
  newtype int64 = x: int | -0x8000_0000_0000_0000 <= x < 0x8000_0000_0000_0000

  datatype Option<+T> = None | Some(value: T)

  /** A value, or the exception a Java method throws instead of returning it. */
  datatype Result<+T, +E> = Success(value: T) | Failure(error: E)

  /** A Java method returning `void`: it completes, or it throws. */
  datatype Outcome<+E> = Pass | Fail(error: E)

  /**
   * The throwables of the model. `Thrown` stands for any throwable raised by
   * code outside the model (the JavaFX platform, a `main` runnable); its `id`
   * keeps the identity that rethrowing must preserve.
   */
  datatype Throwable =
    | NullPointerException
    | ArrayIndexOutOfBoundsException
    | NegativeArraySizeException
    | ClassCastException
    | ScriptException(message: string)
    | Thrown(id: nat)

  /** The Java `int` that an unbounded integer result wraps around to. */
  function Wrap(x: int): (r: int32)
    ensures (r as int - x) % TWO_32 == 0
    ensures MIN_INT <= x <= MAX_INT ==> r as int == x
  {
    var m := x % TWO_32;
    if m <= MAX_INT then m as int32 else (m - TWO_32) as int32
  }

  /** Wrapping is determined by the residue modulo 2^32: two integers that differ by a multiple of 2^32 wrap alike. */
  lemma {:induction false} WrapCongruent(x: int, y: int)
    requires (x - y) % TWO_32 == 0
    ensures Wrap(x) == Wrap(y)
  {
    var k := (x - y) / TWO_32;
    assert x == y + k * TWO_32;
    ModShift(y, k);
  }

  lemma {:induction false} ModShift(y: int, k: int)
    ensures (y + k * TWO_32) % TWO_32 == y % TWO_32
    decreases if k < 0 then -k else k
  {
    if k > 0 {
      ModShift(y, k - 1);
      assert y + k * TWO_32 == (y + (k - 1) * TWO_32) + TWO_32;
    } else if k < 0 {
      ModShift(y, k + 1);
      assert y + k * TWO_32 == (y + (k + 1) * TWO_32) - TWO_32;
    }
  }

  /** Adding to an already wrapped value wraps like adding to the unwrapped one. */
  lemma WrapAdd(x: int, d: int)
    ensures Wrap(Wrap(x) as int + d) == Wrap(x + d)
  {
    assert ((Wrap(x) as int + d) - (x + d)) % TWO_32 == 0 by {
      assert (Wrap(x) as int + d) - (x + d) == Wrap(x) as int - x;
    }
    WrapCongruent(Wrap(x) as int + d, x + d);
  }
}
