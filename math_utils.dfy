/** app/math_utils.c: arithmetic on C `int`. Signed overflow is undefined
    behaviour in C, so each operation demands of its caller that the exact
    result fit in 32 bits, and then returns that exact result. */
module MathUtils {
  /** A 32-bit two's-complement C `int`. */
  newtype Int32 = x: int | -0x8000_0000 <= x < 0x8000_0000

  /** The exact result is a C `int`. */
  predicate Fits(x: int) {
    -0x8000_0000 <= x < 0x8000_0000
  }

  /** `add`: the sum, with no wrap-around. */
  function Add(a: Int32, b: Int32): (r: Int32)
    requires Fits(a as int + b as int)
    ensures r as int == a as int + b as int
  {
    a + b
  }

  /** `subtract`: the difference, with no wrap-around. */
  function Subtract(a: Int32, b: Int32): (r: Int32)
    requires Fits(a as int - b as int)
    ensures r as int == a as int - b as int
  {
    a - b
  }

  /** `multiply`: the product, with no wrap-around. */
  function Multiply(a: Int32, b: Int32): (r: Int32)
    requires Fits(a as int * b as int)
    ensures r as int == a as int * b as int
  {
    a * b
  }

  /** `divide`: zero for a zero divisor, otherwise the quotient, taken here
      as an exact rational. */
  function Divide(a: Int32, b: Int32): (r: real)
    ensures b == 0 ==> r == 0.0
    ensures b != 0 ==> r * (b as real) == a as real
  {
    if b != 0 then (a as real) / (b as real) else 0.0
  }

  /** Subtracting what was added gives back the first operand. */
  lemma SubtractUndoesAdd(a: Int32, b: Int32)
    requires Fits(a as int + b as int)
    ensures Fits(Add(a, b) as int - b as int)
    ensures Subtract(Add(a, b), b) == a
  {
  }

  /** Adding what was subtracted gives back the first operand. */
  lemma AddUndoesSubtract(a: Int32, b: Int32)
    requires Fits(a as int - b as int)
    ensures Fits(Subtract(a, b) as int + b as int)
    ensures Add(Subtract(a, b), b) == a
  {
  }

  /** `add` and `multiply` do not depend on the order of their operands. */
  lemma Commutative(a: Int32, b: Int32)
    ensures Fits(a as int + b as int) ==> Add(a, b) == Add(b, a)
    ensures Fits(a as int * b as int) ==> Multiply(a, b) == Multiply(b, a)
  {
  }

  /** Dividing a product by one of its nonzero factors gives the other. */
  lemma DivideUndoesMultiply(a: Int32, b: Int32)
    requires Fits(a as int * b as int) && b != 0
    ensures Divide(Multiply(a, b), b) == a as real
  {
    var p := Multiply(a, b);
    assert (p as real) == (a as real) * (b as real);
  }

  /** Every operand pair is divisible: `divide` has no precondition, and
      yields zero exactly when the dividend or the divisor is zero. */
  lemma DivideZero(a: Int32, b: Int32)
    ensures Divide(a, b) == 0.0 <==> a == 0 || b == 0
  {
    if b != 0 && Divide(a, b) == 0.0 {
      assert 0.0 * (b as real) == a as real;
    }
  }
}
