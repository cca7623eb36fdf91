/** Two's-complement 32-bit integers, as stored in a NumPy `int32` array.
    Element-wise arithmetic on such an array does not raise on overflow:
    the mathematical result is reduced modulo 2^32 into the signed range. */
module Int32 {

  const Modulus: int := 0x1_0000_0000

  newtype int32 = x: int | -0x8000_0000 <= x < 0x8000_0000

  predicate InRange(x: int) {
    -0x8000_0000 <= x < 0x8000_0000
  }

  /** The int32 value that NumPy stores for the mathematical integer `x`:
      the unique value in range that is congruent to `x` modulo 2^32. */
  function Wrap(x: int): (r: int32)
    ensures (r as int - x) % Modulus == 0
    ensures InRange(x) ==> r as int == x
  {
    ((x + 0x8000_0000) % Modulus - 0x8000_0000) as int32
  }

  /** Only one int32 value is congruent to a given integer, so `Wrap` is
      determined by its first postcondition. */
  lemma WrapUnique(x: int, y: int32)
    requires (y as int - x) % Modulus == 0
    ensures Wrap(x) == y
  {
    var w := Wrap(x);
    var d := y as int - w as int;
    assert d % Modulus == 0 by {
      DiffOfCongruent(y as int, w as int, x);
    }
    assert -Modulus < d < Modulus;
    if d != 0 {
      SmallMultipleIsZero(d);
    }
  }

  /** Adding in two steps, wrapping after each, gives the same int32 as
      adding the total and wrapping once. */
  lemma WrapAdd(x: int, y: int)
    ensures Wrap(Wrap(x) as int + y) == Wrap(x + y)
  {
    var w := Wrap(x);
    assert ((w as int + y) - (x + y)) % Modulus == 0 by {
      assert (w as int + y) - (x + y) == w as int - x;
    }
    DiffOfCongruent(Wrap(x + y) as int, w as int + y, x + y);
    WrapUnique(w as int + y, Wrap(x + y));
  }

  lemma DiffOfCongruent(a: int, b: int, x: int)
    requires (a - x) % Modulus == 0 && (b - x) % Modulus == 0
    ensures (a - b) % Modulus == 0
  {
    var p := (a - x) / Modulus;
    var q := (b - x) / Modulus;
    assert a - x == Modulus * p;
    assert b - x == Modulus * q;
    assert a - b == Modulus * (p - q);
  }

  lemma SmallMultipleIsZero(d: int)
    requires -Modulus < d < Modulus && d % Modulus == 0
    ensures d == 0
  {
  }
}
