/**
 * Integer division as C and C++ perform it: the quotient is truncated toward zero and
 * the remainder takes the sign of the dividend. Dafny's own `/` and `%` are Euclidean.
 */
module CInt {
  function Abs(a: int): (r: nat)
    ensures r == a || r == -a
  {
    if a < 0 then -a else a
  }

  lemma EuclideanBounds(a: int, b: int)
    requires a >= 0 && b > 0
    ensures 0 <= a / b
    ensures (a / b) * b <= a < (a / b) * b + b
  {
  }

  lemma MulNonNegative(a: int, b: int)
    requires a >= 0 && b >= 0
    ensures a * b >= 0
  {
  }

  lemma MulSucc(a: int, b: int)
    ensures a * (b + 1) == a * b + a
  {
  }

  lemma MulMonotone(a: int, b: int, c: int)
    requires a >= 0 && b <= c
    ensures a * b <= a * c
  {
    MulNonNegative(a, c - b);
  }

  lemma MulDistributes(a: int, b: int, c: int)
    ensures (a + b) * c == a * c + b * c
  {
  }

  /** Euclidean quotient and remainder are the only q, r with i == q * h + r and 0 <= r < h. */
  lemma DivModUnique(i: int, h: int, q: int, r: int)
    requires h > 0 && 0 <= r < h && i == q * h + r
    ensures i / h == q && i % h == r
  {
    var q' := i / h;
    if q > q' {
      MulNonNegative(q - q' - 1, h);
      assert false;
    } else if q < q' {
      MulNonNegative(q' - q - 1, h);
      assert false;
    }
  }

  /** A split of the magnitudes, signed as C signs its quotient and remainder, splits a. */
  lemma SignedSplit(a: int, b: int, m: int, r: int)
    requires b != 0 && Abs(a) == m * Abs(b) + r
    ensures a == (if (a >= 0) == (b > 0) then m else -m) * b + (if a >= 0 then r else 0 - r)
  {
    if a >= 0 && b < 0 {
      assert (-m) * b == m * (-b);
    } else if a < 0 && b > 0 {
      assert (-m) * b == -(m * b);
    } else if a < 0 && b < 0 {
      assert m * (-b) == -(m * b);
    }
  }

  /** The quotient of `a / b` in C: its magnitude is the Euclidean quotient of the magnitudes. */
  function TruncDiv(a: int, b: int): (q: int)
    requires b != 0
    ensures Abs(q) * Abs(b) <= Abs(a) < Abs(q) * Abs(b) + Abs(b)
    ensures q > 0 ==> (a > 0) == (b > 0)
    ensures q < 0 ==> (a > 0) != (b > 0)
    ensures a >= 0 && b > 0 ==> q == a / b
  {
    EuclideanBounds(Abs(a), Abs(b));
    var m := Abs(a) / Abs(b);
    if (a >= 0) == (b > 0) then m else -m
  }

  /** The remainder of `a % b` in C: same sign as `a`, smaller than `b` in magnitude. */
  function TruncMod(a: int, b: int): (r: int)
    requires b != 0
    ensures a >= 0 ==> 0 <= r < Abs(b)
    ensures a < 0 ==> r <= 0 && r + Abs(b) > 0
    ensures a >= 0 && b > 0 ==> r == a % b
    ensures a == TruncDiv(a, b) * b + r
  {
    EuclideanBounds(Abs(a), Abs(b));
    SignedSplit(a, b, Abs(a) / Abs(b), Abs(a) % Abs(b));
    if a >= 0 then Abs(a) % Abs(b) else 0 - Abs(a) % Abs(b)
  }

  const TWO_POW_32: int := 0x1_0000_0000

  /** Conversion of an int to a 32-bit unsigned int in C: reduction modulo 2^32. */
  function ToUnsigned32(a: int): (r: int)
    ensures 0 <= r < TWO_POW_32
    ensures 0 <= a < TWO_POW_32 ==> r == a
    ensures a < 0 && -TWO_POW_32 <= a ==> r == a + TWO_POW_32
  {
    a % TWO_POW_32
  }
}
