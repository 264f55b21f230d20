/** Python's whole-number arithmetic, and the bit lengths the interpreter guards. */
module Arithmetic {

  const MAX_RESULT_BITS: nat := 512

  function Abs(n: int): nat {
    if n < 0 then -n else n
  }

  function Pow2(k: nat): nat {
    if k == 0 then 1 else 2 * Pow2(k - 1)
  }

  /** `int.bit_length`: the fewest bits that hold the magnitude. */
  function BitLength(n: int): nat
    decreases Abs(n)
  {
    if n == 0 then 0 else 1 + BitLength(Abs(n) / 2)
  }

  predicate Fits(n: int, bits: nat) {
    BitLength(n) <= bits
  }

  /** Python floors, where Dafny's division is Euclidean. */
  function PyFloorDiv(a: int, b: int): (q: int)
    requires b != 0
  {
    if b > 0 then a / b else (-a) / (-b)
  }

  /** The remainder that goes with flooring: it takes the divisor's sign. */
  function PyMod(a: int, b: int): (r: int)
    requires b != 0
  {
    a - PyFloorDiv(a, b) * b
  }

  lemma {:induction false} Pow2Positive(k: nat)
    ensures Pow2(k) >= 1
  {
    if k > 0 {
      Pow2Positive(k - 1);
    }
  }

  lemma {:induction false} Pow2Monotone(j: nat, k: nat)
    requires j <= k
    ensures Pow2(j) <= Pow2(k)
  {
    if j < k {
      Pow2Monotone(j, k - 1);
    }
  }

  lemma {:induction false} Pow2Sum(j: nat, k: nat)
    ensures Pow2(j) * Pow2(k) == Pow2(j + k)
  {
    if j > 0 {
      Pow2Sum(j - 1, k);
      assert Pow2(j) * Pow2(k) == 2 * (Pow2(j - 1) * Pow2(k));
    }
  }

  /** A number has at most `k` bits exactly when its magnitude is below `2^k`. */
  lemma {:induction false} FitsIffBelow(n: int, k: nat)
    ensures Fits(n, k) <==> Abs(n) < Pow2(k)
    decreases Abs(n)
  {
    Pow2Positive(k);
    if n != 0 && k > 0 {
      FitsIffBelow(Abs(n) / 2, k - 1);
    }
  }

  /** Flooring: the quotient is the greatest integer not above the true one, and
      the remainder lies between zero and the divisor, on the divisor's side. */
  lemma {:induction false} FloorDivModLaws(a: int, b: int)
    requires b != 0
    ensures PyFloorDiv(a, b) * b + PyMod(a, b) == a
    ensures b > 0 ==> 0 <= PyMod(a, b) < b
    ensures b < 0 ==> b < PyMod(a, b) <= 0
  {
    if b < 0 {
      var q := (-a) / (-b);
      assert (-a) == q * (-b) + (-a) % (-b);
      assert q * (-b) == -(q * b);
    }
  }

  lemma {:induction false} MagnitudeOfProduct(a: int, b: int)
    ensures Abs(a * b) == Abs(a) * Abs(b)
  {
  }

  lemma {:induction false} BelowProduct(a: nat, b: nat, x: nat, y: nat)
    requires a < x && b < y
    ensures a * b < x * y
  {
    assert a * b <= a * y;
    assert a * y < x * y by { assert (x - a) * y == x * y - a * y; }
  }

  /** Bit lengths bound a product before it is computed. */
  lemma {:induction false} ProductBits(a: int, b: int)
    ensures Fits(a * b, BitLength(a) + BitLength(b))
  {
    var j, k := BitLength(a), BitLength(b);
    FitsIffBelow(a, j);
    FitsIffBelow(b, k);
    MagnitudeOfProduct(a, b);
    BelowProduct(Abs(a), Abs(b), Pow2(j), Pow2(k));
    Pow2Sum(j, k);
    FitsIffBelow(a * b, j + k);
  }

  /** A sum or difference gains at most one bit. */
  lemma {:induction false} SumBits(a: int, b: int, k: nat)
    requires Fits(a, k) && Fits(b, k)
    ensures Fits(a + b, k + 1) && Fits(a - b, k + 1)
  {
    FitsIffBelow(a, k);
    FitsIffBelow(b, k);
    FitsIffBelow(a + b, k + 1);
    FitsIffBelow(a - b, k + 1);
  }

  lemma {:induction false} QuotientBound(a: int, b: int, q: int, r: int)
    requires b >= 1 && a == b * q + r && 0 <= r < b
    ensures Abs(q) <= Abs(a)
  {
    var p := (b - 1) * q;
    assert a == q + p + r;
    if q >= 0 {
      assert p >= 0;
    } else {
      assert p <= -(b - 1) by {
        assert (b - 1) * (-q - 1) >= 0;
        assert (b - 1) * (-q - 1) == -p - (b - 1);
      }
    }
  }

  lemma {:induction false} QuotientShrinks(a: int, b: nat)
    requires b >= 1
    ensures Abs(a / b) <= Abs(a)
  {
    QuotientBound(a, b, a / b, a % b);
  }

  lemma {:induction false} FloorDivShrinks(a: int, b: int)
    requires b != 0
    ensures Abs(PyFloorDiv(a, b)) <= Abs(a)
  {
    if b > 0 {
      QuotientShrinks(a, b);
    } else {
      QuotientShrinks(-a, -b);
    }
  }

  /** Floor division and remainder never have more bits than their operands. */
  lemma {:induction false} DivModBits(a: int, b: int, k: nat)
    requires b != 0 && Fits(a, k) && Fits(b, k)
    ensures Fits(PyFloorDiv(a, b), k) && Fits(PyMod(a, b), k)
  {
    FloorDivShrinks(a, b);
    FloorDivModLaws(a, b);
    FitsIffBelow(a, k);
    FitsIffBelow(b, k);
    FitsIffBelow(PyFloorDiv(a, b), k);
    FitsIffBelow(PyMod(a, b), k);
  }

  lemma {:induction false} NegationBits(a: int, k: nat)
    requires Fits(a, k)
    ensures Fits(-a, k)
  {
    FitsIffBelow(a, k);
    FitsIffBelow(-a, k);
  }
}
