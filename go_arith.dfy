/**
 Go's integer division and remainder for a positive divisor.

 Dafny's `/` and `%` on `int` are Euclidean (the remainder is never negative);
 Go's truncate toward zero, so `-1 % 3 == -1` in Go but `2` in Dafny. The
 neighbour lookup of the simulation relies on Go's operator and then corrects
 a negative remainder, so the operator is written out here.
 */
module GoArith {

  /** Go's `a / m` for `m > 0`: the quotient truncated toward zero. */
  function Quo(a: int, m: int): (q: int)
    requires m > 0
    ensures a >= 0 ==> q >= 0
    ensures a <= 0 ==> q <= 0
  {
    if a >= 0 then a / m else -((-a) / m)
  }

  /** Go's `a % m` for `m > 0`, defined as Go defines it: `a - (a / m) * m`. */
  function Rem(a: int, m: int): (r: int)
    requires m > 0
    ensures -m < r < m
    ensures a >= 0 ==> r >= 0
    ensures a <= 0 ==> r <= 0
  {
    a - Quo(a, m) * m
  }

  /** Division with remainder determines both results. */
  lemma DivModUnique(a: int, m: int, q: int, r: int)
    requires m > 0 && 0 <= r < m && a == q * m + r
    ensures a / m == q && a % m == r
  {
    var q0, r0 := a / m, a % m;
    assert a == q0 * m + r0;
    assert (q - q0) * m == r0 - r;
    if q0 < q {
      MulAtLeast(q - q0, m);
    } else if q < q0 {
      MulAtLeast(q0 - q, m);
    }
  }

  lemma MulAtLeast(k: int, m: int)
    requires k >= 1 && m > 0
    ensures k * m >= m
  {
  }

  /**
   Adding the modulus to a negative Go remainder yields the Euclidean residue:
   the correction done by the neighbour lookup lands on `a % m` for every `a`.
   */
  lemma {:induction false} CorrectedRemIsMod(a: int, m: int)
    requires m > 0
    ensures (if Rem(a, m) < 0 then Rem(a, m) + m else Rem(a, m)) == a % m
  {
    if a >= 0 {
      DivModUnique(a, m, a / m, a - (a / m) * m);
    } else {
      var b := -a;
      var qb, rb := b / m, b % m;
      assert b == qb * m + rb;
      assert Rem(a, m) == -rb;
      if rb == 0 {
        DivModUnique(a, m, -qb, 0);
      } else {
        DivModUnique(a, m, -qb - 1, m - rb);
      }
    }
  }

  /** The Euclidean residue is periodic with period `m`. */
  lemma ModPeriodic(a: int, k: int, m: int)
    requires m > 0
    ensures (a + k * m) % m == a % m
  {
    DivModUnique(a + k * m, m, a / m + k, a % m);
  }
}
