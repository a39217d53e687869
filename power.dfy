/**
 * Exponentiation over the reals, as far as the calculator needs it.
 *
 * Both calculators call `Math.pow(base, exponent)` with a real exponent. Over
 * the reals that power has an exact value whenever the exponent is a whole,
 * non-negative number (repeated multiplication) or the base is 1; those are
 * the cases `Pow` evaluates. For any other exponent the value is left open
 * (`None`): the balance stays a symbolic `principal * base^periods`.
 */
module Power {

  datatype Option<T> = None | Some(value: T)

  /** b raised to a natural exponent, by repeated multiplication. */
  function NatPow(b: real, k: nat): real
    decreases k
  {
    if k == 0 then 1.0 else b * NatPow(b, k - 1)
  }

  /** The exponent is a whole number that is not negative. */
  predicate IsWhole(e: real)
  {
    e >= 0.0 && e.Floor as real == e
  }

  /**
   * `Math.pow(b, e)` where its exact real value is determined: a whole
   * exponent, or a base of 1 (for which every finite power is 1).
   */
  function Pow(b: real, e: real): (r: Option<real>)
    ensures r.Some? <==> IsWhole(e) || b == 1.0
    ensures IsWhole(e) ==> r == Some(NatPow(b, e.Floor))
    ensures b == 1.0 ==> r == Some(1.0)
    ensures e == 0.0 ==> r == Some(1.0)
    ensures e == 1.0 ==> r == Some(b)
  {
    if IsWhole(e) then
      NatPowOfOne(e.Floor);
      Some(NatPow(b, e.Floor))
    else if b == 1.0 then
      Some(1.0)
    else
      None
  }

  /** Every natural power of 1 is 1. */
  lemma {:induction false} NatPowOfOne(k: nat)
    ensures NatPow(1.0, k) == 1.0
  {
    if k > 0 {
      NatPowOfOne(k - 1);
    }
  }

  /** Exponents add: b^(m+n) = b^m * b^n. */
  lemma {:induction false} NatPowAdd(b: real, m: nat, n: nat)
    ensures NatPow(b, m + n) == NatPow(b, m) * NatPow(b, n)
    decreases m
  {
    if m > 0 {
      NatPowAdd(b, m - 1, n);
      calc {
        NatPow(b, m + n);
        b * NatPow(b, m - 1 + n);
        b * (NatPow(b, m - 1) * NatPow(b, n));
        (b * NatPow(b, m - 1)) * NatPow(b, n);
        NatPow(b, m) * NatPow(b, n);
      }
    }
  }

  /**
   * Bernoulli's inequality: (1 + x)^k >= 1 + k*x whenever x >= -1.
   * Compounding a rate k times never yields less than applying it k times
   * without compounding.
   */
  lemma {:induction false} Bernoulli(x: real, k: nat)
    requires x >= -1.0
    ensures NatPow(1.0 + x, k) >= 1.0 + (k as real) * x
  {
    if k > 0 {
      var j := k - 1;
      Bernoulli(x, j);
      var p := NatPow(1.0 + x, j);
      assert p >= 1.0 + (j as real) * x;
      MulLeftMonotone(1.0 + x, 1.0 + (j as real) * x, p);
      assert (1.0 + x) * (1.0 + (j as real) * x)
          == 1.0 + (k as real) * x + (j as real) * x * x;
      assert (j as real) * x * x >= 0.0 by {
        assert x * x >= 0.0;
      }
    }
  }

  /** Multiplying by a non-negative factor keeps an inequality. */
  lemma MulLeftMonotone(a: real, lo: real, hi: real)
    requires a >= 0.0 && lo <= hi
    ensures a * lo <= a * hi
  {
    assert a * hi - a * lo == a * (hi - lo);
  }
}
