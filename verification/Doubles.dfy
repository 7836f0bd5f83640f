/** IEEE 754 binary64 (`crates/luaml/src/guard.rs` compares `f64`): what the bits of a double say. */
module Doubles {
  import opened Values

  const FRACTION_LIMIT := 0x10_0000_0000_0000

  const MAX_EXPONENT := 2047

  function Exponent(f: Float): nat {
    (f.bits / FRACTION_LIMIT) % 2048
  }

  function Fraction(f: Float): nat {
    f.bits % FRACTION_LIMIT
  }

  predicate Negative(f: Float) {
    f.bits / FRACTION_LIMIT / 2048 == 1
  }

  predicate Finite(f: Float) {
    Exponent(f) < MAX_EXPONENT
  }

  predicate Infinite(f: Float) {
    Exponent(f) == MAX_EXPONENT && Fraction(f) == 0
  }

  function Pow2(n: nat): nat {
    if n == 0 then 1 else 2 * Pow2(n - 1)
  }

  /** The magnitude for an exponent and a fraction, in units of the least positive double. */
  function Units(exponent: nat, fraction: nat): nat {
    if exponent == 0 then fraction else (FRACTION_LIMIT + fraction) * Pow2(exponent - 1)
  }

  /** The value of a finite double, in units of the least positive one. */
  function Scaled(f: Float): int {
    if Negative(f) then 0 - Units(Exponent(f), Fraction(f)) as int else Units(Exponent(f), Fraction(f))
  }

  lemma {:induction false} Pow2Grows(m: nat, n: nat)
    requires m <= n
    ensures 1 <= Pow2(m) <= Pow2(n)
  {
    if n > m {
      Pow2Grows(m, n - 1);
    } else if m > 0 {
      Pow2Grows(m - 1, m - 1);
    }
  }

  lemma ProductGrows(a: nat, b: nat, p: nat, q: nat)
    requires a <= b && p <= q
    ensures a * p <= b * q
  {
    assert a * p <= b * p;
    assert b * p <= b * q;
  }

  /** All magnitudes of an exponent lie below those of the next. */
  lemma UnitsBelow(exponent: nat, fraction: nat)
    requires fraction < FRACTION_LIMIT
    ensures Units(exponent, fraction) < FRACTION_LIMIT * Pow2(exponent)
  {
    if exponent > 0 {
      var p := Pow2(exponent - 1);
      Pow2Grows(0, exponent - 1);
      StrictProduct(FRACTION_LIMIT + fraction, 2 * FRACTION_LIMIT, p);
      Regroup(FRACTION_LIMIT, p);
    }
  }

  lemma Regroup(a: nat, p: nat)
    ensures (2 * a) * p == a * (2 * p)
  {
  }

  lemma StrictProduct(a: nat, b: nat, p: nat)
    requires a < b && p > 0
    ensures a * p < b * p
  {
  }

  lemma UnitsIncrease(e: nat, m: nat, e': nat, m': nat)
    requires m < FRACTION_LIMIT && m' < FRACTION_LIMIT && (e < e' || (e == e' && m < m'))
    ensures Units(e, m) < Units(e', m')
  {
    if e == e' {
      if e > 0 {
        Pow2Grows(0, e - 1);
        StrictProduct(FRACTION_LIMIT + m, FRACTION_LIMIT + m', Pow2(e - 1));
      }
    } else {
      UnitsBelow(e, m);
      Pow2Grows(e, e' - 1);
      ProductGrows(FRACTION_LIMIT, FRACTION_LIMIT + m', Pow2(e), Pow2(e' - 1));
    }
  }

  /** The bits without the sign, taken apart. */
  lemma MagnitudeParts(f: Float)
    ensures f.Magnitude() == Exponent(f) * FRACTION_LIMIT + Fraction(f)
    ensures Negative(f) <==> f.bits >= SIGN_BIT
    ensures Exponent(f) <= MAX_EXPONENT && Fraction(f) < FRACTION_LIMIT
  {
    var high := f.bits / FRACTION_LIMIT;
    assert f.bits == high * FRACTION_LIMIT + f.bits % FRACTION_LIMIT;
    assert high < 4096;
  }

  /** NaN is an exponent of all ones with a fraction. */
  lemma NaNIff(f: Float)
    ensures f.IsNaN() <==> Exponent(f) == MAX_EXPONENT && Fraction(f) != 0
  {
    MagnitudeParts(f);
  }

  lemma MagnitudeIsOrder(x: Float, y: Float)
    ensures x.Magnitude() < y.Magnitude() ==>
      Units(Exponent(x), Fraction(x)) < Units(Exponent(y), Fraction(y))
    ensures x.Magnitude() == y.Magnitude() ==>
      Exponent(x) == Exponent(y) && Fraction(x) == Fraction(y)
  {
    MagnitudeParts(x);
    MagnitudeParts(y);
    if x.Magnitude() < y.Magnitude() {
      UnitsIncrease(Exponent(x), Fraction(x), Exponent(y), Fraction(y));
    }
  }

  /** Finite doubles are ordered by their keys as the numbers they stand for; both zeros are the same number. */
  lemma KeyIsOrder(x: Float, y: Float)
    requires Finite(x) && Finite(y)
    ensures x.Key() < y.Key() <==> Scaled(x) < Scaled(y)
    ensures x.Key() == y.Key() <==> Scaled(x) == Scaled(y)
  {
    hide Units;
    MagnitudeParts(x);
    MagnitudeParts(y);
    MagnitudeIsOrder(x, y);
    MagnitudeIsOrder(y, x);
    ZeroUnits(x);
    ZeroUnits(y);
  }

  lemma ZeroUnits(f: Float)
    ensures f.Magnitude() == 0 <==> Units(Exponent(f), Fraction(f)) == 0
  {
    MagnitudeParts(f);
    if Exponent(f) > 0 {
      Pow2Grows(0, Exponent(f) - 1);
      ProductGrows(1, FRACTION_LIMIT + Fraction(f), 1, Pow2(Exponent(f) - 1));
    }
  }

  /** The infinities lie outside all finite doubles. */
  lemma InfinityIsOutside(x: Float, inf: Float)
    requires Finite(x) && Infinite(inf)
    ensures if Negative(inf) then inf.Key() < x.Key() else x.Key() < inf.Key()
  {
    MagnitudeParts(x);
    MagnitudeParts(inf);
  }
}
