/** Binomials (`crates/luaml/src/stdlib/math.rs`). */
module Combinatorics {
  import opened Wrappers

  datatype MathError = NegativeArgument | EmptyList | PercentileOutOfRange

  /** The number of ways to choose `k` of `n`, by Pascal's rule. */
  function Choose(n: nat, k: nat): nat {
    if k == 0 then 1 else if n == 0 then 0 else Choose(n - 1, k - 1) + Choose(n - 1, k)
  }

  function Factorial(n: nat): (f: nat)
    ensures f > 0
  {
    if n == 0 then 1 else n * Factorial(n - 1)
  }

  lemma {:induction false} ChooseTooMany(n: nat, k: nat)
    requires k > n
    ensures Choose(n, k) == 0
  {
    if n > 0 {
      ChooseTooMany(n - 1, k - 1);
      ChooseTooMany(n - 1, k);
    }
  }

  lemma {:induction false} ChooseAll(n: nat)
    ensures Choose(n, n) == 1
  {
    if n > 0 {
      ChooseAll(n - 1);
      ChooseTooMany(n - 1, n);
    }
  }

  lemma {:induction false} ChooseSymmetric(n: nat, k: nat)
    requires k <= n
    ensures Choose(n, k) == Choose(n, n - k)
  {
    if k == 0 || k == n {
      ChooseAll(n);
    } else {
      ChooseSymmetric(n - 1, k - 1);
      ChooseSymmetric(n - 1, k);
    }
  }

  lemma Regroup(a: int, k: int, n: int, b: int, c: int)
    requires k * a == (n - k) * b && (k + 1) * c == (n - 1 - k) * a
    ensures (k + 1) * (a + c) == (n - k) * (b + a)
  {
    assert (k + 1) * (a + c) == (k + 1) * a + (n - 1 - k) * a == n * a;
    assert (n - k) * (b + a) == k * a + (n - k) * a == n * a;
  }

  /** One factor of the multiplicative formula leads from one binomial coefficient to the next. */
  lemma {:induction false} NextCoefficient(n: nat, k: nat)
    requires k <= n
    ensures (k + 1) * Choose(n, k + 1) == (n - k) * Choose(n, k)
  {
    if k == n {
      ChooseTooMany(n, n + 1);
    } else if k == 0 {
      NextCoefficient(n - 1, 0);
      assert Choose(n, 1) == Choose(n - 1, 0) + Choose(n - 1, 1);
    } else {
      NextCoefficient(n - 1, k);
      NextCoefficient(n - 1, k - 1);
      Regroup(Choose(n - 1, k), k, n, Choose(n - 1, k - 1), Choose(n - 1, k + 1));
    }
  }

  lemma MoveFactor(c: int, d: int, k: int, m: int, f: int, g: int)
    requires k * c == m * d
    ensures c * ((k * f) * g) == d * (f * (m * g))
  {
    calc {
      c * ((k * f) * g);
      (k * c) * (f * g);
      (m * d) * (f * g);
      d * (f * (m * g));
    }
  }

  /** The binomial coefficient in terms of factorials. */
  lemma {:induction false} ChooseFactorial(n: nat, k: nat)
    requires k <= n
    ensures Choose(n, k) * (Factorial(k) * Factorial(n - k)) == Factorial(n)
  {
    if k > 0 {
      NextCoefficient(n, k - 1);
      ChooseFactorial(n, k - 1);
      MoveFactor(Choose(n, k), Choose(n, k - 1), k, n - k + 1, Factorial(k - 1), Factorial(n - k));
    }
  }

  lemma ProductAsReal(a: int, b: int)
    ensures (a * b) as real == (a as real) * (b as real)
  {
  }

  lemma NextFactor(acc: real, n: nat, k: nat)
    requires k < n && acc == Choose(n, k) as real
    ensures acc * ((n - k) as real) / ((k + 1) as real) == Choose(n, k + 1) as real
  {
    hide Choose;
    NextCoefficient(n, k);
    ProductAsReal(n - k, Choose(n, k));
    ProductAsReal(k + 1, Choose(n, k + 1));
    Quotient(acc * ((n - k) as real), (k + 1) as real, Choose(n, k + 1) as real);
  }

  lemma Quotient(product: real, a: real, b: real)
    requires a != 0.0 && product == a * b
    ensures product / a == b
  {
  }

  /** Every value the product takes on the way is a binomial coefficient, so an integer. */
  method Binom(n: int, k: int) returns (r: Result<real, MathError>)
    ensures r == if n < 0 || k < 0 then Err(NegativeArgument) else Ok(Choose(n, k) as real)
  {
    if n < 0 || k < 0 {
      return Err(NegativeArgument);
    }
    if k > n {
      ChooseTooMany(n, k);
      return Ok(0.0);
    }
    ChooseSymmetric(n, k);
    var least := if k <= n - k then k else n - k;
    var acc := 1.0;
    for i := 0 to least
      invariant acc == Choose(n, i) as real
    {
      NextFactor(acc, n, i);
      acc := acc * ((n - i) as real) / ((i + 1) as real);
    }
    return Ok(acc);
  }

  method ComputeFactorial(n: int) returns (r: Result<real, MathError>)
    ensures r == if n < 0 then Err(NegativeArgument) else Ok(Factorial(n) as real)
  {
    if n < 0 {
      return Err(NegativeArgument);
    }
    var acc := 1.0;
    var i := 2;
    assert Factorial(1) == 1 * Factorial(0);
    while i <= n
      invariant 2 <= i && (i == 2 || i <= n + 1)
      invariant acc == Factorial(i - 1) as real
    {
      ProductAsReal(i, Factorial(i - 1));
      acc := acc * (i as real);
      i := i + 1;
    }
    return Ok(acc);
  }
}
