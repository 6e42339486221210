/** The advanced calculator's exact integer functions: factorial, integer
    exponentiation and the bounded discrete-logarithm search. */
module Advanced {
  import opened Outcomes

  // ---------------------------------------------------------------------
  // Factorial

  /** n! by its recurrence. */
  function Fact(n: nat): (r: nat)
    ensures r >= 1 && r >= n
  {
    if n == 0 then 1 else n * Fact(n - 1)
  }

  /** The product lo * (lo+1) * ... * hi of consecutive integers (1 when
      the range is empty): the reference definition the loop builds. */
  function Product(lo: int, hi: int): int
    decreases hi - lo
  {
    if lo > hi then 1 else lo * Product(lo + 1, hi)
  }

  /** Extending a range at the top multiplies the product by the new bound. */
  lemma {:induction false} ProductExtendHigh(lo: int, hi: int)
    requires lo <= hi + 1
    ensures Product(lo, hi + 1) == Product(lo, hi) * (hi + 1)
    decreases hi - lo
  {
    if lo <= hi {
      ProductExtendHigh(lo + 1, hi);
    }
  }

  /** n! is the product 1 * 2 * ... * n. */
  lemma {:induction false} FactIsProduct(n: nat)
    ensures Fact(n) == Product(1, n)
  {
    if n > 0 {
      FactIsProduct(n - 1);
      ProductExtendHigh(1, n - 1);
    }
  }

  /** The recurrence and the values the calculator is expected to give. */
  lemma FactValues(n: nat)
    ensures Fact(n + 1) == (n + 1) * Fact(n)
    ensures Fact(0) == 1 && Fact(1) == 1 && Fact(5) == 120
  {
  }

  /** `factorial`: negative input raises ValueError; otherwise the product
      is accumulated by counting down from n to 1.  The early return is
      guarded, as in the Python, by `n == 0 and n == 1`, which no n
      satisfies: 0 and 1 reach the loop, whose empty or one-step product
      is 1, and the postcondition holds for them all the same. */
  method Factorial(n: int) returns (r: Result<int>)
    ensures r.Failure? <==> n < 0
    ensures r.Failure? ==> r.error == ValueError
    ensures n >= 0 ==> r == Success(Fact(n))
  {
    if n < 0 {
      return Failure(ValueError);
    }
    if n == 0 && n == 1 {
      return Success(1);
    }
    var output := 1;
    var i := n;
    while i > 0
      invariant 0 <= i <= n
      invariant output == Product(i + 1, n)
    {
      output := output * i;
      i := i - 1;
    }
    FactIsProduct(n);
    return Success(output);
  }

  // ---------------------------------------------------------------------
  // Exponents

  /** `exponents`: base ** power for a non-negative integer power.  A
      power of a positive base is positive, and a power is zero exactly
      when a zero base is raised to a positive power. */
  function Exponents(base: int, power: nat): (r: int)
    ensures base >= 1 ==> r >= 1
    ensures r == 0 <==> base == 0 && power > 0
  {
    if power == 0 then 1 else base * Exponents(base, power - 1)
  }

  /** The recurrence that defines integer powers, and 2 ** 10. */
  lemma ExponentsValues(base: int, power: nat)
    ensures Exponents(base, 0) == 1
    ensures Exponents(base, power + 1) == base * Exponents(base, power)
    ensures Exponents(2, 10) == 1024
  {
  }

  /** Exponents add when powers of the same base multiply. */
  lemma {:induction false} ExponentsAdd(base: int, m: nat, n: nat)
    ensures Exponents(base, m + n) == Exponents(base, m) * Exponents(base, n)
  {
    if m > 0 {
      ExponentsAdd(base, m - 1, n);
      var p, q := Exponents(base, m - 1), Exponents(base, n);
      calc {
        Exponents(base, m + n);
        == base * Exponents(base, m - 1 + n);
        == base * (p * q);
        == (base * p) * q;
        == Exponents(base, m) * q;
      }
    }
  }

  /** Powers of a base of at least 2 are positive and strictly increase. */
  lemma {:induction false} ExponentsIncreasing(base: int, i: nat, j: nat)
    requires base >= 2 && i < j
    ensures 0 < Exponents(base, i) < Exponents(base, j)
    decreases j
  {
    if i < j - 1 {
      ExponentsIncreasing(base, i, j - 1);
    }
    assert Exponents(base, j) == base * Exponents(base, j - 1);
  }

  // ---------------------------------------------------------------------
  // Logarithms

  /** The number of exponents the search tries: 0, 1, ..., 499. */
  const SearchLimit: nat := 500

  /** The first exponent i in [from, SearchLimit) with base ** i == a, or
      None when there is none. */
  function FirstMatch(a: int, base: int, from: nat): (r: Option<nat>)
    requires from <= SearchLimit
    ensures r.Some? ==> from <= r.value < SearchLimit && Exponents(base, r.value) == a
    ensures r.Some? ==> forall j :: from <= j < r.value ==> Exponents(base, j) != a
    ensures r.None? <==> forall j :: from <= j < SearchLimit ==> Exponents(base, j) != a
    decreases SearchLimit - from
  {
    if from == SearchLimit then None
    else if Exponents(base, from) == a then Some(from)
    else FirstMatch(a, base, from + 1)
  }

  /** `logarithms`: tries the exponents 0 .. 499 in order and returns the
      first whose power equals `a`, or None after the last. */
  method Logarithms(a: int, base: int) returns (r: Option<nat>)
    ensures r == FirstMatch(a, base, 0)
    ensures r.Some? ==> r.value < SearchLimit && Exponents(base, r.value) == a
    ensures r.Some? ==> forall j :: 0 <= j < r.value ==> Exponents(base, j) != a
    ensures r.None? <==> forall j :: 0 <= j < SearchLimit ==> Exponents(base, j) != a
  {
    for i := 0 to SearchLimit
      invariant FirstMatch(a, base, 0) == FirstMatch(a, base, i)
    {
      if Exponents(base, i) == a {
        return Some(i);
      }
    }
    return None;
  }

  /** For a base of at least 2 the logarithm undoes exponentiation over
      the whole search range. */
  lemma LogarithmOfPower(base: int, k: nat)
    requires base >= 2 && k < SearchLimit
    ensures FirstMatch(Exponents(base, k), base, 0) == Some(k)
  {
    var a := Exponents(base, k);
    var r := FirstMatch(a, base, 0);
    if r.None? {
      assert false;
    } else if r.value < k {
      ExponentsIncreasing(base, r.value, k);
      assert false;
    } else if r.value > k {
      assert false;
    }
  }

  /** The logarithm of 1 is 0 for every base, and the calculator's
      examples: log_2(8) == 3 and log_2(7) has no integer answer. */
  lemma LogarithmExamples(base: int)
    ensures FirstMatch(1, base, 0) == Some(0)
    ensures FirstMatch(8, 2, 0) == Some(3)
    ensures FirstMatch(7, 2, 0) == None
  {
  }

  /** The degenerate bases the search does not guard: base 1 has
      logarithm 0 for a == 1 and none otherwise; base 0 has logarithm 0
      for 1, 1 for 0, and none otherwise. */
  lemma {:induction false} DegenerateBases(a: int)
    ensures FirstMatch(a, 1, 0) == if a == 1 then Some(0) else None
    ensures FirstMatch(a, 0, 0) == if a == 1 then Some(0) else if a == 0 then Some(1) else None
  {
    forall j: nat | j > 0
      ensures Exponents(1, j) == 1 && Exponents(0, j) == 0
    {
      OneToAnyPower(j);
    }
  }

  lemma {:induction false} OneToAnyPower(j: nat)
    ensures Exponents(1, j) == 1
  {
    if j > 0 {
      OneToAnyPower(j - 1);
    }
  }
}
