/** Primes, divisibility and Fermat's little theorem. */
module Numbers {

  /** The number m divides x. */
  ghost predicate Divides(m: int, x: int) { exists k: int :: x == m * k }

  ghost predicate Prime(p: nat) {
    p > 1 && forall d: nat :: 1 < d && Divides(d, p) ==> d == p
  }

  function Pow(b: int, e: nat): int {
    if e == 0 then 1 else b * Pow(b, e - 1)
  }

  // ---- divisibility ----

  lemma DividesBy(m: int, k: int)
    ensures Divides(m, m * k)
  {
  }

  lemma DividesSum(m: int, x: int, y: int)
    requires Divides(m, x) && Divides(m, y)
    ensures Divides(m, x + y) && Divides(m, x - y)
  {
    var j :| x == m * j;
    var k :| y == m * k;
    assert x + y == m * (j + k) && x - y == m * (j - k);
  }

  lemma DividesTimes(m: int, x: int, y: int)
    requires Divides(m, x)
    ensures Divides(m, x * y) && Divides(m, y * x)
  {
    var k :| x == m * k;
    assert x * y == m * (k * y);
  }

  lemma DividesSmall(m: nat, x: int)
    requires 0 < x < m
    ensures !Divides(m, x)
  {
    forall k: int ensures x != m * k {
      if k > 0 { assert m * k >= m; } else { assert m * k <= 0; }
    }
  }

  /** What is left of x after removing multiples of m. */
  lemma Remainder(m: int, x: int)
    requires m > 0
    ensures 0 <= x % m < m && Divides(m, x - x % m)
  {
    assert x - x % m == m * (x / m);
  }

  // ---- Euclid's lemma ----

  /** The least positive number whose product with y is a multiple of p. */
  lemma Least(p: nat, y: int) returns (r: nat)
    requires p > 0
    ensures 0 < r <= p && Divides(p, r * y)
    ensures forall s: nat :: 0 < s < r ==> !Divides(p, s * y)
  {
    DividesBy(p, y);
    r := 1;
    while !Divides(p, r * y)
      invariant 0 < r <= p
      invariant forall s: nat :: 0 < s < r ==> !Divides(p, s * y)
      decreases p - r
    {
      r := r + 1;
    }
  }

  /** Every number with a product that is a multiple is itself a multiple of the least one. */
  lemma LeastDivides(p: nat, y: int, r: nat, x: nat)
    requires p > 0 && r > 0 && Divides(p, r * y) && Divides(p, x * y)
    requires forall s: nat :: 0 < s < r ==> !Divides(p, s * y)
    ensures x % r == 0
  {
    var q, s := x / r, x % r;
    assert x == r * q + s;
    DividesTimes(p, r * y, q);
    DividesSum(p, x * y, r * y * q);
    assert s * y == x * y - r * y * q;
  }

  lemma Euclid(p: nat, x: nat, y: int)
    requires Prime(p) && Divides(p, x * y)
    ensures Divides(p, x) || Divides(p, y)
  {
    var r := Least(p, y);
    DividesBy(p, y);
    LeastDivides(p, y, r, p);
    LeastDivides(p, y, r, x);
    assert p == r * (p / r) && x == r * (x / r);
    assert Divides(r, p);
    if r == 1 { assert r * y == y; } else { assert r == p; }
  }

  // ---- the binomial theorem ----

  function Choose(n: nat, k: nat): nat {
    if k == 0 then 1 else if n == 0 then 0 else Choose(n - 1, k - 1) + Choose(n - 1, k)
  }

  lemma {:induction false} ChooseBeyond(n: nat, k: nat)
    requires k > n
    ensures Choose(n, k) == 0
  {
    if n == 0 {
    } else {
      ChooseBeyond(n - 1, k - 1);
      ChooseBeyond(n - 1, k);
    }
  }

  lemma {:induction false} ChooseAll(n: nat)
    ensures Choose(n, n) == 1
  {
    if n == 0 {
    } else {
      ChooseAll(n - 1);
      ChooseBeyond(n - 1, n);
    }
  }

  lemma Distribute(x: int, y: int, z: int)
    ensures x * (y + z) == x * y + x * z
  {
  }

  lemma Regroup(x: int, y: int, z: int)
    ensures x * y * z == x * (y * z)
  {
  }

  lemma AbsorptionStep(n: int, k: int, a: int, b: int, c: int, d: int)
    requires a == c + d && (k - 1) * a == (n - 1) * c && k * b == (n - 1) * d
    ensures k * (a + b) == n * a
  {
    Distribute(k, a, b);
    Distribute(n - 1, c, d);
    assert k * a == (k - 1) * a + a;
    assert n * a == (n - 1) * a + a;
  }

  lemma {:induction false} Absorption(n: nat, k: nat)
    requires n > 0 && k > 0
    ensures k * Choose(n, k) == n * Choose(n - 1, k - 1)
  {
    if n == 1 {
      if k > 1 { ChooseBeyond(0, k - 1); ChooseBeyond(1, k); }
    } else if k == 1 {
      Absorption(n - 1, 1);
    } else {
      Absorption(n - 1, k - 1);
      Absorption(n - 1, k);
      AbsorptionStep(n, k, Choose(n - 1, k - 1), Choose(n - 1, k), Choose(n - 2, k - 2), Choose(n - 2, k - 1));
    }
  }

  /** The first k terms of the expansion of (1 + a)^n. */
  function Terms(n: nat, a: int, k: nat): int {
    if k == 0 then 0 else Terms(n, a, k - 1) + Choose(n, k - 1) * Pow(a, k - 1)
  }

  lemma TermStep(a: int, x: int, y: int, z: int, t: int)
    ensures (x + y) * (a * z) + a * t == y * (a * z) + a * (t + x * z)
  {
    Distribute(a, t, x * z);
    Distribute(a * z, x, y);
    assert x * (a * z) == a * (x * z);
  }

  lemma {:induction false} TermsStep(n: nat, a: int, k: nat)
    ensures Terms(n + 1, a, k + 1) == Terms(n, a, k + 1) + a * Terms(n, a, k)
  {
    if k == 0 {
    } else {
      TermsStep(n, a, k - 1);
      var x, y, z := Choose(n, k - 1), Choose(n, k), Pow(a, k - 1);
      var t := Terms(n, a, k - 1);
      assert Choose(n + 1, k) == x + y && Pow(a, k) == a * z && Terms(n, a, k) == t + x * z;
      assert Terms(n + 1, a, k + 1) == Terms(n + 1, a, k) + (x + y) * (a * z);
      assert Terms(n, a, k + 1) == Terms(n, a, k) + y * (a * z);
      TermStep(a, x, y, z, t);
    }
  }

  lemma OneMore(a: int, t: int)
    ensures (1 + a) * t == t + a * t
  {
  }

  lemma {:induction false} Binomial(n: nat, a: int)
    ensures Pow(1 + a, n) == Terms(n, a, n + 1)
  {
    if n == 0 {
    } else {
      Binomial(n - 1, a);
      TermsStep(n - 1, a, n);
      LastTerm(n - 1, a);
      OneMore(a, Terms(n - 1, a, n));
    }
  }

  lemma LastTerm(n: nat, a: int)
    ensures Terms(n, a, n + 2) == Terms(n, a, n + 1)
  {
    ChooseBeyond(n, n + 1);
    assert Terms(n, a, n + 2) == Terms(n, a, n + 1) + Choose(n, n + 1) * Pow(a, n + 1);
  }

  // ---- Fermat ----

  /** In the expansion of (1 + a)^p all inner terms are multiples of p. */
  lemma {:induction false} InnerTerms(p: nat, a: int, k: nat)
    requires Prime(p) && 0 < k <= p
    ensures Divides(p, Terms(p, a, k) - 1)
  {
    if k == 1 {
      assert Terms(p, a, 1) == Terms(p, a, 0) + Choose(p, 0) * Pow(a, 0);
      DividesBy(p, 0);
    } else {
      InnerTerms(p, a, k - 1);
      Absorption(p, k - 1);
      DividesBy(p, Choose(p - 1, k - 2));
      DividesSmall(p, k - 1);
      Euclid(p, k - 1, Choose(p, k - 1));
      DividesTimes(p, Choose(p, k - 1), Pow(a, k - 1));
      DividesSum(p, Terms(p, a, k - 1) - 1, Choose(p, k - 1) * Pow(a, k - 1));
    }
  }

  lemma {:induction false} FermatAll(p: nat, a: nat)
    requires Prime(p)
    ensures Divides(p, Pow(a, p) - a)
  {
    if a == 0 {
      assert Pow(0, p) == 0;
      DividesBy(p, 0);
    } else {
      FermatAll(p, a - 1);
      Binomial(p, a - 1);
      InnerTerms(p, a - 1, p);
      ChooseAll(p);
      assert Pow(a, p) == Terms(p, a - 1, p) + Pow(a - 1, p);
      DividesSum(p, Terms(p, a - 1, p) - 1, Pow(a - 1, p) - (a - 1));
    }
  }

  /** Fermat's little theorem. */
  lemma Fermat(p: nat, a: nat)
    requires Prime(p) && !Divides(p, a)
    ensures Divides(p, Pow(a, p - 1) - 1)
  {
    FermatAll(p, a);
    assert a * (Pow(a, p - 1) - 1) == Pow(a, p) - a;
    Euclid(p, a, Pow(a, p - 1) - 1);
  }
}
