/** Positional numbers, most significant digit first. */
module Positional {
  import LittleEndian

  predicate Digital(s: seq<nat>, base: nat) { forall i :: 0 <= i < |s| ==> s[i] < base }

  function Value(s: seq<nat>, base: nat): nat {
    if s == [] then 0 else Value(s[..|s| - 1], base) * base + s[|s| - 1]
  }

  /** The digits of n without leading zeros. */
  function Digits(n: nat, base: nat): seq<nat>
    requires base > 1
  {
    if n == 0 then [] else Smaller(n, base); Digits(n / base, base) + [n % base]
  }

  lemma Smaller(n: nat, base: nat)
    requires n > 0 && base > 1
    ensures n / base < n
  {
    Grows(base, n / base);
  }

  lemma Grows(base: nat, q: nat)
    requires base > 1
    ensures base * q >= 2 * q
  {
  }

  lemma Division(n: nat, base: nat)
    requires base > 0
    ensures n == n / base * base + n % base && n % base < base
  {
  }

  lemma SmallQuotient(n: nat, base: nat)
    requires base > 0 && n / base == 0
    ensures n % base == n
  {
  }

  lemma {:induction false} DigitsDigital(n: nat, base: nat)
    requires base > 1
    ensures Digital(Digits(n, base), base)
  {
    if n == 0 {
    } else {
      Smaller(n, base);
      DigitsDigital(n / base, base);
      DigitsMore(Digits(n / base, base), n % base, base);
    }
  }

  lemma {:induction false} DigitsValue(n: nat, base: nat)
    requires base > 1
    ensures Value(Digits(n, base), base) == n
  {
    if n == 0 {
    } else {
      var q, r := n / base, n % base;
      Smaller(n, base);
      DigitsValue(q, base);
      DigitsDigital(q, base);
      Division(n, base);
      DigitsMore(Digits(q, base), r, base);
      assert Digits(n, base) == Digits(q, base) + [r];
    }
  }

  lemma {:induction false} DigitsLead(n: nat, base: nat)
    requires base > 1 && n > 0
    ensures Digits(n, base) != [] && Digits(n, base)[0] != 0
  {
    var q := n / base;
    Smaller(n, base);
    if q > 0 {
      DigitsLead(q, base);
      assert (Digits(q, base) + [n % base])[0] == Digits(q, base)[0];
    } else {
      SmallQuotient(n, base);
      assert Digits(q, base) == [];
    }
  }

  lemma DigitsMore(front: seq<nat>, last: nat, base: nat)
    requires Digital(front, base) && last < base
    ensures Digital(front + [last], base) && Value(front + [last], base) == Value(front, base) * base + last
  {
    assert (front + [last])[..|front|] == front;
  }

  lemma DivMod(v: nat, d: nat, base: nat)
    requires d < base
    ensures (v * base + d) / base == v && (v * base + d) % base == d
  {
    var x := v * base + d;
    LittleEndian.ModUnique(x, base, v, d);
    assert base * (x / base - v) == 0;
  }

  /** Digits without leading zeros are determined by their value. */
  lemma {:induction false} Canonical(s: seq<nat>, base: nat)
    requires base > 1 && Digital(s, base) && (s == [] || s[0] != 0)
    ensures Digits(Value(s, base), base) == s
    ensures s != [] ==> Value(s, base) > 0
  {
    if s == [] {
    } else {
      var front, d := s[..|s| - 1], s[|s| - 1];
      Canonical(front, base);
      DivMod(Value(front, base), d, base);
      if front == [] {
        assert s == [d] && Digits(d, base) == Digits(0, base) + [d];
      } else {
        assert front[0] == s[0] && Value(front, base) * base > 0;
      }
      assert s == front + [d];
    }
  }
}
