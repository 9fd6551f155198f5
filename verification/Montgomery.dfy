/**
 The manual fallback of the Ed25519 to X25519 public key conversion: u = (1 + y) / (1 - y) modulo
 2^255 - 19 (section 4.1 of RFC 7748), with the inverse taken by modular exponentiation.
 */
module Montgomery {
  import opened Common
  import opened Numbers
  import opened LittleEndian

  const P: nat := 57896044618658097711785492504343953926634992332820282019728792003956564819949

  // ---- JavaScript integers ----

  /** The % of JavaScript BigInt: the remainder takes the sign of the dividend. */
  function Rem(a: int, m: int): int
    requires m > 0
  {
    if a >= 0 then a % m else -((-a) % m)
  }

  lemma RemCongruent(a: int, m: int)
    requires m > 0
    ensures Divides(m, a - Rem(a, m)) && -m < Rem(a, m) < m
    ensures a >= 0 ==> Rem(a, m) >= 0
    ensures a <= 0 ==> Rem(a, m) <= 0
  {
    if a >= 0 {
      Remainder(m, a);
    } else {
      Remainder(m, -a);
      DividesTimes(m, -a - (-a) % m, -1);
    }
  }

  /** A remainder is determined by its class, its sign and its size. */
  lemma RemUnique(a: int, b: int, m: int)
    requires m > 0 && Divides(m, a - b) && -m < b < m && (a >= 0 ==> b >= 0) && (a <= 0 ==> b <= 0)
    ensures Rem(a, m) == b
  {
    RemCongruent(a, m);
    var r := Rem(a, m);
    DividesSum(m, a - b, a - r);
    assert (a - b) - (a - r) == r - b && -m < r - b < m;
    if r > b { DividesSmall(m, r - b); }
    if r < b { DividesTimes(m, r - b, -1); DividesSmall(m, b - r); }
  }

  lemma TimesCongruent(m: int, a: int, x: int, b: int, y: int)
    requires Divides(m, a - x) && Divides(m, b - y)
    ensures Divides(m, a * b - x * y)
  {
    DividesTimes(m, a - x, b);
    DividesTimes(m, b - y, x);
    DividesSum(m, (a - x) * b, (b - y) * x);
    assert (a - x) * b + (b - y) * x == a * b - x * y;
  }

  /** Factors may be reduced before they are multiplied. */
  lemma RemTimes(a: int, b: int, m: int)
    requires m > 0
    ensures Rem(Rem(a, m) * Rem(b, m), m) == Rem(a * b, m)
  {
    var x, y := Rem(a, m), Rem(b, m);
    RemCongruent(a, m);
    RemCongruent(b, m);
    TimesCongruent(m, a, x, b, y);
    RemCongruent(x * y, m);
    var r := Rem(x * y, m);
    DividesSum(m, a * b - x * y, x * y - r);
    SameSign(a, b, x, y, m);
    RemUnique(a * b, r, m);
  }

  lemma SameSign(a: int, b: int, x: int, y: int, m: int)
    requires m > 0 && (a >= 0 ==> x >= 0) && (a <= 0 ==> x <= 0) && (b >= 0 ==> y >= 0) && (b <= 0 ==> y <= 0)
    ensures a * b >= 0 ==> Rem(x * y, m) >= 0
    ensures a * b <= 0 ==> Rem(x * y, m) <= 0
  {
    RemCongruent(x * y, m);
    if a >= 0 && b >= 0 { assert a * b >= 0 && x * y >= 0; }
    if a <= 0 && b <= 0 { assert a * b >= 0 && x * y >= 0; }
    if a >= 0 && b <= 0 { assert a * b <= 0 && x * y <= 0; }
    if a <= 0 && b >= 0 { assert a * b <= 0 && x * y <= 0; }
    if a * b == 0 { assert a == 0 || b == 0; assert x * y == 0; }
  }

  // ---- modular exponentiation ----

  lemma RemAgain(a: int, m: int)
    requires m > 0
    ensures Rem(Rem(a, m), m) == Rem(a, m)
  {
    RemCongruent(a, m);
    var r := Rem(a, m);
    DividesBy(m, 0);
    RemUnique(r, r, m);
  }

  lemma {:induction false} RemPow(b: int, e: nat, m: int)
    requires m > 0
    ensures Rem(Pow(Rem(b, m), e), m) == Rem(Pow(b, e), m)
  {
    if e == 0 {
    } else {
      RemPow(b, e - 1, m);
      RemTimes(Rem(b, m), Pow(Rem(b, m), e - 1), m);
      RemAgain(b, m);
      RemTimes(b, Pow(b, e - 1), m);
    }
  }

  lemma {:induction false} PowSquare(b: int, e: nat)
    ensures Pow(b * b, e) == Pow(b, 2 * e)
  {
    if e == 0 {
    } else {
      PowSquare(b, e - 1);
      assert Pow(b, 2 * e) == b * (b * Pow(b, 2 * e - 2));
      assert b * b * Pow(b * b, e - 1) == b * (b * Pow(b * b, e - 1));
    }
  }

  /** One turn of square and multiply keeps the product of the result with the remaining power. */
  lemma Turn(r: int, b: int, e: nat, m: int)
    requires m > 0 && e > 0
    ensures var next := if e % 2 == 1 then Rem(r * b, m) else r;
      Rem(next * Pow(Rem(b * b, m), e / 2), m) == Rem(r * Pow(b, e), m)
  {
    var odd := if e % 2 == 1 then r * b else r;
    var next := if e % 2 == 1 then Rem(r * b, m) else r;
    RemAgain(odd, m);
    RemPow(b * b, e / 2, m);
    RemReplace(next, odd, Pow(Rem(b * b, m), e / 2), Pow(b * b, e / 2), m);
    PowHalves(r, b, e);
  }

  lemma RemReplace(x: int, v: int, y: int, w: int, m: int)
    requires m > 0 && Rem(x, m) == Rem(v, m) && Rem(y, m) == Rem(w, m)
    ensures Rem(x * y, m) == Rem(v * w, m)
  {
    RemTimes(x, y, m);
    RemTimes(v, w, m);
  }

  lemma PowHalves(r: int, b: int, e: nat)
    requires e > 0
    ensures (if e % 2 == 1 then r * b else r) * Pow(b * b, e / 2) == r * Pow(b, e)
  {
    PowSquare(b, e / 2);
    if e % 2 == 1 {
      assert 2 * (e / 2) == e - 1;
      Regroup(r, b, Pow(b, e - 1));
    } else {
      assert 2 * (e / 2) == e;
    }
  }

  method ModPow(base: int, exp: nat, mod: int) returns (r: int)
    requires mod > 1
    ensures r == Rem(Pow(base, exp), mod)
  {
    r := 1;
    var b, e := Rem(base, mod), exp;
    RemPow(base, exp, mod);
    RemAgain(Pow(base, exp), mod);
    while e > 0
      invariant e >= 0 && -mod < r < mod
      invariant Rem(r * Pow(b, e), mod) == Rem(Pow(base, exp), mod)
    {
      Turn(r, b, e, mod);
      if e % 2 == 1 {
        RemCongruent(r * b, mod);
        r := Rem(r * b, mod);
      }
      b := Rem(b * b, mod);
      e := e / 2;
    }
    DividesBy(mod, 0);
    RemUnique(r, r, mod);
  }

  /** The y coordinate: the bytes without the sign bit. */
  function Coordinate(bytes: seq<u8>): nat
    requires |bytes| == 32
  {
    Value(bytes[..31] + [bytes[31] % 128])
  }

  method ReadCoordinate(bytes: seq<u8>) returns (y: nat)
    requires |bytes| == 32
    ensures y == Coordinate(bytes)
  {
    var cleared := bytes[31 := bytes[31] % 128];
    assert cleared == bytes[..31] + [bytes[31] % 128];
    y := 0;
    for i := 0 to 32
      invariant y == Value(cleared[..i])
    {
      ValueAppend(cleared[..i], cleared[i]);
      assert cleared[..i + 1] == cleared[..i] + [cleared[i]];
      RadixIsPow(i);
      OrDisjoint(y, cleared[i], 8 * i);
      y := Or(y, cleared[i] * Radix(i));
    }
    assert cleared[..32] == cleared;
  }

  /** The modulus is 2^255 - 19. */
  lemma Modulus()
    ensures 128 * Radix(31) == P + 19 && Radix(32) == 2 * P + 38
  {
    assert Radix(4) == 4294967296;
    assert Radix(8) == 18446744073709551616;
    assert Radix(12) == 79228162514264337593543950336;
    assert Radix(16) == 340282366920938463463374607431768211456;
    assert Radix(20) == 1461501637330902918203684832716283019655932542976;
    assert Radix(24) == 6277101735386680763835789423207666416102355444464034512896;
    assert Radix(28) == 26959946667150639794667015087019630673637144422540572481103610249216;
    assert Radix(31) == 452312848583266388373324160190187140051835877600158453279131187530910662656;
  }

  lemma {:induction false} ValueBound(bytes: seq<u8>, n: nat)
    requires |bytes| == n + 1 && bytes[n] < 128
    ensures Value(bytes) < 128 * Radix(n)
  {
    ValueAppend(bytes[..n], bytes[n]);
    assert bytes == bytes[..n] + [bytes[n]];
    TopByte(bytes[n], Radix(n));
  }

  lemma TopByte(b: int, x: int)
    requires 0 <= b <= 127 && x >= 0
    ensures b * x <= 127 * x
  {
  }

  /** The coordinate is below 2^255, so at most 18 above the modulus. */
  lemma CoordinateBound(bytes: seq<u8>)
    requires |bytes| == 32
    ensures Coordinate(bytes) <= P + 18
  {
    ValueBound(bytes[..31] + [bytes[31] % 128], 31);
    Modulus();
  }

  // ---- the conversion ----

  /** The quotient the fallback computes for a coordinate, before it is written out. */
  function Quotient(y: int, p: int): int
    requires p > 2
  {
    Rem(Rem(1 + y, p) * Rem(Pow(Rem(1 - y + p, p), p - 2), p), p)
  }

  method ConvertPublicKey(bytes: seq<u8>, p: int) returns (out: array<u8>)
    requires |bytes| == 32 && p == P
    ensures fresh(out) && out.Length == 32
    ensures Value(out[..]) == Quotient(Coordinate(bytes), p) % Radix(32)
  {
    var y := ReadCoordinate(bytes);
    var num := Rem(1 + y, p);
    var den := Rem(1 - y + p, p);
    var inverse := ModPow(den, p - 2, p);
    var u := Rem(num * inverse, p);
    assert u == Quotient(y, p);
    out := WriteBytes(u);
  }

  lemma {:induction false} PowCongruent(m: int, a: int, b: int, e: nat)
    requires Divides(m, a - b)
    ensures Divides(m, Pow(a, e) - Pow(b, e))
  {
    if e == 0 {
      DividesBy(m, 0);
    } else {
      PowCongruent(m, a, b, e - 1);
      TimesCongruent(m, a, b, Pow(a, e - 1), Pow(b, e - 1));
    }
  }

  lemma Congruences(m: int, a: int, b: int, c: int)
    requires Divides(m, a - b) && Divides(m, b - c)
    ensures Divides(m, a - c)
  {
    DividesSum(m, a - b, b - c);
    assert (a - b) + (b - c) == a - c;
  }

  /** A power p - 2 is an inverse modulo a prime p, for negative numbers too. */
  lemma Inverse(p: nat, a: int)
    requires Prime(p) && !Divides(p, a)
    ensures Divides(p, Pow(a, p - 2) * a - 1)
  {
    var b := a % p;
    Remainder(p, a);
    if Divides(p, b) {
      DividesSum(p, a - b, b);
      assert false;
    }
    Fermat(p, b);
    PowCongruent(p, a, b, p - 1);
    Congruences(p, Pow(a, p - 1), Pow(b, p - 1), 1);
    assert Pow(a, p - 1) == a * Pow(a, p - 2);
  }

  /** Whenever 1 - y is invertible, the computed quotient solves u (1 - y) = 1 + y modulo p. */
  lemma QuotientSolves(p: nat, y: int)
    requires Prime(p) && p > 2 && !Divides(p, 1 - y)
    ensures Divides(p, Quotient(y, p) * (1 - y) - (1 + y))
  {
    var num, den := Rem(1 + y, p), Rem(1 - y + p, p);
    var inverse := Rem(Pow(den, p - 2), p);
    var u := Rem(num * inverse, p);
    RemCongruent(1 + y, p);
    RemCongruent(1 - y + p, p);
    RemCongruent(Pow(den, p - 2), p);
    RemCongruent(num * inverse, p);
    DenominatorOk(p, y);
    Inverse(p, den);
    Chain(p, y, num, den, Pow(den, p - 2), inverse, u);
  }

  lemma DenominatorOk(p: nat, y: int)
    requires p > 0
    ensures Divides(p, (1 - y) - Rem(1 - y + p, p))
    ensures Divides(p, 1 - y) <==> Divides(p, Rem(1 - y + p, p))
  {
    var den := Rem(1 - y + p, p);
    RemCongruent(1 - y + p, p);
    DividesBy(p, 1);
    DividesSum(p, (1 - y + p) - den, p);
    assert (1 - y + p) - den - p == (1 - y) - den;
    if Divides(p, den) { DividesSum(p, (1 - y) - den, den); }
    if Divides(p, 1 - y) { DividesSum(p, 1 - y, (1 - y) - den); }
  }

  lemma Chain(p: int, y: int, num: int, den: int, power: int, inverse: int, u: int)
    requires Divides(p, (1 + y) - num) && Divides(p, (1 - y) - den) && Divides(p, power - inverse)
    requires Divides(p, num * inverse - u) && Divides(p, power * den - 1)
    ensures Divides(p, u * (1 - y) - (1 + y))
  {
    DividesTimes(p, num * inverse - u, 1 - y);
    DividesTimes(p, (1 - y) - den, num * inverse);
    DividesTimes(p, power - inverse, num * den);
    DividesTimes(p, power * den - 1, num);
    var a, b, c := (num * inverse - u) * (1 - y), ((1 - y) - den) * (num * inverse), (power - inverse) * (num * den);
    var d, e := (power * den - 1) * num, (1 + y) - num;
    DividesSum(p, b, a);
    DividesSum(p, b - a, c);
    DividesSum(p, b - a - c, d);
    DividesSum(p, b - a - c + d, e);
    ChainAlgebra(y, num, den, power, inverse, u);
  }

  lemma ChainAlgebra(y: int, num: int, den: int, power: int, inverse: int, u: int)
    ensures ((1 - y) - den) * (num * inverse) - (num * inverse - u) * (1 - y)
         - (power - inverse) * (num * den) + (power * den - 1) * num - ((1 + y) - num)
         == u * (1 - y) - (1 + y)
  {
    var n := num * inverse;
    assert ((1 - y) - den) * n == (1 - y) * n - den * n;
    assert (n - u) * (1 - y) == n * (1 - y) - u * (1 - y);
    assert (power - inverse) * (num * den) == power * (num * den) - inverse * (num * den);
    assert inverse * (num * den) == den * n;
    assert power * (num * den) == power * den * num;
    assert (power * den - 1) * num == power * den * num - num;
  }

  // ---- exactly when the conversion is right ----

  lemma {:induction false} PowSign(a: int, e: nat)
    ensures a >= 0 ==> Pow(a, e) >= 0
    ensures a < 0 ==> (e % 2 == 0 ==> Pow(a, e) > 0) && (e % 2 == 1 ==> Pow(a, e) < 0)
  {
    if e == 0 {
    } else {
      PowSign(a, e - 1);
      if a >= 0 { assert a * Pow(a, e - 1) >= 0; }
      if a < 0 && e % 2 == 0 { assert a * Pow(a, e - 1) > 0; }
      if a < 0 && e % 2 == 1 { assert a * Pow(a, e - 1) < 0; }
    }
  }

  lemma {:induction false} PowZero(e: nat)
    requires e > 0
    ensures Pow(0, e) == 0
  {
  }

  lemma NonNegative(p: int, y: int)
    requires p > 2 && 0 <= y <= p + 1
    ensures 0 <= Quotient(y, p) < p
  {
    var num, den := Rem(1 + y, p), Rem(1 - y + p, p);
    PowSign(den, p - 2);
    var inverse := Rem(Pow(den, p - 2), p);
    assert num >= 0 && inverse >= 0 && num * inverse >= 0;
    RemCongruent(num * inverse, p);
  }

  /** At y = 1 and y = p + 1 the denominator vanishes and the quotient is 0. */
  lemma Singular(p: int, y: int)
    requires p > 2 && (y == 1 || y == p + 1)
    ensures Quotient(y, p) == 0
  {
    DividesBy(p, 1);
    DividesBy(p, 0);
    RemUnique(1 - y + p, 0, p);
    PowZero(p - 2);
  }

  /** Beyond p + 1 the denominator is negative, and so is the quotient. */
  lemma Negative(p: nat, y: int)
    requires Prime(p) && p > 40 && p % 2 == 1 && p + 2 <= y <= p + 18
    ensures 0 - p < Quotient(y, p) < 0
  {
    DividesBy(p, 1);
    DividesBy(p, 0);
    RemUnique(1 + y, 1 + y - p, p);
    RemUnique(1 - y + p, 1 - y + p, p);
    NegativeInverse(p, 1 - y + p);
    NegativeProduct(p, 1 + y - p, Rem(Pow(1 - y + p, p - 2), p));
  }

  lemma NegativeInverse(p: nat, den: int)
    requires Prime(p) && p % 2 == 1 && 0 - p < den < 0
    ensures p >= 2 && 0 - p < Rem(Pow(den, p - 2), p) < 0
  {
    var power := Pow(den, p - 2);
    NotDivides(p, den);
    Inverse(p, den);
    PowSign(den, p - 2);
    RemCongruent(power, p);
    if Rem(power, p) == 0 {
      DividesTimes(p, power, den);
      DividesSum(p, power * den, power * den - 1);
      DividesSmall(p, 1);
      assert false;
    }
  }

  lemma NegativeProduct(p: nat, num: nat, inverse: int)
    requires Prime(p) && 0 < num < p && 0 - p < inverse < 0
    ensures 0 - p < Rem(num * inverse, p) < 0
  {
    NotDivides(p, inverse);
    NotDivides(p, num);
    Product(p, num, inverse);
    RemCongruent(num * inverse, p);
    assert num * inverse < 0;
  }

  lemma NotDivides(p: nat, x: int)
    requires 0 - p < x < p && x != 0
    ensures !Divides(p, x)
  {
    if x > 0 {
      DividesSmall(p, x);
    } else if Divides(p, x) {
      DividesTimes(p, x, -1);
      DividesSmall(p, -x);
      assert false;
    }
  }

  lemma Product(p: nat, x: nat, y: int)
    requires Prime(p) && !Divides(p, x) && !Divides(p, y)
    ensures !Divides(p, x * y) && Rem(x * y, p) != 0
  {
    if Divides(p, x * y) {
      Euclid(p, x, y);
      assert false;
    }
    RemCongruent(x * y, p);
  }

  /** A negative quotient is written as u + 2^256, which no longer solves the equation. */
  lemma WrongClass(p: nat, u: int, y: int)
    requires Prime(p) && p > 40 && !Divides(p, 1 - y)
    requires Divides(p, u * (1 - y) - (1 + y))
    ensures !Divides(p, (u + 2 * p + 38) * (1 - y) - (1 + y))
  {
    if Divides(p, (u + 2 * p + 38) * (1 - y) - (1 + y)) {
      DividesSum(p, (u + 2 * p + 38) * (1 - y) - (1 + y), u * (1 - y) - (1 + y));
      assert (u + 2 * p + 38) * (1 - y) == u * (1 - y) + p * (2 * (1 - y)) + 38 * (1 - y);
      DividesBy(p, 2 * (1 - y));
      DividesSum(p, p * (2 * (1 - y)) + 38 * (1 - y), p * (2 * (1 - y)));
      DividesSmall(p, 38);
      Euclid(p, 38, 1 - y);
      assert false;
    }
  }

  /**
   Of all 32-byte inputs exactly those whose coordinate y is at most p and not 1 convert to bytes that
   solve u (1 - y) = 1 + y modulo p = 2^255 - 19; every canonical y other than 1 is among them.
   */
  lemma ConversionExact(bytes: seq<u8>, p: nat, v: int)
    requires |bytes| == 32 && p == P && Prime(p)
    requires v == Quotient(Coordinate(bytes), p) % Radix(32)
    ensures Divides(p, v * (1 - Coordinate(bytes)) - (1 + Coordinate(bytes))) <==>
      Coordinate(bytes) <= p && Coordinate(bytes) != 1
  {
    CoordinateBound(bytes);
    Modulus();
    var y := Coordinate(bytes);
    QuotientSolved(p, y);
    ExactFor(p, y, Quotient(y, p), v, Radix(32));
  }

  /** What is known of the quotient in each range of the coordinate. */
  ghost predicate Solved(p: nat, y: nat, u: int) {
    if y == 1 || y == p + 1 then u == 0
    else
      && !Divides(p, 1 - y) && Divides(p, u * (1 - y) - (1 + y))
      && (if y <= p then 0 <= u < p else 0 - p < u < 0)
  }

  lemma QuotientSolved(p: nat, y: nat)
    requires Prime(p) && p > 40 && p % 2 == 1 && y <= p + 18
    ensures Solved(p, y, Quotient(y, p))
  {
    if y == 1 || y == p + 1 {
      Singular(p, y);
    } else {
      Shifted(p, y);
      QuotientSolves(p, y);
      if y <= p { NonNegative(p, y); } else { Negative(p, y); }
    }
  }

  lemma ExactFor(p: nat, y: nat, u: int, v: int, full: int)
    requires Prime(p) && p > 40 && Solved(p, y, u) && full == 2 * p + 38 && v == u % full
    ensures Divides(p, v * (1 - y) - (1 + y)) <==> y <= p && y != 1
  {
    if y == 1 || y == p + 1 {
      ModUnique(u, full, 0, 0);
      NotSolved(p, y);
    } else {
      WrittenOut(p, y, u, v, full);
    }
  }

  lemma WrittenOut(p: nat, y: nat, u: int, v: int, full: int)
    requires Prime(p) && p > 40 && full == 2 * p + 38 && v == u % full && !Divides(p, 1 - y)
    requires Divides(p, u * (1 - y) - (1 + y)) && (if y <= p then 0 <= u < p else 0 - p < u < 0)
    ensures Divides(p, v * (1 - y) - (1 + y)) <==> y <= p
  {
    if y <= p {
      ModUnique(u, full, 0, u);
    } else {
      ModUnique(u, full, -1, u + full);
      WrongClass(p, u, y);
    }
  }

  lemma NotSolved(p: nat, y: nat)
    requires p > 40 && (y == 1 || y == p + 1)
    ensures !Divides(p, 0 * (1 - y) - (1 + y))
  {
    if Divides(p, -(1 + y)) {
      DividesTimes(p, -(1 + y), -1);
      DividesBy(p, 1);
      if y == p + 1 { DividesSum(p, 1 + y, p); }
      DividesSmall(p, 2);
      assert false;
    }
  }

  /** Only y = 1 and y = p + 1 make 1 - y a multiple of p. */
  lemma Shifted(p: nat, y: nat)
    requires p > 40 && y <= p + 18 && y != 1 && y != p + 1
    ensures !Divides(p, 1 - y)
  {
    if y <= p {
      NotDivides(p, 1 - y);
    } else if Divides(p, 1 - y) {
      DividesBy(p, 1);
      DividesSum(p, 1 - y, p);
      NotDivides(p, 1 - y + p);
      assert false;
    }
  }

  // ---- an input that goes wrong ----

  /** The bytes of 2^255 - 17, two more than the modulus. */
  const BEYOND: seq<u8> := [239] + seq(30, _ => 255) + [127]

  lemma {:induction false} OnesThen(k: nat)
    ensures Value(seq(k, _ => 255) + [127]) == 128 * Radix(k) - 1
  {
    if k == 0 {
      assert seq(0, _ => 255) + [127] == [127];
      assert Value([127]) == 127 + 256 * Value([]);
    } else {
      var s: seq<u8> := seq(k, _ => 255) + [127];
      assert s[1..] == seq(k - 1, _ => 255) + [127];
      OnesThen(k - 1);
    }
  }

  /** No curve point has such a coordinate, but the code converts it, and wrongly. */
  lemma ConversionFails(v: int)
    requires Prime(P)
    ensures |BEYOND| == 32 && Coordinate(BEYOND) == P + 2
    ensures v == Quotient(P + 2, P) % Radix(32) ==> !Divides(P, v * (1 - (P + 2)) - (1 + (P + 2)))
  {
    var rest: seq<u8> := seq(30, _ => 255) + [127];
    assert BEYOND == [239] + rest && BEYOND[..31] + [BEYOND[31] % 128] == BEYOND;
    assert BEYOND[1..] == rest;
    OnesThen(30);
    Modulus();
    assert Radix(32) == 256 * (256 * Radix(30));
    assert Coordinate(BEYOND) == P + 2;
    if v == Quotient(P + 2, P) % Radix(32) { ConversionExact(BEYOND, P, v); }
  }
}
