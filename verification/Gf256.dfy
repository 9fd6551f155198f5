/**
 GF(2^8) with the reduction polynomial x^8 + x^4 + x^3 + x + 1, defined as in section 4.2 of
 FIPS 197: a byte is eight bits, addition is XOR, and multiplication is built from the doubling
 map `XTime`.
 */
module Gf256 {
  import opened Markers
  import opened Endomorphisms
  import P = Polynomials

  const O := false
  const I := true

  const ZERO: Byte := [O, O, O, O, O, O, O, O]
  const ONE: Byte := [I, O, O, O, O, O, O, O]

  /** A byte, low bit first. */
  type Byte = s: seq<bool> | |s| == 8 witness [O, O, O, O, O, O, O, O]

  // ---- bytes as numbers ----

  function ToNat(bits: seq<bool>): nat {
    if bits == [] then 0 else 2 * ToNat(bits[1..]) + (if bits[0] then 1 else 0)
  }

  function Low(n: nat, width: nat): (bits: seq<bool>)
    ensures |bits| == width
  {
    if width == 0 then [] else [n % 2 == 1] + Low(n / 2, width - 1)
  }

  function Pow2(n: nat): nat { if n == 0 then 1 else 2 * Pow2(n - 1) }

  lemma {:induction false} LowToNat(bits: seq<bool>)
    ensures ToNat(bits) < Pow2(|bits|) && Low(ToNat(bits), |bits|) == bits
  {
    if bits == [] {
    } else {
      LowToNat(bits[1..]);
    }
  }

  lemma {:induction false} ToNatLow(n: nat, width: nat)
    requires n < Pow2(width)
    ensures ToNat(Low(n, width)) == n
  {
    if width == 0 {
    } else {
      ToNatLow(n / 2, width - 1);
      assert Low(n, width)[1..] == Low(n / 2, width - 1);
    }
  }

  /** What a Uint8Array stores of a number. */
  function FromNat(n: nat): Byte { Low(n, 8) }

  lemma ByteNat(x: Byte)
    ensures ToNat(x) < 256 && FromNat(ToNat(x)) == x
  {
    LowToNat(x);
    assert Pow2(8) == 256;
  }

  lemma NatByte(n: nat)
    requires n < 256
    ensures ToNat(FromNat(n)) == n
  {
    assert Pow2(8) == 256;
    ToNatLow(n, 8);
  }

  // ---- the additive group and its doubling map ----

  function Add(p: Byte, q: Byte): Byte { seq(8, i requires 0 <= i < 8 => p[i] != q[i]) }

  /** The bits of 0x1b, the reduction polynomial without its leading term. */
  predicate Reduced(i: nat) { i == 0 || i == 1 || i == 3 || i == 4 }

  /** Section 4.2.1 of FIPS 197: shift left, and when a bit falls off add 0x1b. */
  function XTime(x: Byte): Byte {
    seq(8, i requires 0 <= i < 8 => (i > 0 && x[i - 1]) != (x[7] && Reduced(i)))
  }

  const XOR: Group<Byte> := Group(ZERO, Add)

  lemma AddSwap(p: Byte, q: Byte, r: Byte, s: Byte)
    ensures Add(Add(p, q), Add(r, s)) == Add(Add(p, r), Add(q, s))
  {}
  lemma AddZero(p: Byte)
    ensures Add(ZERO, p) == p && Add(p, ZERO) == p && Add(p, p) == ZERO
  {}

  lemma XTimeLinear(p: Byte, q: Byte)
    ensures XTime(Add(p, q)) == Add(XTime(p), XTime(q))
  {
    var l, r := XTime(Add(p, q)), Add(XTime(p), XTime(q));
    forall i | 0 <= i < 8 ensures l[i] == r[i] {}
  }

  lemma XorAbelian()
    ensures Abelian(XOR) && Additive(XOR, XTime)
  {
    forall p: Byte, q: Byte, r: Byte, s: Byte
      ensures Add(Add(p, q), Add(r, s)) == Add(Add(p, r), Add(q, s))
    {
      AddSwap(p, q, r, s);
    }
    forall p: Byte ensures Add(ZERO, p) == p && Add(p, ZERO) == p { AddZero(p); }
    forall p: Byte, q: Byte ensures XTime(Add(p, q)) == Add(XTime(p), XTime(q)) { XTimeLinear(p, q); }
    assert XTime(ZERO) == ZERO;
  }
  // ---- multiplication ----

  /** Section 4.2 of FIPS 197: the bits of `a` select among the doublings of `b`. */
  function Mul(a: Byte, b: Byte): Byte { Apply(XOR, XTime, a, b) }

  /** The byte with bit k set, and zero when there is no such bit. */
  function Unit(k: nat): Byte { seq(8, i => i == k) }

  lemma UnitDouble(k: nat)
    requires k < 7
    ensures XTime(Unit(k)) == Unit(k + 1)
  {}

  lemma {:induction false} ApplyUnit(bits: seq<bool>, k: nat)
    requires |bits| + k == 8
    ensures Apply(XOR, XTime, bits, Unit(k)) == seq(8, i requires 0 <= i < 8 => i >= k && bits[i - k])
  {
    if bits == [] {
    } else {
      if k < 7 { UnitDouble(k); ApplyUnit(bits[1..], k + 1); }
    }
  }

  lemma MulOne(a: Byte)
    ensures Mul(a, ONE) == a
  {
    assert ONE == Unit(0);
    ApplyUnit(a, 0);
  }

  lemma MulCommutes(a: Byte, b: Byte)
    ensures Mul(a, b) == Mul(b, a)
  {
    XorAbelian();
    ApplySwap(XOR, XTime, a, b, ONE);
    MulOne(a); MulOne(b);
  }

  lemma MulAssociates(a: Byte, b: Byte, c: Byte)
    ensures Mul(Mul(a, b), c) == Mul(a, Mul(b, c))
  {
    XorAbelian();
    ApplySwap(XOR, XTime, c, a, b);
    MulCommutes(c, Mul(a, b)); MulCommutes(c, b);
  }

  lemma MulDistributes(a: Byte, b: Byte, c: Byte)
    ensures Mul(a, Add(b, c)) == Add(Mul(a, b), Mul(a, c))
  {
    XorAbelian();
    ApplyAdditive(XOR, XTime, a, b, c);
  }

  lemma MulZero(a: Byte)
    ensures Mul(a, ZERO) == ZERO && Mul(ZERO, a) == ZERO
  {
    XorAbelian();
    ApplyZero(XOR, XTime, a);
    MulCommutes(a, ZERO);
  }

  // ---- the generator 3 ----

  function Times3(x: Byte): Byte { Add(XTime(x), x) }

  /** `x` multiplied i times by 3. */
  function Tripled(x: Byte, i: nat): Byte { if i == 0 then x else Times3(Tripled(x, i - 1)) }

  /** The powers of 3. */
  function Exp(i: nat): Byte { Tripled(ONE, i) }

  lemma MulTimes3(a: Byte, b: Byte)
    ensures Mul(a, Times3(b)) == Times3(Mul(a, b))
  {
    XorAbelian();
    MulDistributes(a, XTime(b), b);
    ApplyCommutes(XOR, XTime, a, b);
  }

  lemma {:induction false} ExpSum(i: nat, j: nat)
    ensures Mul(Exp(i), Exp(j)) == Exp(i + j)
  {
    if j == 0 {
      MulOne(Exp(i));
    } else {
      ExpSum(i, j - 1);
      var e, g := Exp(i), Exp(j - 1);
      calc {
        Mul(e, Times3(g));
        { MulTimes3(e, g); }
        Times3(Mul(e, g));
      }
    }
  }

  lemma Times3Double(x: Byte)
    ensures Times3(XTime(x)) == XTime(Times3(x))
  {
    XTimeLinear(XTime(x), x);
  }

  /** `y` is three times `x`, bit by bit. */
  predicate Next(x: Byte, y: Byte) {
    && y[0] == (x[0] != x[7]) && y[1] == ((x[1] != x[0]) != x[7])
    && y[2] == (x[2] != x[1]) && y[3] == ((x[3] != x[2]) != x[7])
    && y[4] == ((x[4] != x[3]) != x[7]) && y[5] == (x[5] != x[4])
    && y[6] == (x[6] != x[5]) && y[7] == (x[7] != x[6])
  }

  lemma NextIsTimes3(x: Byte, y: Byte)
    requires Next(x, y)
    ensures Times3(x) == y
  {
    var z := Times3(x);
    forall i | 0 <= i < 8 ensures z[i] == y[i] {}
  }

  /** Five steps along the powers of 3. */
  lemma FiveSteps(i: nat, a: Byte, b: Byte, c: Byte, d: Byte, e: Byte, f: Byte)
    requires Exp(i) == a
    requires Next(a, b) && Next(b, c) && Next(c, d) && Next(d, e) && Next(e, f)
    ensures Exp(i + 5) == f
  {
    NextIsTimes3(a, b); NextIsTimes3(b, c); NextIsTimes3(c, d); NextIsTimes3(d, e); NextIsTimes3(e, f);
    assert Exp(i + 1) == b;
    assert Exp(i + 2) == c;
    assert Exp(i + 3) == d;
    assert Exp(i + 4) == e;
  }

  lemma From0(i: nat)
    requires Exp(i) == [I, O, O, O, O, O, O, O]
    ensures Exp(i + 5) == [I, I, O, O, I, I, O, O]
  {
    FiveSteps(i,
              [I, O, O, O, O, O, O, O], [I, I, O, O, O, O, O, O],
              [I, O, I, O, O, O, O, O], [I, I, I, I, O, O, O, O],
              [I, O, O, O, I, O, O, O], [I, I, O, O, I, I, O, O]);
  }

  lemma From5(i: nat)
    requires Exp(i) == [I, I, O, O, I, I, O, O]
    ensures Exp(i + 5) == [O, I, O, O, I, I, I, O]
  {
    FiveSteps(i,
              [I, I, O, O, I, I, O, O], [I, O, I, O, I, O, I, O],
              [I, I, I, I, I, I, I, I], [O, I, O, I, I, O, O, O],
              [O, I, I, I, O, I, O, O], [O, I, O, O, I, I, I, O]);
  }

  lemma From10(i: nat)
    requires Exp(i) == [O, I, O, O, I, I, I, O]
    ensures Exp(i + 5) == [I, O, I, O, I, I, O, O]
  {
    FiveSteps(i,
              [O, I, O, O, I, I, I, O], [O, I, I, O, I, O, O, I],
              [I, O, O, O, O, I, O, I], [O, O, O, I, I, I, I, I],
              [I, I, O, O, I, O, O, O], [I, O, I, O, I, I, O, O]);
  }

  lemma From15(i: nat)
    requires Exp(i) == [I, O, I, O, I, I, O, O]
    ensures Exp(i + 5) == [O, O, O, I, I, O, I, I]
  {
    FiveSteps(i,
              [I, O, I, O, I, I, O, O], [I, I, I, I, I, O, I, O],
              [I, O, O, O, O, I, I, I], [O, O, O, I, I, I, O, O],
              [O, O, O, I, O, O, I, O], [O, O, O, I, I, O, I, I]);
  }

  lemma From20(i: nat)
    requires Exp(i) == [O, O, O, I, I, O, I, I]
    ensures Exp(i + 5) == [O, I, O, O, O, O, O, O]
  {
    FiveSteps(i,
              [O, O, O, I, I, O, I, I], [I, I, O, O, I, I, I, O],
              [I, O, I, O, I, O, O, I], [O, O, I, O, O, I, O, I],
              [I, I, I, O, I, I, I, I], [O, I, O, O, O, O, O, O]);
  }

  lemma Exp25(z: nat)
    requires Exp(z) == ONE
    ensures Exp(z + 1) == [I, I, O, O, O, O, O, O] && Exp(z + 5) == [I, I, O, O, I, I, O, O]
    ensures Exp(z + 10) == [O, I, O, O, I, I, I, O]
    ensures Exp(z + 15) != ONE && Exp(z + 25) == [O, I, O, O, O, O, O, O]
  {
    From0(z); From5(z + 5); From10(z + 10); From15(z + 15); From20(z + 20);
    NextIsTimes3(ONE, [I, I, O, O, O, O, O, O]);
  }

  /** 3 to the 25 is 2, so 25 steps along the powers of 3 are one doubling. */
  lemma {:induction false} ExpDouble(i: nat)
    ensures Exp(i + 25) == XTime(Exp(i))
  {
    if i == 0 {
      Exp25(i);
      DoubledIsXTime(ONE, [O, I, O, O, O, O, O, O]);
    } else {
      ExpDouble(i - 1);
      Times3Double(Exp(i - 1));
    }
  }

  /** `y` is twice `x`, bit by bit. */
  predicate Doubled(x: Byte, y: Byte) {
    && y[0] == x[7] && y[1] == (x[0] != x[7]) && y[2] == x[1] && y[3] == (x[2] != x[7])
    && y[4] == (x[3] != x[7]) && y[5] == x[4] && y[6] == x[5] && y[7] == x[6]
  }

  lemma DoubledIsXTime(x: Byte, y: Byte)
    requires Doubled(x, y)
    ensures XTime(x) == y
  {
    var z := XTime(x);
    forall i | 0 <= i < 8 ensures z[i] == y[i] {}
  }

  lemma FiveDoublings(i: nat, a: Byte, b: Byte, c: Byte, d: Byte, e: Byte, f: Byte)
    requires Exp(i) == a
    requires Doubled(a, b) && Doubled(b, c) && Doubled(c, d) && Doubled(d, e) && Doubled(e, f)
    ensures Exp(i + 50) == c && Exp(i + 75) == d && Exp(i + 125) == f
  {
    DoubledIsXTime(a, b); DoubledIsXTime(b, c); DoubledIsXTime(c, d); DoubledIsXTime(d, e); DoubledIsXTime(e, f);
    ExpDouble(i); ExpDouble(i + 25); ExpDouble(i + 50); ExpDouble(i + 75); ExpDouble(i + 100);
  }

  lemma Exp51(i: nat)
    requires Exp(i) == [I, I, O, O, O, O, O, O]
    ensures Exp(i + 50) != ONE
  {
    FiveDoublings(i, [I, I, O, O, O, O, O, O], [O, I, I, O, O, O, O, O],
                  [O, O, I, I, O, O, O, O], [O, O, O, I, I, O, O, O],
                  [O, O, O, O, I, I, O, O], [O, O, O, O, O, I, I, O]);
  }

  lemma Exp85(i: nat)
    requires Exp(i) == [O, I, O, O, I, I, I, O]
    ensures Exp(i + 75) != ONE
  {
    FiveDoublings(i, [O, I, O, O, I, I, I, O], [O, O, I, O, O, I, I, I],
                  [I, I, O, O, I, O, I, I], [I, O, I, I, I, I, O, I],
                  [I, O, O, O, O, I, I, O], [O, I, O, O, O, O, I, I]);
  }

  lemma Exp255(i: nat)
    requires Exp(i) == [I, I, O, O, I, I, O, O]
    ensures Exp(i + 250) == ONE
  {
    FiveDoublings(i, [I, I, O, O, I, I, O, O], [O, I, I, O, O, I, I, O],
                  [O, O, I, I, O, O, I, I], [I, I, O, O, O, O, O, I],
                  [I, O, I, I, I, O, O, O], [O, I, O, I, I, I, O, O]);
    FiveDoublings(i + 125, [O, I, O, I, I, I, O, O], [O, O, I, O, I, I, I, O],
                  [O, O, O, I, O, I, I, I], [I, I, O, I, O, O, I, I],
                  [I, O, I, I, O, O, O, I], [I, O, O, O, O, O, O, O]);
  }

  // ---- 3 has order 255 ----

  lemma Milestones(z: nat)
    requires Exp(z) == ONE
    ensures Exp(z + 15) != ONE && Exp(z + 51) != ONE && Exp(z + 85) != ONE && Exp(z + 255) == ONE
  {
    Exp25(z);
    Exp51(z + 1);
    Exp85(z + 10);
    Exp255(z + 5);
  }

  lemma ExpShift(p: nat, j: nat)
    requires Exp(p) == ONE
    ensures Exp(p + j) == Exp(j)
  {
    ExpSum(p, j);
    MulCommutes(ONE, Exp(j));
    MulOne(Exp(j));
  }

  lemma {:induction false} ExpRepeat(p: nat, m: nat)
    requires Exp(p) == ONE
    ensures Exp(p * m) == ONE
  {
    if m == 0 {
    } else {
      var q := p * (m - 1);
      ExpRepeat(p, m - 1);
      ExpShift(q, p);
      assert p * m == q + p;
    }
  }

  lemma ExpOrder(i: nat, n: nat)
    requires n == 255 * i
    ensures Exp(n) == ONE
  {
    Milestones(0);
    ExpRepeat(255, i);
  }

  /** Every power of 3 has an inverse among the powers of 3. */
  lemma ExpInverse(i: nat) returns (v: nat)
    ensures Mul(Exp(v), Exp(i)) == ONE && Exp(i) != ZERO
  {
    v := 254 * i;
    ExpOrder(i, v + i);
    ExpSum(v, i);
    MulZero(Exp(v));
  }

  lemma MulCancel(v: Byte, e: Byte, g: Byte)
    requires Mul(v, e) == ONE && Mul(e, g) == e
    ensures g == ONE
  {
    calc {
      g;
      { MulOne(g); MulCommutes(g, ONE); }
      Mul(Mul(v, e), g);
      { MulAssociates(v, e, g); }
      Mul(v, e);
    }
  }

  lemma ExpCancel(i: nat, d: nat)
    requires Exp(i) == Exp(i + d)
    ensures Exp(d) == ONE
  {
    var v := ExpInverse(i);
    ExpSum(i, d);
    MulCancel(Exp(v), Exp(i), Exp(d));
  }

  lemma {:induction false} LeastPeriod(d: nat) returns (p: nat)
    requires d > 0 && Exp(d) == ONE
    ensures 0 < p <= d && Exp(p) == ONE
    ensures forall q :: 0 < q < p ==> Exp(q) != ONE
  {
    if q :| 0 < q < d && Exp(q) == ONE {
      p := LeastPeriod(q);
    } else {
      p := d;
    }
  }

  lemma PeriodDivides(p: nat, q: nat, r: nat)
    requires Exp(q) == ONE && Exp(q + r) == ONE && r < p
    requires forall q :: 0 < q < p ==> Exp(q) != ONE
    ensures r == 0
  {
    ExpShift(q, r);
  }

  lemma BothLarge(p: nat, k: nat)
    ensures p >= 16 && k >= 16 ==> p * k >= 256
  {}

  /** The proper divisors of 255 divide 15, 51 or 85. */
  lemma Divisors(p: nat, k: nat) returns (m: nat)
    requires p * k == 255 && k > 1
    ensures p * m == 15 || p * m == 51 || p * m == 85
  {
    BothLarge(p, k);
    if p <= 15 {
      assert p == 1 || p == 3 || p == 5 || p == 15 by {
        assert p == 0 || p == 1 || p == 2 || p == 3 || p == 4 || p == 5 || p == 6 || p == 7 ||
               p == 8 || p == 9 || p == 10 || p == 11 || p == 12 || p == 13 || p == 14 || p == 15;
      }
      m := 15 / p;
    } else {
      assert k == 3 || k == 5 || k == 15 by {
        assert k == 2 || k == 3 || k == 4 || k == 5 || k == 6 || k == 7 || k == 8 || k == 9 ||
               k == 10 || k == 11 || k == 12 || k == 13 || k == 14 || k == 15;
      }
      m := if k == 15 then 3 else 1;
    }
  }

  /** A least period is a divisor of 255, so a proper one divides 15, 51 or 85. */
  lemma PeriodOfMilestone(p: nat) returns (m: nat)
    requires 0 < p < 255 && Exp(p) == ONE && Exp(255) == ONE
    requires forall q :: 0 < q < p ==> Exp(q) != ONE
    ensures p * m == 15 || p * m == 51 || p * m == 85
  {
    var k, r := 255 / p, 255 % p;
    var q := p * k;
    assert q + r == 255;
    ExpRepeat(p, k);
    PeriodDivides(p, q, r);
    m := Divisors(p, k);
  }

  /** No power of 3 below the 255th is one. */
  lemma OrderIs255(d: nat)
    requires 0 < d < 255
    ensures Exp(d) != ONE
  {
    if Exp(d) == ONE {
      Milestones(0);
      var p := LeastPeriod(d);
      var m := PeriodOfMilestone(p);
      ExpRepeat(p, m);
      assert false;
    }
  }

  lemma ExpInjective(i: nat, j: nat)
    requires i < j < 255
    ensures Exp(i) != Exp(j)
  {
    if Exp(i) == Exp(j) {
      ExpCancel(i, j - i);
      OrderIs255(j - i);
      assert false;
    }
  }

  // ---- the logarithm ----

  /** The numbers from 1 to n. */
  ghost function Range(n: nat): set<nat> { set i: nat | i <= n && On1(i) && i > 0 }

  lemma {:induction false} RangeSize(n: nat)
    ensures |Range(n)| == n
  {
    if n > 0 {
      RangeSize(n - 1);
      assert On1(n);
      assert Range(n) == Range(n - 1) + {n};
    } else {
      assert Range(n) == {};
    }
  }

  lemma SubsetSize<T>(a: set<T>, b: set<T>)
    requires a <= b && |b| <= |a|
    ensures a == b
  {
    assert b == a + (b - a);
  }

  /** The numbers of the first n powers of 3. */
  ghost function Image(n: nat): set<nat> { set i | 0 <= i < n :: ToNat(Exp(i)) }

  lemma {:induction false} ImageSize(n: nat)
    requires n <= 255
    ensures |Image(n)| == n
  {
    if n == 0 {
    } else {
      ImageSize(n - 1);
      assert Image(n) == Image(n - 1) + {ToNat(Exp(n - 1))};
      if ToNat(Exp(n - 1)) in Image(n - 1) {
        var i :| 0 <= i < n - 1 && ToNat(Exp(i)) == ToNat(Exp(n - 1));
        ByteNat(Exp(i)); ByteNat(Exp(n - 1));
        ExpInjective(i, n - 1);
        assert false;
      }
    }
  }

  lemma ImageRange(n: nat)
    ensures Image(n) <= Range(255)
  {
    forall i: nat | i < n ensures ToNat(Exp(i)) in Range(255) {
      var _ := ExpInverse(i);
      NonZeroNat(Exp(i));
      assert On1(ToNat(Exp(i)));
    }
  }

  lemma ImageFull(n: nat)
    requires n == 255
    ensures Image(n) == Range(n)
  {
    ImageSize(n); RangeSize(n); ImageRange(n);
    SubsetSize(Image(n), Range(n));
  }

  /** Every byte but zero is one of the first 255 powers of 3. */
  lemma ExpOnto(x: Byte)
    requires x != ZERO
    ensures exists i: nat :: i < 255 && Exp(i) == x
  {
    ImageFull(255);
    NonZeroNat(x);
    assert On1(ToNat(x)) && ToNat(x) in Range(255);
    var i: nat :| i < 255 && ToNat(Exp(i)) == ToNat(x);
    ByteNat(x); ByteNat(Exp(i));
  }

  lemma NonZeroNat(x: Byte)
    requires x != ZERO
    ensures 1 <= ToNat(x) <= 255
  {
    ByteNat(x);
    if ToNat(x) == 0 { NatByteZero(); }
  }

  lemma NatByteZero()
    ensures FromNat(0) == ZERO
  {}

  ghost function Log(x: Byte): (i: nat)
    requires x != ZERO
    ensures i < 255 && Exp(i) == x
  {
    ExpOnto(x);
    var i: nat :| i < 255 && Exp(i) == x;
    i
  }

  lemma ExpWrap(n: nat)
    ensures Exp(n % 255) == Exp(n)
  {
    var q := n / 255;
    ExpOrder(q, 255 * q);
    ExpShift(255 * q, n % 255);
  }

  /** Multiplication adds logarithms modulo 255. */
  lemma MulByLog(a: Byte, b: Byte)
    requires a != ZERO && b != ZERO
    ensures Mul(a, b) == Exp((Log(a) + Log(b)) % 255) && Mul(a, b) != ZERO
  {
    ExpSum(Log(a), Log(b));
    ExpWrap(Log(a) + Log(b));
    var _ := ExpInverse(Log(a) + Log(b));
  }

  ghost function Inv(a: Byte): Byte { if a == ZERO then ZERO else Exp((255 - Log(a)) % 255) }

  lemma MulInv(a: Byte)
    requires a != ZERO
    ensures Mul(a, Inv(a)) == ONE && Inv(a) != ZERO
  {
    ExpWrap(255 - Log(a));
    ExpSum(Log(a), 255 - Log(a));
    ExpOrder(1, 255);
    var _ := ExpInverse(255 - Log(a));
  }

  lemma AddLaws(a: Byte, b: Byte, c: Byte)
    ensures Add(a, b) == Add(b, a) && Add(Add(a, b), c) == Add(a, Add(b, c))
  {}

  ghost const GF: P.Field<Byte> := P.Field(ZERO, ONE, Add, Mul, Inv)

  /** The bytes form a field of characteristic two. */
  lemma GfLawful()
    ensures P.Lawful(GF)
  {
    forall a: Byte ensures Add(a, ZERO) == a && Add(a, a) == ZERO && Mul(a, ONE) == a { AddZero(a); MulOne(a); }
    forall a: Byte | a != ZERO ensures Mul(a, Inv(a)) == ONE { MulInv(a); }
    forall a: Byte, b: Byte ensures Add(a, b) == Add(b, a) && Mul(a, b) == Mul(b, a) {
      AddLaws(a, b, ZERO); MulCommutes(a, b);
    }
    forall a: Byte, b: Byte, c: Byte
      ensures Add(Add(a, b), c) == Add(a, Add(b, c)) && Mul(Mul(a, b), c) == Mul(a, Mul(b, c))
      ensures Mul(a, Add(b, c)) == Add(Mul(a, b), Mul(a, c))
    {
      AddLaws(a, b, c); MulAssociates(a, b, c); MulDistributes(a, b, c);
    }
  }
}
