/**
 What `split` and `combine` compute, on values: the polynomial loops with JavaScript's own
 arithmetic, including share numbers too large for the log table.
 */
module Sharing {
  import opened Common
  import opened Gf256
  import opened JsNumbers
  import opened Embedding
  import P = Polynomials

  datatype Error = ThresholdTooLarge | ThresholdTooSmall | NoShares | DivisionByZero
  datatype Result<+T> = Success(value: T) | Failure(error: Error)

  datatype View = View(x: nat, y: seq<u8>)

  // ---- mul and div without the tables ----

  /** A table lookup beyond the table yields `undefined`; zero is tested for before any lookup. */
  ghost function JsMul(a: Js, b: Js): Js {
    if a == Num(0) || b == Num(0) then Num(0)
    else if IsByte(a) && IsByte(b) then Lift(Mul(FromNat(a.n), FromNat(b.n)))
    else Undefined
  }

  /** The quotient wherever the divisor is not zero. */
  ghost function JsDiv(a: Js, b: Js): Js {
    if a == Num(0) then Num(0)
    else if IsByte(a) && IsByte(b) then Lift(Mul(FromNat(a.n), Inv(FromNat(b.n))))
    else Undefined
  }

  ghost const JS: Ops := Ops(JsMul, JsDiv, BitXor)

  lemma {:induction false} LowZero(k: nat)
    ensures Low(0, k) == seq(k, _ => false)
  {
    if k == 0 {
    } else {
      LowZero(k - 1);
    }
  }

  lemma LiftConstants()
    ensures Lift(ZERO) == Num(0) && Lift(ONE) == Num(1)
  {
    LowZero(7); LowZero(8);
    assert Low(1, 8) == [true] + Low(0, 7);
    assert FromNat(0) == ZERO && FromNat(1) == ONE;
    NatByte(0); NatByte(1);
  }

  lemma LiftZero(x: Byte)
    ensures Lift(x) == Num(0) <==> x == ZERO
  {
    LiftConstants();
    ByteNat(x); ByteNat(ZERO);
  }

  lemma LiftByte(n: u8)
    ensures Lift(FromNat(n)) == Num(n)
    ensures FromNat(n) == ZERO <==> n == 0
  {
    NatByte(n);
    LiftZero(FromNat(n));
  }

  lemma LiftMul(x: Byte, y: Byte)
    ensures JsMul(Lift(x), Lift(y)) == Lift(Mul(x, y))
  {
    LiftConstants(); LiftZero(x); LiftZero(y);
    MulZero(x); MulZero(y);
    ByteNat(x); ByteNat(y);
  }

  lemma LiftXor(x: Byte, y: Byte)
    ensures BitXor(Lift(x), Lift(y)) == Lift(Add(x, y))
  {
    XorBytes(x, y);
  }

  lemma LiftInverse(d: Byte)
    requires d != ZERO
    ensures JsDiv(Num(1), Lift(d)) == Lift(Inv(d)) && Lift(Inv(d)) != Num(0)
  {
    LiftConstants(); LiftZero(d);
    ByteNat(d); ByteNat(ONE);
    MulCommutes(ONE, Inv(d)); MulOne(Inv(d));
    MulInv(d); LiftZero(Inv(d));
  }

  /** On bytes, the arithmetic of the code is the arithmetic of the field. */
  lemma JsMirrorsField()
    ensures Mirrors(JS, GF, Lift)
  {
    LiftConstants();
    forall x: Byte, y: Byte
      ensures JsMul(Lift(x), Lift(y)) == Lift(Mul(x, y)) && BitXor(Lift(x), Lift(y)) == Lift(Add(x, y))
    {
      LiftMul(x, y); LiftXor(x, y);
    }
    forall x: Byte | x != ZERO ensures JsDiv(Num(1), Lift(x)) == Lift(Inv(x)) { LiftInverse(x); }
  }

  lemma JsMulZero(a: Js, b: Js)
    ensures JsMul(a, b) == Num(0) <==> a == Num(0) || b == Num(0)
    ensures a != Num(0) && b != Num(0) && !(IsByte(a) && IsByte(b)) ==> JsMul(a, b) == Undefined
  {
    if a != Num(0) && b != Num(0) && IsByte(a) && IsByte(b) {
      LiftByte(a.n); LiftByte(b.n);
      MulByLog(FromNat(a.n), FromNat(b.n));
      LiftZero(Mul(FromNat(a.n), FromNat(b.n)));
    }
  }

  lemma {:induction false} XorZero(a: nat)
    ensures Xor(a, 0) == a && Xor(0, a) == a
  {
    if a == 0 {
    } else {
      XorZero(a / 2);
    }
  }

  lemma JsMulOne(a: int)
    ensures JsMul(Num(a), Num(1)) == if IsByte(Num(a)) then Num(a) else Undefined
  {
    LiftConstants();
    if 0 <= a < 256 {
      LiftByte(a);
      LiftMul(FromNat(a), ONE);
      MulOne(FromNat(a));
    }
  }

  lemma JsDivNonZero(b: Js)
    requires b != Num(0)
    ensures JsDiv(Num(1), b) != Num(0)
  {
    if IsByte(b) { LiftByte(b.n); LiftInverse(FromNat(b.n)); }
  }

  lemma JsDivOne()
    ensures JsDiv(Num(1), Num(1)) == Num(1)
  {
    LiftConstants(); LiftInverse(ONE);
    MulInv(ONE); MulCommutes(ONE, Inv(ONE)); MulOne(Inv(ONE));
  }

  lemma JsXorByte(a: Js)
    requires IsByte(a)
    ensures BitXor(a, Undefined) == a && BitXor(a, Num(0)) == a && BitXor(Num(0), a) == a
  {
    XorZero(a.n);
  }

  lemma JsTabled()
    ensures Tabled(JS)
  {
    forall a: Js, b: Js
      ensures JsMul(a, b) == Num(0) <==> a == Num(0) || b == Num(0)
      ensures a != Num(0) && b != Num(0) && !(IsByte(a) && IsByte(b)) ==> JsMul(a, b) == Undefined
    {
      JsMulZero(a, b);
    }
    forall a: Js, b: Js
      ensures BitXor(a, b) == Num(0) <==> Word(a) == Word(b)
      ensures IsByte(b) && Word(a) >= 256 ==> !IsByte(BitXor(a, b))
    {
      BitXorZero(a, b);
      if IsByte(b) { XorWide(a, b); }
    }
    forall a: Js | a.Num? ensures JsMul(a, Num(1)) == (if IsByte(a) then a else Undefined) { JsMulOne(a.n); }
    forall a: Js | IsByte(a)
      ensures BitXor(a, Undefined) == a && BitXor(a, Num(0)) == a && BitXor(Num(0), a) == a
    {
      JsXorByte(a);
    }
    forall b: Js | b != Num(0) ensures JsDiv(Num(1), b) != Num(0) { JsDivNonZero(b); }
  }

  // ---- split ----

  /** The polynomial for byte i of the secret: the byte itself, then k - 1 random coefficients. */
  function Coefficients(secret: seq<u8>, k: nat, random: (nat, nat) -> u8, i: nat): (c: seq<u8>)
    requires k >= 1 && i < |secret|
    ensures |c| == k && c[0] == secret[i]
  {
    [secret[i]] + seq(k - 1, j requires 0 <= j < k - 1 => random(i, j))
  }

  function Nums(s: seq<nat>): (r: seq<Js>)
    ensures |r| == |s|
  {
    seq(|s|, i requires 0 <= i < |s| => Num(s[i]))
  }

  function InField(s: seq<u8>): (r: seq<Byte>)
    ensures |r| == |s|
  {
    seq(|s|, i requires 0 <= i < |s| => FromNat(s[i]))
  }

  lemma NumsLifted(s: seq<u8>)
    ensures Nums(s) == Lifted(Lift, InField(s))
  {
    forall i | 0 <= i < |s| ensures Nums(s)[i] == Lift(InField(s)[i]) { LiftByte(s[i]); }
  }

  /** The byte of share x for the polynomial c. */
  ghost function ShareByte(c: seq<u8>, x: nat): Js { ShareSum(JS, Nums(c), Num(x), |c|) }

  /** A share numbered below 256 holds the polynomial's value at its number. */
  lemma ShareIsValue(c: seq<u8>, x: nat)
    requires x < 256
    ensures ShareByte(c, x) == Lift(P.Eval(GF, InField(c), FromNat(x)))
  {
    GfLawful(); JsMirrorsField();
    NumsLifted(c);
    LiftByte(x);
    ShareSumMirrors(JS, GF, Lift, InField(c), FromNat(x), |c|);
    P.TermSumEval(GF, InField(c), FromNat(x), |c|);
    assert InField(c)[..|c|] == InField(c);
  }

  /** A share numbered 256 or more holds the secret byte itself. */
  lemma ShareIsSecret(c: seq<u8>, x: nat)
    requires x >= 256 && c != []
    ensures ShareByte(c, x) == Num(c[0])
  {
    JsTabled();
    ShareBeyond(JS, Nums(c), Num(x), |c|);
  }

  lemma ShareByteIsByte(c: seq<u8>, x: nat)
    requires c != []
    ensures IsByte(ShareByte(c, x))
  {
    if x < 256 { ShareIsValue(c, x); } else { ShareIsSecret(c, x); }
  }

  /** What storing into a Uint8Array keeps. */
  function Stored(a: Js): u8 { if a.Num? then a.n % 256 else 0 }

  /** The share numbered x. */
  function ShareView(o: Ops, secret: seq<u8>, k: nat, random: (nat, nat) -> u8, x: nat): (v: View)
    requires k >= 1
    ensures v.x == x && |v.y| == |secret|
  {
    View(x, seq(|secret|, i requires 0 <= i < |secret| =>
                  Stored(ShareSum(o, Nums(Coefficients(secret, k, random, i)), Num(x), k))))
  }

  /** The shares with the given numbers. */
  function Views(o: Ops, secret: seq<u8>, k: nat, random: (nat, nat) -> u8, xs: seq<nat>): (v: seq<View>)
    requires k >= 1
    ensures |v| == |xs|
  {
    seq(|xs|, j requires 0 <= j < |xs| => ShareView(o, secret, k, random, xs[j]))
  }

  // ---- combine ----

  function Numbers(views: seq<View>): (xs: seq<nat>)
    ensures |xs| == |views|
  {
    seq(|views|, j requires 0 <= j < |views| => views[j].x)
  }

  /** Byte i of every share; a byte missing from a short share reads as `undefined`. */
  function Column(views: seq<View>, i: nat): (ys: seq<Js>)
    ensures |ys| == |views|
  {
    seq(|views|, j requires 0 <= j < |views| => if i < |views[j].y| then Num(views[j].y[i]) else Undefined)
  }

  function CombineByte(o: Ops, views: seq<View>, i: nat): u8 {
    Stored(CombineSum(o, Nums(Numbers(views)), Column(views, i), |views|))
  }

  /** `combine` on values. */
  function Combined(o: Ops, views: seq<View>): Result<seq<u8>> {
    if views == [] then Failure(NoShares)
    else if |views[0].y| > 0 && !Divides(o, Nums(Numbers(views))) then Failure(DivisionByZero)
    else Success(seq(|views[0].y|, i requires 0 <= i => CombineByte(o, views, i)))
  }

  /** Share numbers as `^` sees them. */
  function Words(xs: seq<nat>): (ws: seq<nat>)
    ensures |ws| == |xs|
  {
    seq(|xs|, j requires 0 <= j < |xs| => xs[j] % WORD)
  }

  /** `combine` can divide exactly when no share number is repeated, modulo 2^32. */
  lemma DividesIffDistinct(xs: seq<nat>)
    ensures Divides(JS, Nums(xs)) <==> P.Distinct(Words(xs))
  {
    JsTabled();
    var ws := Words(xs);
    forall j | 0 <= j < |xs|
      ensures Denominator(JS, Nums(xs), j, |xs|) == Num(0) <==> exists i :: 0 <= i < |xs| && i != j && ws[i] == ws[j]
    {
      DenominatorZero(JS, Nums(xs), j, |xs|);
      assert forall i :: 0 <= i < |xs| ==> Word(Nums(xs)[i]) == ws[i];
    }
  }

  /**
   `combine` fails exactly without shares, or when there is a byte to combine and two share numbers agree
   modulo 2^32; otherwise it gives as many bytes as the first share has.
   */
  lemma CombineFailsExactly(views: seq<View>)
    ensures Combined(JS, views) == Failure(NoShares) <==> views == []
    ensures Combined(JS, views) == Failure(DivisionByZero) <==>
      && views != [] && views[0].y != []
      && exists i, j :: 0 <= i < j < |views| && views[i].x % 0x1_0000_0000 == views[j].x % 0x1_0000_0000
    ensures Combined(JS, views).Success? ==> views != [] && |Combined(JS, views).value| == |views[0].y|
  {
    var xs := Numbers(views);
    DividesIffDistinct(xs);
    if i, j :| 0 <= i < j < |views| && views[i].x % 0x1_0000_0000 == views[j].x % 0x1_0000_0000 {
      assert Words(xs)[i] == Words(xs)[j];
    }
    if !P.Distinct(Words(xs)) {
      var i, j :| 0 <= i < j < |xs| && Words(xs)[i] == Words(xs)[j];
      assert views[i].x % 0x1_0000_0000 == views[j].x % 0x1_0000_0000;
    }
  }

  // ---- the theorems ----

  predicate InTable(xs: seq<nat>) { forall j :: 0 <= j < |xs| ==> xs[j] < 256 }

  /** Numbers a share of a split can have: they start at one, and an array holds fewer than 2^32 shares. */
  predicate Dealable(xs: seq<nat>) { forall j :: 0 <= j < |xs| ==> 0 < xs[j] < WORD }

  lemma InFieldDistinct(xs: seq<u8>)
    requires P.Distinct(xs)
    ensures P.Distinct(InField(xs))
  {
    forall i, j | 0 <= i < j < |xs| ensures InField(xs)[i] != InField(xs)[j] {
      NatByte(xs[i]); NatByte(xs[j]);
    }
  }

  /** One byte: at least k shares with distinct numbers from the table give the secret byte back. */
  lemma ByteRecovered(c: seq<u8>, xs: seq<u8>, ys: seq<Js>)
    requires P.Distinct(xs) && 0 < |c| <= |xs| == |ys|
    requires forall j :: 0 <= j < |xs| ==> ys[j] == ShareByte(c, xs[j])
    ensures CombineSum(JS, Nums(xs), ys, |xs|) == Num(c[0])
  {
    GfLawful(); JsMirrorsField();
    NumsLifted(c); NumsLifted(xs);
    InFieldDistinct(xs);
    forall j | 0 <= j < |xs|
      ensures ys[j] == ShareSum(JS, Lifted(Lift, InField(c)), Lift(InField(xs)[j]), |c|)
    {
      LiftByte(xs[j]);
    }
    CombineRecovers(JS, GF, Lift, InField(c), InField(xs), ys);
    LiftByte(c[0]);
  }

  /** One byte: a number beyond the table among several distinct ones gives zero. */
  lemma ByteLost(xs: seq<nat>, ys: seq<Js>, w: nat)
    requires P.Distinct(xs) && Dealable(xs)
    requires |xs| == |ys| && w < |xs| && |xs| >= 2 && xs[w] >= 256
    ensures CombineSum(JS, Nums(xs), ys, |xs|) == Num(0)
  {
    JsTabled();
    assert forall i, j :: 0 <= i < j < |xs| ==> Nums(xs)[i] != Nums(xs)[j];
    CombineBeyond(JS, Nums(xs), ys, |xs|, w);
  }

  lemma ByteAlone(xs: seq<nat>, ys: seq<Js>)
    requires |xs| == |ys| == 1 && IsByte(ys[0])
    ensures CombineSum(JS, Nums(xs), ys, 1) == ys[0]
  {
    JsTabled(); JsDivOne();
    CombineSingle(JS, Nums(xs), ys);
  }

  lemma SharesColumn(secret: seq<u8>, k: nat, random: (nat, nat) -> u8, xs: seq<nat>, i: nat)
    requires k >= 1 && i < |secret|
    ensures Numbers(Views(JS, secret, k, random, xs)) == xs
    ensures forall j :: 0 <= j < |xs| ==>
              Column(Views(JS, secret, k, random, xs), i)[j] == ShareByte(Coefficients(secret, k, random, i), xs[j])
  {
    forall j | 0 <= j < |xs|
      ensures Column(Views(JS, secret, k, random, xs), i)[j] == ShareByte(Coefficients(secret, k, random, i), xs[j])
    {
      ShareByteIsByte(Coefficients(secret, k, random, i), xs[j]);
    }
  }

  lemma ByteRecovery(c: seq<u8>, xs: seq<nat>, ys: seq<Js>)
    requires 0 < |c| <= |xs| == |ys| && P.Distinct(xs) && Dealable(xs)
    requires forall j :: 0 <= j < |xs| ==> ys[j] == ShareByte(c, xs[j])
    ensures CombineSum(JS, Nums(xs), ys, |xs|) == Num(if InTable(xs) || |xs| == 1 then c[0] else 0)
  {
    if InTable(xs) {
      ByteRecovered(c, xs, ys);
    } else if |xs| == 1 {
      ShareIsSecret(c, xs[0]);
      ByteAlone(xs, ys);
    } else {
      var w :| 0 <= w < |xs| && xs[w] >= 256;
      ByteLost(xs, ys, w);
    }
  }

  lemma ByteStored(o: Ops, views: seq<View>, xs: seq<nat>, i: nat, b: u8)
    requires Numbers(views) == xs && CombineSum(o, Nums(xs), Column(views, i), |xs|) == Num(b)
    ensures CombineByte(o, views, i) == b
  {}

  /** Byte i of what `combine` returns for chosen shares of a split. */
  lemma ByteCombined(secret: seq<u8>, k: nat, random: (nat, nat) -> u8, xs: seq<nat>, i: nat)
    requires 1 <= k <= |xs| && i < |secret| && P.Distinct(xs) && Dealable(xs)
    ensures CombineByte(JS, Views(JS, secret, k, random, xs), i) ==
            if InTable(xs) || |xs| == 1 then secret[i] else 0
  {
    var views := Views(JS, secret, k, random, xs);
    SharesColumn(secret, k, random, xs, i);
    ByteRecovery(Coefficients(secret, k, random, i), xs, Column(views, i));
    ByteStored(JS, views, xs, i, if InTable(xs) || |xs| == 1 then secret[i] else 0);
  }

  /**
   At least k shares of a split with distinct numbers always combine without an error, and they
   combine to the secret exactly when every number is below 256, or there is only one share, or the
   secret is all zeros. A number of 256 or more comes out of `split` whenever n exceeds 255.
   */
  lemma RecoveryExact(secret: seq<u8>, k: nat, random: (nat, nat) -> u8, xs: seq<nat>)
    requires 1 <= k <= |xs| && P.Distinct(xs) && Dealable(xs)
    ensures Combined(JS, Views(JS, secret, k, random, xs)).Success?
    ensures Combined(JS, Views(JS, secret, k, random, xs)) == Success(secret) <==>
            InTable(xs) || |xs| == 1 || forall i :: 0 <= i < |secret| ==> secret[i] == 0
  {
    var views := Views(JS, secret, k, random, xs);
    assert Numbers(views) == xs;
    assert Words(xs) == xs;
    DividesIffDistinct(xs);
    var r := Combined(JS, views).value;
    forall i | 0 <= i < |secret| ensures r[i] == if InTable(xs) || |xs| == 1 then secret[i] else 0 {
      ByteCombined(secret, k, random, xs, i);
    }
    if r == secret && !InTable(xs) && |xs| != 1 {
      forall i | 0 <= i < |secret| ensures secret[i] == 0 { assert r[i] == 0; }
    }
    if InTable(xs) || |xs| == 1 || forall i :: 0 <= i < |secret| ==> secret[i] == 0 {
      assert r == secret;
    }
  }

  /** Two shares of one byte, the second numbered 256, do not give it back. */
  lemma RecoveryFails(secret: u8, random: (nat, nat) -> u8)
    requires secret != 0
    ensures Combined(JS, Views(JS, [secret], 2, random, [1, 256])).Success?
    ensures Combined(JS, Views(JS, [secret], 2, random, [1, 256])) != Success([secret])
  {
    var xs := [1, 256];
    assert xs[1] >= 256 && !InTable(xs);
    RecoveryExact([secret], 2, random, xs);
    assert [secret][0] != 0;
  }

  // ---- secrecy ----

  lemma NodesDistinct(xs: seq<u8>)
    requires P.Distinct(xs) && (forall j :: 0 <= j < |xs| ==> xs[j] > 0)
    ensures P.Distinct([ZERO] + InField(xs))
  {
    InFieldDistinct(xs);
    var nodes := [ZERO] + InField(xs);
    forall i, j | 0 <= i < j < |nodes| ensures nodes[i] != nodes[j] {
      if i == 0 { LiftByte(xs[j - 1]); }
    }
  }

  ghost function AsNumbers(p: seq<Byte>): (c: seq<u8>)
    ensures |c| == |p| && InField(c) == p
  {
    var c := seq(|p|, i requires 0 <= i < |p| => AsNumber(p[i]));
    assert InField(c) == p;
    c
  }

  ghost function AsNumber(x: Byte): (n: u8)
    ensures FromNat(n) == x
  {
    ByteNat(x);
    ToNat(x)
  }

  /** The coefficients c deal the share bytes ys at the numbers xs for the secret byte s. */
  ghost predicate Explains(c: seq<u8>, s: u8, xs: seq<u8>, ys: seq<u8>)
    requires |xs| == |ys|
  {
    c != [] && c[0] == s && forall j :: 0 <= j < |xs| ==> ShareByte(c, xs[j]) == Num(ys[j])
  }

  lemma ExplainsIffPasses(c: seq<u8>, s: u8, xs: seq<u8>, ys: seq<u8>)
    requires |xs| == |ys| && c != []
    ensures Explains(c, s, xs, ys) <==>
            && P.Eval(GF, InField(c), ZERO) == FromNat(s)
            && forall j :: 0 <= j < |xs| ==> P.Eval(GF, InField(c), FromNat(xs[j])) == FromNat(ys[j])
  {
    GfLawful();
    P.EvalAtZero(GF, InField(c));
    NatByte(c[0]); NatByte(s);
    forall j | 0 <= j < |xs|
      ensures ShareByte(c, xs[j]) == Num(ys[j]) <==> P.Eval(GF, InField(c), FromNat(xs[j])) == FromNat(ys[j])
    {
      ShareIsValue(c, xs[j]);
      LiftByte(ys[j]);
      ByteNat(P.Eval(GF, InField(c), FromNat(xs[j])));
    }
  }

  /** Any secret byte whatever explains fewer than k shares. */
  lemma AnySecretPossible(k: nat, s: u8, xs: seq<u8>, ys: seq<u8>) returns (c: seq<u8>)
    requires |xs| == |ys| < k && P.Distinct(xs) && (forall j :: 0 <= j < |xs| ==> xs[j] > 0)
    ensures |c| == k && Explains(c, s, xs, ys)
  {
    GfLawful();
    NodesDistinct(xs);
    c := AsNumbers(P.Fitting(GF, FromNat(s), InField(xs), InField(ys), k));
    forall i | 0 <= i <= |xs|
      ensures P.Eval(GF, InField(c), ([ZERO] + InField(xs))[i]) == ([FromNat(s)] + InField(ys))[i]
    {
      P.FittingPasses(GF, FromNat(s), InField(xs), InField(ys), k, i);
    }
    FittingExplains(c, s, xs, ys);
  }

  lemma FittingExplains(c: seq<u8>, s: u8, xs: seq<u8>, ys: seq<u8>)
    requires |xs| == |ys| && c != []
    requires forall i :: 0 <= i <= |xs| ==>
               P.Eval(GF, InField(c), ([ZERO] + InField(xs))[i]) == ([FromNat(s)] + InField(ys))[i]
    ensures Explains(c, s, xs, ys)
  {
    var nodes := [ZERO] + InField(xs);
    assert P.Eval(GF, InField(c), nodes[0]) == FromNat(s);
    forall j | 0 <= j < |xs| ensures P.Eval(GF, InField(c), FromNat(xs[j])) == FromNat(ys[j]) {
      assert nodes[j + 1] == FromNat(xs[j]);
    }
    ExplainsIffPasses(c, s, xs, ys);
  }

  /** Given k - 1 shares, every secret byte is explained by exactly one choice of coefficients. */
  lemma OneExplanation(c: seq<u8>, d: seq<u8>, s: u8, xs: seq<u8>, ys: seq<u8>)
    requires |xs| == |ys| && P.Distinct(xs) && (forall j :: 0 <= j < |xs| ==> xs[j] > 0)
    requires |c| == |d| == |xs| + 1 && Explains(c, s, xs, ys) && Explains(d, s, xs, ys)
    ensures c == d
  {
    GfLawful();
    NodesDistinct(xs);
    ExplainsIffPasses(c, s, xs, ys); ExplainsIffPasses(d, s, xs, ys);
    var nodes := [ZERO] + InField(xs);
    forall i | 0 <= i < |nodes| ensures P.Eval(GF, InField(c), nodes[i]) == P.Eval(GF, InField(d), nodes[i]) {
      if i > 0 { assert nodes[i] == FromNat(xs[i - 1]); }
    }
    P.Unique(GF, InField(c), InField(d), nodes);
    forall i | 0 <= i < |c| ensures c[i] == d[i] {
      assert InField(c)[i] == InField(d)[i];
      NatByte(c[i]); NatByte(d[i]);
    }
  }

  // ---- secrecy of the whole split ----

  /** Shares of a secret of the given length with the given numbers, whatever they hold. */
  predicate Shaped(vs: seq<View>, xs: seq<u8>, length: nat) {
    |vs| == |xs| && forall j :: 0 <= j < |xs| ==> vs[j].x == xs[j] && |vs[j].y| == length
  }

  /** Byte i of every share. */
  function BytesAt(vs: seq<View>, xs: seq<u8>, length: nat, i: nat): (ys: seq<u8>)
    requires Shaped(vs, xs, length) && i < length
    ensures |ys| == |xs|
  {
    seq(|xs|, j requires 0 <= j < |xs| => vs[j].y[i])
  }

  /** The coefficients for byte i deal byte i of the shares exactly when the split does. */
  lemma DealsIffExplains(secret: seq<u8>, k: nat, random: (nat, nat) -> u8, xs: seq<u8>, vs: seq<View>)
    requires k >= 1 && Shaped(vs, xs, |secret|)
    ensures Views(JS, secret, k, random, xs) == vs <==>
      forall i :: 0 <= i < |secret| ==>
        Explains(Coefficients(secret, k, random, i), secret[i], xs, BytesAt(vs, xs, |secret|, i))
  {
    var dealt := Views(JS, secret, k, random, xs);
    forall i, j | 0 <= i < |secret| && 0 <= j < |xs|
      ensures ShareByte(Coefficients(secret, k, random, i), xs[j]) == Num(dealt[j].y[i])
    {
      ShareByteIsByte(Coefficients(secret, k, random, i), xs[j]);
    }
    if forall i :: 0 <= i < |secret| ==>
      Explains(Coefficients(secret, k, random, i), secret[i], xs, BytesAt(vs, xs, |secret|, i))
    {
      forall j | 0 <= j < |xs| ensures dealt[j] == vs[j] {
        forall i | 0 <= i < |secret| ensures dealt[j].y[i] == vs[j].y[i] {
          assert BytesAt(vs, xs, |secret|, i)[j] == vs[j].y[i];
        }
      }
    }
  }

  /** The draw that makes the coefficients of every byte the given ones. */
  ghost function DrawOf(cs: seq<seq<u8>>): (nat, nat) -> u8 {
    (i: nat, j: nat) => if i < |cs| && j + 1 < |cs[i]| then cs[i][j + 1] else 0
  }

  /**
   Fewer than k shares say nothing: whatever they hold, and whatever the secret, some draw makes the
   split of that secret deal exactly these shares.
   */
  lemma SplitHides(secret: seq<u8>, k: nat, xs: seq<u8>, vs: seq<View>) returns (random: (nat, nat) -> u8)
    requires |xs| < k && P.Distinct(xs) && (forall j :: 0 <= j < |xs| ==> xs[j] > 0) && Shaped(vs, xs, |secret|)
    ensures Views(JS, secret, k, random, xs) == vs
  {
    var cs: seq<seq<u8>> := [];
    while |cs| < |secret|
      invariant |cs| <= |secret|
      invariant forall i :: 0 <= i < |cs| ==>
        |cs[i]| == k && Explains(cs[i], secret[i], xs, BytesAt(vs, xs, |secret|, i))
    {
      var c := AnySecretPossible(k, secret[|cs|], xs, BytesAt(vs, xs, |secret|, |cs|));
      cs := cs + [c];
    }
    random := DrawOf(cs);
    forall i | 0 <= i < |secret| ensures Coefficients(secret, k, random, i) == cs[i] {}
    DealsIffExplains(secret, k, random, xs, vs);
  }

  /** With k - 1 shares that draw is the only one: every secret is exactly as likely as every other. */
  lemma SplitHidesOnce(secret: seq<u8>, k: nat, one: (nat, nat) -> u8, two: (nat, nat) -> u8, xs: seq<u8>)
    requires |xs| + 1 == k && P.Distinct(xs) && (forall j :: 0 <= j < |xs| ==> xs[j] > 0)
    requires Views(JS, secret, k, one, xs) == Views(JS, secret, k, two, xs)
    ensures forall i, j :: 0 <= i < |secret| && 0 <= j < k - 1 ==> one(i, j) == two(i, j)
  {
    var vs := Views(JS, secret, k, one, xs);
    DealsIffExplains(secret, k, one, xs, vs);
    DealsIffExplains(secret, k, two, xs, vs);
    forall i, j | 0 <= i < |secret| && 0 <= j < k - 1 ensures one(i, j) == two(i, j) {
      var c, d := Coefficients(secret, k, one, i), Coefficients(secret, k, two, i);
      OneExplanation(c, d, secret[i], xs, BytesAt(vs, xs, |secret|, i));
      assert c[j + 1] == d[j + 1];
    }
  }
}
