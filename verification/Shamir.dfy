/** `reference/shamir.ts`: the tables it fills and the loops that use them. */
module Shamir {
  import opened Common
  import opened Markers
  import opened Gf256
  import opened JsNumbers
  import opened Embedding
  import opened Sharing
  import P = Polynomials

  /** A share as the code holds it: a number and the buffer with its bytes. */
  datatype Share = Share(x: nat, y: array<u8>)

  ghost function ViewOf(s: Share): View
    reads s.y
  {
    View(s.x, s.y[..])
  }

  ghost function NumbersOf(shares: seq<Share>): (xs: seq<Js>)
    ensures |xs| == |shares|
  {
    seq(|shares|, j requires 0 <= j < |shares| => Num(shares[j].x))
  }

  /** Byte i of every share; a byte missing from a short share reads as `undefined`. */
  ghost function ColumnOf(shares: seq<Share>, i: nat): (ys: seq<Js>)
    reads set s | s in shares :: s.y
    ensures |ys| == |shares|
  {
    seq(|shares|, j requires 0 <= j < |shares| reads set s | s in shares :: s.y =>
      if i < shares[j].y.Length then Num(shares[j].y[i]) else Undefined)
  }

  /** The operations of the code, whatever name the proofs below know them by. */
  ghost predicate Implemented(o: Ops) {
    forall a: Js, b: Js {:trigger On2(a, b)} ::
      o.mul(a, b) == JsMul(a, b) && o.div(a, b) == JsDiv(a, b) && o.xor(a, b) == BitXor(a, b)
  }

  ghost function ViewsOf(shares: seq<Share>): (v: seq<View>)
    reads set s | s in shares :: s.y
    ensures |v| == |shares|
  {
    seq(|shares|, j requires 0 <= j < |shares| reads set s | s in shares :: s.y => ViewOf(shares[j]))
  }

  /** The number of the i-th power of 3. */
  ghost function Power3(i: nat): u8 { Lift(Exp(i)).n }

  /** One round of the table loop goes from one power of 3 to the next. */
  lemma Power3Step(i: nat, x: nat, x2: nat)
    requires x == Power3(i) && x2 == if x >= 128 then Xor(2 * x, 0x11b) else 2 * x
    ensures Power3(i + 1) == Xor(x2, x) % 256
  {
    var e := Exp(i);
    ShiftReduce(e);
    ByteNat(e);
    FromXor(x2, x);
    Mask(Xor(x2, x));
    assert FromNat(Xor(x2, x)) == Times3(e);
  }

  lemma Power3Injective(i: nat, j: nat)
    requires i < j < 255
    ensures Power3(i) != Power3(j)
  {
    ExpInjective(i, j);
    ByteNat(Exp(i)); ByteNat(Exp(j));
  }

  ghost predicate Filled(log: seq<u8>, exp: seq<u8>, n: nat)
    requires |log| == |exp| == 256 && n <= 255
  {
    forall j: nat :: j < n ==> exp[j] == Power3(j) && log[Power3(j)] == j
  }

  lemma FillNext(log: seq<u8>, exp: seq<u8>, i: nat, x: u8)
    requires |log| == |exp| == 256 && i < 255 && Filled(log, exp, i) && x == Power3(i)
    ensures Filled(log[x := i], exp[i := x], i + 1)
  {
    forall j: nat | j < i ensures Power3(j) != x { Power3Injective(j, i); }
  }

  /** Fill both tables by multiplying with 3 from one. */
  method InitTables(log: array<u8>, exp: array<u8>)
    requires log != exp && log.Length == exp.Length == 256
    modifies log, exp
    ensures Filled(log[..], exp[..], 255)
  {
    var x: nat := 1;
    for i := 0 to 255
      invariant x == Power3(i)
      invariant Filled(log[..], exp[..], i)
    {
      ghost var l, e := log[..], exp[..];
      exp[i] := x;
      log[x] := i;
      assert log[..] == l[x := i as u8] && exp[..] == e[i := x as u8];
      FillNext(l, e, i, x);
      var x2 := 2 * x;
      if x >= 128 { x2 := Xor(x2, 0x11b); }
      Power3Step(i, x, x2);
      x := Xor(x2, x);
      x := x % 256;
    }
  }

  // ---- the tables hold logarithms ----

  lemma LogLookup(log: seq<u8>, exp: seq<u8>, a: u8)
    requires |log| == |exp| == 256 && Filled(log, exp, 255) && a != 0
    ensures FromNat(a) != ZERO && log[a] == Log(FromNat(a))
  {
    LiftByte(a);
    var i := Log(FromNat(a));
    assert Power3(i) == a;
  }

  lemma TableMul(log: seq<u8>, exp: seq<u8>, a: u8, b: u8)
    requires |log| == |exp| == 256 && Filled(log, exp, 255) && a != 0 && b != 0
    ensures Num(exp[(log[a] as nat + log[b] as nat) % 255]) == JsMul(Num(a), Num(b))
  {
    LogLookup(log, exp, a); LogLookup(log, exp, b);
    MulByLog(FromNat(a), FromNat(b));
  }

  lemma DivByLog(a: Byte, b: Byte)
    requires a != ZERO && b != ZERO
    ensures Mul(a, Inv(b)) == Exp((Log(a) - Log(b) + 255) % 255)
  {
    MulInv(b);
    ExpWrap(255 - Log(b));
    ExpSum(Log(a), 255 - Log(b));
    ExpWrap(Log(a) + (255 - Log(b)));
  }

  lemma TableDiv(log: seq<u8>, exp: seq<u8>, a: u8, b: u8)
    requires |log| == |exp| == 256 && Filled(log, exp, 255) && a != 0 && b != 0
    ensures Num(exp[(log[a] as int - log[b] as int + 255) % 255]) == JsDiv(Num(a), Num(b))
  {
    LogLookup(log, exp, a); LogLookup(log, exp, b);
    DivByLog(FromNat(a), FromNat(b));
  }

  lemma MulTabled(o: Ops, log: seq<u8>, exp: seq<u8>, a: u8, b: u8)
    requires Implemented(o) && |log| == |exp| == 256 && Filled(log, exp, 255) && a != 0 && b != 0
    ensures Num(exp[(log[a] as nat + log[b] as nat) % 255]) == o.mul(Num(a), Num(b))
  {
    TableMul(log, exp, a, b);
    assert On2(Num(a), Num(b));
  }

  lemma MulDegenerate(o: Ops, a: Js, b: Js)
    requires Implemented(o)
    ensures a == Num(0) || b == Num(0) ==> o.mul(a, b) == Num(0)
    ensures a != Num(0) && b != Num(0) && (!IsByte(a) || !IsByte(b)) ==> o.mul(a, b) == Undefined
  {
    assert On2(a, b);
  }

  // ---- the buffers of split ----

  /** Shares numbered from 1, each with a buffer of its own. */
  ghost predicate Buffers(shares: seq<Share>, len: nat) {
    && (forall j :: 0 <= j < |shares| ==> shares[j].x == j + 1 && shares[j].y.Length == len)
    && (forall j, m :: 0 <= j < m < |shares| ==> shares[j].y != shares[m].y)
  }

  /** The first i bytes of the share are those of y. */
  ghost predicate Dealt(s: Share, y: seq<u8>, i: nat)
    reads s.y
  {
    i <= s.y.Length == |y| && s.y[..i] == y[..i]
  }

  method NewShares(n: nat, len: nat) returns (shares: seq<Share>)
    ensures |shares| == n && Buffers(shares, len)
    ensures forall s :: s in shares ==> fresh(s.y)
  {
    shares := [];
    for i := 0 to n
      invariant |shares| == i && Buffers(shares, len)
      invariant forall s :: s in shares ==> fresh(s.y)
    {
      var y := new u8[len](_ => 0);
      shares := shares + [Share(i + 1, y)];
    }
  }

  method DrawCoefficients(secret: seq<u8>, k: nat, random: (nat, nat) -> u8, i: nat) returns (c: array<u8>)
    requires k >= 1 && i < |secret|
    ensures fresh(c) && c[..] == Coefficients(secret, k, random, i)
  {
    c := new u8[k](_ => 0);
    c[0] := secret[i];
    for j := 1 to k
      invariant c[0] == secret[i]
      invariant forall m :: 1 <= m < j ==> c[m] == random(i, m - 1)
    {
      c[j] := random(i, j - 1);
    }
  }

  class Tables {
    const logTable: array<u8>
    const expTable: array<u8>

    ghost predicate Valid()
      reads logTable, expTable
    {
      logTable.Length == expTable.Length == 256 && Filled(logTable[..], expTable[..], 255)
    }

    constructor ()
      ensures Valid() && fresh(logTable) && fresh(expTable)
    {
      logTable := new u8[256](_ => 0);
      expTable := new u8[256](_ => 0);
      new;
      InitTables(logTable, expTable);
    }

    /** `mul`: reading outside the log table yields `undefined`, and so does what follows from it. */
    method MulBytes(a: Js, b: Js, ghost o: Ops) returns (r: Js)
      requires Valid() && Implemented(o)
      ensures r == o.mul(a, b)
    {
      MulDegenerate(o, a, b);
      if a == Num(0) || b == Num(0) { return Num(0); }
      if !IsByte(a) || !IsByte(b) { return Undefined; }
      MulTabled(o, logTable[..], expTable[..], a.n, b.n);
      var logSum := (logTable[a.n] as nat + logTable[b.n] as nat) % 255;
      return Num(expTable[logSum]);
    }

    /** `div`, which throws on a zero divisor. */
    method DivBytes(a: Js, b: Js, ghost o: Ops) returns (r: Result<Js>)
      requires Valid() && Implemented(o)
      ensures r == if b == Num(0) then Failure(DivisionByZero) else Success(o.div(a, b))
    {
      assert On2(a, b);
      if b == Num(0) { return Failure(DivisionByZero); }
      if a == Num(0) { return Success(Num(0)); }
      if !IsByte(a) || !IsByte(b) { return Success(Undefined); }
      TableDiv(logTable[..], expTable[..], a.n, b.n);
      var logDiff := (logTable[a.n] as int - logTable[b.n] as int + 255) % 255;
      return Success(Num(expTable[logDiff]));
    }

    /** `add`. */
    method AddBytes(a: Js, b: Js, ghost o: Ops) returns (r: Js)
      requires Implemented(o)
      ensures r == o.xor(a, b)
    {
      assert On2(a, b);
      return BitXor(a, b);
    }

    /** The innermost loops of `split`: the sum of the terms of the polynomial at x. */
    method Evaluate(c: array<u8>, x: nat, ghost o: Ops) returns (val: Js)
      requires Valid() && Implemented(o)
      ensures val == ShareSum(o, Nums(c[..]), Num(x), c.Length)
    {
      val := Num(0);
      ghost var cs := Nums(c[..]);
      for m := 0 to c.Length
        invariant val == ShareSum(o, cs, Num(x), m)
      {
        var xPow := Num(1);
        for p := 0 to m
          invariant xPow == JsPower(o, Num(x), p)
        {
          xPow := MulBytes(xPow, Num(x), o);
        }
        var term := MulBytes(Num(c[m]), xPow, o);
        val := AddBytes(val, term, o);
      }
    }

    /** The inner loop of `combine`: the weight of share j, or a division by zero. */
    method WeightOf(shares: seq<Share>, j: nat, ghost o: Ops) returns (r: Result<Js>)
      requires Valid() && Implemented(o) && j < |shares|
      ensures r == if Denominator(o, NumbersOf(shares), j, |shares|) == Num(0) then Failure(DivisionByZero)
                   else Success(JsWeight(o, NumbersOf(shares), j))
    {
      var numerator, denominator := Num(1), Num(1);
      ghost var xs := NumbersOf(shares);
      for m := 0 to |shares|
        invariant numerator == Numerator(o, xs, j, m)
        invariant denominator == Denominator(o, xs, j, m)
      {
        if m != j {
          var xm := Num(shares[m].x);
          numerator := MulBytes(numerator, xm, o);
          var difference := AddBytes(Num(shares[j].x), xm, o);
          denominator := MulBytes(denominator, difference, o);
        }
      }
      var quotient := DivBytes(Num(1), denominator, o);
      if quotient.Failure? { return Failure(quotient.error); }
      var lagrange := MulBytes(numerator, quotient.value, o);
      return Success(lagrange);
    }

    /** The term of share j in byte i of the result, or a division by zero. */
    method TermOf(shares: seq<Share>, i: nat, j: nat, ghost o: Ops) returns (r: Result<Js>)
      requires Valid() && Implemented(o) && j < |shares|
      ensures r == if Denominator(o, NumbersOf(shares), j, |shares|) == Num(0) then Failure(DivisionByZero)
                   else Success(o.mul(ColumnOf(shares, i)[j], JsWeight(o, NumbersOf(shares), j)))
    {
      var yj := if i < shares[j].y.Length then Num(shares[j].y[i]) else Undefined;
      var lagrange := WeightOf(shares, j, o);
      if lagrange.Failure? { return Failure(lagrange.error); }
      var term := MulBytes(yj, lagrange.value, o);
      return Success(term);
    }

    /** The loop over the shares in `combine`: one byte of the result, or a division by zero. */
    method CombineAt(shares: seq<Share>, i: nat, ghost o: Ops) returns (r: Result<Js>)
      requires Valid() && Implemented(o)
      ensures r == if Divides(o, NumbersOf(shares))
                   then Success(CombineSum(o, NumbersOf(shares), ColumnOf(shares, i), |shares|))
                   else Failure(DivisionByZero)
    {
      ghost var xs, ys := NumbersOf(shares), ColumnOf(shares, i);
      var secretByte := Num(0);
      for j := 0 to |shares|
        invariant ColumnOf(shares, i) == ys
        invariant forall m :: 0 <= m < j ==> Denominator(o, xs, m, |xs|) != Num(0)
        invariant secretByte == CombineSum(o, xs, ys, j)
      {
        var term := TermOf(shares, i, j, o);
        if term.Failure? { return Failure(term.error); }
        secretByte := AddBytes(secretByte, term.value, o);
      }
      return Success(secretByte);
    }

    /** `combine`: Lagrange interpolation at zero, byte by byte. */
    method Combine(shares: seq<Share>, ghost o: Ops) returns (r: Result<array<u8>>)
      requires Valid() && Implemented(o)
      ensures Combined(o, ViewsOf(shares)).Failure? ==> r == Failure(Combined(o, ViewsOf(shares)).error)
      ensures Combined(o, ViewsOf(shares)).Success? ==>
                r.Success? && fresh(r.value) && r.value[..] == Combined(o, ViewsOf(shares)).value
    {
      if |shares| == 0 { return Failure(NoShares); }
      ghost var views := ViewsOf(shares);
      assert Nums(Numbers(views)) == NumbersOf(shares);
      var len := shares[0].y.Length;
      var reconstructed := new u8[len](_ => 0);
      for i := 0 to len
        invariant ViewsOf(shares) == views && Valid()
        invariant i > 0 ==> Divides(o, NumbersOf(shares))
        invariant forall m :: 0 <= m < i ==> reconstructed[m] == CombineByte(o, views, m)
      {
        assert Column(views, i) == ColumnOf(shares, i);
        var secretByte := CombineAt(shares, i, o);
        if secretByte.Failure? { return Failure(secretByte.error); }
        reconstructed[i] := Stored(secretByte.value);
      }
      r := Success(reconstructed);
    }

    /** The loop over the shares in `split`: deal byte i of every share. */
    method DealByte(shares: seq<Share>, c: array<u8>, len: nat, i: nat, ghost o: Ops)
      requires Valid() && Implemented(o) && Buffers(shares, len) && i < len
      requires forall s :: s in shares ==> s.y != c && s.y != logTable && s.y != expTable
      modifies set s | s in shares :: s.y
      ensures forall j :: 0 <= j < |shares| ==>
                shares[j].y[..] == old(shares[j].y[..])[i := Stored(ShareSum(o, Nums(c[..]), Num(j + 1), c.Length))]
    {
      for j := 0 to |shares|
        invariant Valid() && c[..] == old(c[..])
        invariant forall l :: j <= l < |shares| ==> shares[l].y[..] == old(shares[l].y[..])
        invariant forall l :: 0 <= l < j ==>
                    shares[l].y[..] == old(shares[l].y[..])[i := Stored(ShareSum(o, Nums(c[..]), Num(l + 1), c.Length))]
      {
        var val := Evaluate(c, j + 1, o);
        shares[j].y[i] := Stored(val);
      }
    }

    /** `split`: one polynomial for every byte of the secret, evaluated at 1 to n. */
    method Split(secret: seq<u8>, n: int, k: int, random: (nat, nat) -> u8, ghost o: Ops)
      returns (r: Result<seq<Share>>)
      requires Valid() && Implemented(o)
      ensures k > n ==> r == Failure(ThresholdTooLarge)
      ensures k <= n && k < 1 ==> r == Failure(ThresholdTooSmall)
      ensures 1 <= k <= n ==>
                && r.Success? && (forall s :: s in r.value ==> fresh(s.y))
                && ViewsOf(r.value) == Views(o, secret, k, random, seq(n, j => j + 1))
    {
      if k > n { return Failure(ThresholdTooLarge); }
      if k < 1 { return Failure(ThresholdTooSmall); }
      var shares := NewShares(n, |secret|);
      for i := 0 to |secret|
        invariant Valid()
        invariant forall j :: 0 <= j < n ==> Dealt(shares[j], ShareView(o, secret, k, random, j + 1).y, i)
      {
        var c := DrawCoefficients(secret, k, random, i);
        DealByte(shares, c, |secret|, i, o);
      }
      ghost var views := Views(o, secret, k, random, seq(n, j => j + 1));
      forall j | 0 <= j < n ensures ViewOf(shares[j]) == views[j] {
        assert Dealt(shares[j], ShareView(o, secret, k, random, j + 1).y, |secret|);
      }
      r := Success(shares);
    }
  }

  /** The chosen shares, in the chosen order. */
  function Choose(shares: seq<Share>, chosen: seq<nat>): (r: seq<Share>)
    requires forall j :: 0 <= j < |chosen| ==> chosen[j] < |shares|
    ensures |r| == |chosen|
  {
    seq(|chosen|, j requires 0 <= j < |chosen| => shares[chosen[j]])
  }

  /**
   The whole exchange: split, pick at least k different shares, combine. No error can arise, and the
   secret comes back exactly when no picked share is numbered above 255, or a single share was
   picked, or the secret is all zeros.
   */
  method SplitAndCombine(t: Tables, secret: seq<u8>, n: int, k: int, random: (nat, nat) -> u8, chosen: seq<nat>)
    returns (r: Result<array<u8>>)
    requires t.Valid() && 1 <= k <= n < WORD && k <= |chosen|
    requires P.Distinct(chosen) && forall j :: 0 <= j < |chosen| ==> chosen[j] < n
    ensures r.Success?
    ensures r.value[..] == secret <==>
            || (forall j :: 0 <= j < |chosen| ==> chosen[j] < 255)
            || |chosen| == 1
            || (forall i :: 0 <= i < |secret| ==> secret[i] == 0)
  {
    var shares := t.Split(secret, n, k, random, JS);
    ghost var xs := seq(|chosen|, j requires 0 <= j < |chosen| => chosen[j] + 1);
    var picked := Choose(shares.value, chosen);
    assert ViewsOf(picked) == Views(JS, secret, k, random, xs) by {
      forall j | 0 <= j < |chosen| ensures ViewOf(picked[j]) == ShareView(JS, secret, k, random, xs[j]) {
        assert ViewsOf(shares.value)[chosen[j]] == ShareView(JS, secret, k, random, chosen[j] + 1);
      }
    }
    RecoveryExact(secret, k, random, xs);
    r := t.Combine(picked, JS);
    assert InTable(xs) ==> forall j :: 0 <= j < |chosen| ==> xs[j] == chosen[j] + 1 && chosen[j] < 255;
  }
}
