/**
 The loops of `split` and `combine` over an arbitrary multiplication, division and exclusive or on
 JavaScript values, and the fact that wherever those operations mirror a field the loops mirror
 polynomial evaluation and Lagrange interpolation.
 */
module Embedding {
  import opened Markers
  import opened JsNumbers
  import opened Polynomials

  datatype Ops = Ops(mul: (Js, Js) -> Js, div: (Js, Js) -> Js, xor: (Js, Js) -> Js)

  // ---- split ----

  /** x multiplied m times onto one. */
  function JsPower(o: Ops, x: Js, m: nat): Js { if m == 0 then Num(1) else o.mul(JsPower(o, x, m - 1), x) }

  /** The accumulator after the first n terms of the polynomial. */
  function ShareSum(o: Ops, c: seq<Js>, x: Js, n: nat): Js
    requires n <= |c|
  {
    if n == 0 then Num(0) else o.xor(ShareSum(o, c, x, n - 1), o.mul(c[n - 1], JsPower(o, x, n - 1)))
  }

  // ---- combine ----

  function Numerator(o: Ops, xs: seq<Js>, j: nat, m: nat): Js
    requires m <= |xs|
  {
    if m == 0 then Num(1)
    else if m - 1 == j then Numerator(o, xs, j, m - 1)
    else o.mul(Numerator(o, xs, j, m - 1), xs[m - 1])
  }

  function Denominator(o: Ops, xs: seq<Js>, j: nat, m: nat): Js
    requires m <= |xs| && j < |xs|
  {
    if m == 0 then Num(1)
    else if m - 1 == j then Denominator(o, xs, j, m - 1)
    else o.mul(Denominator(o, xs, j, m - 1), o.xor(xs[j], xs[m - 1]))
  }

  function JsWeight(o: Ops, xs: seq<Js>, j: nat): Js
    requires j < |xs|
  {
    o.mul(Numerator(o, xs, j, |xs|), o.div(Num(1), Denominator(o, xs, j, |xs|)))
  }

  /** The accumulator after the first n shares. */
  function CombineSum(o: Ops, xs: seq<Js>, ys: seq<Js>, n: nat): Js
    requires n <= |xs| == |ys|
  {
    if n == 0 then Num(0)
    else o.xor(CombineSum(o, xs, ys, n - 1), o.mul(ys[n - 1], JsWeight(o, xs, n - 1)))
  }

  /** No share leads to a division by zero. */
  predicate Divides(o: Ops, xs: seq<Js>) {
    forall j :: 0 <= j < |xs| ==> Denominator(o, xs, j, |xs|) != Num(0)
  }

  // ---- mirroring a field ----

  /** `lift` carries the field's operations to the machine's. */
  ghost predicate Mirrors<T(!new)>(o: Ops, f: Field<T>, lift: T -> Js) {
    && lift(f.zero) == Num(0) && lift(f.one) == Num(1)
    && (forall x: T, y: T {:trigger On2(x, y)} :: o.mul(lift(x), lift(y)) == lift(f.mul(x, y)))
    && (forall x: T, y: T {:trigger On2(x, y)} :: o.xor(lift(x), lift(y)) == lift(f.add(x, y)))
    && (forall x: T {:trigger On1(x)} :: x != f.zero ==> o.div(Num(1), lift(x)) == lift(f.inv(x)))
  }

  function Lifted<T>(lift: T -> Js, s: seq<T>): (r: seq<Js>)
    ensures |r| == |s|
  {
    seq(|s|, i requires 0 <= i < |s| => lift(s[i]))
  }

  lemma {:induction false} PowerMirrors<T(!new)>(o: Ops, f: Field<T>, lift: T -> Js, t: T, m: nat)
    requires Mirrors(o, f, lift)
    ensures JsPower(o, lift(t), m) == lift(Power(f, t, m))
  {
    if m == 0 {
    } else {
      PowerMirrors(o, f, lift, t, m - 1);
      assert On2(Power(f, t, m - 1), t);
    }
  }

  lemma {:induction false} ShareSumMirrors<T(!new)>(o: Ops, f: Field<T>, lift: T -> Js, p: seq<T>, t: T, n: nat)
    requires Mirrors(o, f, lift) && n <= |p|
    ensures ShareSum(o, Lifted(lift, p), lift(t), n) == lift(TermSum(f, p, t, n))
  {
    if n == 0 {
    } else {
      ShareSumMirrors(o, f, lift, p, t, n - 1);
      PowerMirrors(o, f, lift, t, n - 1);
      AccumulatorMirrors(o, f, lift, TermSum(f, p, t, n - 1), p[n - 1], Power(f, t, n - 1));
    }
  }

  lemma {:induction false} NumeratorMirrors<T(!new)>(o: Ops, f: Field<T>, lift: T -> Js, xs: seq<T>, j: nat, m: nat)
    requires Mirrors(o, f, lift) && Lawful(f) && m <= |xs|
    ensures Numerator(o, Lifted(lift, xs), j, m) == lift(Spread(f, xs, j, m, f.zero))
  {
    if m == 0 {
    } else {
      NumeratorMirrors(o, f, lift, xs, j, m - 1);
      var x := xs[m - 1];
      assert On2(Spread(f, xs, j, m - 1, f.zero), x) && On1(x) && On2(f.zero, x);
    }
  }

  lemma {:induction false} DenominatorMirrors<T(!new)>(o: Ops, f: Field<T>, lift: T -> Js, xs: seq<T>, j: nat, m: nat)
    requires Mirrors(o, f, lift) && m <= |xs| && j < |xs|
    ensures Denominator(o, Lifted(lift, xs), j, m) == lift(Spread(f, xs, j, m, xs[j]))
  {
    if m == 0 {
    } else {
      DenominatorMirrors(o, f, lift, xs, j, m - 1);
      var x := xs[m - 1];
      assert On2(xs[j], x) && On2(Spread(f, xs, j, m - 1, xs[j]), f.add(xs[j], x));
    }
  }

  lemma WeightMirrors<T(!new)>(o: Ops, f: Field<T>, lift: T -> Js, xs: seq<T>, j: nat)
    requires Mirrors(o, f, lift) && Lawful(f) && j < |xs| && Distinct(xs)
    ensures JsWeight(o, Lifted(lift, xs), j) == lift(Weight(f, xs, j, f.zero))
  {
    var num, den := Spread(f, xs, j, |xs|, f.zero), Spread(f, xs, j, |xs|, xs[j]);
    NumeratorMirrors(o, f, lift, xs, j, |xs|);
    DenominatorMirrors(o, f, lift, xs, j, |xs|);
    SpreadZero(f, xs, j, |xs|, xs[j]);
    assert On1(den) && On2(num, f.inv(den));
  }

  lemma {:induction false} CombineMirrors<T(!new)>(o: Ops, f: Field<T>, lift: T -> Js, xs: seq<T>, ys: seq<T>, n: nat)
    requires Mirrors(o, f, lift) && Lawful(f) && Distinct(xs) && n <= |xs| == |ys|
    ensures CombineSum(o, Lifted(lift, xs), Lifted(lift, ys), n) == lift(Lagrange(f, xs, ys, n, f.zero))
  {
    if n == 0 {
    } else {
      CombineMirrors(o, f, lift, xs, ys, n - 1);
      WeightMirrors(o, f, lift, xs, n - 1);
      CombineStep(o, f, lift, xs, ys, n);
    }
  }

  lemma CombineStep<T(!new)>(o: Ops, f: Field<T>, lift: T -> Js, xs: seq<T>, ys: seq<T>, n: nat)
    requires Mirrors(o, f, lift) && 0 < n <= |xs| == |ys|
    requires CombineSum(o, Lifted(lift, xs), Lifted(lift, ys), n - 1) == lift(Lagrange(f, xs, ys, n - 1, f.zero))
    requires JsWeight(o, Lifted(lift, xs), n - 1) == lift(Weight(f, xs, n - 1, f.zero))
    ensures CombineSum(o, Lifted(lift, xs), Lifted(lift, ys), n) == lift(Lagrange(f, xs, ys, n, f.zero))
  {
    AccumulatorMirrors(o, f, lift, Lagrange(f, xs, ys, n - 1, f.zero), ys[n - 1], Weight(f, xs, n - 1, f.zero));
    assert Lifted(lift, ys)[n - 1] == lift(ys[n - 1]);
  }

  lemma AccumulatorMirrors<T(!new)>(o: Ops, f: Field<T>, lift: T -> Js, sum: T, y: T, w: T)
    requires Mirrors(o, f, lift)
    ensures o.xor(lift(sum), o.mul(lift(y), lift(w))) == lift(f.add(sum, f.mul(y, w)))
  {
    assert On2(y, w) && On2(sum, f.mul(y, w));
  }

  /** Shares of a polynomial combine to its constant term, given as many shares as coefficients. */
  lemma CombineRecovers<T(!new)>(o: Ops, f: Field<T>, lift: T -> Js, p: seq<T>, xs: seq<T>, ys: seq<Js>)
    requires Mirrors(o, f, lift) && Lawful(f) && Distinct(xs) && 0 < |p| <= |xs| == |ys|
    requires forall j :: 0 <= j < |xs| ==> ys[j] == ShareSum(o, Lifted(lift, p), lift(xs[j]), |p|)
    ensures CombineSum(o, Lifted(lift, xs), ys, |xs|) == lift(p[0])
  {
    var values := seq(|xs|, j requires 0 <= j < |xs| => Eval(f, p, xs[j]));
    forall j | 0 <= j < |xs| ensures ys[j] == lift(values[j]) {
      ShareSumMirrors(o, f, lift, p, xs[j], |p|);
      TermSumEval(f, p, xs[j], |p|);
      assert p[..|p|] == p;
    }
    assert ys == Lifted(lift, values);
    CombineMirrors(o, f, lift, xs, values, |xs|);
    LagrangeRecovers(f, p, xs, values, f.zero);
    EvalAtZero(f, p);
  }

  // ---- values no table holds ----

  /** How multiplication, division and exclusive or treat values that are not bytes. */
  ghost predicate Tabled(o: Ops) {
    && (forall a: Js, b: Js {:trigger On2(a, b)} :: o.mul(a, b) == Num(0) <==> a == Num(0) || b == Num(0))
    && (forall a: Js, b: Js {:trigger On2(a, b)} ::
          a != Num(0) && b != Num(0) && !(IsByte(a) && IsByte(b)) ==> o.mul(a, b) == Undefined)
    && (forall a: Js {:trigger On1(a)} :: a.Num? ==> o.mul(a, Num(1)) == (if IsByte(a) then a else Undefined))
    && (forall a: Js {:trigger On1(a)} :: IsByte(a) ==> o.xor(a, Undefined) == a && o.xor(a, Num(0)) == a)
    && (forall a: Js {:trigger On1(a)} :: IsByte(a) ==> o.xor(Num(0), a) == a)
    && (forall a: Js, b: Js {:trigger On2(a, b)} :: o.xor(a, b) == Num(0) <==> Word(a) == Word(b))
    && (forall a: Js, b: Js {:trigger On2(a, b)} :: IsByte(b) && Word(a) >= 256 ==> !IsByte(o.xor(a, b)))
    && o.div(Num(1), Undefined) == Undefined
    && (forall b: Js {:trigger On1(b)} :: b != Num(0) ==> o.div(Num(1), b) != Num(0))
  }

  /** Numbers that fit in 32 bits. */
  predicate Narrow(s: seq<Js>) { forall i :: 0 <= i < |s| ==> s[i].Num? && 0 <= s[i].n < WORD }

  lemma NarrowWords(xs: seq<Js>)
    requires Narrow(xs)
    ensures forall i :: 0 <= i < |xs| ==> Word(xs[i]) == xs[i].n
  {
  }

  lemma MulBeyond(o: Ops, a: Js, b: Js)
    requires Tabled(o)
    ensures o.mul(a, b) == Num(0) <==> a == Num(0) || b == Num(0)
    ensures a != Num(0) && b != Num(0) && (!IsByte(a) || !IsByte(b)) ==> o.mul(a, b) == Undefined
  {
    assert On2(a, b);
  }

  lemma {:induction false} PowerBeyond(o: Ops, x: Js, m: nat)
    requires Tabled(o) && x.Num? && !IsByte(x) && m > 0
    ensures JsPower(o, x, m) == Undefined
  {
    assert On2(JsPower(o, x, m - 1), x);
    if m <= 1 {
    } else {
      PowerBeyond(o, x, m - 1);
    }
  }

  /** At a share number no table holds, only the constant term survives. */
  lemma {:induction false} ShareBeyond(o: Ops, c: seq<Js>, x: Js, n: nat)
    requires Tabled(o) && x.Num? && !IsByte(x) && 0 < n <= |c| && IsByte(c[0])
    ensures ShareSum(o, c, x, n) == c[0]
  {
    assert On1(c[0]) && On1(Num(0));
    if n == 1 {
      assert ShareSum(o, c, x, 0) == Num(0);
    } else {
      ShareBeyond(o, c, x, n - 1);
      PowerBeyond(o, x, n - 1);
      MulBeyond(o, c[n - 1], Undefined);
    }
  }

  /** The denominator of share j vanishes exactly when another share has the same number modulo 2^32. */
  lemma {:induction false} DenominatorZero(o: Ops, xs: seq<Js>, j: nat, m: nat)
    requires Tabled(o) && m <= |xs| && j < |xs|
    ensures Denominator(o, xs, j, m) == Num(0) <==> exists i :: 0 <= i < m && i != j && Word(xs[i]) == Word(xs[j])
  {
    if m == 0 {
    } else {
      DenominatorZero(o, xs, j, m - 1);
      assert On2(xs[j], xs[m - 1]) && On2(Denominator(o, xs, j, m - 1), o.xor(xs[j], xs[m - 1]));
    }
  }

  lemma {:induction false} NumeratorNonZero(o: Ops, xs: seq<Js>, j: nat, m: nat)
    requires Tabled(o) && m <= |xs| && (forall i :: 0 <= i < |xs| ==> xs[i] != Num(0))
    ensures Numerator(o, xs, j, m) != Num(0)
  {
    if m == 0 {
    } else {
      NumeratorNonZero(o, xs, j, m - 1);
      MulBeyond(o, Numerator(o, xs, j, m - 1), xs[m - 1]);
    }
  }

  lemma {:induction false} NumeratorBeyond(o: Ops, xs: seq<Js>, j: nat, m: nat, w: nat)
    requires Tabled(o) && m <= |xs| && (forall i :: 0 <= i < |xs| ==> xs[i] != Num(0))
    requires w < |xs| && w != j && !IsByte(xs[w])
    ensures w < m ==> Numerator(o, xs, j, m) == Undefined
  {
    if m == 0 {
    } else {
      NumeratorBeyond(o, xs, j, m - 1, w);
      NumeratorNonZero(o, xs, j, m - 1);
      MulBeyond(o, Numerator(o, xs, j, m - 1), xs[m - 1]);
    }
  }

  lemma {:induction false} DenominatorBeyond(o: Ops, xs: seq<Js>, j: nat, m: nat, w: nat)
    requires Tabled(o) && Narrow(xs) && Distinct(xs) && m <= |xs| && j < |xs| && !IsByte(xs[j])
    requires w < |xs| && w != j && IsByte(xs[w])
    ensures w < m ==> Denominator(o, xs, j, m) == Undefined
  {
    if m == 0 {
    } else {
      DenominatorBeyond(o, xs, j, m - 1, w);
      DenominatorZero(o, xs, j, m - 1);
      NarrowWords(xs);
      assert On2(xs[j], xs[m - 1]);
      MulBeyond(o, Denominator(o, xs, j, m - 1), o.xor(xs[j], xs[m - 1]));
    }
  }

  /** One number beyond the table among several shares spoils the weight of every one of them. */
  lemma WeightBeyond(o: Ops, xs: seq<Js>, j: nat, w: nat)
    requires Tabled(o) && Narrow(xs) && Distinct(xs) && (forall i :: 0 <= i < |xs| ==> xs[i] != Num(0))
    requires j < |xs| && w < |xs| && |xs| >= 2 && !IsByte(xs[w])
    ensures JsWeight(o, xs, j) == Undefined
  {
    var num, den := Numerator(o, xs, j, |xs|), Denominator(o, xs, j, |xs|);
    var i := if w != j then w else if j == 0 then 1 else 0;
    DenominatorZero(o, xs, j, |xs|);
    NarrowWords(xs);
    assert On1(den);
    if IsByte(xs[i]) {
      DenominatorBeyond(o, xs, j, |xs|, i);
      NumeratorNonZero(o, xs, j, |xs|);
    } else {
      NumeratorBeyond(o, xs, j, |xs|, i);
    }
    MulBeyond(o, num, o.div(Num(1), den));
  }

  lemma {:induction false} CombineBeyond(o: Ops, xs: seq<Js>, ys: seq<Js>, n: nat, w: nat)
    requires Tabled(o) && Narrow(xs) && Distinct(xs) && (forall i :: 0 <= i < |xs| ==> xs[i] != Num(0))
    requires n <= |xs| == |ys| && w < |xs| && |xs| >= 2 && !IsByte(xs[w])
    ensures CombineSum(o, xs, ys, n) == Num(0)
  {
    if n == 0 {
    } else {
      CombineBeyond(o, xs, ys, n - 1, w);
      WeightBeyond(o, xs, n - 1, w);
      MulBeyond(o, ys[n - 1], Undefined);
      assert On1(Num(0)) && IsByte(Num(0));
    }
  }

  /** A single share is returned as it is. */
  lemma CombineSingle(o: Ops, xs: seq<Js>, ys: seq<Js>)
    requires Tabled(o) && |xs| == |ys| == 1 && IsByte(ys[0]) && o.div(Num(1), Num(1)) == Num(1)
    ensures CombineSum(o, xs, ys, 1) == ys[0]
  {
    assert On1(Num(1)) && IsByte(Num(1)) && On1(ys[0]);
    assert Numerator(o, xs, 0, 1) == Numerator(o, xs, 0, 0) == Num(1);
    assert Denominator(o, xs, 0, 1) == Denominator(o, xs, 0, 0) == Num(1);
    assert JsWeight(o, xs, 0) == o.mul(Num(1), Num(1));
    assert CombineSum(o, xs, ys, 0) == Num(0);
  }
}
