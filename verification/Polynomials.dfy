/**
 Polynomials over an arbitrary field of characteristic two, low coefficient first, and Lagrange
 interpolation. Nothing here knows about bytes: `Shamir` instantiates the field with GF(2^8).
 */
module Polynomials {
  import opened Markers

  datatype Field<!T> = Field(zero: T, one: T, add: (T, T) -> T, mul: (T, T) -> T, inv: T -> T)

  ghost predicate Lawful<T(!new)>(f: Field<T>) {
    && f.zero != f.one
    && (forall a {:trigger On1(a)} :: f.add(a, f.zero) == a && f.add(a, a) == f.zero && f.mul(a, f.one) == a)
    && (forall a {:trigger On1(a)} :: a != f.zero ==> f.mul(a, f.inv(a)) == f.one)
    && (forall a, b {:trigger On2(a, b)} :: f.add(a, b) == f.add(b, a) && f.mul(a, b) == f.mul(b, a))
    && (forall a, b, c {:trigger On3(a, b, c)} :: f.add(f.add(a, b), c) == f.add(a, f.add(b, c)))
    && (forall a, b, c {:trigger On3(a, b, c)} :: f.mul(f.mul(a, b), c) == f.mul(a, f.mul(b, c)))
    && (forall a, b, c {:trigger On3(a, b, c)} :: f.mul(a, f.add(b, c)) == f.add(f.mul(a, b), f.mul(a, c)))
  }

  // ---- consequences of the laws ----

  lemma MulZero<T(!new)>(f: Field<T>, a: T)
    requires Lawful(f)
    ensures f.mul(a, f.zero) == f.zero && f.mul(f.zero, a) == f.zero
  {
    assert On1(f.zero) && On3(a, f.zero, f.zero) && On1(f.mul(a, f.zero)) && On2(a, f.zero);
  }

  lemma AddCancel<T(!new)>(f: Field<T>, a: T, b: T)
    requires Lawful(f)
    ensures f.add(f.add(a, b), b) == a && f.add(a, f.add(a, b)) == b
    ensures f.add(a, b) == f.zero <==> a == b
  {
    assert On1(a) && On1(b) && On3(a, b, b) && On3(a, a, b) && On2(f.zero, b) && On2(f.zero, a);
  }

  lemma AddSwap<T(!new)>(f: Field<T>, a: T, b: T, c: T, d: T)
    requires Lawful(f)
    ensures f.add(f.add(a, b), f.add(c, d)) == f.add(f.add(a, c), f.add(b, d))
  {
    assert On3(a, b, f.add(c, d)) && On3(b, c, d) && On2(b, c) && On3(c, b, d) && On3(a, c, f.add(b, d));
  }

  lemma MulLeftSwap<T(!new)>(f: Field<T>, a: T, b: T, c: T)
    requires Lawful(f)
    ensures f.mul(a, f.mul(b, c)) == f.mul(b, f.mul(a, c))
  {
    assert On3(a, b, c) && On3(b, a, c) && On2(a, b);
  }

  lemma NonZeroProduct<T(!new)>(f: Field<T>, a: T, b: T)
    requires Lawful(f)
    ensures f.mul(a, b) == f.zero <==> a == f.zero || b == f.zero
  {
    MulZero(f, a); MulZero(f, b);
    if a != f.zero && f.mul(a, b) == f.zero {
      assert On1(a) && On2(a, f.inv(a)) && On3(f.inv(a), a, b) && On1(b) && On2(f.one, b);
      MulZero(f, f.inv(a));
    }
  }

  // ---- evaluation ----

  function Eval<T>(f: Field<T>, p: seq<T>, t: T): T {
    if p == [] then f.zero else f.add(p[0], f.mul(t, Eval(f, p[1..], t)))
  }

  function Plus<T>(f: Field<T>, p: seq<T>, q: seq<T>): (r: seq<T>)
    requires |p| == |q|
    ensures |r| == |p|
  {
    seq(|p|, i requires 0 <= i < |p| => f.add(p[i], q[i]))
  }

  function Scale<T>(f: Field<T>, c: T, p: seq<T>): (r: seq<T>)
    ensures |r| == |p|
  {
    seq(|p|, i requires 0 <= i < |p| => f.mul(c, p[i]))
  }

  lemma {:induction false} EvalPlus<T(!new)>(f: Field<T>, p: seq<T>, q: seq<T>, t: T)
    requires Lawful(f) && |p| == |q|
    ensures Eval(f, Plus(f, p, q), t) == f.add(Eval(f, p, t), Eval(f, q, t))
  {
    if p == [] {
      assert On1(f.zero);
    } else {
      var a, b := Eval(f, p[1..], t), Eval(f, q[1..], t);
      assert Plus(f, p, q)[1..] == Plus(f, p[1..], q[1..]);
      EvalPlus(f, p[1..], q[1..], t);
      assert On3(t, a, b);
      AddSwap(f, p[0], q[0], f.mul(t, a), f.mul(t, b));
    }
  }

  lemma {:induction false} EvalScale<T(!new)>(f: Field<T>, c: T, p: seq<T>, t: T)
    requires Lawful(f)
    ensures Eval(f, Scale(f, c, p), t) == f.mul(c, Eval(f, p, t))
  {
    if p == [] {
      MulZero(f, c);
    } else {
      var a := Eval(f, p[1..], t);
      assert Scale(f, c, p)[1..] == Scale(f, c, p[1..]);
      EvalScale(f, c, p[1..], t);
      MulLeftSwap(f, t, c, a);
      assert On3(c, p[0], f.mul(t, a));
    }
  }

  lemma {:induction false} EvalPad<T(!new)>(f: Field<T>, p: seq<T>, n: nat, t: T)
    requires Lawful(f)
    ensures Eval(f, p + seq(n, _ => f.zero), t) == Eval(f, p, t)
    decreases |p| + n
  {
    var pad := p + seq(n, _ => f.zero);
    MulZero(f, t);
    assert On1(f.zero);
    if p != [] {
      assert pad[1..] == p[1..] + seq(n, _ => f.zero);
      EvalPad(f, p[1..], n, t);
    } else if n > 0 {
      assert pad[1..] == [] + seq(n - 1, _ => f.zero);
      EvalPad(f, p, n - 1, t);
    }
  }

  lemma EvalAtZero<T(!new)>(f: Field<T>, p: seq<T>)
    requires Lawful(f) && p != []
    ensures Eval(f, p, f.zero) == p[0]
  {
    MulZero(f, Eval(f, p[1..], f.zero));
    assert On1(p[0]);
  }

  function Power<T>(f: Field<T>, t: T, m: nat): T { if m == 0 then f.one else f.mul(Power(f, t, m - 1), t) }

  /** The sum of p[m] * t^m over m < n. */
  function TermSum<T>(f: Field<T>, p: seq<T>, t: T, n: nat): T
    requires n <= |p|
  {
    if n == 0 then f.zero else f.add(TermSum(f, p, t, n - 1), f.mul(p[n - 1], Power(f, t, n - 1)))
  }

  lemma {:induction false} EvalAppend<T(!new)>(f: Field<T>, p: seq<T>, c: T, t: T)
    requires Lawful(f)
    ensures Eval(f, p + [c], t) == f.add(Eval(f, p, t), f.mul(c, Power(f, t, |p|)))
  {
    if p == [] {
      assert p + [c] == [c];
      MulZero(f, t);
      assert On1(c) && On2(f.zero, c);
    } else {
      var a, e, w := p[0], Eval(f, p[1..], t), Power(f, t, |p| - 1);
      assert (p + [c])[1..] == p[1..] + [c];
      EvalAppend(f, p[1..], c, t);
      assert On3(t, e, f.mul(c, w));
      MulLeftSwap(f, t, c, w);
      assert On2(t, w) && On3(a, f.mul(t, e), f.mul(c, f.mul(w, t)));
    }
  }

  /** Summing the terms one by one evaluates the polynomial. */
  lemma {:induction false} TermSumEval<T(!new)>(f: Field<T>, p: seq<T>, t: T, n: nat)
    requires Lawful(f) && n <= |p|
    ensures TermSum(f, p, t, n) == Eval(f, p[..n], t)
  {
    if n == 0 {
    } else {
      TermSumEval(f, p, t, n - 1);
      assert p[..n] == p[..n - 1] + [p[n - 1]];
      EvalAppend(f, p[..n - 1], p[n - 1], t);
    }
  }

  // ---- roots ----

  /** The quotient of `p` by (x + a): synthetic division. */
  function Quotient<T>(f: Field<T>, p: seq<T>, a: T): (q: seq<T>)
    requires p != []
    ensures |q| == |p| - 1
  {
    if |p| == 1 then [] else [Eval(f, p[1..], a)] + Quotient(f, p[1..], a)
  }

  lemma DivisionStep<T(!new)>(f: Field<T>, c: T, t: T, a: T, r: T, d: T)
    requires Lawful(f)
    ensures f.add(f.mul(f.add(t, a), f.add(r, f.mul(t, d))), f.add(c, f.mul(a, r)))
         == f.add(c, f.mul(t, f.add(f.mul(f.add(t, a), d), r)))
  {
    var s := f.add(t, a);
    var sd := f.mul(s, d);
    var tr, ar, tsd := f.mul(t, r), f.mul(a, r), f.mul(t, sd);
    assert f.mul(s, f.add(r, f.mul(t, d))) == f.add(f.add(tr, ar), tsd) by {
      assert On3(s, r, f.mul(t, d));
      MulLeftSwap(f, s, t, d);
      assert On2(s, r) && On3(r, t, a) && On2(r, t) && On2(r, a);
    }
    assert f.mul(t, f.add(sd, r)) == f.add(tsd, tr) by { assert On3(t, sd, r); }
    calc {
      f.add(f.add(f.add(tr, ar), tsd), f.add(c, ar));
      { AddSwap(f, f.add(tr, ar), tsd, c, ar); }
      f.add(f.add(f.add(tr, ar), c), f.add(tsd, ar));
      { AddSwap(f, tr, ar, c, f.zero); assert On1(c) && On1(ar); }
      f.add(f.add(f.add(tr, c), ar), f.add(tsd, ar));
      { AddSwap(f, f.add(tr, c), ar, tsd, ar); assert On1(ar); }
      f.add(f.add(f.add(tr, c), tsd), f.zero);
      { assert On1(f.add(f.add(tr, c), tsd)) && On2(tr, c) && On3(c, tr, tsd) && On2(tr, tsd); }
      f.add(c, f.add(tsd, tr));
    }
  }

  lemma {:induction false} QuotientEval<T(!new)>(f: Field<T>, p: seq<T>, a: T, t: T)
    requires Lawful(f) && p != []
    ensures Eval(f, p, t) == f.add(f.mul(f.add(t, a), Eval(f, Quotient(f, p, a), t)), Eval(f, p, a))
  {
    if |p| == 1 {
      MulZero(f, t); MulZero(f, a); MulZero(f, f.add(t, a));
      assert On1(p[0]) && On2(f.zero, p[0]);
    } else {
      var q := Quotient(f, p, a);
      assert q[1..] == Quotient(f, p[1..], a);
      QuotientEval(f, p[1..], a, t);
      DivisionStep(f, p[0], t, a, Eval(f, p[1..], a), Eval(f, q[1..], t));
    }
  }

  lemma {:induction false} QuotientZero<T(!new)>(f: Field<T>, p: seq<T>, a: T)
    requires Lawful(f) && p != [] && Eval(f, p, a) == f.zero
    requires Quotient(f, p, a) == seq(|p| - 1, _ => f.zero)
    ensures p == seq(|p|, _ => f.zero)
  {
    MulZero(f, a);
    assert On1(p[0]);
    if |p| <= 1 {
    } else {
      var q := Quotient(f, p, a);
      assert q[0] == f.zero && q[1..] == seq(|p| - 2, _ => f.zero);
      QuotientZero(f, p[1..], a);
    }
  }

  predicate Distinct<T(==)>(xs: seq<T>) { forall i, j :: 0 <= i < j < |xs| ==> xs[i] != xs[j] }

  /** A polynomial with as many distinct roots as coefficients is the zero polynomial. */
  lemma {:induction false} TooManyRoots<T(!new)>(f: Field<T>, p: seq<T>, xs: seq<T>)
    requires Lawful(f) && Distinct(xs) && |xs| == |p|
    requires forall i :: 0 <= i < |xs| ==> Eval(f, p, xs[i]) == f.zero
    ensures p == seq(|p|, _ => f.zero)
    decreases |p|
  {
    if p == [] {
    } else {
      var a, rest := xs[0], xs[1..];
      var q := Quotient(f, p, a);
      forall i | 0 <= i < |rest| ensures Eval(f, q, rest[i]) == f.zero {
        assert rest[i] == xs[i + 1] && a != rest[i];
        QuotientEval(f, p, a, rest[i]);
        assert On1(f.mul(f.add(rest[i], a), Eval(f, q, rest[i])));
        AddCancel(f, rest[i], a);
        NonZeroProduct(f, f.add(rest[i], a), Eval(f, q, rest[i]));
      }
      TooManyRoots(f, q, rest);
      QuotientZero(f, p, a);
    }
  }

  /** At most one polynomial of a given length passes through that many distinct points. */
  lemma Unique<T(!new)>(f: Field<T>, p: seq<T>, q: seq<T>, xs: seq<T>)
    requires Lawful(f) && Distinct(xs) && |p| == |q| == |xs|
    requires forall i :: 0 <= i < |xs| ==> Eval(f, p, xs[i]) == Eval(f, q, xs[i])
    ensures p == q
  {
    var d := Plus(f, p, q);
    forall i | 0 <= i < |xs| ensures Eval(f, d, xs[i]) == f.zero {
      EvalPlus(f, p, q, xs[i]);
      AddCancel(f, Eval(f, p, xs[i]), Eval(f, q, xs[i]));
    }
    TooManyRoots(f, d, xs);
    forall i | 0 <= i < |p| ensures p[i] == q[i] {
      assert d[i] == f.zero;
      AddCancel(f, p[i], q[i]);
    }
  }

  // ---- Lagrange interpolation ----

  /** The product of (t + xs[m]) over the first n indices m other than `skip`. */
  function Spread<T>(f: Field<T>, xs: seq<T>, skip: nat, n: nat, t: T): T
    requires n <= |xs|
  {
    if n == 0 then f.one
    else if n - 1 == skip then Spread(f, xs, skip, n - 1, t)
    else f.mul(Spread(f, xs, skip, n - 1, t), f.add(t, xs[n - 1]))
  }

  /** Coefficients of that product. */
  function Nodes<T>(f: Field<T>, xs: seq<T>, skip: nat, n: nat): (p: seq<T>)
    requires n <= |xs|
    ensures |p| == if skip < n then n else n + 1
  {
    if n == 0 then [f.one]
    else
      var p := Nodes(f, xs, skip, n - 1);
      if n - 1 == skip then p else TimesLinear(f, p, xs[n - 1])
  }

  /** (x + a) times p. */
  function TimesLinear<T>(f: Field<T>, p: seq<T>, a: T): (r: seq<T>)
    ensures |r| == |p| + 1
  {
    Plus(f, [f.zero] + p, Scale(f, a, p) + [f.zero])
  }

  lemma TimesLinearEval<T(!new)>(f: Field<T>, p: seq<T>, a: T, t: T)
    requires Lawful(f)
    ensures Eval(f, TimesLinear(f, p, a), t) == f.mul(Eval(f, p, t), f.add(t, a))
  {
    var e := Eval(f, p, t);
    assert Eval(f, [f.zero] + p, t) == f.mul(t, e) by {
      assert ([f.zero] + p)[1..] == p;
      assert On2(f.zero, f.mul(t, e)) && On1(f.mul(t, e));
    }
    assert Eval(f, Scale(f, a, p) + [f.zero], t) == f.mul(a, e) by {
      assert Scale(f, a, p) + [f.zero] == Scale(f, a, p) + seq(1, _ => f.zero);
      EvalPad(f, Scale(f, a, p), 1, t);
      EvalScale(f, a, p, t);
    }
    EvalPlus(f, [f.zero] + p, Scale(f, a, p) + [f.zero], t);
    assert On3(e, t, a) && On2(e, t) && On2(e, a);
  }

  lemma EvalConstant<T(!new)>(f: Field<T>, c: T, t: T)
    requires Lawful(f)
    ensures Eval(f, [c], t) == c
  {
    MulZero(f, t);
    assert On1(c);
  }

  lemma NodesStep<T(!new)>(f: Field<T>, xs: seq<T>, skip: nat, n: nat, t: T)
    requires Lawful(f) && 0 < n <= |xs|
    ensures Eval(f, Nodes(f, xs, skip, n), t) ==
            var e := Eval(f, Nodes(f, xs, skip, n - 1), t);
            if n - 1 == skip then e else f.mul(e, f.add(t, xs[n - 1]))
  {
    var p := Nodes(f, xs, skip, n - 1);
    TimesLinearEval(f, p, xs[n - 1], t);
  }

  lemma {:induction false} NodesEval<T(!new)>(f: Field<T>, xs: seq<T>, skip: nat, n: nat, t: T)
    requires Lawful(f) && n <= |xs|
    ensures Eval(f, Nodes(f, xs, skip, n), t) == Spread(f, xs, skip, n, t)
  {
    if n == 0 {
      EvalConstant(f, f.one, t);
    } else {
      NodesEval(f, xs, skip, n - 1, t);
      NodesStep(f, xs, skip, n, t);
    }
  }

  /** The product vanishes exactly when t is one of the nodes it ranges over. */
  lemma {:induction false} SpreadZero<T(!new)>(f: Field<T>, xs: seq<T>, skip: nat, n: nat, t: T)
    requires Lawful(f) && n <= |xs|
    ensures Spread(f, xs, skip, n, t) == f.zero <==> exists m :: 0 <= m < n && m != skip && xs[m] == t
  {
    if n == 0 {
    } else {
      SpreadZero(f, xs, skip, n - 1, t);
      if n - 1 != skip {
        NonZeroProduct(f, Spread(f, xs, skip, n - 1, t), f.add(t, xs[n - 1]));
        AddCancel(f, t, xs[n - 1]);
      }
    }
  }

  /** The weight of point j when interpolating at t. */
  function Weight<T>(f: Field<T>, xs: seq<T>, j: nat, t: T): T
    requires j < |xs|
  {
    f.mul(Spread(f, xs, j, |xs|, t), f.inv(Spread(f, xs, j, |xs|, xs[j])))
  }

  /** The value at t of the Lagrange sum over the first n points. */
  function Lagrange<T>(f: Field<T>, xs: seq<T>, ys: seq<T>, n: nat, t: T): T
    requires n <= |xs| == |ys|
  {
    if n == 0 then f.zero
    else f.add(Lagrange(f, xs, ys, n - 1, t), f.mul(ys[n - 1], Weight(f, xs, n - 1, t)))
  }

  /** Coefficients of the Lagrange sum. */
  function Interpolant<T>(f: Field<T>, xs: seq<T>, ys: seq<T>, n: nat): (p: seq<T>)
    requires n <= |xs| == |ys|
    ensures |p| == |xs|
  {
    if n == 0 then seq(|xs|, _ => f.zero)
    else
      var c := f.mul(ys[n - 1], f.inv(Spread(f, xs, n - 1, |xs|, xs[n - 1])));
      Plus(f, Interpolant(f, xs, ys, n - 1), Scale(f, c, Nodes(f, xs, n - 1, |xs|)))
  }

  lemma {:induction false} InterpolantEval<T(!new)>(f: Field<T>, xs: seq<T>, ys: seq<T>, n: nat, t: T)
    requires Lawful(f) && n <= |xs| == |ys|
    ensures Eval(f, Interpolant(f, xs, ys, n), t) == Lagrange(f, xs, ys, n, t)
  {
    if n == 0 {
      assert Interpolant(f, xs, ys, 0) == [] + seq(|xs|, _ => f.zero);
      EvalPad(f, [], |xs|, t);
    } else {
      var j := n - 1;
      var y, i := ys[j], f.inv(Spread(f, xs, j, |xs|, xs[j]));
      InterpolantEval(f, xs, ys, j, t);
      EvalPlus(f, Interpolant(f, xs, ys, j), Scale(f, f.mul(y, i), Nodes(f, xs, j, |xs|)), t);
      EvalScale(f, f.mul(y, i), Nodes(f, xs, j, |xs|), t);
      NodesEval(f, xs, j, |xs|, t);
      var s := Spread(f, xs, j, |xs|, t);
      assert On3(y, i, s) && On2(i, s);
    }
  }

  /** The weight of point j is one at its own node and zero at every other. */
  lemma WeightAtNode<T(!new)>(f: Field<T>, xs: seq<T>, j: nat, i: nat)
    requires Lawful(f) && i < |xs| && j < |xs| && Distinct(xs)
    ensures Weight(f, xs, j, xs[i]) == if i == j then f.one else f.zero
  {
    var num, den := Spread(f, xs, j, |xs|, xs[i]), Spread(f, xs, j, |xs|, xs[j]);
    if i == j {
      SpreadZero(f, xs, j, |xs|, xs[j]);
      assert On1(den);
    } else {
      SpreadZero(f, xs, j, |xs|, xs[i]);
      MulZero(f, f.inv(den));
    }
  }

  lemma {:induction false} LagrangeAtNode<T(!new)>(f: Field<T>, xs: seq<T>, ys: seq<T>, n: nat, i: nat)
    requires Lawful(f) && n <= |xs| == |ys| && i < |xs| && Distinct(xs)
    ensures Lagrange(f, xs, ys, n, xs[i]) == if i < n then ys[i] else f.zero
  {
    if n == 0 {
    } else {
      LagrangeAtNode(f, xs, ys, n - 1, i);
      WeightAtNode(f, xs, n - 1, i);
      MulZero(f, ys[n - 1]);
      assert On1(ys[n - 1]) && On2(f.zero, ys[n - 1]) && On1(Lagrange(f, xs, ys, n - 1, xs[i]));
    }
  }

  /** Through any points with distinct abscissae there is a polynomial with one coefficient a point. */
  lemma InterpolantThrough<T(!new)>(f: Field<T>, xs: seq<T>, ys: seq<T>)
    requires Lawful(f) && Distinct(xs) && |xs| == |ys|
    ensures forall i :: 0 <= i < |xs| ==> Eval(f, Interpolant(f, xs, ys, |xs|), xs[i]) == ys[i]
  {
    forall i | 0 <= i < |xs| ensures Eval(f, Interpolant(f, xs, ys, |xs|), xs[i]) == ys[i] {
      InterpolantEval(f, xs, ys, |xs|, xs[i]);
      LagrangeAtNode(f, xs, ys, |xs|, i);
    }
  }

  /**
   Lagrange interpolation recovers any polynomial that has no more coefficients than there are
   points: the sum at t is the polynomial's own value at t.
   */
  lemma LagrangeRecovers<T(!new)>(f: Field<T>, p: seq<T>, xs: seq<T>, ys: seq<T>, t: T)
    requires Lawful(f) && Distinct(xs) && |p| <= |xs| == |ys|
    requires forall i :: 0 <= i < |xs| ==> ys[i] == Eval(f, p, xs[i])
    ensures Lagrange(f, xs, ys, |xs|, t) == Eval(f, p, t)
  {
    var full := p + seq(|xs| - |p|, _ => f.zero);
    var q := Interpolant(f, xs, ys, |xs|);
    InterpolantThrough(f, xs, ys);
    forall i | 0 <= i < |xs| ensures Eval(f, full, xs[i]) == Eval(f, q, xs[i]) {
      EvalPad(f, p, |xs| - |p|, xs[i]);
    }
    Unique(f, full, q, xs);
    EvalPad(f, p, |xs| - |p|, t);
    InterpolantEval(f, xs, ys, |xs|, t);
  }

  /** A polynomial with n coefficients, constant term `s`, through the given points. */
  function Fitting<T>(f: Field<T>, s: T, xs: seq<T>, ys: seq<T>, n: nat): (p: seq<T>)
    requires |xs| == |ys| < n
    ensures |p| == n
  {
    Interpolant(f, [f.zero] + xs, [s] + ys, |xs| + 1) + seq(n - |xs| - 1, _ => f.zero)
  }

  lemma FittingPasses<T(!new)>(f: Field<T>, s: T, xs: seq<T>, ys: seq<T>, n: nat, i: nat)
    requires Lawful(f) && |xs| == |ys| < n && Distinct([f.zero] + xs) && i <= |xs|
    ensures Eval(f, Fitting(f, s, xs, ys, n), ([f.zero] + xs)[i]) == ([s] + ys)[i]
  {
    var nodes, values := [f.zero] + xs, [s] + ys;
    InterpolantThrough(f, nodes, values);
    EvalPad(f, Interpolant(f, nodes, values, |nodes|), n - |nodes|, nodes[i]);
  }
}
