/** XOR-style groups and the polynomials in one of their endomorphisms. */
module Endomorphisms {
  import opened Markers

  datatype Group<!T> = Group(zero: T, add: (T, T) -> T)

  ghost predicate Abelian<T(!new)>(g: Group<T>) {
    && (forall p {:trigger On2(p, p)} :: g.add(g.zero, p) == p && g.add(p, g.zero) == p)
    && (forall p, q, r, s {:trigger On4(p, q, r, s)} ::
          g.add(g.add(p, q), g.add(r, s)) == g.add(g.add(p, r), g.add(q, s)))
  }
  ghost predicate Additive<T(!new)>(g: Group<T>, x: T -> T) {
    && x(g.zero) == g.zero
    && forall p, q {:trigger On2(p, q)} :: x(g.add(p, q)) == g.add(x(p), x(q))
  }
  function Keep<T>(g: Group<T>, on: bool, b: T): T { if on then b else g.zero }

  /** `bits`, low bit first, read as a polynomial in `x`, applied to `b`. */
  function Apply<T>(g: Group<T>, x: T -> T, bits: seq<bool>, b: T): T {
    if bits == [] then g.zero else g.add(Keep(g, bits[0], b), Apply(g, x, bits[1..], x(b)))
  }

  lemma {:induction false} ApplyAdditive<T(!new)>(g: Group<T>, x: T -> T, bits: seq<bool>, b: T, c: T)
    requires Abelian(g) && Additive(g, x)
    ensures Apply(g, x, bits, g.add(b, c)) == g.add(Apply(g, x, bits, b), Apply(g, x, bits, c))
  {
    assert On2(g.zero, g.zero) && On2(b, c);
    if bits == [] {
    } else {
      ApplyAdditive(g, x, bits[1..], x(b), x(c));
      assert On4(Keep(g, bits[0], b), Keep(g, bits[0], c), Apply(g, x, bits[1..], x(b)), Apply(g, x, bits[1..], x(c)));
    }
  }

  lemma {:induction false} ApplyZero<T(!new)>(g: Group<T>, x: T -> T, bits: seq<bool>)
    requires Abelian(g) && Additive(g, x)
    ensures Apply(g, x, bits, g.zero) == g.zero
  {
    assert On2(g.zero, g.zero);
    if bits == [] {
    } else {
      ApplyZero(g, x, bits[1..]);
    }
  }
  lemma {:induction false} ApplyCommutes<T(!new)>(g: Group<T>, x: T -> T, bits: seq<bool>, b: T)
    requires Abelian(g) && Additive(g, x)
    ensures Apply(g, x, bits, x(b)) == x(Apply(g, x, bits, b))
  {
    if bits == [] {
    } else {
      ApplyCommutes(g, x, bits[1..], x(b));
      assert On2(Keep(g, bits[0], b), Apply(g, x, bits[1..], x(b)));
    }
  }
  lemma {:induction false} ApplySwap<T(!new)>(g: Group<T>, x: T -> T, xs: seq<bool>, ys: seq<bool>, c: T)
    requires Abelian(g) && Additive(g, x)
    ensures Apply(g, x, xs, Apply(g, x, ys, c)) == Apply(g, x, ys, Apply(g, x, xs, c))
    decreases |ys|
  {
    ApplyZero(g, x, xs);
    if ys == [] {
    } else {
      ApplyAdditive(g, x, xs, Keep(g, ys[0], c), Apply(g, x, ys[1..], x(c)));
      ApplySwap(g, x, xs, ys[1..], x(c));
      ApplyCommutes(g, x, xs, c);
    }
  }
}
