/** Polynomials over the field of two elements. A polynomial is the set of its exponents, so that
    addition is symmetric difference. */
module Polynomials {

  import opened Prelude
  import opened Words

  type Poly = set<nat>

  function Plus(a: Poly, b: Poly): (s: Poly)
    ensures forall i :: i in s <==> ((i in a) != (i in b))
  {
    (a - b) + (b - a)
  }

  /** x^k times a. */
  function Raise(a: Poly, k: nat): (s: Poly)
    ensures forall i :: i in s <==> (i >= k && i - k in a)
  {
    set j | j in a :: j + k
  }

  function Scale(b: bool, a: Poly): Poly {
    if b then a else {}
  }

  /** The product of a with the polynomial whose coefficients are q, highest power first. */
  function Times(q: Row, a: Poly): Poly
    decreases |q|
  {
    if |q| == 0 then {} else Plus(Raise(Times(q[..|q| - 1], a), 1), Scale(q[|q| - 1], a))
  }

  /** The polynomial whose coefficients are r, lowest power first. */
  function FromRow(r: Row): (s: Poly)
    ensures forall i :: i in s <==> (0 <= i < |r| && r[i])
  {
    set i | 0 <= i < |r| && r[i]
  }

  /** All exponents are below w. */
  predicate Below(a: Poly, w: nat) {
    forall i :: i in a ==> i < w
  }

  /** rem is what is left of d after division by g, a generator of degree w. */
  ghost predicate IsRemainder(d: Poly, g: Poly, w: nat, rem: Poly) {
    Below(rem, w) && exists q: Row :: d == Plus(Times(q, g), rem)
  }

  lemma RaisePlus(a: Poly, b: Poly, k: nat)
    ensures Raise(Plus(a, b), k) == Plus(Raise(a, k), Raise(b, k))
  {
  }

  lemma RaiseRaise(a: Poly, j: nat, k: nat)
    ensures Raise(Raise(a, j), k) == Raise(a, j + k)
  {
  }

  /** One more coefficient at the low end. */
  lemma FromRowNext(bits: Row)
    requires |bits| > 0
    ensures var n := |bits| - 1;
            FromRow(Reverse(bits)) == Plus(Raise(FromRow(Reverse(bits[..n])), 1), Scale(bits[n], {0}))
  {
  }

  /** One round of long division, in terms of the sets alone. */
  lemma DivisionRound(d: Poly, t: Poly, r: Poly, r': Poly, top: Poly, fed: Poly)
    requires d == Plus(t, r)
    requires Plus(Raise(r, 1), top) == Plus(r', fed)
    ensures Plus(Raise(d, 1), top) == Plus(Plus(Raise(t, 1), fed), r')
  {
  }

  lemma TimesNext(q: Row, f: bool, a: Poly)
    ensures Times(q + [f], a) == Plus(Raise(Times(q, a), 1), Scale(f, a))
  {
  }

  lemma {:induction false} TimesXor(p: Row, q: Row, a: Poly)
    requires |p| == |q|
    ensures Times(Xor(p, q), a) == Plus(Times(p, a), Times(q, a))
    decreases |p|
  {
    if |p| > 0 {
      var n := |p| - 1;
      TimesXor(p[..n], q[..n], a);
      assert Xor(p, q)[..n] == Xor(p[..n], q[..n]);
    }
  }

  lemma {:induction false} TimesPad(q: Row, a: Poly)
    ensures Times([false] + q, a) == Times(q, a)
    decreases |q|
  {
    if |q| == 0 {
      assert ([false] + q)[..0] == [];
    } else {
      var n := |q| - 1;
      TimesPad(q[..n], a);
      assert ([false] + q)[..n + 1] == [false] + q[..n];
    }
  }

  lemma {:induction false} TimesPadTo(q: Row, a: Poly, n: nat) returns (p: Row)
    requires n >= |q|
    ensures |p| == n && Times(p, a) == Times(q, a)
    decreases n
  {
    if n == |q| {
      p := q;
    } else {
      p := TimesPadTo(q, a, n - 1);
      TimesPad(p, a);
      p := [false] + p;
    }
  }

  /** A product with a generator of degree w either vanishes or has degree at least w. */
  lemma {:induction false} ProductDegree(q: Row, g: Poly, w: nat)
    requires w in g && Below(g, w + 1)
    ensures Below(Times(q, g), w + |q|)
    ensures Below(Times(q, g), w) ==> Times(q, g) == {}
    ensures Times(q, g) != {} ==> exists i :: i in Times(q, g) && i >= w
    decreases |q|
  {
    if |q| > 0 {
      var n := |q| - 1;
      var p := Times(q[..n], g);
      ProductDegree(q[..n], g, w);
      if p == {} {
        assert Times(q, g) == Scale(q[n], g);
      } else {
        var i :| i in p && i >= w;
        assert i + 1 in Times(q, g);
      }
    }
  }

  /** Remainders are unique. */
  lemma RemainderUnique(d: Poly, g: Poly, w: nat, r: Poly, s: Poly)
    requires w in g && Below(g, w + 1)
    requires IsRemainder(d, g, w, r) && IsRemainder(d, g, w, s)
    ensures r == s
  {
    var p: Row :| d == Plus(Times(p, g), r);
    var q: Row :| d == Plus(Times(q, g), s);
    var n := |p| + |q|;
    var p' := TimesPadTo(p, g, n);
    var q' := TimesPadTo(q, g, n);
    TimesXor(p', q', g);
    var e := Times(Xor(p', q'), g);
    assert forall i :: i in Plus(r, s) <==> i in e;
    ProductDegree(Xor(p', q'), g, w);
    assert e == {};
    assert forall i :: i in r <==> i in s;
  }

  lemma RaiseInjective(a: Poly, b: Poly)
    requires Raise(a, 1) == Raise(b, 1)
    ensures a == b
  {
    forall i: nat
      ensures i in a <==> i in b
    {
      assert i + 1 in Raise(a, 1) <==> i + 1 in Raise(b, 1);
    }
  }

  /** If a product with an odd generator has no constant term, the quotient has none. */
  lemma LastCoefficient(q: Row, g: Poly, e: Poly, k: nat)
    requires 0 in g && |q| > 0 && Times(q, g) == Raise(e, k + 1)
    ensures Times(q[..|q| - 1], g) == Raise(e, k)
  {
    var p := Times(q[..|q| - 1], g);
    assert 0 !in Raise(e, k + 1) && 0 !in Raise(p, 1);
    assert !q[|q| - 1];
    assert Times(q, g) == Raise(p, 1);
    assert Raise(e, k + 1) == Raise(Raise(e, k), 1);
    RaiseInjective(p, Raise(e, k));
  }

  lemma RaiseNone(e: Poly)
    ensures Raise(e, 0) == e
  {
  }

  lemma NothingRaised(q: Row, g: Poly, e: Poly, k: nat)
    requires |q| == 0 && Times(q, g) == Raise(e, k)
    ensures e == {}
  {
    assert forall i :: i in e ==> i + k in Raise(e, k);
  }

  /** A generator with a constant term does not divide a power of x times something short. */
  lemma {:induction false} OddDividesNoBurst(q: Row, g: Poly, w: nat, e: Poly, k: nat)
    requires w in g && 0 in g && Below(g, w + 1)
    requires Below(e, w) && Times(q, g) == Raise(e, k)
    ensures e == {}
    decreases |q|
  {
    hide Times, Raise;
    if k == 0 {
      RaiseNone(e);
      ProductDegree(q, g, w);
    } else if |q| == 0 {
      NothingRaised(q, g, e, k);
    } else {
      LastCoefficient(q, g, e, k - 1);
      OddDividesNoBurst(q[..|q| - 1], g, w, e, k - 1);
    }
  }
}
