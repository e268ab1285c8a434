/** Short bursts of errors never go unnoticed. */
module CrcBursts {

  import opened Prelude
  import opened Words
  import opened Polynomials
  import opened CrcDriver
  import opened CrcRemainder

  /** Two bit strings that agree outside a window differ by a power of x times that window. */
  lemma WindowDifference(pre: Row, a: Row, b: Row, post: Row)
    requires |a| == |b|
    ensures Plus(FromRow(Reverse(pre + a + post)), FromRow(Reverse(pre + b + post)))
         == Raise(FromRow(Reverse(Xor(a, b))), |post|)
  {
  }

  lemma DividendDifference(r: Row, s: Row, t: Row)
    requires |s| == |t|
    ensures Plus(Dividend(r, s), Dividend(r, t))
         == Raise(Plus(FromRow(Reverse(s)), FromRow(Reverse(t))), |r|)
  {
  }

  /** Equal registers mean that the generator divides the difference of the two messages. */
  lemma EqualRegisters(p: Row, r: Row, s: Row, t: Row) returns (q: Row)
    requires |p| == |r| > 0 && |s| == |t| && Feed(p, r, s) == Feed(p, r, t)
    ensures Times(q, FromRow(p) + {|r|}) == Raise(Plus(FromRow(Reverse(s)), FromRow(Reverse(t))), |r|)
  {
    var g := FromRow(p) + {|r|};
    FeedDivides(p, r, s);
    FeedDivides(p, r, t);
    DividendDifference(r, s, t);
    var x, y := Quotient(p, r, s), Quotient(p, r, t);
    TimesXor(x, y, g);
    CommonTerm(Times(x, g), Times(y, g), FromRow(Feed(p, r, s)));
    q := Xor(x, y);
  }

  lemma NoShortDifference(p: Row, r: Row, s: Row, t: Row, e: Poly, k: nat)
    requires |p| == |r| > 0 && p[0] && |s| == |t| && Feed(p, r, s) == Feed(p, r, t)
    requires Below(e, |r|) && Plus(FromRow(Reverse(s)), FromRow(Reverse(t))) == Raise(e, k)
    ensures e == {}
  {
    var q := EqualRegisters(p, r, s, t);
    RaiseRaise(e, k, |r|);
    OddDividesNoBurst(q, FromRow(p) + {|r|}, |r|, e, k + |r|);
  }

  /** Bit strings that differ within |r| consecutive bits leave different registers, when the
      generator has a constant term. */
  lemma BurstChangesRegister(p: Row, r: Row, pre: Row, a: Row, b: Row, post: Row)
    requires |p| == |r| > 0 && p[0]
    requires |a| == |b| <= |r| && a != b
    ensures Feed(p, r, pre + a + post) != Feed(p, r, pre + b + post)
  {
    var s, t := pre + a + post, pre + b + post;
    if Feed(p, r, s) == Feed(p, r, t) {
      WindowDifference(pre, a, b, post);
      NoShortDifference(p, r, s, t, FromRow(Reverse(Xor(a, b))), |post|);
      SameRow(a, b);
    }
  }

  lemma CommonTerm(x: Poly, y: Poly, z: Poly)
    ensures Plus(Plus(x, z), Plus(y, z)) == Plus(x, y)
  {
  }

  lemma SameRow(a: Row, b: Row)
    requires |a| == |b| && FromRow(Reverse(Xor(a, b))) == {}
    ensures a == b
  {
    var e := FromRow(Reverse(Xor(a, b)));
    forall i | 0 <= i < |a|
      ensures a[i] == b[i]
    {
      assert |a| - 1 - i in e <==> a[i] != b[i];
    }
  }

  /** x^n times a, as a product. */
  lemma TimesOne(a: Poly)
    ensures Times([true] + Zeros(0), a) == Raise(a, 0)
  {
    hide Times, Raise, Plus;
    assert [true] + Zeros(0) == [] + [true];
    TimesNext([], true, a);
    NoneAndAll(a);
  }

  lemma NoneAndAll(a: Poly)
    ensures Plus(Raise(Times([], a), 1), Scale(true, a)) == a == Raise(a, 0)
  {
    assert Raise(Times([], a), 1) == {};
  }

  lemma TimesX(q: Row, a: Poly)
    ensures Times(q + [false], a) == Raise(Times(q, a), 1)
  {
    TimesNext(q, false, a);
  }

  lemma {:induction false} TimesPower(a: Poly, n: nat)
    ensures Times([true] + Zeros(n), a) == Raise(a, n)
    decreases n
  {
    hide Times, Raise;
    if n == 0 {
      TimesOne(a);
    } else {
      TimesPower(a, n - 1);
      assert [true] + Zeros(n) == ([true] + Zeros(n - 1)) + [false];
      TimesX([true] + Zeros(n - 1), a);
      RaiseRaise(a, n - 1, 1);
    }
  }

  /** Adding a multiple of the generator to the dividend leaves the remainder alone. */
  lemma SameRemainder(d: Poly, d': Poly, m: Row, q: Row, g: Poly, w: nat, rem: Poly)
    requires Plus(d, d') == Times(m, g) && d' == Plus(Times(q, g), rem) && Below(rem, w)
    ensures IsRemainder(d, g, w, rem)
  {
    var n := |m| + |q|;
    var m' := TimesPadTo(m, g, n);
    var q' := TimesPadTo(q, g, n);
    TimesXor(m', q', g);
    forall i: nat
      ensures i in d <==> i in Plus(Times(Xor(m', q'), g), rem)
    {
      assert i in Plus(d, d') <==> i in Times(m, g);
    }
    assert d == Plus(Times(Xor(m', q'), g), rem);
  }

  lemma HalfGenerator(p: Row)
    requires |p| > 0 && !p[0]
    ensures Raise(FromRow(p[1..] + [true]), 1) == FromRow(p) + {|p|}
  {
  }

  /** The bits of the generator divided by x, against as many zeros. */
  lemma HalfIsMultiple(p: Row, r: Row)
    requires |p| == |r| > 0 && !p[0]
    ensures var w := |r|;
            Plus(Dividend(r, Reverse(p[1..] + [true])), Dividend(r, Zeros(w)))
            == Times([true] + Zeros(w - 1), FromRow(p) + {w})
  {
    var w := |r|;
    var half := FromRow(p[1..] + [true]);
    DividendDifference(r, Reverse(p[1..] + [true]), Zeros(w));
    assert Reverse(Reverse(p[1..] + [true])) == p[1..] + [true];
    assert FromRow(Reverse(Zeros(w))) == {};
    assert Plus(half, {}) == half;
    HalfGenerator(p);
    RaiseRaise(half, 1, w - 1);
    TimesPower(FromRow(p) + {w}, w - 1);
  }

  lemma FromRowInjective(a: Row, b: Row)
    requires |a| == |b| && FromRow(a) == FromRow(b)
    ensures a == b
  {
  }

  /** Without a constant term the generator misses a burst of |r| bits: the message bits that spell
      the generator divided by x leave the register as zeros would. */
  lemma EvenMissesBurst(p: Row, r: Row)
    requires |p| == |r| > 0 && !p[0]
    ensures var b := Reverse(p[1..] + [true]);
            |b| == |r| && b != Zeros(|r|) && Feed(p, r, b) == Feed(p, r, Zeros(|r|))
  {
    hide Feed, FromRow, Dividend, Quotient, Times, Raise, Plus, IsRemainder;
    var w, g := |r|, FromRow(p) + {|r|};
    var z, b := Zeros(w), Reverse(p[1..] + [true]);
    assert b[0] && !z[0];
    HalfIsMultiple(p, r);
    EqualFeeds(p, r, b, z, [true] + Zeros(w - 1));
  }

  /** Two bit strings whose dividends differ by a multiple of the generator leave the same register. */
  lemma EqualFeeds(p: Row, r: Row, b: Row, z: Row, m: Row)
    requires |p| == |r| > 0 && |b| == |z|
    requires Plus(Dividend(r, b), Dividend(r, z)) == Times(m, FromRow(p) + {|r|})
    ensures Feed(p, r, b) == Feed(p, r, z)
  {
    hide Feed, Dividend, Quotient, Times, Raise;
    var w, g := |r|, FromRow(p) + {|r|};
    FeedDivides(p, r, b);
    FeedDivides(p, r, z);
    var x, y := FromRow(Feed(p, r, z)), FromRow(Feed(p, r, b));
    SameRemainder(Dividend(r, b), Dividend(r, z), m, Quotient(p, r, z), g, w, x);
    RemainderUnique(Dividend(r, b), g, w, x, y);
    FromRowInjective(Feed(p, r, z), Feed(p, r, b));
  }

  // ---- bytes ----

  lemma {:induction false} MsgBitsSplit(c: Config, a: seq<Byte>, b: seq<Byte>)
    ensures MsgBits(c, a + b) == MsgBits(c, a) + MsgBits(c, b)
    decreases |a|
  {
    hide Ordered, Reverse;
    if |a| == 0 {
      assert a + b == b;
    } else {
      MsgBitsSplit(c, a[1..], b);
      assert (a + b)[1..] == a[1..] + b;
    }
  }

  lemma OrderedInjective(c: Config, d: Byte, e: Byte)
    requires Reverse(Ordered(c, d)) == Reverse(Ordered(c, e))
    ensures d == e
  {
    assert Reverse(Reverse(Ordered(c, d))) == Ordered(c, d);
    assert Reverse(Reverse(Ordered(c, e))) == Ordered(c, e);
    assert Reverse(Reverse(d)) == d && Reverse(Reverse(e)) == e;
  }

  lemma {:induction false} MsgBitsInjective(c: Config, a: seq<Byte>, b: seq<Byte>)
    requires |a| == |b| && MsgBits(c, a) == MsgBits(c, b)
    ensures a == b
    decreases |a|
  {
    if |a| > 0 {
      var x, y := Reverse(Ordered(c, a[0])), Reverse(Ordered(c, b[0]));
      assert x == MsgBits(c, a)[..8] && y == MsgBits(c, b)[..8];
      assert MsgBits(c, a[1..]) == MsgBits(c, a)[8..] && MsgBits(c, b[1..]) == MsgBits(c, b)[8..];
      OrderedInjective(c, a[0], b[0]);
      MsgBitsInjective(c, a[1..], b[1..]);
      assert a == [a[0]] + a[1..] && b == [b[0]] + b[1..];
    }
  }

  /** The reported value determines the register bits below the polynomial size. */
  lemma OutputInjective(c: Config, r: Word, s: Word)
    requires Valid(c) && Output(c, r) == Output(c, s)
    ensures r[..c.polySize] == s[..c.polySize]
  {
    hide Output;
    forall i | 0 <= i < c.polySize ensures r[i] == s[i] {
      OutputBit(c, r, i);
      OutputBit(c, s, i);
    }
  }

  /**
   * Messages whose bits, in the order in which they are fed, differ only inside polySize consecutive
   * places have different checksums, for every generator with a constant term.
   */
  lemma BitBurstDetected(c: Config, s: seq<Byte>, t: seq<Byte>, pre: Row, a: Row, b: Row, post: Row)
    requires Valid(c) && c.table.None? && c.poly[0]
    requires MsgBits(c, s) == pre + a + post && MsgBits(c, t) == pre + b + post
    requires |a| == |b| <= c.polySize && a != b
    ensures Checksum(c, s) != Checksum(c, t)
  {
    hide Output, Run, MsgBits, Feed;
    var w := c.polySize;
    if Checksum(c, s) == Checksum(c, t) {
      OutputInjective(c, Run(c, c.initialVal, s), Run(c, c.initialVal, t));
      RunFeeds(c, c.initialVal, s);
      RunFeeds(c, c.initialVal, t);
      BurstChangesRegister(c.poly[..w], c.initialVal[..w], pre, a, b, post);
    }
  }

  lemma WindowBits(c: Config, pre: seq<Byte>, a: seq<Byte>, post: seq<Byte>)
    ensures MsgBits(c, pre + a + post) == MsgBits(c, pre) + MsgBits(c, a) + MsgBits(c, post)
    ensures |MsgBits(c, a)| == 8 * |a|
  {
    MsgBitsSplit(c, pre + a, post);
    MsgBitsSplit(c, pre, a);
    MsgBitsSize(c, a);
  }

  /** In particular messages that differ only inside polySize / 8 consecutive bytes. */
  lemma BurstDetected(c: Config, pre: seq<Byte>, a: seq<Byte>, b: seq<Byte>, post: seq<Byte>)
    requires Valid(c) && c.table.None? && c.poly[0]
    requires |a| == |b| <= c.polySize / 8 && a != b
    ensures Checksum(c, pre + a + post) != Checksum(c, pre + b + post)
  {
    hide Checksum, MsgBits;
    WindowBits(c, pre, a, post);
    WindowBits(c, pre, b, post);
    if MsgBits(c, a) == MsgBits(c, b) {
      MsgBitsInjective(c, a, b);
    }
    BitBurstDetected(c, pre + a + post, pre + b + post,
      MsgBits(c, pre), MsgBits(c, a), MsgBits(c, b), MsgBits(c, post));
  }
}
