/** The bitwise engine is polynomial division: its register is the remainder of the message, and
    every short burst of errors changes it. */
module CrcRemainder {

  import opened Prelude
  import opened Words
  import opened Polynomials
  import opened CrcDriver

  /** The generator: the configured coefficients below x^polySize, and x^polySize itself. */
  function Generator(c: Config): Poly
    requires Valid(c)
  {
    FromRow(c.poly[..c.polySize]) + {c.polySize}
  }

  /** The bits of a message in the order in which they enter the division. */
  function MsgBits(c: Config, msg: seq<Byte>): Row
    decreases |msg|
  {
    if |msg| == 0 then [] else Reverse(Ordered(c, msg[0])) + MsgBits(c, msg[1..])
  }

  // ---- division one message bit at a time ----

  /** One message bit enters a register of |r| bits. */
  function FeedStep(p: Row, r: Row, b: bool): (s: Row)
    requires |p| == |r| > 0
    ensures |s| == |r|
  {
    if r[|r| - 1] != b then Xor(Shl(r, 1), p) else Shl(r, 1)
  }

  function Feed(p: Row, r: Row, bits: Row): (s: Row)
    requires |p| == |r| > 0
    ensures |s| == |r|
    decreases |bits|
  {
    if |bits| == 0 then r else FeedStep(p, Feed(p, r, bits[..|bits| - 1]), bits[|bits| - 1])
  }

  /** The quotient: the bits that were fed back. */
  function Quotient(p: Row, r: Row, bits: Row): (q: Row)
    requires |p| == |r| > 0
    ensures |q| == |bits|
    decreases |bits|
  {
    if |bits| == 0 then [] else
      var n := |bits| - 1;
      Quotient(p, r, bits[..n]) + [Feed(p, r, bits[..n])[|r| - 1] != bits[n]]
  }

  /** The start value above the message bits, plus the message bits times x^|r|. */
  function Dividend(r: Row, bits: Row): Poly {
    Plus(Raise(FromRow(r), |bits|), Raise(FromRow(Reverse(bits)), |r|))
  }

  /** One bit of a register that is fed a bit. */
  lemma FeedStepBit(p: Row, s: Row, b: bool, i: nat)
    requires |p| == |s| > 0 && i < |s|
    ensures FeedStep(p, s, b)[i] == ((i > 0 && s[i - 1]) != ((s[|s| - 1] != b) && p[i]))
  {
    hide Xor, Shl, Zeros;
    var shifted := Shl(s, 1);
    assert shifted[i] == (i > 0 && s[i - 1]);
    if s[|s| - 1] != b {
      assert Xor(shifted, p)[i] == (shifted[i] != p[i]);
    }
  }

  lemma FeedStepPoly(p: Row, r: Row, b: bool)
    requires |p| == |r| > 0
    ensures var w := |r|;
            Plus(Raise(FromRow(r), 1), Scale(b, {w}))
              == Plus(FromRow(FeedStep(p, r, b)), Scale(r[w - 1] != b, FromRow(p) + {w}))
  {
    hide Plus, Raise, FromRow, FeedStep;
    var w := |r|;
    var left := Plus(Raise(FromRow(r), 1), Scale(b, {w}));
    var right := Plus(FromRow(FeedStep(p, r, b)), Scale(r[w - 1] != b, FromRow(p) + {w}));
    forall i: nat ensures i in left <==> i in right {
      if i < w {
        FeedStepBit(p, r, b, i);
      }
    }
  }

  lemma DividendStep(r: Row, bits: Row)
    requires |r| > 0 && |bits| > 0
    ensures var n := |bits| - 1;
            Dividend(r, bits) == Plus(Raise(Dividend(r, bits[..n]), 1), Scale(bits[n], {|r|}))
  {
    var n := |bits| - 1;
    FromRowNext(bits);
    ShiftedSum(FromRow(r), FromRow(Reverse(bits[..n])), n, |r|, Scale(bits[n], {0}), Scale(bits[n], {|r|}));
  }

  lemma ShiftedSum(a: Poly, m: Poly, n: nat, w: nat, one: Poly, top: Poly)
    requires top == Raise(one, w)
    ensures Plus(Raise(a, n + 1), Raise(Plus(Raise(m, 1), one), w))
      == Plus(Raise(Plus(Raise(a, n), Raise(m, w)), 1), top)
  {
    RaisePlus(Raise(m, 1), one, w);
    RaiseRaise(m, 1, w);
    RaiseRaise(m, w, 1);
    RaisePlus(Raise(a, n), Raise(m, w), 1);
    RaiseRaise(a, n, 1);
    PlusPlus(Raise(a, n + 1), Raise(m, w + 1), top);
  }

  lemma PlusPlus(a: Poly, b: Poly, c: Poly)
    ensures Plus(a, Plus(b, c)) == Plus(Plus(a, b), c)
  {
  }

  lemma DivideRound(p: Row, r: Row, bits: Row)
    requires |p| == |r| > 0 && |bits| > 0
    requires var init := bits[..|bits| - 1];
             Dividend(r, init) == Plus(Times(Quotient(p, r, init), FromRow(p) + {|r|}), FromRow(Feed(p, r, init)))
    ensures Dividend(r, bits) == Plus(Times(Quotient(p, r, bits), FromRow(p) + {|r|}), FromRow(Feed(p, r, bits)))
  {
    var w, g, n := |r|, FromRow(p) + {|r|}, |bits| - 1;
    var s, q := Feed(p, r, bits[..n]), Quotient(p, r, bits[..n]);
    var f := s[w - 1] != bits[n];
    DividendStep(r, bits);
    FeedStepPoly(p, s, bits[n]);
    TimesNext(q, f, g);
    DivisionRound(Dividend(r, bits[..n]), Times(q, g), FromRow(s), FromRow(FeedStep(p, s, bits[n])),
      Scale(bits[n], {w}), Scale(f, g));
  }

  lemma {:induction false} FeedDivides(p: Row, r: Row, bits: Row)
    requires |p| == |r| > 0
    ensures Dividend(r, bits) == Plus(Times(Quotient(p, r, bits), FromRow(p) + {|r|}), FromRow(Feed(p, r, bits)))
    decreases |bits|
  {
    if |bits| == 0 {
      assert Raise(FromRow(r), 0) == FromRow(r);
    } else {
      FeedDivides(p, r, bits[..|bits| - 1]);
      DivideRound(p, r, bits);
    }
  }

  lemma {:induction false} FeedSplit(p: Row, r: Row, a: Row, b: Row)
    requires |p| == |r| > 0
    ensures Feed(p, r, a + b) == Feed(p, Feed(p, r, a), b)
    decreases |b|
  {
    if |b| == 0 {
      assert a + b == a;
    } else {
      FeedSplit(p, r, a, b[..|b| - 1]);
      assert (a + b)[..|a + b| - 1] == a + b[..|b| - 1];
    }
  }

  // ---- eight division steps feed eight message bits ----

  /** A byte at the top of w bits. */
  function OnTop(e: Byte, w: nat): (r: Row)
    requires 8 <= w
    ensures |r| == w
  {
    Zeros(w - 8) + e
  }

  lemma OnTopBit(s: Row, e: Byte, w: nat, i: nat)
    requires 8 <= w && |s| == w && i < w
    ensures Xor(s, OnTop(e, w))[i] == (s[i] != (i >= w - 8 && e[i - (w - 8)]))
  {
    hide Xor, Shl, Zeros;
  }

  /** One bit of a division step. */
  lemma DivStepBit(poly: Word, w: nat, x: Word, i: nat)
    requires 8 <= w <= 32 && i < w
    ensures DivStep(poly, w, x)[i] == ((i > 0 && x[i - 1]) != (x[w - 1] && poly[i]))
  {
    hide Xor, Shl, Zeros;
  }

  lemma DivStepFeedsAt(poly: Word, w: nat, x: Word, s: Row, e: Byte, i: nat)
    requires 8 <= w <= 32 && |s| == w && x[..w] == Xor(s, OnTop(e, w)) && i < w
    ensures DivStep(poly, w, x)[i] == Xor(FeedStep(poly[..w], s, e[7]), OnTop(Shl(e, 1), w))[i]
  {
    hide DivStep, FeedStep, OnTop, Xor;
    DivStepBit(poly, w, x, i);
    FeedStepBit(poly[..w], s, e[7], i);
    OnTopBit(FeedStep(poly[..w], s, e[7]), Shl(e, 1), w, i);
    assert x[w - 1] == x[..w][w - 1];
    OnTopBit(s, e, w, w - 1);
    if i > 0 {
      assert x[i - 1] == x[..w][i - 1];
      OnTopBit(s, e, w, i - 1);
    }
  }

  lemma DivStepFeeds(poly: Word, w: nat, x: Word, s: Row, e: Byte)
    requires 8 <= w <= 32 && |s| == w && x[..w] == Xor(s, OnTop(e, w))
    ensures DivStep(poly, w, x)[..w] == Xor(FeedStep(poly[..w], s, e[7]), OnTop(Shl(e, 1), w))
  {
    hide DivStep, FeedStep, OnTop;
    forall i | 0 <= i < w
      ensures DivStep(poly, w, x)[i] == Xor(FeedStep(poly[..w], s, e[7]), OnTop(Shl(e, 1), w))[i]
    {
      DivStepFeedsAt(poly, w, x, s, e, i);
    }
  }

  lemma FeedNext(p: Row, r: Row, bits: Row, k: nat)
    requires |p| == |r| > 0 && k < |bits|
    ensures Feed(p, r, bits[..k + 1]) == FeedStep(p, Feed(p, r, bits[..k]), bits[k])
  {
    assert bits[..k + 1][..k] == bits[..k];
  }

  /** m holds the bits of e, high bit first. */
  predicate HighFirst(m: Row, e: Byte) {
    |m| == 8 && forall j :: 0 <= j < 8 ==> m[j] == e[7 - j]
  }

  lemma {:induction false} DivStepsFeed(poly: Word, w: nat, x: Word, s: Row, e: Byte, m: Row, k: nat)
    requires 8 <= w <= 32 && |s| == w && k <= 8 && x[..w] == Xor(s, OnTop(e, w)) && HighFirst(m, e)
    ensures DivSteps(poly, w, x, k)[..w] == Xor(Feed(poly[..w], s, m[..k]), OnTop(Shl(e, k), w))
    decreases k
  {
    if k == 0 {
      assert Shl(e, 0) == e;
    } else {
      DivStepsFeed(poly, w, x, s, e, m, k - 1);
      DivStepFeeds(poly, w, DivSteps(poly, w, x, k - 1), Feed(poly[..w], s, m[..k - 1]), Shl(e, k - 1));
      FeedNext(poly[..w], s, m, k - 1);
      NextBit(e, m, k - 1);
    }
  }

  lemma NextBit(e: Byte, m: Row, k: nat)
    requires k < 8 && HighFirst(m, e)
    ensures Shl(Shl(e, k), 1) == Shl(e, k + 1) && Shl(e, k)[7] == m[k]
  {
  }

  lemma ByteFeeds(c: Config, r: Word, d: Byte)
    requires Valid(c)
    ensures BitwiseByte(c, r, d)[..c.polySize]
         == Feed(c.poly[..c.polySize], r[..c.polySize], Reverse(Ordered(c, d)))
  {
    var w, e := c.polySize, Ordered(c, d);
    var x := Xor(r, Shl(Widen(e), w - 8));
    assert x[..w] == Xor(r[..w], OnTop(e, w));
    DivStepsFeed(c.poly, w, x, r[..w], e, Reverse(e), 8);
    assert Reverse(e)[..8] == Reverse(e);
    var f := Feed(c.poly[..w], r[..w], Reverse(e));
    assert Xor(f, OnTop(Shl(e, 8), w)) == f;
  }

  lemma {:induction false} RunFeeds(c: Config, r: Word, msg: seq<Byte>)
    requires Valid(c) && c.table.None?
    ensures Run(c, r, msg)[..c.polySize] == Feed(c.poly[..c.polySize], r[..c.polySize], MsgBits(c, msg))
    decreases |msg|
  {
    if |msg| > 0 {
      ByteFeeds(c, r, msg[0]);
      RunFeeds(c, BitwiseByte(c, r, msg[0]), msg[1..]);
      FeedSplit(c.poly[..c.polySize], r[..c.polySize], Reverse(Ordered(c, msg[0])), MsgBits(c, msg[1..]));
    }
  }

  /** The register, cut to the polynomial size, is the one and only remainder of the start value
      and the message on division by the generator. */
  lemma RegisterIsRemainder(c: Config, msg: seq<Byte>, rem: Poly)
    requires Valid(c) && c.table.None?
    ensures var w := c.polySize;
            IsRemainder(Dividend(c.initialVal[..w], MsgBits(c, msg)), Generator(c), w, rem)
            <==> rem == FromRow(Run(c, c.initialVal, msg)[..w])
  {
    var w, g := c.polySize, Generator(c);
    var p, r, bits := c.poly[..w], c.initialVal[..w], MsgBits(c, msg);
    RunFeeds(c, c.initialVal, msg);
    FeedDivides(p, r, bits);
    var crc := FromRow(Feed(p, r, bits));
    assert IsRemainder(Dividend(r, bits), g, w, crc);
    if IsRemainder(Dividend(r, bits), g, w, rem) {
      RemainderUnique(Dividend(r, bits), g, w, rem, crc);
    }
  }

  // ---- the checksum, bit by bit ----

  /** Bit number p that is fed: the low or the high bit of each byte comes first. */
  function FedBit(lowFirst: bool, msg: seq<Byte>, p: nat): bool
    requires p < 8 * |msg|
  {
    msg[p / 8][if lowFirst then p % 8 else 7 - p % 8]
  }

  lemma {:induction false} MsgBitsAt(c: Config, msg: seq<Byte>, p: nat)
    requires p < 8 * |msg|
    ensures |MsgBits(c, msg)| == 8 * |msg| && MsgBits(c, msg)[p] == FedBit(c.reflectData, msg, p)
    decreases |msg|
  {
    hide FedBit, Ordered, Reverse;
    MsgBitsSize(c, msg);
    MsgBitsSize(c, msg[1..]);
    var first, rest := Reverse(Ordered(c, msg[0])), MsgBits(c, msg[1..]);
    assert MsgBits(c, msg) == first + rest;
    if p < 8 {
      FirstByteBits(c, msg, p);
    } else {
      MsgBitsAt(c, msg[1..], p - 8);
      LaterBit(c.reflectData, msg, p);
    }
  }

  lemma FirstByteBits(c: Config, msg: seq<Byte>, p: nat)
    requires |msg| > 0 && p < 8
    ensures Reverse(Ordered(c, msg[0]))[p] == FedBit(c.reflectData, msg, p)
  {
  }

  lemma LaterBit(lowFirst: bool, msg: seq<Byte>, p: nat)
    requires 8 <= p < 8 * |msg|
    ensures FedBit(lowFirst, msg[1..], p - 8) == FedBit(lowFirst, msg, p)
  {
    assert (p - 8) / 8 == p / 8 - 1 && (p - 8) % 8 == p % 8;
  }

  lemma {:induction false} MsgBitsSize(c: Config, msg: seq<Byte>)
    ensures |MsgBits(c, msg)| == 8 * |msg|
    decreases |msg|
  {
    if |msg| > 0 {
      MsgBitsSize(c, msg[1..]);
    }
  }

  /** The coefficient of x^i in the sum of the initial value times x to the number of message bits and the
      message bits, the first one highest, times x^w. */
  predicate Coefficient(initialVal: Word, w: nat, lowFirst: bool, msg: seq<Byte>, i: nat)
    requires w <= 32
  {
    var n := 8 * |msg|;
    (n <= i < n + w && initialVal[i - n]) != (w <= i < n + w && FedBit(lowFirst, msg, n - 1 - (i - w)))
  }

  function DividendOf(initialVal: Word, w: nat, lowFirst: bool, msg: seq<Byte>): (d: Poly)
    requires w <= 32
    ensures forall i: nat :: i in d <==> Coefficient(initialVal, w, lowFirst, msg, i)
  {
    set i: nat | 0 <= i < 8 * |msg| + w && Coefficient(initialVal, w, lowFirst, msg, i)
  }

  lemma DividendAt(c: Config, msg: seq<Byte>, i: nat)
    requires Valid(c)
    ensures var w := c.polySize;
            i in Dividend(c.initialVal[..w], MsgBits(c, msg)) <==> i in DividendOf(c.initialVal, w, c.reflectData, msg)
  {
    hide FedBit, MsgBits, Plus, Raise, FromRow, DividendOf;
    var w, n := c.polySize, 8 * |msg|;
    MsgBitsSize(c, msg);
    if w <= i < n + w {
      MsgBitsAt(c, msg, n - 1 - (i - w));
    }
  }

  lemma DividendIs(c: Config, msg: seq<Byte>)
    requires Valid(c)
    ensures var w := c.polySize;
            Dividend(c.initialVal[..w], MsgBits(c, msg)) == DividendOf(c.initialVal, w, c.reflectData, msg)
  {
    hide Dividend, DividendOf, MsgBits;
    forall i: nat
      ensures var w := c.polySize;
              i in Dividend(c.initialVal[..w], MsgBits(c, msg))
              <==> i in DividendOf(c.initialVal, w, c.reflectData, msg)
    {
      DividendAt(c, msg, i);
    }
  }

  /** Where a checksum reports the coefficient of x^i. */
  function Place(w: nat, mirrored: bool, i: nat): (p: nat)
    requires i < w
    ensures p < w
  {
    if mirrored then w - 1 - i else i
  }

  /** rem is what a checksum reports, once the final exclusive-or is taken back. */
  ghost predicate Reports(sum: Word, finalVal: Word, w: nat, mirrored: bool, rem: Poly)
    requires w <= 32
  {
    Below(rem, w) && forall i :: 0 <= i < w ==>
      (i in rem <==> sum[Place(w, mirrored, i)] != finalVal[Place(w, mirrored, i)])
  }

  lemma OutputBit(c: Config, r: Word, i: nat)
    requires Valid(c) && i < c.polySize
    ensures var p := Place(c.polySize, c.table.None? && c.reflectRemainder, i);
            r[i] == (Output(c, r)[p] != c.finalVal[p])
  {
    hide Xor;
  }

  lemma OutputReports(c: Config, r: Word, rem: Poly)
    requires Valid(c) && c.table.None?
    ensures Reports(Output(c, r), c.finalVal, c.polySize, c.reflectRemainder, rem) <==> rem == FromRow(r[..c.polySize])
  {
    hide Output, Place, FromRow;
    var w := c.polySize;
    forall i | 0 <= i < w
      ensures var p := Place(w, c.reflectRemainder, i);
              i in FromRow(r[..w]) <==> Output(c, r)[p] != c.finalVal[p]
    {
      OutputBit(c, r, i);
      assert r[..w][i] == r[i];
    }
    if Reports(Output(c, r), c.finalVal, w, c.reflectRemainder, rem) {
      assert forall i: nat :: i in rem <==> i in FromRow(r[..w]);
    }
  }

  /**
   * What a checksum says: taking back the final exclusive-or and the mirroring leaves the remainder of the
   * initial value and the message on division by the generator, and nothing else does.
   */
  lemma ChecksumIsRemainder(c: Config, msg: seq<Byte>, rem: Poly)
    requires Valid(c) && c.table.None?
    ensures var w := c.polySize;
            IsRemainder(DividendOf(c.initialVal, w, c.reflectData, msg), FromRow(c.poly[..w]) + {w}, w, rem)
            <==> Reports(Checksum(c, msg), c.finalVal, w, c.reflectRemainder, rem)
  {
    hide IsRemainder, DividendOf, Reports, Run, Output;
    RegisterIsRemainder(c, msg, rem);
    DividendIs(c, msg);
    OutputReports(c, Run(c, c.initialVal, msg), rem);
  }
}
