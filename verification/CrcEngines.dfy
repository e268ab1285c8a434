/** The table engine and the bitwise engine compute the same checksum; splitting a message over
    several calculations and the unused high register bits make no difference. */
module CrcEngines {

  import opened Prelude
  import opened Words
  import opened CrcDriver

  /** The reflected division step that a table entry abbreviates eight times. */
  function ShiftStep(q: Word, r: Word): Word {
    if r[0] then Xor(Shr(r, 1), q) else Shr(r, 1)
  }

  function ShiftSteps(q: Word, r: Word, k: nat): Word
    decreases k, r
  {
    if k == 0 then r else ShiftStep(q, ShiftSteps(q, r, k - 1))
  }

  /** The table belongs to the generator: entry b is eight reflected steps from b. */
  ghost predicate TableFor(t: Table, poly: Word, w: nat)
    requires w <= 32
  {
    forall b: Byte :: Value(b) < 256 && t[Value(b)] == ShiftSteps(Reflected(poly, w), Widen(b), 8)
  }

  // ---- splitting a message ----

  lemma {:induction false} FoldSplit(step: (Word, Byte) -> Word, r: Word, a: seq<Byte>, b: seq<Byte>)
    ensures Fold(step, r, a + b) == Fold(step, Fold(step, r, a), b)
    decreases |a|
  {
    if |a| == 0 {
      assert a + b == b;
    } else {
      FoldSplit(step, step(r, a[0]), a[1..], b);
      assert (a + b)[1..] == a[1..] + b;
    }
  }

  /** Two calculations after one reset report what one calculation over the joined message does. */
  lemma Streaming(c: Config, a: seq<Byte>, b: seq<Byte>)
    requires Valid(c)
    ensures Output(c, Run(c, Run(c, c.initialVal, a), b)) == Checksum(c, a + b)
  {
    FoldSplit(Engine(c), c.initialVal, a, b);
  }

  // ---- the bits above the polynomial size ----

  lemma DivStepLow(poly: Word, w: nat, r: Word, s: Word)
    requires 8 <= w <= 32 && r[..w] == s[..w]
    ensures DivStep(poly, w, r)[..w] == DivStep(poly, w, s)[..w]
  {
    hide Xor, Shl;
    assert r[w - 1] == r[..w][w - 1] == s[..w][w - 1] == s[w - 1];
    forall i | 0 <= i < w
      ensures DivStep(poly, w, r)[i] == DivStep(poly, w, s)[i]
    {
      if i > 0 {
        assert r[i - 1] == r[..w][i - 1] == s[..w][i - 1] == s[i - 1];
      }
    }
  }

  lemma {:induction false} DivStepsLow(poly: Word, w: nat, r: Word, s: Word, k: nat)
    requires 8 <= w <= 32 && r[..w] == s[..w]
    ensures DivSteps(poly, w, r, k)[..w] == DivSteps(poly, w, s, k)[..w]
    decreases k
  {
    hide DivStep;
    if k > 0 {
      DivStepsLow(poly, w, r, s, k - 1);
      DivStepLow(poly, w, DivSteps(poly, w, r, k - 1), DivSteps(poly, w, s, k - 1));
    }
  }

  lemma XorLow(a: Row, b: Row, x: Row, w: nat)
    requires |a| == |b| == |x| && w <= |a| && a[..w] == b[..w]
    ensures Xor(a, x)[..w] == Xor(b, x)[..w]
  {
  }

  lemma BitwiseByteLow(c: Config, r: Word, s: Word, d: Byte)
    requires Valid(c) && r[..c.polySize] == s[..c.polySize]
    ensures BitwiseByte(c, r, d)[..c.polySize] == BitwiseByte(c, s, d)[..c.polySize]
  {
    var x := Shl(Widen(Ordered(c, d)), c.polySize - 8);
    XorLow(r, s, x, c.polySize);
    DivStepsLow(c.poly, c.polySize, Xor(r, x), Xor(s, x), 8);
  }

  lemma {:induction false} RunLow(c: Config, r: Word, s: Word, msg: seq<Byte>)
    requires Valid(c) && c.table.None? && r[..c.polySize] == s[..c.polySize]
    ensures Run(c, r, msg)[..c.polySize] == Run(c, s, msg)[..c.polySize]
    decreases |msg|
  {
    if |msg| > 0 {
      BitwiseByteLow(c, r, s, msg[0]);
      RunLow(c, BitwiseByte(c, r, msg[0]), BitwiseByte(c, s, msg[0]), msg[1..]);
    }
  }

  lemma OutputLow(c: Config, r: Word, s: Word)
    requires Valid(c) && r[..c.polySize] == s[..c.polySize]
    ensures Output(c, r) == Output(c, s)
  {
  }

  /** Register bits above the polynomial size never reach a result: not now, not after any
      further data. */
  lemma HighBitsIrrelevant(c: Config, r: Word, s: Word, msg: seq<Byte>)
    requires Valid(c) && c.table.None? && r[..c.polySize] == s[..c.polySize]
    ensures Output(c, Run(c, r, msg)) == Output(c, Run(c, s, msg))
    ensures forall i :: c.polySize <= i < 32 ==> !Output(c, Run(c, r, msg))[i]
  {
    RunLow(c, r, s, msg);
    OutputLow(c, Run(c, r, msg), Run(c, s, msg));
  }

  // ---- reflection turns the left division into the right one ----

  lemma ReflectDivStep(poly: Word, w: nat, r: Word)
    requires 8 <= w <= 32
    ensures Reflected(DivStep(poly, w, r), w) == ShiftStep(Reflected(poly, w), Reflected(r, w))
  {
    hide Xor, Shl, Shr;
    var left, right := Reflected(DivStep(poly, w, r), w), ShiftStep(Reflected(poly, w), Reflected(r, w));
    forall i | 0 <= i < 32
      ensures left[i] == right[i]
    {
    }
  }

  lemma {:induction false} ReflectDivSteps(poly: Word, w: nat, r: Word, k: nat)
    requires 8 <= w <= 32
    ensures Reflected(DivSteps(poly, w, r, k), w) == ShiftSteps(Reflected(poly, w), Reflected(r, w), k)
    decreases k
  {
    hide DivStep, ShiftStep, Reflected;
    if k > 0 {
      ReflectDivSteps(poly, w, r, k - 1);
      ReflectDivStep(poly, w, DivSteps(poly, w, r, k - 1));
    }
  }

  /** A reflected data byte enters at the top of the one register where the plain byte enters at
      the bottom of the other. */
  lemma ReflectAbsorb(r: Word, d: Byte, w: nat)
    requires 8 <= w <= 32
    ensures Reflected(Xor(r, Shl(Widen(Reverse(d)), w - 8)), w) == Xor(Reflected(r, w), Widen(d))
  {
    hide Xor, Shl;
  }

  // ---- eight steps at once ----

  lemma ShiftStepXor(q: Word, a: Word, b: Word)
    ensures ShiftStep(q, Xor(a, b)) == Xor(ShiftStep(q, a), ShiftStep(q, b))
  {
  }

  lemma {:induction false} ShiftStepsXor(q: Word, a: Word, b: Word, k: nat)
    ensures ShiftSteps(q, Xor(a, b), k) == Xor(ShiftSteps(q, a, k), ShiftSteps(q, b, k))
    decreases k
  {
    if k > 0 {
      ShiftStepsXor(q, a, b, k - 1);
      ShiftStepXor(q, ShiftSteps(q, a, k - 1), ShiftSteps(q, b, k - 1));
    }
  }

  lemma {:induction false} ShiftStepsPlain(q: Word, a: Word, k: nat)
    requires k <= 32 && forall i :: 0 <= i < k ==> !a[i]
    ensures ShiftSteps(q, a, k) == Shr(a, k)
    decreases k
  {
    if k == 0 {
      assert Shr(a, 0) == a;
    } else {
      ShiftStepsPlain(q, a, k - 1);
      assert !Shr(a, k - 1)[0];
      assert Shr(Shr(a, k - 1), 1) == Shr(a, k);
    }
  }

  lemma TableByteIsSteps(t: Table, poly: Word, w: nat, r: Word, d: Byte)
    requires 8 <= w <= 32 && TableFor(t, poly, w)
    ensures TableByte(t, r, d) == ShiftSteps(Reflected(poly, w), Xor(r, Widen(d)), 8)
  {
    var q := Reflected(poly, w);
    var idx: Byte := Xor(r[..8], d);
    var high: Word := Zeros(8) + r[8..];
    assert Xor(r, Widen(d)) == Xor(Widen(idx), high);
    ShiftStepsXor(q, Widen(idx), high, 8);
    ShiftStepsPlain(q, high, 8);
    assert Shr(high, 8) == Shr(r, 8);
  }

  /** One byte in step: the table register stays the reflection of the bitwise register. */
  lemma ByteInStep(c: Config, t: Table, r: Word, d: Byte)
    requires Valid(c) && c.reflectData && TableFor(t, c.poly, c.polySize)
    ensures Reflected(BitwiseByte(c, r, d), c.polySize) == TableByte(t, Reflected(r, c.polySize), d)
  {
    var w := c.polySize;
    TableByteIsSteps(t, c.poly, w, Reflected(r, w), d);
    ReflectAbsorb(r, d, w);
    ReflectDivSteps(c.poly, w, Xor(r, Shl(Widen(Reverse(d)), w - 8)), 8);
  }

  lemma {:induction false} RunsInStep(c: Config, t: Table, r: Word, msg: seq<Byte>)
    requires Valid(c) && c.table.None? && c.reflectData && TableFor(t, c.poly, c.polySize)
    ensures Reflected(Run(c, r, msg), c.polySize) == Run(c.(table := Some(t)), Reflected(r, c.polySize), msg)
    decreases |msg|
  {
    if |msg| > 0 {
      ByteInStep(c, t, r, msg[0]);
      RunsInStep(c, t, BitwiseByte(c, r, msg[0]), msg[1..]);
    }
  }

  /** The configuration of the table engine: its register starts from the mirrored initial value. */
  function Mirrored(c: Config, t: Table): Config
    requires Valid(c)
  {
    c.(table := Some(t), initialVal := Reflected(c.initialVal, c.polySize))
  }

  /** The two engines agree on every message, for every generator, polynomial size and initial value, when
      both reflections are on and the table engine starts from the mirrored initial value. */
  lemma EnginesAgree(c: Config, t: Table, msg: seq<Byte>)
    requires Valid(c) && c.table.None? && c.reflectData && c.reflectRemainder
    requires TableFor(t, c.poly, c.polySize)
    ensures Checksum(Mirrored(c, t), msg) == Checksum(c, msg)
  {
    RunsInStep(c, t, c.initialVal, msg);
    SameTableRun(c.(table := Some(t)), Mirrored(c, t), Reflected(c.initialVal, c.polySize), msg);
  }

  lemma {:induction false} SameTableRun(c: Config, c': Config, r: Word, msg: seq<Byte>)
    requires Valid(c) && Valid(c') && c.table.Some? && c'.table == c.table
    ensures Run(c, r, msg) == Run(c', r, msg)
    decreases |msg|
  {
    if |msg| > 0 {
      SameTableRun(c, c', TableByte(c.table.value, r, msg[0]), msg[1..]);
    }
  }

  /** With a table in place neither the polynomial nor the two reflection flags make a difference. */
  lemma TableDecides(c: Config, c': Config, msg: seq<Byte>)
    requires Valid(c) && c.table.Some?
    requires c' == c.(poly := c'.poly, reflectData := c'.reflectData, reflectRemainder := c'.reflectRemainder)
    ensures Checksum(c', msg) == Checksum(c, msg)
  {
    SameTableRun(c, c', c.initialVal, msg);
  }

  // ---- with one initial value for both engines ----

  lemma DifferenceByte(t: Table, poly: Word, w: nat, r: Word, d: Word, b: Byte)
    requires 8 <= w <= 32 && TableFor(t, poly, w)
    ensures TableByte(t, Xor(r, d), b) == Xor(TableByte(t, r, b), ShiftSteps(Reflected(poly, w), d, 8))
  {
    hide TableFor, TableByte, ShiftSteps, ShiftStep, Reflected;
    TableByteIsSteps(t, poly, w, Xor(r, d), b);
    TableByteIsSteps(t, poly, w, r, b);
    assert Xor(Xor(r, d), Widen(b)) == Xor(Xor(r, Widen(b)), d);
    ShiftStepsXor(Reflected(poly, w), Xor(r, Widen(b)), d, 8);
  }

  lemma TableRunStep(c: Config, r: Word, msg: seq<Byte>)
    requires Valid(c) && c.table.Some? && msg != []
    ensures Run(c, r, msg) == Run(c, TableByte(c.table.value, r, msg[0]), msg[1..])
  {
    hide TableByte;
  }

  /** A difference between two registers travels through the table engine on its own. */
  lemma {:induction false} DifferenceTravels(c: Config, t: Table, poly: Word, r: Word, d: Word, msg: seq<Byte>)
    requires Valid(c) && c.table == Some(t) && TableFor(t, poly, c.polySize)
    ensures Run(c, Xor(r, d), msg)
      == Xor(Run(c, r, msg), ShiftSteps(Reflected(poly, c.polySize), d, 8 * |msg|))
    decreases |msg|
  {
    hide TableFor, TableByte, Xor, ShiftStep, Reflected;
    if |msg| > 0 {
      var q, w := Reflected(poly, c.polySize), c.polySize;
      DifferenceByte(t, poly, w, r, d, msg[0]);
      DifferenceTravels(c, t, poly, TableByte(t, r, msg[0]), ShiftSteps(q, d, 8), msg[1..]);
      StepsInRow(q, d, 8, 8 * |msg[1..]|, 8 * |msg|);
      TableRunStep(c, r, msg);
      TableRunStep(c, Xor(r, d), msg);
    }
  }

  lemma {:induction false} StepsInRow(q: Word, d: Word, j: nat, k: nat, total: nat)
    requires total == j + k
    ensures ShiftSteps(q, ShiftSteps(q, d, j), k) == ShiftSteps(q, d, total)
    decreases k
  {
    hide ShiftStep;
    if k > 0 {
      StepsInRow(q, d, j, k - 1, total - 1);
    }
  }

  /** The lowest bit of a difference comes below the polynomial size after some bytes, before it is fed back. */
  lemma LowestBitShows(p: nat, w: nat) returns (bytes: nat)
    requires 8 <= w && p < 32
    ensures 8 * bytes <= p < 8 * bytes + w
  {
    bytes := p / 8;
  }

  lemma SameBitsSameWord(r: Word, s: Word)
    requires forall i :: 0 <= i < 32 ==> r[i] == s[i]
    ensures r == s
  {
  }

  lemma LowestDifference(r: Word, s: Word) returns (p: nat)
    ensures p <= 32 && (p < 32 ==> r[p] != s[p]) && (p == 32 ==> r == s) && forall i :: 0 <= i < p ==> r[i] == s[i]
  {
    p := 0;
    while p < 32 && r[p] == s[p]
      invariant p <= 32 && forall i :: 0 <= i < p ==> r[i] == s[i]
    {
      p := p + 1;
    }
    if p == 32 {
      SameBitsSameWord(r, s);
    }
  }

  lemma OutputsApart(c: Config, r: Word, s: Word, i: nat)
    requires Valid(c) && c.table.Some? && i < c.polySize && r[i] != s[i]
    ensures Output(c, r) != Output(c, s)
  {
    assert Output(c, r)[i] == (r[i] != c.finalVal[i]) && Output(c, s)[i] == (s[i] != c.finalVal[i]);
  }

  /** Table runs from different registers report different checksums for some message. */
  lemma StartsShow(c: Config, t: Table, poly: Word, r: Word, s: Word) returns (msg: seq<Byte>)
    requires Valid(c) && c.table == Some(t) && TableFor(t, poly, c.polySize) && r != s
    ensures Output(c, Run(c, r, msg)) != Output(c, Run(c, s, msg))
  {
    var p := LowestDifference(r, s);
    var bytes := LowestBitShows(p, c.polySize);
    var d := Xor(r, s);
    msg := seq(bytes, _ => Zeros(8));
    assert Xor(s, d) == r;
    DifferenceTravels(c, t, poly, s, d, msg);
    ShiftStepsPlain(Reflected(poly, c.polySize), d, 8 * bytes);
    assert Shr(d, 8 * bytes)[p - 8 * bytes] == d[p];
    OutputsApart(c, Run(c, r, msg), Run(c, s, msg), p - 8 * bytes);
  }

  /** One configuration with the table put in agrees on every message if and only if its initial value is its
      own mirror image. */
  lemma SameStartExact(c: Config, t: Table)
    requires Valid(c) && c.table.None? && c.reflectData && c.reflectRemainder
    requires TableFor(t, c.poly, c.polySize)
    ensures (forall msg :: Checksum(c.(table := Some(t)), msg) == Checksum(c, msg))
      <==> Reflected(c.initialVal, c.polySize) == c.initialVal
  {
    var c' := c.(table := Some(t));
    if Reflected(c.initialVal, c.polySize) == c.initialVal {
      forall msg ensures Checksum(c', msg) == Checksum(c, msg) {
        EnginesAgree(c, t, msg);
        assert Mirrored(c, t) == c';
      }
    } else {
      var msg := StartsShow(c', t, c.poly, c.initialVal, Reflected(c.initialVal, c.polySize));
      EnginesAgree(c, t, msg);
      SameTableRun(c', Mirrored(c, t), Reflected(c.initialVal, c.polySize), msg);
      assert Checksum(c', msg) != Checksum(c, msg);
    }
  }
}
