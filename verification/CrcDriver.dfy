/** The software CRC driver: its configuration, its two engines and the object that runs them. */
module CrcDriver {

  import opened Prelude
  import opened Words

  /** A lookup table has one 32-bit entry for each byte value. */
  type Table = t: seq<Word> | |t| == 256 witness seq(256, _ => Zeros(32))

  datatype Config = Config(polySize: nat, poly: Word, initialVal: Word, finalVal: Word,
                           reflectData: bool, reflectRemainder: bool, table: Option<Table>)

  /** Polynomial sizes the bitwise engine can shift a byte into. */
  predicate Valid(c: Config) {
    8 <= c.polySize <= 32
  }

  /** A byte promoted to 32 bits. */
  function Widen(d: Byte): Word {
    d + Zeros(24)
  }

  /** Bits n-1 .. 0 in reverse order, everything above cleared. */
  function Reflected(r: Row, n: nat): (s: Row)
    requires n <= |r|
    ensures |s| == |r| && forall i :: 0 <= i < |s| ==> s[i] == (i < n && r[n - 1 - i])
  {
    Reverse(r[..n]) + Zeros(|r| - n)
  }

  /** One bit of the modulo-2 division. */
  function DivStep(poly: Word, w: nat, r: Word): Word
    requires 8 <= w <= 32
  {
    if r[w - 1] then Xor(Shl(r, 1), poly) else Shl(r, 1)
  }

  function DivSteps(poly: Word, w: nat, r: Word, k: nat): Word
    requires 8 <= w <= 32
    decreases k, r
  {
    if k == 0 then r else DivStep(poly, w, DivSteps(poly, w, r, k - 1))
  }

  /** The data byte in the order in which its bits enter the division, first bit on top. */
  function Ordered(c: Config, d: Byte): Byte {
    if c.reflectData then Reverse(d) else d
  }

  function BitwiseByte(c: Config, r: Word, d: Byte): Word
    requires Valid(c)
  {
    DivSteps(c.poly, c.polySize, Xor(r, Shl(Widen(Ordered(c, d)), c.polySize - 8)), 8)
  }

  function TableByte(t: Table, r: Word, d: Byte): Word {
    var idx: Byte := Xor(r[..8], d);
    ValueBound(idx);
    assert Pow2(8) == 256;
    Xor(t[Value(idx)], Shr(r, 8))
  }

  /** What the configured engine does to the register for one byte. */
  function Engine(c: Config): (Word, Byte) -> Word
    requires Valid(c)
  {
    match c.table
    case Some(t) => (r: Word, d: Byte) => TableByte(t, r, d)
    case None => (r: Word, d: Byte) => BitwiseByte(c, r, d)
  }

  /** The register after the bytes of msg, one after the other. */
  function Fold(step: (Word, Byte) -> Word, r: Word, msg: seq<Byte>): Word
    decreases |msg|
  {
    if |msg| == 0 then r else Fold(step, step(r, msg[0]), msg[1..])
  }

  function Run(c: Config, r: Word, msg: seq<Byte>): Word
    requires Valid(c)
  {
    Fold(Engine(c), r, msg)
  }

  /** What a calculation reports for a register. */
  function Output(c: Config, r: Word): Word
    requires Valid(c)
  {
    var s := if c.table.None? && c.reflectRemainder then Reflected(r, c.polySize) else r;
    Reported(s, c.finalVal, c.polySize)
  }

  /** Final exclusive-or, cut to w bits. */
  function Reported(s: Word, finalVal: Word, w: nat): (o: Word)
    requires w <= 32
    ensures forall i :: 0 <= i < 32 ==> o[i] == (i < w && s[i] != finalVal[i])
  {
    Xor(s, finalVal)[..w] + Zeros(32 - w)
  }

  /** The whole checksum of a message: a reset followed by one calculation. */
  function Checksum(c: Config, msg: seq<Byte>): Word
    requires Valid(c)
  {
    Output(c, Run(c, c.initialVal, msg))
  }

  /** x - 1 in unsigned arithmetic. */
  function Decrement(r: Row): (s: Row)
    ensures |s| == |r|
  {
    if |r| == 0 then [] else if r[0] then [false] + r[1..] else [true] + Decrement(r[1..])
  }

  lemma {:induction false} DecrementBits(r: Row, k: nat)
    requires k < |r| && forall i :: 0 <= i < |r| ==> r[i] == (i == k)
    ensures forall i :: 0 <= i < |r| ==> Decrement(r)[i] == (i < k)
    decreases k
  {
    if k > 0 {
      DecrementBits(r[1..], k - 1);
    }
  }

  /** The reflection loop after `bit` rounds: the `bit` lowest data bits are in place. */
  predicate PartlyReflected(reflection: Word, data: Row, nBits: nat, bit: nat)
    requires bit <= nBits <= |data| <= 32
  {
    forall i :: 0 <= i < 32 ==> reflection[i] == (nBits - bit <= i < nBits && data[nBits - 1 - i])
  }

  lemma ReflectRound(reflection: Word, data: Row, nBits: nat, bit: nat)
    requires bit < nBits <= |data| <= 32 && PartlyReflected(reflection, data, nBits, bit)
    ensures Shr(Shr(data, bit), 1) == Shr(data, bit + 1)
    ensures Shr(data, bit)[0] == data[bit]
    ensures data[bit] ==> PartlyReflected(Or(reflection, Unit(nBits - 1 - bit)), data, nBits, bit + 1)
    ensures !data[bit] ==> PartlyReflected(reflection, data, nBits, bit + 1)
  {
  }

  /** The C test of the bit that a division step looks at. */
  lemma TopBitTest(r: Word, k: nat)
    requires k < 32
    ensures (And(r, Unit(k)) != Zeros(32)) == r[k]
  {
  }

  /** The C mask of a polynomial size: its top bit, or-ed with that bit less one. */
  function MaskOf(w: nat): Word
    requires 1 <= w <= 32
  {
    Or(Unit(w - 1), Decrement(Unit(w - 1)))
  }

  lemma MaskCuts(s: Word, finalVal: Word, w: nat)
    requires 1 <= w <= 32
    ensures And(Xor(s, finalVal), MaskOf(w)) == Reported(s, finalVal, w)
  {
    DecrementBits(Unit(w - 1), w - 1);
    var m := MaskOf(w);
    assert forall i :: 0 <= i < 32 ==> m[i] == (i < w);
  }

  lemma TableIndex(r: Word, d: Byte)
    ensures Xor(r, Widen(d))[..8] == Xor(r[..8], d)
    ensures Value(Xor(r[..8], d)) < 256
  {
    assert forall i :: 0 <= i < 8 ==> Xor(r, Widen(d))[i] == Xor(r[..8], d)[i];
    ValueBound(Xor(r[..8], d));
    assert Pow2(8) == 256;
  }

  class Driver {
    var config: Config
    var crc: Word

    constructor (config: Config)
      ensures this.config == config && crc == config.initialVal
    {
      this.config := config;
      crc := config.initialVal;
    }

    /** crc_lld_reset */
    method Reset()
      modifies this`crc
      ensures crc == config.initialVal
    {
      crc := config.initialVal;
    }

    /** reflect: the bits are picked off the low end one at a time. */
    static method Reflect(data: Row, nBits: nat) returns (reflection: Word)
      requires nBits <= |data| <= 32
      ensures reflection == Reflected(data + Zeros(32 - |data|), nBits)
    {
      reflection := Zeros(32);
      var rest := data;
      var bit := 0;
      while bit < nBits
        invariant 0 <= bit <= nBits && rest == Shr(data, bit)
        invariant PartlyReflected(reflection, data, nBits, bit)
      {
        ReflectRound(reflection, data, nBits, bit);
        if rest[0] {
          reflection := Or(reflection, Unit(nBits - 1 - bit));
        }
        rest := Shr(rest, 1);
        bit := bit + 1;
      }
    }

    /** crc_lld_calc: both engines, in the order of the C function. */
    method Calc(buf: seq<Byte>) returns (result: Word)
      requires Valid(config)
      modifies this`crc
      ensures crc == Run(config, old(crc), buf)
      ensures result == Output(config, crc)
    {
      if config.table.Some? {
        LookUp(buf);
      }
      var mask := MaskOf(config.polySize);
      result := crc;
      if config.table.None? {
        result := Divide(buf);
        crc := result;
        if config.reflectRemainder {
          result := Reflect(result, config.polySize);
          assert crc + Zeros(0) == crc;
        }
      }
      MaskCuts(result, config.finalVal, config.polySize);
      result := And(Xor(result, config.finalVal), mask);
    }

    /** The table loop. */
    method LookUp(buf: seq<Byte>)
      requires Valid(config) && config.table.Some?
      modifies this`crc
      ensures crc == Run(config, old(crc), buf)
    {
      var table := config.table.value;
      ghost var step := Engine(config);
      var i := 0;
      while i < |buf|
        invariant 0 <= i <= |buf|
        invariant Fold(step, crc, buf[i..]) == Fold(step, old(crc), buf)
      {
        TableIndex(crc, buf[i]);
        ghost var next := step(crc, buf[i]);
        var idx: Byte := Xor(crc, Widen(buf[i]))[..8];
        crc := Xor(table[Value(idx)], Shr(crc, 8));
        assert crc == next && buf[i..][1..] == buf[i + 1..];
        i := i + 1;
      }
    }

    /** The bitwise loop over the bytes; the register is a local of the C function. */
    method Divide(buf: seq<Byte>) returns (r: Word)
      requires Valid(config) && config.table.None?
      ensures r == Run(config, crc, buf)
    {
      r := crc;
      ghost var step := Engine(config);
      var i := 0;
      while i < |buf|
        invariant 0 <= i <= |buf|
        invariant Fold(step, r, buf[i..]) == Fold(step, crc, buf)
      {
        ghost var next := step(r, buf[i]);
        var data := buf[i];
        if config.reflectData {
          var turned := Reflect(data, 8);
          assert turned[..8] == Reverse(data);
          data := turned[..8];
        }
        r := Xor(r, Shl(Widen(data), config.polySize - 8));
        r := DivideBits(r, 8);
        assert r == next && buf[i..][1..] == buf[i + 1..];
        i := i + 1;
      }
    }

    /** One round of the inner loop. */
    method DivideBit(r: Word) returns (s: Word)
      requires Valid(config)
      ensures s == DivStep(config.poly, config.polySize, r)
    {
      TopBitTest(r, config.polySize - 1);
      if And(r, Unit(config.polySize - 1)) != Zeros(32) {
        s := Xor(Shl(r, 1), config.poly);
      } else {
        s := Shl(r, 1);
      }
    }

    /** The inner loop: one division step for each of `count` bits. */
    method DivideBits(start: Word, count: nat) returns (r: Word)
      requires Valid(config)
      ensures r == DivSteps(config.poly, config.polySize, start, count)
    {
      r := start;
      var bit := count;
      while bit > 0
        invariant 0 <= bit <= count
        invariant r == DivSteps(config.poly, config.polySize, start, count - bit)
      {
        r := DivideBit(r);
        bit := bit - 1;
      }
    }
  }
}
