/** The shipped checksums in numbers: initial value, generator, bit order and final exclusive-or written out. */
module CrcShipped {

  import opened Prelude
  import opened Words
  import opened Polynomials
  import opened CrcDriver
  import opened CrcEngines
  import opened CrcRemainder
  import opened CrcTables

  /** The exponents of x^32 + 0x04C11DB7. */
  const CRC32_POLY: Poly := {32, 26, 23, 22, 16, 12, 11, 10, 8, 7, 5, 4, 2, 1, 0}

  /** The exponents of x^16 + 0x8005. */
  const CRC16_POLY: Poly := {16, 15, 2, 0}

  lemma Crc32LowBits(i: nat)
    requires i < 16
    ensures At(0x04C1_1DB7, i) == (i in {0, 1, 2, 4, 5, 7, 8, 10, 11, 12})
  {
    match i {
      case 0 => case 1 => case 2 => case 3 => case 4 => case 5 => case 6 => case 7 =>
      case 8 => case 9 => case 10 => case 11 => case 12 => case 13 => case 14 => case 15 =>
    }
  }

  lemma Crc32ThirdByte(i: nat)
    requires 16 <= i < 24
    ensures At(0x04C1_1DB7, i) == (i in {16, 22, 23})
  {
    match i {
      case 16 => case 17 => case 18 => case 19 => case 20 => case 21 => case 22 => case 23 =>
    }
  }

  lemma Crc32FourthByte(i: nat)
    requires 24 <= i < 32
    ensures At(0x04C1_1DB7, i) == (i == 26)
  {
    match i {
      case 24 => case 25 => case 26 => case 27 => case 28 => case 29 => case 30 => case 31 =>
    }
  }

  lemma Crc16Bits(i: nat)
    requires i < 16
    ensures At(0x8005, i) == (i in {0, 2, 15})
  {
    match i {
      case 0 => case 1 => case 2 => case 3 => case 4 => case 5 => case 6 => case 7 =>
      case 8 => case 9 => case 10 => case 11 => case 12 => case 13 => case 14 => case 15 =>
    }
  }

  lemma Crc32PolyIs()
    ensures FromRow(Bits(0x04C1_1DB7)[..32]) + {32} == CRC32_POLY
  {
    hide At, FromRow;
    forall i: nat
      ensures i in FromRow(Bits(0x04C1_1DB7)[..32]) + {32} <==> i in CRC32_POLY
    {
      if i < 16 {
        Crc32LowBits(i);
      } else if i < 24 {
        Crc32ThirdByte(i);
      } else if i < 32 {
        Crc32FourthByte(i);
      }
    }
  }

  lemma Crc16PolyIs()
    ensures FromRow(Bits(0x8005)[..16]) + {16} == CRC16_POLY
  {
    hide At, FromRow;
    forall i: nat
      ensures i in FromRow(Bits(0x8005)[..16]) + {16} <==> i in CRC16_POLY
    {
      if i < 16 {
        Crc16Bits(i);
      }
    }
  }

  /** Bit i of a message as a polynomial whose highest coefficient is the lowest bit of the first byte. */
  function MessageBit(msg: seq<Byte>, i: nat): bool
    requires i < 8 * |msg|
  {
    msg[|msg| - 1 - i / 8][7 - i % 8]
  }

  lemma FedIsMessage(msg: seq<Byte>, i: nat)
    requires i < 8 * |msg|
    ensures FedBit(true, msg, 8 * |msg| - 1 - i) == MessageBit(msg, i)
  {
    var p := 8 * |msg| - 1 - i;
    assert p / 8 == |msg| - 1 - i / 8 && p % 8 == 7 - i % 8;
  }

  /** The coefficient of x^i in 0xFFFFFFFF times x^(8|msg|), plus the message times x^32. */
  predicate Crc32Coefficient(msg: seq<Byte>, i: nat) {
    i < 8 * |msg| + 32 && (i >= 8 * |msg|) != (i >= 32 && MessageBit(msg, i - 32))
  }

  function Crc32Dividend(msg: seq<Byte>): (d: Poly)
    ensures forall i: nat :: i in d <==> Crc32Coefficient(msg, i)
  {
    set i: nat | 0 <= i < 8 * |msg| + 32 && Crc32Coefficient(msg, i)
  }

  /** The coefficient of x^i in the message times x^16. */
  predicate Crc16Coefficient(msg: seq<Byte>, i: nat) {
    16 <= i < 8 * |msg| + 16 && MessageBit(msg, i - 16)
  }

  function Crc16Dividend(msg: seq<Byte>): (d: Poly)
    ensures forall i: nat :: i in d <==> Crc16Coefficient(msg, i)
  {
    set i: nat | 0 <= i < 8 * |msg| + 16 && Crc16Coefficient(msg, i)
  }

  lemma AllOnes()
    ensures forall i :: 0 <= i < 32 ==> Bits(0xFFFF_FFFF)[i]
  {
    hide At;
    forall i | 0 <= i < 32 ensures At(0xFFFF_FFFF, i) {
      if i < 16 {
        Crc32MirrorLow(i);
      } else {
        Crc32MirrorHigh(i);
      }
    }
  }

  lemma Crc32DividendIs(msg: seq<Byte>)
    ensures DividendOf(Bits(0xFFFF_FFFF), 32, true, msg) == Crc32Dividend(msg)
  {
    hide Bits, FedBit, MessageBit, DividendOf, Crc32Dividend;
    AllOnes();
    forall i: nat
      ensures i in DividendOf(Bits(0xFFFF_FFFF), 32, true, msg) <==> i in Crc32Dividend(msg)
    {
      if 32 <= i < 8 * |msg| + 32 {
        FedIsMessage(msg, i - 32);
      }
    }
  }

  lemma Crc16DividendIs(msg: seq<Byte>)
    ensures DividendOf(Bits(0), 16, true, msg) == Crc16Dividend(msg)
  {
    hide Bits, FedBit, MessageBit, DividendOf, Crc16Dividend;
    BitsZero();
    forall i: nat
      ensures i in DividendOf(Bits(0), 16, true, msg) <==> i in Crc16Dividend(msg)
    {
      if 16 <= i < 8 * |msg| + 16 {
        FedIsMessage(msg, i - 16);
      }
    }
  }

  /**
   * The shipped CRC-32 of a message (section 8 of RFC 1952): divide 0xFFFFFFFF times x^(8|msg|) plus the
   * message times x^32 by x^32 + 0x04C11DB7; bit 31 - i is the negation of the remainder's coefficient of x^i.
   */
  lemma Crc32InNumbers(msg: seq<Byte>, rem: Poly)
    ensures IsRemainder(Crc32Dividend(msg), CRC32_POLY, 32, rem)
      <==> Below(rem, 32) && forall i :: 0 <= i < 32 ==> (i in rem <==> !Checksum(CRC32_CONFIG, msg)[31 - i])
  {
    hide IsRemainder, Crc32Dividend, DividendOf, Checksum, Bits, FromRow;
    var c := CRC32_CONFIG.(table := None);
    ShippedChecksums(msg);
    ChecksumIsRemainder(c, msg, rem);
    Crc32DividendIs(msg);
    Crc32PolyIs();
    Negated(Checksum(c, msg), rem);
  }

  lemma Negated(sum: Word, rem: Poly)
    ensures Reports(sum, Bits(0xFFFF_FFFF), 32, true, rem)
      <==> Below(rem, 32) && forall i :: 0 <= i < 32 ==> (i in rem <==> !sum[31 - i])
  {
    hide Bits;
    AllOnes();
  }

  lemma Plain(sum: Word, rem: Poly)
    ensures Reports(sum, Bits(0), 16, true, rem)
      <==> Below(rem, 16) && forall i :: 0 <= i < 16 ==> (i in rem <==> sum[15 - i])
  {
    hide Bits;
    BitsZero();
  }

  /**
   * The shipped CRC-16: divide the message times x^16 by x^16 + 0x8005; bit 15 - i is the remainder's
   * coefficient of x^i, and there is no bit above.
   */
  lemma Crc16InNumbers(msg: seq<Byte>, rem: Poly)
    ensures IsRemainder(Crc16Dividend(msg), CRC16_POLY, 16, rem)
      <==> Below(rem, 16) && forall i :: 0 <= i < 16 ==> (i in rem <==> Checksum(CRC16_CONFIG, msg)[15 - i])
    ensures forall i :: 16 <= i < 32 ==> !Checksum(CRC16_CONFIG, msg)[i]
  {
    hide IsRemainder, Crc16Dividend, DividendOf, Bits, FromRow, Reports, Run, Output;
    var c := CRC16_CONFIG.(table := None);
    ShippedChecksums(msg);
    ChecksumIsRemainder(c, msg, rem);
    Crc16DividendIs(msg);
    Crc16PolyIs();
    Plain(Checksum(c, msg), rem);
    HighBitsIrrelevant(c, c.initialVal, c.initialVal, msg);
  }
}
