/** The numbers that byte strings denote, low byte first and high byte first. */
module Endian {

  import opened Prelude
  import opened Bswap

  const TWO_TO_THE_32: nat := 0x1_0000_0000

  function Pow256(n: nat): (p: nat)
    ensures p > 0
  {
    if n == 0 then 1 else 256 * Pow256(n - 1)
  }

  // ---- bytes ----

  lemma ByteRound(b: byte)
    ensures b as nat < 256 && (b as nat) as byte == b
  {
  }

  lemma NextByte(b: byte)
    requires b != 255
    ensures (b + 1) as nat == b as nat + 1
  {
  }

  /** Counting up from zero reaches every number below 256. */
  lemma {:induction false} CountedByte(n: nat) returns (b: byte)
    requires n < 256
    ensures b as nat == n
  {
    if n == 0 {
      b := 0;
    } else {
      var c := CountedByte(n - 1);
      NextByte(c);
      b := c + 1;
    }
  }

  lemma NumberRound(n: nat)
    requires n < 256
    ensures (n as byte) as nat == n
  {
    var b := CountedByte(n);
    ByteRound(b);
  }

  // ---- byte strings ----

  function LeNumber(m: seq<byte>): nat {
    if m == [] then 0 else m[0] as nat + 256 * LeNumber(m[1..])
  }

  function BeNumber(m: seq<byte>): nat {
    if m == [] then 0 else 256 * BeNumber(m[..|m| - 1]) + m[|m| - 1] as nat
  }

  /** The big-endian encoding of n in len bytes. */
  function BigEndian(n: nat, len: nat): (m: seq<byte>)
    ensures |m| == len
    decreases len
  {
    if len == 0 then [] else BigEndian(n / 256, len - 1) + [(n % 256) as byte]
  }

  lemma {:induction false} BigEndianRound(n: nat, len: nat)
    requires n < Pow256(len)
    ensures BeNumber(BigEndian(n, len)) == n
    decreases len
  {
    if len > 0 {
      BigEndianRound(n / 256, len - 1);
      NumberRound(n % 256);
      var m := BigEndian(n, len);
      assert m[..len - 1] == BigEndian(n / 256, len - 1);
    }
  }

  lemma LastByte(q: nat, b: byte, len: nat)
    ensures BigEndian(256 * q + b as nat, len + 1) == BigEndian(q, len) + [b]
  {
    ByteRound(b);
    LastDigit(q, b as nat);
  }

  lemma {:induction false} BeNumberBound(m: seq<byte>)
    ensures BeNumber(m) < Pow256(|m|)
  {
    if m != [] {
      BeNumberBound(m[..|m| - 1]);
      ByteRound(m[|m| - 1]);
    }
  }

  lemma NoBytes()
    ensures BigEndian(BeNumber([]), 0) == []
  {
  }

  lemma {:induction false} BeNumberRound(m: seq<byte>)
    ensures BeNumber(m) < Pow256(|m|)
    ensures BigEndian(BeNumber(m), |m|) == m
  {
    hide Pow256, BigEndian;
    BeNumberBound(m);
    if m == [] {
      NoBytes();
    } else {
      BeNumberRound(m[..|m| - 1]);
      LastByte(BeNumber(m[..|m| - 1]), m[|m| - 1], |m| - 1);
    }
  }

  lemma LastDigit(q: nat, d: nat)
    requires d < 256
    ensures (256 * q + d) / 256 == q && (256 * q + d) % 256 == d
  {
  }

  lemma {:induction false} ReverseSnoc<T>(s: seq<T>, x: T)
    ensures Reverse(s + [x]) == [x] + Reverse(s)
  {
  }

  /** Swapping the bytes turns the one reading into the other. */
  lemma {:induction false} ReversedNumber(m: seq<byte>)
    ensures LeNumber(Reverse(m)) == BeNumber(m)
  {
    if m != [] {
      var s, x := m[..|m| - 1], m[|m| - 1];
      assert m == s + [x];
      ReverseSnoc(s, x);
      assert ([x] + Reverse(s))[1..] == Reverse(s);
      ReversedNumber(s);
    }
  }

  // ---- words of the processor ----

  /** The number an unsigned word denotes. */
  function Value32(x: bv32): nat {
    LeNumber(Memory32(x))
  }

  function Value16(x: bv16): nat {
    LeNumber(Memory16(x))
  }

  function Of32(n: nat): bv32 {
    Word32(Reverse(BigEndian(n, 4)))
  }

  lemma Of32Value(n: nat)
    requires n < TWO_TO_THE_32
    ensures Value32(Of32(n)) == n
  {
    Stores32(Reverse(BigEndian(n, 4)));
    ReversedNumber(BigEndian(n, 4));
    WordRound(n);
  }

  lemma FourBytes()
    ensures Pow256(4) == TWO_TO_THE_32 && Pow256(2) == 0x1_0000
  {
  }

  lemma WordRound(n: nat)
    requires n < TWO_TO_THE_32
    ensures BeNumber(BigEndian(n, 4)) == n
  {
    FourBytes();
    BigEndianRound(n, 4);
  }

  /** be32_to_cpu of four bytes in memory. */
  lemma BigEndianLoad32(m: seq<byte>)
    requires |m| == 4
    ensures Value32(MaskSwap32(Word32(m))) == BeNumber(m)
  {
    Masks32(Word32(m));
    Stores32(m);
    ReversedNumber(m);
  }

  lemma BigEndianLoad16(m: seq<byte>)
    requires |m| == 2
    ensures Value16(MaskSwap16(Word16(m))) == BeNumber(m)
  {
    Masks16(Word16(m));
    Stores16(m);
    ReversedNumber(m);
  }

  /** The memory of cpu_to_be32. */
  lemma BigEndianStore32(n: nat)
    ensures Memory32(MaskSwap32(Of32(n))) == BigEndian(n, 4)
  {
  }
}
