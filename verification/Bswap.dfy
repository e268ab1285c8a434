/** Byte order: the mask and shift forms, the union forms and the in-place loop. */
module Bswap {

  import opened Prelude

  type byte = bv8

  function MaskSwap16(x: bv16): bv16 {
    ((x & 0xFF00) >> 8) | ((x & 0x00FF) << 8)
  }

  function MaskSwap32(x: bv32): bv32 {
    ((x & 0xFF000000) >> 24) | ((x & 0x00FF0000) >> 8) | ((x & 0x0000FF00) << 8) | ((x & 0x000000FF) << 24)
  }

  function MaskSwap64(x: bv64): bv64 {
    ((x & 0xFF00000000000000) >> 56) | ((x & 0x00FF000000000000) >> 40)
    | ((x & 0x0000FF0000000000) >> 24) | ((x & 0x000000FF00000000) >> 8)
    | ((x & 0x00000000FF000000) << 8) | ((x & 0x0000000000FF0000) << 24)
    | ((x & 0x000000000000FF00) << 40) | ((x & 0x00000000000000FF) << 56)
  }

  // ---- words in the memory of a little-endian machine ----

  function Memory16(x: bv16): (m: seq<byte>)
    ensures |m| == 2
  {
    [(x & 0xFF) as byte, (x >> 8) as byte]
  }

  function Word16(m: seq<byte>): bv16
    requires |m| == 2
  {
    (m[0] as bv16) | ((m[1] as bv16) << 8)
  }

  function Memory32(x: bv32): (m: seq<byte>)
    ensures |m| == 4
  {
    [(x & 0xFF) as byte, ((x >> 8) & 0xFF) as byte, ((x >> 16) & 0xFF) as byte, (x >> 24) as byte]
  }

  function Word32(m: seq<byte>): bv32
    requires |m| == 4
  {
    (m[0] as bv32) | ((m[1] as bv32) << 8) | ((m[2] as bv32) << 16) | ((m[3] as bv32) << 24)
  }

  function Memory64(x: bv64): (m: seq<byte>)
    ensures |m| == 8
  {
    [(x & 0xFF) as byte, ((x >> 8) & 0xFF) as byte, ((x >> 16) & 0xFF) as byte, ((x >> 24) & 0xFF) as byte,
     ((x >> 32) & 0xFF) as byte, ((x >> 40) & 0xFF) as byte, ((x >> 48) & 0xFF) as byte, (x >> 56) as byte]
  }

  function Word64(m: seq<byte>): bv64
    requires |m| == 8
  {
    (m[0] as bv64) | ((m[1] as bv64) << 8) | ((m[2] as bv64) << 16) | ((m[3] as bv64) << 24)
    | ((m[4] as bv64) << 32) | ((m[5] as bv64) << 40) | ((m[6] as bv64) << 48) | ((m[7] as bv64) << 56)
  }

  lemma Stores32(m: seq<byte>)
    requires |m| == 4
    ensures Memory32(Word32(m)) == m
  {
  }

  lemma Stores16(m: seq<byte>)
    requires |m| == 2
    ensures Memory16(Word16(m)) == m
  {
  }

  // ---- reversal ----

  /** bswap_n reverses the first len bytes of a buffer, in place. */
  method BswapN(data: array<byte>, len: nat)
    requires len <= data.Length
    modifies data
    ensures data[..len] == Reverse(old(data[..len])) && data[len..] == old(data[len..])
  {
    var ptr, left := 0, len;
    while left > 1
      invariant 0 <= left && 2 * ptr + left == len
      invariant forall k :: 0 <= k < ptr ==> data[k] == old(data[len - 1 - k]) && data[len - 1 - k] == old(data[k])
      invariant forall k :: ptr <= k < ptr + left ==> data[k] == old(data[k])
      invariant data[len..] == old(data[len..])
    {
      var tmp := data[ptr];
      data[ptr] := data[ptr + left - 1];
      data[ptr + left - 1] := tmp;
      ptr, left := ptr + 1, left - 2;
    }
  }

  // ---- the mask and shift forms reverse the memory of a word ----

  lemma Masks16(x: bv16)
    ensures Memory16(MaskSwap16(x)) == Reverse(Memory16(x))
  {
  }

  lemma Masks32(x: bv32)
    ensures Memory32(MaskSwap32(x)) == Reverse(Memory32(x))
  {
  }

  lemma Masks64(x: bv64)
    ensures Memory64(MaskSwap64(x)) == Reverse(Memory64(x))
  {
    var y := MaskSwap64(x);
    LowHalf64(x);
    HighHalf64(x);
    Mirrored64(Memory64(x), Memory64(y));
  }

  lemma LowHalf64(x: bv64)
    ensures var m, n := Memory64(x), Memory64(MaskSwap64(x));
            n[0] == m[7] && n[1] == m[6] && n[2] == m[5] && n[3] == m[4]
  {
  }

  lemma HighHalf64(x: bv64)
    ensures var m, n := Memory64(x), Memory64(MaskSwap64(x));
            n[4] == m[3] && n[5] == m[2] && n[6] == m[1] && n[7] == m[0]
  {
  }

  lemma Mirrored64(m: seq<byte>, n: seq<byte>)
    requires |m| == |n| == 8
    requires n[0] == m[7] && n[1] == m[6] && n[2] == m[5] && n[3] == m[4]
    requires n[4] == m[3] && n[5] == m[2] && n[6] == m[1] && n[7] == m[0]
    ensures n == Reverse(m)
  {
  }

  /** The three forms are one function: reading a word from its reversed memory. */
  lemma FormsAgree(x: bv16, y: bv32, z: bv64)
    ensures Word16(Reverse(Memory16(x))) == MaskSwap16(x) && MaskSwap16(MaskSwap16(x)) == x
    ensures Word32(Reverse(Memory32(y))) == MaskSwap32(y) && MaskSwap32(MaskSwap32(y)) == y
    ensures Word64(Reverse(Memory64(z))) == MaskSwap64(z) && MaskSwap64(MaskSwap64(z)) == z
  {
    Agree16(x);
    Agree32(y);
    Agree64(z);
  }

  lemma Agree16(x: bv16)
    ensures Word16(Reverse(Memory16(x))) == MaskSwap16(x) && MaskSwap16(MaskSwap16(x)) == x
  {
  }

  lemma Agree32(x: bv32)
    ensures Word32(Reverse(Memory32(x))) == MaskSwap32(x) && MaskSwap32(MaskSwap32(x)) == x
  {
  }

  lemma Agree64(x: bv64)
    ensures Word64(Reverse(Memory64(x))) == MaskSwap64(x) && MaskSwap64(MaskSwap64(x)) == x
  {
  }

  // ---- the union forms ----

  /** The two bytes at i and j change places. */
  method SwapBytes(b: array<byte>, i: nat, j: nat)
    requires i < j < b.Length
    modifies b
    ensures b[..] == old(b[..])[i := old(b[j])][j := old(b[i])]
  {
    var tmp := b[i];
    b[i] := b[j];
    b[j] := tmp;
  }

  method Bswap16(x: bv16) returns (y: bv16)
    ensures y == MaskSwap16(x)
  {
    var b := new byte[2](i requires 0 <= i < 2 => Memory16(x)[i]);
    SwapBytes(b, 0, 1);
    Agree16(x);
    y := Word16(b[..]);
  }

  method Bswap32(x: bv32) returns (y: bv32)
    ensures y == MaskSwap32(x)
  {
    var b := new byte[4](i requires 0 <= i < 4 => Memory32(x)[i]);
    SwapBytes(b, 0, 3);
    SwapBytes(b, 1, 2);
    Agree32(x);
    y := Word32(b[..]);
  }

  method Bswap64(x: bv64) returns (y: bv64)
    ensures y == MaskSwap64(x)
  {
    var b := new byte[8](i requires 0 <= i < 8 => Memory64(x)[i]);
    SwapBytes(b, 0, 7);
    SwapBytes(b, 1, 6);
    SwapBytes(b, 2, 5);
    SwapBytes(b, 3, 4);
    Mirrored64(Memory64(x), b[..]);
    Agree64(x);
    y := Word64(b[..]);
  }
}
