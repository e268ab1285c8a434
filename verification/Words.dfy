/** Unsigned machine words as rows of bits, least significant first, and the C operators on them. */
module Words {

  import opened Prelude

  type Row = seq<bool>
  type Word = r: Row | |r| == 32 witness Zeros(32)
  type Byte = r: Row | |r| == 8 witness Zeros(8)

  function Zeros(n: nat): (r: Row)
    ensures |r| == n && forall i :: 0 <= i < n ==> !r[i]
  {
    seq(n, _ => false)
  }

  function Xor(a: Row, b: Row): (r: Row)
    requires |a| == |b|
    ensures |r| == |a| && forall i :: 0 <= i < |r| ==> r[i] == (a[i] != b[i])
  {
    seq(|a|, i requires 0 <= i < |a| => a[i] != b[i])
  }

  function And(a: Row, b: Row): (r: Row)
    requires |a| == |b|
    ensures |r| == |a| && forall i :: 0 <= i < |r| ==> r[i] == (a[i] && b[i])
  {
    seq(|a|, i requires 0 <= i < |a| => a[i] && b[i])
  }

  function Or(a: Row, b: Row): (r: Row)
    requires |a| == |b|
    ensures |r| == |a| && forall i :: 0 <= i < |r| ==> r[i] == (a[i] || b[i])
  {
    seq(|a|, i requires 0 <= i < |a| => a[i] || b[i])
  }

  /** The C shift a << k: the k highest bits are lost. */
  function Shl(a: Row, k: nat): (r: Row)
    requires k <= |a|
    ensures |r| == |a| && forall i :: 0 <= i < |r| ==> r[i] == (i >= k && a[i - k])
  {
    Zeros(k) + a[..|a| - k]
  }

  /** The C shift a >> k of an unsigned operand: the k lowest bits are lost. */
  function Shr(a: Row, k: nat): (r: Row)
    requires k <= |a|
    ensures |r| == |a| && forall i :: 0 <= i < |r| ==> r[i] == (i + k < |a| && a[i + k])
  {
    a[k..] + Zeros(k)
  }

  /** 1 << k in 32 bits. */
  function Unit(k: nat): (r: Word)
    requires k < 32
    ensures forall i :: 0 <= i < 32 ==> r[i] == (i == k)
  {
    seq(32, i => i == k)
  }

  /** The unsigned number a row stands for. */
  function Value(r: Row): nat {
    if |r| == 0 then 0 else (if r[0] then 1 else 0) + 2 * Value(r[1..])
  }

  /** The low n bits of a number. */
  function ToRow(x: nat, n: nat): (r: Row)
    ensures |r| == n
  {
    if n == 0 then [] else [x % 2 == 1] + ToRow(x / 2, n - 1)
  }

  lemma {:induction false} ValueBound(r: Row)
    ensures Value(r) < Pow2(|r|)
  {
    if |r| > 0 {
      ValueBound(r[1..]);
    }
  }
}
