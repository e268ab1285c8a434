/** The RAM disk: a block device over an array of bytes. */
module RamDisk {

  import opened Bswap
  import opened Endian

  datatype BlkState = BlkUninit | BlkStop | BlkReady

  /** The contents and geometry of a disk. */
  datatype Disk = Disk(state: BlkState, bytes: seq<byte>, blkSize: nat, blkNum: nat, readonly: bool)

  /** The storage is as large as the geometry says, and its byte offsets fit in 32 bits. */
  predicate Sized(d: Disk) {
    |d.bytes| == Bytes(d.blkNum, d.blkSize) < TWO_TO_THE_32 && d.blkNum < TWO_TO_THE_32 && d.blkSize < TWO_TO_THE_32
  }

  /** The range check, in 32-bit arithmetic. */
  predicate Overflow(startblk: nat, n: nat, num: nat) {
    (startblk + n) % TWO_TO_THE_32 > num
  }

  /** The sum does not wrap into the accepted range. */
  predicate Unwrapped(startblk: nat, n: nat, num: nat) {
    startblk + n < TWO_TO_THE_32 || startblk + n - TWO_TO_THE_32 > num
  }

  /** The check is right about a range exactly when its sum does not wrap into the accepted range. */
  lemma OverflowExact(startblk: nat, n: nat, num: nat)
    requires startblk < TWO_TO_THE_32 && n < TWO_TO_THE_32 && num < TWO_TO_THE_32
    ensures (Overflow(startblk, n, num) <==> startblk + n > num) <==> Unwrapped(startblk, n, num)
  {
  }

  /** The last address with one block is accepted by every disk, though no disk has that block. */
  lemma OverflowWraps(num: nat)
    requires num < TWO_TO_THE_32
    ensures !Overflow(TWO_TO_THE_32 - 1, 1, num) && TWO_TO_THE_32 - 1 + 1 > num
  {
  }

  /** How many bytes n blocks take. */
  function Bytes(n: nat, blkSize: nat): nat {
    if n == 0 then 0 else Bytes(n - 1, blkSize) + blkSize
  }

  lemma {:induction false} BytesIsProduct(n: nat, blkSize: nat)
    ensures Bytes(n, blkSize) == n * blkSize
  {
    if n > 0 {
      BytesIsProduct(n - 1, blkSize);
    }
  }

  lemma OneBlock(blkSize: nat)
    ensures Bytes(1, blkSize) == blkSize
  {
  }

  /** The blocks from a to b take the bytes between their offsets. */
  lemma {:induction false} Between(a: nat, b: nat, blkSize: nat)
    requires a <= b
    ensures Bytes(a, blkSize) + Bytes(b - a, blkSize) == Bytes(b, blkSize)
    decreases b
  {
    if a < b {
      Between(a, b - 1, blkSize);
    }
  }

  /** The bytes of n blocks from startblk on. */
  function Blocks(d: Disk, startblk: nat, n: nat): (b: seq<byte>)
    requires Sized(d) && startblk + n <= d.blkNum
    ensures |b| == Bytes(n, d.blkSize)
  {
    Between(startblk, startblk + n, d.blkSize);
    Between(startblk + n, d.blkNum, d.blkSize);
    d.bytes[Bytes(startblk, d.blkSize)..Bytes(startblk + n, d.blkSize)]
  }

  /** The disk with data in its n blocks from startblk on. */
  function WithBlocks(d: Disk, startblk: nat, n: nat, data: seq<byte>): (e: Disk)
    requires Sized(d) && startblk + n <= d.blkNum && |data| == Bytes(n, d.blkSize)
    ensures Sized(e) && e == d.(bytes := e.bytes)
  {
    Between(startblk, startblk + n, d.blkSize);
    Between(startblk + n, d.blkNum, d.blkSize);
    d.(bytes := d.bytes[..Bytes(startblk, d.blkSize)] + data + d.bytes[Bytes(startblk + n, d.blkSize)..])
  }

  /** What was written reads back. */
  lemma WriteThenRead(d: Disk, startblk: nat, n: nat, data: seq<byte>)
    requires Sized(d) && startblk + n <= d.blkNum && |data| == Bytes(n, d.blkSize)
    ensures Blocks(WithBlocks(d, startblk, n, data), startblk, n) == data
  {
    Between(startblk, startblk + n, d.blkSize);
    Between(startblk + n, d.blkNum, d.blkSize);
    var e := WithBlocks(d, startblk, n, data);
    assert e.bytes[Bytes(startblk, d.blkSize)..Bytes(startblk + n, d.blkSize)] == data;
  }

  /** A block outside the written range keeps its contents. */
  lemma WriteKeeps(d: Disk, startblk: nat, n: nat, data: seq<byte>, k: nat)
    requires Sized(d) && startblk + n <= d.blkNum && |data| == Bytes(n, d.blkSize)
    requires k < d.blkNum && !(startblk <= k < startblk + n)
    ensures Blocks(WithBlocks(d, startblk, n, data), k, 1) == Blocks(d, k, 1)
  {
    if k < startblk {
      WriteKeepsBefore(d, startblk, n, data, k);
    } else {
      WriteKeepsAfter(d, startblk, n, data, k);
    }
  }

  /** Offsets of blocks of the disk are in order and within the storage. */
  lemma Offsets(d: Disk, a: nat, b: nat)
    requires Sized(d) && a <= b <= d.blkNum
    ensures Bytes(a, d.blkSize) <= Bytes(b, d.blkSize) <= |d.bytes|
  {
    Between(a, b, d.blkSize);
    Between(b, d.blkNum, d.blkSize);
  }

  lemma WriteKeepsBefore(d: Disk, startblk: nat, n: nat, data: seq<byte>, k: nat)
    requires Sized(d) && startblk + n <= d.blkNum && |data| == Bytes(n, d.blkSize) && k < startblk
    ensures Blocks(WithBlocks(d, startblk, n, data), k, 1) == Blocks(d, k, 1)
  {
    hide Bytes;
    var bs := d.blkSize;
    Offsets(d, k, k + 1);
    Offsets(d, k + 1, startblk);
    Between(startblk, startblk + n, bs);
    Offsets(d, startblk, startblk + n);
    Patched(d.bytes, data, Bytes(startblk, bs), Bytes(startblk + n, bs), Bytes(k, bs), Bytes(k + 1, bs));
  }

  lemma WriteKeepsAfter(d: Disk, startblk: nat, n: nat, data: seq<byte>, k: nat)
    requires Sized(d) && |data| == Bytes(n, d.blkSize) && startblk + n <= k < d.blkNum
    ensures Blocks(WithBlocks(d, startblk, n, data), k, 1) == Blocks(d, k, 1)
  {
    hide Bytes;
    var bs := d.blkSize;
    Between(startblk, startblk + n, bs);
    Offsets(d, startblk + n, k);
    Offsets(d, k, k + 1);
    Patched(d.bytes, data, Bytes(startblk, bs), Bytes(startblk + n, bs), Bytes(k, bs), Bytes(k + 1, bs));
  }

  /** New data between from and to leaves what is outside alone. */
  lemma Patched(b: seq<byte>, data: seq<byte>, from: nat, to: nat, lo: nat, hi: nat)
    requires from + |data| == to <= |b| && lo <= hi <= |b| && (hi <= from || to <= lo)
    ensures (b[..from] + data + b[to..])[lo..hi] == b[lo..hi]
  {
  }

  /** memcpy of len bytes. */
  method Memcpy(dst: array<byte>, to: nat, src: array<byte>, from: nat, len: nat)
    requires dst != src && to + len <= dst.Length && from + len <= src.Length
    modifies dst
    ensures dst[..] == old(dst[..to]) + src[from..from + len] + old(dst[to + len..])
  {
    for i := 0 to len
      invariant dst[..] == old(dst[..to]) + src[from..from + i] + old(dst[to + i..])
    {
      dst[to + i] := src[from + i];
    }
  }

  class Device {
    var state: BlkState
    var storage: array<byte>
    var blkSize: nat
    var blkNum: nat
    var readonly: bool

    ghost function Contents(): Disk
      reads this, storage
    {
      Disk(state, storage[..], blkSize, blkNum, readonly)
    }

    /** ramdiskObjectInit: only the state is set. */
    constructor (garbage: array<byte>)
      ensures state == BlkStop && storage == garbage
    {
      state := BlkStop;
      storage := garbage;
    }

    method Start(storage: array<byte>, blksize: nat, blknum: nat, readonly: bool)
      requires state == BlkStop || state == BlkReady
      modifies this
      ensures this.storage == storage
      ensures Contents() == Disk(BlkReady, storage[..], blksize, blknum, readonly)
    {
      blkNum := blknum;
      blkSize := blksize;
      this.readonly := readonly;
      this.storage := storage;
      state := BlkReady;
    }

    predicate IsInserted() {
      true
    }

    predicate IsProtected()
      reads this
    {
      if state == BlkReady then readonly else true
    }

    method Connect()
      modifies this`state
      ensures Contents() == old(Contents()).(state := if old(state) == BlkStop then BlkReady else old(state))
    {
      if state == BlkStop {
        state := BlkReady;
      }
    }

    method Disconnect()
      modifies this`state
      ensures Contents() == old(Contents()).(state := BlkStop)
    {
      if state != BlkStop {
        state := BlkStop;
      }
    }

    lemma ProductOffsets(startblk: nat, n: nat)
      ensures Bytes(startblk, blkSize) == startblk * blkSize && Bytes(n, blkSize) == n * blkSize
    {
      BytesIsProduct(startblk, blkSize);
      BytesIsProduct(n, blkSize);
    }

    /** The state is not looked at: a disconnected disk still answers. */
    method Read(startblk: nat, buffer: array<byte>, n: nat) returns (ok: bool)
      requires Sized(Contents()) && buffer != storage
      requires startblk < TWO_TO_THE_32 && n < TWO_TO_THE_32 && Unwrapped(startblk, n, blkNum)
      requires startblk + n <= blkNum ==> Bytes(n, blkSize) <= buffer.Length
      modifies buffer
      ensures ok == (startblk + n <= blkNum)
      ensures buffer[..]
        == if ok then Blocks(Contents(), startblk, n) + old(buffer[Bytes(n, blkSize)..]) else old(buffer[..])
    {
      OverflowExact(startblk, n, blkNum);
      if Overflow(startblk, n, blkNum) {
        return false;
      }
      Between(startblk, startblk + n, blkSize);
      Between(startblk + n, blkNum, blkSize);
      ProductOffsets(startblk, n);
      Memcpy(buffer, 0, storage, startblk * blkSize, n * blkSize);
      return true;
    }

    /** The read-only flag is not looked at. */
    method Write(startblk: nat, buffer: array<byte>, n: nat) returns (ok: bool)
      requires Sized(Contents()) && buffer != storage
      requires startblk < TWO_TO_THE_32 && n < TWO_TO_THE_32 && Unwrapped(startblk, n, blkNum)
      requires startblk + n <= blkNum ==> Bytes(n, blkSize) <= buffer.Length
      modifies storage
      ensures ok == (startblk + n <= blkNum)
      ensures Contents()
        == if ok then WithBlocks(old(Contents()), startblk, n, buffer[..Bytes(n, blkSize)]) else old(Contents())
    {
      OverflowExact(startblk, n, blkNum);
      if Overflow(startblk, n, blkNum) {
        return false;
      }
      Between(startblk, startblk + n, blkSize);
      Between(startblk + n, blkNum, blkSize);
      ProductOffsets(startblk, n);
      Memcpy(storage, startblk * blkSize, buffer, 0, n * blkSize);
      return true;
    }

    method GetInfo() returns (ok: bool, num: nat, size: nat)
      ensures ok == (state == BlkReady)
      ensures ok ==> num == blkNum && size == blkSize
    {
      if state != BlkReady {
        return false, 0, 0;
      }
      return true, blkNum, blkSize;
    }
  }
}
