/** What holds of the SCSI target over commands and over whole runs. */
module ScsiRuns {

  import opened Bswap
  import opened Endian
  import opened RamDisk
  import opened Scsi

  // ---- transfers ----

  /** Two adjoining writes are one write. */
  lemma WritesJoin(d: Disk, first: nat, i: nat, data: seq<byte>, more: seq<byte>)
    requires Sized(d) && 0 < i && first + i <= d.blkNum && |data| == Bytes(i - 1, d.blkSize) && |more| == d.blkSize
    ensures |data + more| == Bytes(i, d.blkSize)
    ensures WithBlocks(WithBlocks(d, first, i - 1, data), first + (i - 1), 1, more)
      == WithBlocks(d, first, i, data + more)
  {
    var bs := d.blkSize;
    Between(first, first + (i - 1), bs);
    Between(first + i, d.blkNum, bs);
    Joined(d.bytes, data, more, Bytes(first, bs), Bytes(first + (i - 1), bs), Bytes(first + i, bs));
  }

  lemma Joined(b: seq<byte>, data: seq<byte>, more: seq<byte>, lo: nat, mid: nat, hi: nat)
    requires lo + |data| == mid && mid + |more| == hi <= |b|
    ensures var w := b[..lo] + data + b[mid..];
            w[..mid] + more + w[hi..] == b[..lo] + (data + more) + b[hi..]
  {
  }

  lemma ReadsJoin(d: Disk, first: nat, i: nat)
    requires Sized(d) && 0 < i && first + i <= d.blkNum
    ensures Blocks(d, first, i - 1) + Blocks(d, first + (i - 1), 1) == Blocks(d, first, i)
  {
    var bs := d.blkSize;
    Between(first, first + (i - 1), bs);
    Between(first + i, d.blkNum, bs);
    Abutting(d.bytes, Bytes(first, bs), Bytes(first + (i - 1), bs), Bytes(first + i, bs));
  }

  lemma Abutting(b: seq<byte>, lo: nat, mid: nat, hi: nat)
    requires lo <= mid <= hi <= |b|
    ensures b[lo..mid] + b[mid..hi] == b[lo..hi]
  {
  }

  lemma WritesNothing(d: Disk, first: nat)
    requires Sized(d) && first <= d.blkNum
    ensures WithBlocks(d, first, 0, []) == d
  {
    Between(first, d.blkNum, d.blkSize);
    assert d.bytes[..Bytes(first, d.blkSize)] + [] + d.bytes[Bytes(first, d.blkSize)..] == d.bytes;
  }

  // ---- what a WRITE(10) stores, whatever the host delivers ----

  /**
   * Byte j of the block buffer after i blocks were asked for: the last byte the host delivered for
   * that place in a block, or what the buffer held before.
   */
  function BufferByte(t: Target, i: nat, j: nat): byte
    requires j < |t.buf|
  {
    if i == 0 then t.buf[j]
    else
      var at := Bytes(i - 1, t.disk.blkSize) + j;
      if at < |t.link.incoming| then t.link.incoming[at] else BufferByte(t, i - 1, j)
  }

  /** The block buffer, of block size, after i blocks. */
  function BufferedBlock(t: Target, i: nat): (b: seq<byte>)
    requires t.disk.blkSize <= |t.buf|
    ensures |b| == t.disk.blkSize
  {
    seq(t.disk.blkSize, j requires 0 <= j < t.disk.blkSize => BufferByte(t, i, j))
  }

  /** The contents of i written blocks: block k is the buffer as it is after k + 1 blocks. */
  function Stored(t: Target, i: nat): (data: seq<byte>)
    requires t.disk.blkSize <= |t.buf|
    ensures |data| == Bytes(i, t.disk.blkSize)
  {
    if i == 0 then [] else Stored(t, i - 1) + BufferedBlock(t, i)
  }

  /** What the host still has to deliver after i blocks. */
  function Undelivered(t: Target, i: nat): seq<byte> {
    t.link.incoming[Min(Bytes(i, t.disk.blkSize), |t.link.incoming|)..]
  }

  /** i blocks were asked for and written from block first on. */
  ghost predicate HasTaken(t: Target, u: Target, first: nat, i: nat)
    requires TargetOk(t) && first + i <= t.disk.blkNum
  {
    && u.disk == WithBlocks(t.disk, first, i, Stored(t, i))
    && u.link == t.link.(incoming := Undelivered(t, i))
    && |u.buf| == |t.buf| && u.buf[..t.disk.blkSize] == BufferedBlock(t, i)
  }

  lemma TakenNothing(t: Target, first: nat)
    requires TargetOk(t) && first <= t.disk.blkNum
    ensures HasTaken(t, t, first, 0)
  {
    WritesNothing(t.disk, first);
    assert t.buf[..t.disk.blkSize] == BufferedBlock(t, 0);
  }

  /** i blocks of a WRITE put the buffered bytes into the i blocks, however much the host delivers. */
  lemma {:induction false} TransferWrites(c: Config, t: Target, op: byte, first: nat, i: nat)
    requires TargetOk(t) && first + i <= t.disk.blkNum && op != READ_10
    ensures HasTaken(t, Transfer(c, t, op, first, i), first, i)
    decreases i
  {
    hide MoveBlock, HasTaken;
    if i == 0 {
      TakenNothing(t, first);
    } else {
      var p := Transfer(c, t, op, first, i - 1);
      TransferWrites(c, t, op, first, i - 1);
      WritesOneMore(c, t, p, op, first, i);
      TransferStep(c, t, op, first, i - 1, i);
    }
  }

  /** One more receive: the buffer and the rest of the bytes. */
  lemma ReceivesOneMore(t: Target, buf: seq<byte>, i: nat)
    requires t.disk.blkSize <= |t.buf| == |buf| && 0 < i && buf[..t.disk.blkSize] == BufferedBlock(t, i - 1)
    ensures var (buf', l) := Receive(t.link.(incoming := Undelivered(t, i - 1)), buf, t.disk.blkSize);
            |buf'| == |buf| && buf'[..t.disk.blkSize] == BufferedBlock(t, i) && l.incoming == Undelivered(t, i)
            && l == t.link.(incoming := l.incoming)
  {
    var bs, inc, from := t.disk.blkSize, t.link.incoming, Bytes(i - 1, t.disk.blkSize);
    var rest := Undelivered(t, i - 1);
    var (buf', l) := Receive(t.link.(incoming := rest), buf, bs);
    forall j | 0 <= j < bs ensures buf'[j] == BufferByte(t, i, j) {
      assert buf[..bs][j] == BufferByte(t, i - 1, j);
    }
    assert rest[Min(bs, |rest|)..] == Undelivered(t, i);
  }

  lemma WritesOneMore(c: Config, t: Target, p: Target, op: byte, first: nat, i: nat)
    requires TargetOk(t) && 0 < i && first + i <= t.disk.blkNum && op != READ_10
    requires TargetOk(p) && HasTaken(t, p, first, i - 1)
    ensures HasTaken(t, MoveBlock(c, p, op, first + (i - 1)), first, i)
  {
    hide BufferByte, BufferedBlock, Undelivered, Receive, WithBlocks, Bytes;
    ReceivesOneMore(t, p.buf, i);
    WritesJoin(t.disk, first, i, Stored(t, i - 1), BufferedBlock(t, i));
  }

  /** The first n blocks the host has yet to deliver. */
  function Delivered(t: Target, n: nat): (data: seq<byte>)
    requires Bytes(n, t.disk.blkSize) <= |t.link.incoming|
    ensures |data| == Bytes(n, t.disk.blkSize)
  {
    t.link.incoming[..Bytes(n, t.disk.blkSize)]
  }

  /** When the host delivers enough, the delivered bytes are stored. */
  lemma {:induction false} StoredIsDelivered(t: Target, i: nat)
    requires t.disk.blkSize <= |t.buf| && Bytes(i, t.disk.blkSize) <= |t.link.incoming|
    ensures Stored(t, i) == Delivered(t, i)
    decreases i
  {
    if i > 0 {
      StoredIsDelivered(t, i - 1);
      var bs, inc := t.disk.blkSize, t.link.incoming;
      assert BufferedBlock(t, i) == inc[Bytes(i - 1, bs)..Bytes(i, bs)];
    }
  }

  /** A block for which nothing arrives any more repeats the block before it; the first, the old buffer. */
  lemma LateBlockRepeats(t: Target, i: nat)
    requires t.disk.blkSize <= |t.buf| && Bytes(i, t.disk.blkSize) >= |t.link.incoming|
    ensures BufferedBlock(t, i + 1) == BufferedBlock(t, i)
    ensures BufferedBlock(t, 0) == t.buf[..t.disk.blkSize]
  {
  }

  // ---- what a READ(10) sends, however much the host takes ----

  /** The host takes transmission number calls + k of a block in full. */
  predicate Took(c: Config, calls: nat, bs: nat, k: nat) {
    c.takes(calls + k, bs) >= bs
  }

  /** What the host takes of i blocks, from transmission number calls on. */
  function Carried(c: Config, calls: nat, d: Disk, first: nat, i: nat): (data: seq<byte>)
    requires Sized(d) && first + i <= d.blkNum
    decreases i
  {
    if i == 0 then []
    else
      OneBlock(d.blkSize);
      Carried(c, calls, d, first, i - 1)
      + Blocks(d, first + (i - 1), 1)[..Min(c.takes(calls + (i - 1), d.blkSize), d.blkSize)]
  }

  /** The link has carried that to the host, and the disk is as it was. */
  predicate HasSent(c: Config, t: Target, u: Target, first: nat, i: nat)
    requires TargetOk(t) && first + i <= t.disk.blkNum
  {
    && u.disk == t.disk
    && u.link == Link(t.link.sent + Carried(c, t.link.calls, t.disk, first, i), t.link.incoming, t.link.calls + i)
  }

  lemma SentNothing(c: Config, t: Target, first: nat)
    requires TargetOk(t) && first <= t.disk.blkNum
    ensures HasSent(c, t, t, first, 0)
  {
  }

  /** The host gets of the i blocks of a READ what it takes of each, and the disk stays as it is. */
  lemma {:induction false} TransferReads(c: Config, t: Target, first: nat, i: nat)
    requires TargetOk(t) && first + i <= t.disk.blkNum
    ensures HasSent(c, t, Transfer(c, t, READ_10, first, i), first, i)
    decreases i
  {
    hide MoveBlock, HasSent;
    if i == 0 {
      SentNothing(c, t, first);
    } else {
      var p := Transfer(c, t, READ_10, first, i - 1);
      TransferReads(c, t, first, i - 1);
      ReadsOneMore(c, t, p, first, i);
      TransferStep(c, t, READ_10, first, i - 1, i);
    }
  }

  lemma ReadsOneMore(c: Config, t: Target, p: Target, first: nat, i: nat)
    requires TargetOk(t) && 0 < i && first + i <= t.disk.blkNum
    requires TargetOk(p) && HasSent(c, t, p, first, i - 1)
    ensures HasSent(c, t, MoveBlock(c, p, READ_10, first + (i - 1)), first, i)
  {
    var bs, block := t.disk.blkSize, Blocks(t.disk, first + (i - 1), 1);
    ReadBlockSends(c, p, first + (i - 1));
    OneBlock(bs);
    Appended(t.link.sent, Carried(c, t.link.calls, t.disk, first, i - 1),
      block[..Min(c.takes(t.link.calls + (i - 1), bs), bs)]);
  }

  lemma Appended(a: seq<byte>, b: seq<byte>, c: seq<byte>)
    ensures (a + b) + c == a + (b + c)
  {
  }

  lemma ReadBlockSends(c: Config, t: Target, k: nat)
    requires TargetOk(t) && k + 1 <= t.disk.blkNum
    ensures |Blocks(t.disk, k, 1)| == t.disk.blkSize
    ensures ReadBlock(c, t, k).link == Transmit(c, t.link, Blocks(t.disk, k, 1)).1
  {
    var block := Blocks(t.disk, k, 1);
    OneBlock(t.disk.blkSize);
    assert (block + t.buf[t.disk.blkSize..])[..|block|] == block;
  }

  /** No more is carried than there is, and all of it exactly when every block was taken in full. */
  lemma {:induction false} CarriedExact(c: Config, calls: nat, d: Disk, first: nat, i: nat)
    requires Sized(d) && first + i <= d.blkNum
    ensures |Carried(c, calls, d, first, i)| <= Bytes(i, d.blkSize)
    ensures |Carried(c, calls, d, first, i)| == Bytes(i, d.blkSize)
      <==> forall k :: 0 <= k < i ==> Took(c, calls, d.blkSize, k)
    ensures (forall k :: 0 <= k < i ==> Took(c, calls, d.blkSize, k))
      ==> Carried(c, calls, d, first, i) == Blocks(d, first, i)
    decreases i
  {
    hide Blocks;
    if i == 0 {
      NoBlocks(d, first);
    } else {
      OneBlock(d.blkSize);
      CarriedExact(c, calls, d, first, i - 1);
      ReadsJoin(d, first, i);
      var block := Blocks(d, first + (i - 1), 1);
      if Took(c, calls, d.blkSize, i - 1) {
        assert block[..d.blkSize] == block;
      }
    }
  }

  lemma NoBlocks(d: Disk, first: nat)
    requires Sized(d) && first <= d.blkNum
    ensures Blocks(d, first, 0) == []
  {
  }

  // ---- the transfer commands ----

  /** A transfer this target can make: of blocks it has, on a disk that is ready. */
  predicate Transferable(t: Target, req: DataRequest) {
    && TargetOk(t) && t.disk.state == BlkReady
    && req.firstLba < TWO_TO_THE_32 && req.blkCnt < 0x1_0000 && req.firstLba + req.blkCnt <= t.disk.blkNum
  }

  /** The target and the status after a transfer command. */
  function Transferred(c: Config, t: Target, op: byte, req: DataRequest): (Target, bool)
    requires Transferable(t, req) && (op == READ_10 || op == WRITE_10)
  {
    TransferCallable(t, op, req);
    Exec(c, t, EncodeRequest(op, req), [])
  }

  lemma TransferCallable(t: Target, op: byte, req: DataRequest)
    requires Transferable(t, req)
    ensures Callable(t, EncodeRequest(op, req)) && Decode(EncodeRequest(op, req)) == req
    ensures !Overflow(req.firstLba, req.blkCnt, t.disk.blkNum)
  {
    DecodeInvertsEncode(op, req);
    OverflowExact(req.firstLba, req.blkCnt, t.disk.blkNum);
  }

  lemma TransferredIsLoop(c: Config, t: Target, op: byte, req: DataRequest)
    requires Transferable(t, req) && (op == READ_10 || op == WRITE_10)
    ensures Transferred(c, t, op, req).1
    ensures TargetOk(Transferred(c, t, op, req).0)
    ensures Transferred(c, t, op, req).0.disk == Transfer(c, t, op, req.firstLba, req.blkCnt).disk
    ensures Transferred(c, t, op, req).0.link == Transfer(c, t, op, req.firstLba, req.blkCnt).link
  {
    TransferCallable(t, op, req);
    var cmd := EncodeRequest(op, req);
    assert Handle(c, t, cmd, []) == (Transfer(c, t, op, req.firstLba, req.blkCnt), true);
  }

  /**
   * WRITE(10) always reports success. It makes the range what the block buffer held after each
   * receive, consumes what the host has for it, and changes nothing else on the disk. Those are the bytes
   * the host has if and only if it has enough.
   */
  lemma WriteStores(c: Config, t: Target, req: DataRequest)
    requires Transferable(t, req)
    ensures Transferred(c, t, WRITE_10, req).1
    ensures Transferred(c, t, WRITE_10, req).0.disk
      == WithBlocks(t.disk, req.firstLba, req.blkCnt, Stored(t, req.blkCnt))
    ensures Transferred(c, t, WRITE_10, req).0.link == t.link.(incoming := Undelivered(t, req.blkCnt))
    ensures Stored(t, req.blkCnt) <= t.link.incoming <==> Bytes(req.blkCnt, t.disk.blkSize) <= |t.link.incoming|
    ensures Bytes(req.blkCnt, t.disk.blkSize) <= |t.link.incoming| ==> Stored(t, req.blkCnt) == Delivered(t, req.blkCnt)
  {
    TransferredIsLoop(c, t, WRITE_10, req);
    TransferWrites(c, t, WRITE_10, req.firstLba, req.blkCnt);
    if Bytes(req.blkCnt, t.disk.blkSize) <= |t.link.incoming| {
      StoredIsDelivered(t, req.blkCnt);
    }
  }

  /** Every block of the request is taken in full by the host. */
  predicate AllTook(c: Config, t: Target, req: DataRequest) {
    forall k :: 0 <= k < req.blkCnt ==> Took(c, t.link.calls, t.disk.blkSize, k)
  }

  /**
   * READ(10) always reports success and leaves the disk. The host gets exactly the blocks if and only if
   * it takes each of them in full; otherwise bytes are missing.
   */
  lemma ReadSends(c: Config, t: Target, req: DataRequest)
    requires Transferable(t, req)
    ensures Transferred(c, t, READ_10, req).1
    ensures Transferred(c, t, READ_10, req).0.disk == t.disk
    ensures Transferred(c, t, READ_10, req).0.link
      == Link(t.link.sent + Carried(c, t.link.calls, t.disk, req.firstLba, req.blkCnt),
              t.link.incoming, t.link.calls + req.blkCnt)
    ensures AllTook(c, t, req) <==>
      Transferred(c, t, READ_10, req).0.link.sent == t.link.sent + Blocks(t.disk, req.firstLba, req.blkCnt)
    ensures !AllTook(c, t, req) ==>
      |Transferred(c, t, READ_10, req).0.link.sent| < |t.link.sent| + Bytes(req.blkCnt, t.disk.blkSize)
  {
    TransferredIsLoop(c, t, READ_10, req);
    TransferReads(c, t, req.firstLba, req.blkCnt);
    CarriedExact(c, t.link.calls, t.disk, req.firstLba, req.blkCnt);
  }

  /**
   * WRITE(10) then READ(10) of one range sends back what was stored, if and only if the host takes each
   * block in full; and what was stored is what was delivered, when the host delivers enough.
   */
  lemma WriteThenReadBack(c: Config, t: Target, req: DataRequest)
    requires Transferable(t, req)
    ensures Transferable(Transferred(c, t, WRITE_10, req).0, req)
    ensures AllTook(c, t, req) <==>
      Transferred(c, Transferred(c, t, WRITE_10, req).0, READ_10, req).0.link.sent
      == t.link.sent + Stored(t, req.blkCnt)
    ensures Bytes(req.blkCnt, t.disk.blkSize) <= |t.link.incoming| ==> Stored(t, req.blkCnt) == Delivered(t, req.blkCnt)
  {
    var u := Transferred(c, t, WRITE_10, req).0;
    TransferredIsLoop(c, t, WRITE_10, req);
    WriteStores(c, t, req);
    ReadSends(c, u, req);
    RamDisk.WriteThenRead(t.disk, req.firstLba, req.blkCnt, Stored(t, req.blkCnt));
  }

  /** A disk of two blocks of one byte, with a stale byte in the block buffer. */
  function Small(incoming: seq<byte>): Target {
    Target(seq(18, _ => 0), [0, 0, 0, 0], 0, [9], Disk(BlkReady, [7, 8], 1, 2, false), Link([], incoming, 0))
  }

  lemma SmallIsReady(incoming: seq<byte>)
    ensures Transferable(Small(incoming), DataRequest(0, 2))
  {
    OneBlock(1);
    assert Bytes(2, 1) == Bytes(1, 1) + 1;
  }

  /** A host that takes nothing: READ(10) reports success and good sense data, and nothing has arrived. */
  lemma SlowHostUnnoticed(c: Config)
    requires c.takes(0, 1) == 0 && c.takes(1, 1) == 0
    ensures var t, req := Small([]), DataRequest(0, 2);
            && Transferable(t, req) && Blocks(t.disk, 0, 2) == [7, 8]
            && var (u, ok) := Transferred(c, t, READ_10, req);
            && ok && u.link.sent == [] && u.residue == 0
            && u.sense == Layout(KEY_GOOD, NO_ADDITIONAL_INFORMATION, NO_QUALIFIER)
  {
    var t, req := Small([]), DataRequest(0, 2);
    SmallIsReady([]);
    ReadSends(c, t, req);
    TransferCallable(t, READ_10, req);
    ExecOutcome(c, t, EncodeRequest(READ_10, req), []);
    assert Bytes(2, 1) == 2 && Bytes(0, 1) == 0;
    CarriesNothing(c, t.disk);
  }

  lemma CarriesNothing(c: Config, d: Disk)
    requires c.takes(0, 1) == 0 && c.takes(1, 1) == 0 && Sized(d) && d.blkSize == 1 && d.blkNum == 2
    ensures Carried(c, 0, d, 0, 2) == []
  {
    assert Carried(c, 0, d, 0, 1) == [];
  }

  /** A host with one byte too few: WRITE(10) reports success, and that byte is in both blocks. */
  lemma ShortDeliveryUnnoticed(c: Config)
    ensures var t, req := Small([5]), DataRequest(0, 2);
            && Transferable(t, req)
            && var (u, ok) := Transferred(c, t, WRITE_10, req);
            ok && u.disk.bytes == [5, 5]
  {
    var t, req := Small([5]), DataRequest(0, 2);
    SmallIsReady([5]);
    WriteStores(c, t, req);
    assert Bytes(2, 1) == 2 && Bytes(1, 1) == 1 && Bytes(0, 1) == 0;
    assert BufferByte(t, 1, 0) == 5 && BufferByte(t, 2, 0) == 5;
    assert BufferedBlock(t, 1) == [5] && BufferedBlock(t, 2) == [5];
    assert Stored(t, 1) == [5] && Stored(t, 2) == [5, 5];
  }

  predicate SameBlock(d: Disk, e: Disk, k: nat) {
    Sized(d) && Sized(e) && k < d.blkNum && k < e.blkNum && Blocks(d, k, 1) == Blocks(e, k, 1)
  }

  /** Blocks outside the range of a transfer keep their contents, whatever the host delivers. */
  lemma {:induction false} TransferLeavesOthers(c: Config, t: Target, op: byte, first: nat, i: nat, k: nat)
    requires TargetOk(t) && first + i <= t.disk.blkNum && k < t.disk.blkNum && !(first <= k < first + i)
    ensures SameBlock(t.disk, Transfer(c, t, op, first, i).disk, k)
    decreases i
  {
    hide MoveBlock, SameBlock;
    if i == 0 {
      SameItself(t.disk, k);
    } else {
      var p := Transfer(c, t, op, first, i - 1);
      TransferLeavesOthers(c, t, op, first, i - 1, k);
      MoveBlockLeaves(c, p, op, first + (i - 1), k);
      TransferStep(c, t, op, first, i - 1, i);
      SameTwice(t.disk, p.disk, Transfer(c, t, op, first, i).disk, k);
    }
  }

  lemma SameItself(d: Disk, k: nat)
    requires Sized(d) && k < d.blkNum
    ensures SameBlock(d, d, k)
  {
  }

  lemma SameTwice(d: Disk, e: Disk, f: Disk, k: nat)
    requires SameBlock(d, e, k) && SameBlock(e, f, k)
    ensures SameBlock(d, f, k)
  {
  }

  lemma MoveBlockLeaves(c: Config, t: Target, op: byte, j: nat, k: nat)
    requires TargetOk(t) && j + 1 <= t.disk.blkNum && k < t.disk.blkNum && k != j
    ensures SameBlock(t.disk, MoveBlock(c, t, op, j).disk, k)
  {
    if op != READ_10 {
      WriteBlockLeaves(t, j, k);
    }
  }

  lemma WriteBlockLeaves(t: Target, j: nat, k: nat)
    requires TargetOk(t) && j + 1 <= t.disk.blkNum && k < t.disk.blkNum && k != j
    ensures Blocks(WriteBlock(t, j).disk, k, 1) == Blocks(t.disk, k, 1)
  {
    var (buf, l) := Receive(t.link, t.buf, t.disk.blkSize);
    WriteKeeps(t.disk, j, 1, buf[..t.disk.blkSize], k);
  }

  /** Blocks outside the range of a WRITE(10) keep their contents, whatever the host delivers. */
  lemma WriteLeavesOtherBlocks(c: Config, t: Target, req: DataRequest, k: nat)
    requires Transferable(t, req) && k < t.disk.blkNum && !(req.firstLba <= k < req.firstLba + req.blkCnt)
    ensures Transferred(c, t, WRITE_10, req).0.disk.blkNum == t.disk.blkNum
    ensures Blocks(Transferred(c, t, WRITE_10, req).0.disk, k, 1) == Blocks(t.disk, k, 1)
  {
    TransferredIsLoop(c, t, WRITE_10, req);
    TransferLeavesOthers(c, t, WRITE_10, req.firstLba, req.blkCnt, k);
  }

  // ---- the advertised capacity ----

  /** The last block address that READ CAPACITY sends. */
  function LastAddress(d: Disk): nat {
    BeNumber(Capacity(d)[..4])
  }

  lemma AdvertisedLast(d: Disk)
    requires Sized(d)
    ensures LastAddress(d) == if d.blkNum > 0 then d.blkNum - 1 else TWO_TO_THE_32 - 1
  {
    CapacityInNumbers(d);
  }

  predicate Advertised(d: Disk, b: nat) {
    b <= LastAddress(d)
  }

  predicate AllBlocksExist(d: Disk, req: DataRequest) {
    forall b :: req.firstLba <= b < req.firstLba + req.blkCnt ==> Advertised(d, b)
  }

  /** On a disk with blocks, a request is accepted exactly when all its blocks are ones that were advertised. */
  lemma AcceptedAsAdvertised(d: Disk, req: DataRequest)
    requires Sized(d) && d.blkNum > 0
    requires 0 < req.blkCnt < 0x1_0000 && req.firstLba + req.blkCnt < TWO_TO_THE_32
    ensures !Overflow(req.firstLba, req.blkCnt, d.blkNum) <==> AllBlocksExist(d, req)
  {
    AdvertisedLast(d);
    OverflowExact(req.firstLba, req.blkCnt, d.blkNum);
    if AllBlocksExist(d, req) {
      assert Advertised(d, req.firstLba + req.blkCnt - 1);
    }
  }

  /** An empty disk advertises the largest address, and then refuses every block. */
  lemma EmptyDiskRefuses(d: Disk, req: DataRequest)
    requires Sized(d) && d.blkNum == 0
    requires 0 < req.blkCnt < 0x1_0000 && req.firstLba + req.blkCnt < TWO_TO_THE_32
    ensures Overflow(req.firstLba, req.blkCnt, d.blkNum) && AllBlocksExist(d, req)
  {
    AdvertisedLast(d);
    OverflowExact(req.firstLba, req.blkCnt, d.blkNum);
  }

  // ---- sense data ----

  datatype Outcome = Done | Failed(key: byte, code: byte) | Short(residue: nat)

  /** The bytes a command answers with, when it is not refused. */
  function Response(c: Config, t: Target, cmd: seq<byte>, stack: seq<byte>): seq<byte>
    requires |cmd| >= 9
  {
    if cmd[0] == INQUIRY then (if cmd[1] & 0x01 != 0 then c.serial else c.inquiry)
    else if cmd[0] == REQUEST_SENSE then t.sense
    else if cmd[0] == READ_CAPACITY_10 then Capacity(t.disk)
    else if cmd[0] == MODE_SENSE_6 then ModeBytes(t.disk)
    else if cmd[0] == READ_FORMAT_CAPACITIES && !(cmd[7] == 0 && cmd[8] == 0) then FormatCapacities(t.disk, stack)
    else []
  }

  predicate Known(op: byte) {
    || op == INQUIRY || op == REQUEST_SENSE || op == READ_CAPACITY_10 || op == READ_10 || op == WRITE_10
    || op == TEST_UNIT_READY || op == PREVENT_ALLOW_MEDIUM_REMOVAL || op == MODE_SENSE_6
    || op == READ_FORMAT_CAPACITIES || op == VERIFY_10
  }

  /** A supported command with a field the target does not accept. */
  predicate BadField(cmd: seq<byte>)
    requires |cmd| >= 9
  {
    || (cmd[0] == INQUIRY && (cmd[1] & 0x03 != 0 || cmd[2] != 0) && !(cmd[1] & 0x01 != 0 && cmd[2] == 0x80))
    || (cmd[0] == REQUEST_SENSE && (cmd[1] & 0x01 != 0 || cmd[4] != 18))
  }

  /** A transfer that leaves the disk. */
  predicate OffDisk(d: Disk, cmd: seq<byte>)
    requires |cmd| >= 9
  {
    (cmd[0] == READ_10 || cmd[0] == WRITE_10) && Decode(cmd).firstLba + Decode(cmd).blkCnt > d.blkNum
  }

  function OutcomeOf(c: Config, t: Target, cmd: seq<byte>, stack: seq<byte>): Outcome
    requires |cmd| >= 9
  {
    if !Known(cmd[0]) then Failed(KEY_ILLEGAL_REQUEST, INVALID_COMMAND)
    else if BadField(cmd) then Failed(KEY_ILLEGAL_REQUEST, INVALID_FIELD_IN_CDB)
    else if OffDisk(t.disk, cmd) then Failed(KEY_ILLEGAL_REQUEST, LBA_OUT_OF_RANGE)
    else
      var n := |Response(c, t, cmd, stack)|;
      var taken := Min(c.takes(t.link.calls, n), n);
      if taken < n then Short(n - taken) else Done
  }

  /** A short transmission leaves the sense data alone. */
  function SenseAfter(sense: seq<byte>, o: Outcome): seq<byte> {
    match o
    case Done => Layout(KEY_GOOD, NO_ADDITIONAL_INFORMATION, NO_QUALIFIER)
    case Failed(key, code) => Layout(key, code, NO_QUALIFIER)
    case Short(_) => sense
  }

  function ResidueAfter(residue: nat, o: Outcome): nat {
    if o.Short? then o.residue else residue
  }

  /** Transfers do not touch sense data, mode data or residue. */
  lemma {:induction false} TransferKeeps(c: Config, t: Target, op: byte, first: nat, i: nat)
    requires TargetOk(t) && first + i <= t.disk.blkNum
    ensures var u := Transfer(c, t, op, first, i);
            u.sense == t.sense && u.residue == t.residue && u.modeSense == t.modeSense
    decreases i
  {
    if i > 0 {
      TransferKeeps(c, t, op, first, i - 1);
    }
  }

  /** Every command does to the sense data and the residue what its outcome says, and succeeds when it is done. */
  lemma ExecOutcome(c: Config, t: Target, cmd: seq<byte>, stack: seq<byte>)
    requires TargetOk(t) && Callable(t, cmd)
    ensures var (u, ok) := Exec(c, t, cmd, stack);
            var o := OutcomeOf(c, t, cmd, stack);
            ok == o.Done? && u.sense == SenseAfter(t.sense, o) && u.residue == ResidueAfter(t.residue, o)
  {
    if cmd[0] == READ_10 || cmd[0] == WRITE_10 {
      DecodeBounds(cmd);
      var req := Decode(cmd);
      OverflowExact(req.firstLba, req.blkCnt, t.disk.blkNum);
      if !OffDisk(t.disk, cmd) {
        TransferKeeps(c, t, cmd[0], req.firstLba, req.blkCnt);
      }
    } else if cmd[0] == INQUIRY {
      InquiryBits(cmd[1]);
    }
  }

  lemma InquiryBits(b: byte)
    ensures b & 0x01 != 0 ==> b & 0x03 != 0
  {
  }

  /** REQUEST SENSE sends the sense data from before itself, and when all of it is taken, clears it. */
  lemma RequestSenseClears(c: Config, t: Target, cmd: seq<byte>, stack: seq<byte>)
    requires TargetOk(t) && Callable(t, cmd) && cmd[0] == REQUEST_SENSE && !BadField(cmd)
    ensures var (u, ok) := Exec(c, t, cmd, stack);
            var taken := Min(c.takes(t.link.calls, 18), 18);
            && u.link.sent == t.link.sent + t.sense[..taken]
            && u.sense == (if taken == 18 then Layout(KEY_GOOD, NO_ADDITIONAL_INFORMATION, NO_QUALIFIER) else t.sense)
            && ok == (taken == 18)
  {
  }

  /** A command block with the stack bytes it happens to find. */
  datatype Step = Step(cmd: seq<byte>, stack: seq<byte>)

  /** Each command of the run can be called where it comes. */
  predicate RunCallable(c: Config, t: Target, run: seq<Step>)
    requires TargetOk(t)
    decreases |run|
  {
    run == [] ||
    (Callable(t, run[0].cmd) &&
     (ExecOk(c, t, run[0].cmd, run[0].stack);
      RunCallable(c, Exec(c, t, run[0].cmd, run[0].stack).0, run[1..])))
  }

  function Run(c: Config, t: Target, run: seq<Step>): Target
    requires TargetOk(t) && RunCallable(c, t, run)
    decreases |run|
  {
    if run == [] then t
    else
      ExecOk(c, t, run[0].cmd, run[0].stack);
      Run(c, Exec(c, t, run[0].cmd, run[0].stack).0, run[1..])
  }

  function Outcomes(c: Config, t: Target, run: seq<Step>): (os: seq<Outcome>)
    requires TargetOk(t) && RunCallable(c, t, run)
    ensures |os| == |run|
    decreases |run|
  {
    if run == [] then []
    else
      ExecOk(c, t, run[0].cmd, run[0].stack);
      [OutcomeOf(c, t, run[0].cmd, run[0].stack)] + Outcomes(c, Exec(c, t, run[0].cmd, run[0].stack).0, run[1..])
  }

  function FoldSense(sense: seq<byte>, os: seq<Outcome>): seq<byte>
    decreases |os|
  {
    if os == [] then sense else FoldSense(SenseAfter(sense, os[0]), os[1..])
  }

  function FoldResidue(residue: nat, os: seq<Outcome>): nat
    decreases |os|
  {
    if os == [] then residue else FoldResidue(ResidueAfter(residue, os[0]), os[1..])
  }

  /** After any run the sense data and the residue are folds over the outcomes of its commands. */
  lemma {:induction false} RunFolds(c: Config, t: Target, run: seq<Step>)
    requires TargetOk(t) && RunCallable(c, t, run)
    ensures Run(c, t, run).sense == FoldSense(t.sense, Outcomes(c, t, run))
    ensures Run(c, t, run).residue == FoldResidue(t.residue, Outcomes(c, t, run))
    decreases |run|
  {
    if run != [] {
      ExecOutcome(c, t, run[0].cmd, run[0].stack);
      ExecOk(c, t, run[0].cmd, run[0].stack);
      RunFolds(c, Exec(c, t, run[0].cmd, run[0].stack).0, run[1..]);
      assert Outcomes(c, t, run)[1..] == Outcomes(c, Exec(c, t, run[0].cmd, run[0].stack).0, run[1..]);
    }
  }

  /** The fold is decided by the last outcome that is not a short transmission. */
  lemma {:induction false} LastWordSenses(sense: seq<byte>, os: seq<Outcome>, k: nat)
    requires k < |os| && !os[k].Short? && forall j :: k < j < |os| ==> os[j].Short?
    ensures FoldSense(sense, os) == SenseAfter(sense, os[k])
    decreases |os|
  {
    if k == 0 {
      OnlyShort(SenseAfter(sense, os[0]), os[1..]);
    } else {
      LastWordSenses(SenseAfter(sense, os[0]), os[1..], k - 1);
    }
  }

  lemma {:induction false} OnlyShort(sense: seq<byte>, os: seq<Outcome>)
    requires forall j :: 0 <= j < |os| ==> os[j].Short?
    ensures FoldSense(sense, os) == sense
  {
    if os != [] {
      OnlyShort(sense, os[1..]);
    }
  }

  /** The geometry never changes. */
  lemma {:induction false} RunKeepsGeometry(c: Config, t: Target, run: seq<Step>)
    requires TargetOk(t) && RunCallable(c, t, run)
    ensures TargetOk(Run(c, t, run)) && Run(c, t, run).disk == t.disk.(bytes := Run(c, t, run).disk.bytes)
    decreases |run|
  {
    if run != [] {
      ExecOk(c, t, run[0].cmd, run[0].stack);
      RunKeepsGeometry(c, Exec(c, t, run[0].cmd, run[0].stack).0, run[1..]);
    }
  }
}
