/** What the host reads out of the answers and the sense data, in numbers. */
module ScsiAnswers {

  import opened Bswap
  import opened Endian
  import opened RamDisk
  import opened Scsi
  import opened ScsiRuns

  // ---- the fields of a transfer command ----

  lemma TwoByteNumber(m: seq<byte>)
    requires |m| == 2
    ensures BeNumber(m) == 0x100 * m[0] as nat + m[1] as nat
  {
    assert m[..1][..0] == [];
    assert BeNumber(m[..1]) == 256 * BeNumber([]) + m[0] as nat;
  }

  lemma FourByteNumber(m: seq<byte>)
    requires |m| == 4
    ensures BeNumber(m) == 0x100_0000 * m[0] as nat + 0x1_0000 * m[1] as nat + 0x100 * m[2] as nat + m[3] as nat
  {
    TwoByteNumber(m[..2]);
    assert m[..3][..2] == m[..2];
    assert BeNumber(m) == 256 * BeNumber(m[..3]) + m[3] as nat;
    assert BeNumber(m[..3]) == 256 * BeNumber(m[..2]) + m[2] as nat;
  }

  /** Bytes 2 to 5 of a command are its first block, the highest byte first, and bytes 7 and 8 the number of blocks. */
  lemma DecodeReads(cmd: seq<byte>)
    requires |cmd| >= 9
    ensures Decode(cmd).firstLba
      == 0x100_0000 * cmd[2] as nat + 0x1_0000 * cmd[3] as nat + 0x100 * cmd[4] as nat + cmd[5] as nat
    ensures Decode(cmd).blkCnt == 0x100 * cmd[7] as nat + cmd[8] as nat
  {
    FourByteNumber(cmd[2..6]);
    TwoByteNumber(cmd[7..9]);
  }

  // ---- what is sent ----

  /** The link after an answer: what the host takes of x, if there is anything to send. */
  function Answered(c: Config, l: Link, x: seq<byte>): Link {
    if x == [] then l
    else Link(l.sent + x[..Min(c.takes(l.calls, |x|), |x|)], l.incoming, l.calls + 1)
  }

  /** A command that is no transfer sends its response, or nothing when it is refused, and leaves disk and block
      buffer alone. */
  lemma ExecSends(c: Config, t: Target, cmd: seq<byte>, stack: seq<byte>)
    requires ConfigOk(c) && TargetOk(t) && Callable(t, cmd) && cmd[0] != READ_10 && cmd[0] != WRITE_10
    ensures var u := Exec(c, t, cmd, stack).0;
            && u.disk == t.disk && u.buf == t.buf
            && u.link ==
              if Known(cmd[0]) && !BadField(cmd) then Answered(c, t.link, Response(c, t, cmd, stack)) else t.link
  {
    hide Capacity, FormatCapacities, ModeBytes, Layout, BigEndian;
    if cmd[0] == INQUIRY {
      InquiryBits(cmd[1]);
    } else if cmd[0] == READ_FORMAT_CAPACITIES {
      assert FormatCapacities(t.disk, stack) != [] by {
        FormatLength(t.disk, stack);
      }
    }
  }

  lemma FormatLength(d: Disk, stack: seq<byte>)
    ensures |FormatCapacities(d, stack)| == |stack| + 9
  {
  }

  /** What a host that takes everything has got from one command. */
  ghost predicate Gets(c: Config, t: Target, cmd: seq<byte>, stack: seq<byte>, x: seq<byte>)
    requires TargetOk(t) && Callable(t, cmd)
  {
    var (u, ok) := Exec(c, t, cmd, stack);
    ok && u.disk == t.disk && u.link == Link(t.link.sent + x, t.link.incoming, t.link.calls + 1)
  }

  lemma GetsResponse(c: Config, t: Target, cmd: seq<byte>, stack: seq<byte>, x: seq<byte>)
    requires ConfigOk(c) && TargetOk(t) && Callable(t, cmd) && cmd[0] != READ_10 && cmd[0] != WRITE_10
    requires Known(cmd[0]) && !BadField(cmd) && x == Response(c, t, cmd, stack) != []
    requires c.takes(t.link.calls, |x|) >= |x|
    ensures Gets(c, t, cmd, stack, x)
  {
    hide Exec, Response, OffDisk;
    ExecSends(c, t, cmd, stack);
    ExecOutcome(c, t, cmd, stack);
    assert x[..|x|] == x;
    assert !OffDisk(t.disk, cmd) by {
      NoTransfer(t.disk, cmd);
    }
  }

  lemma NoTransfer(d: Disk, cmd: seq<byte>)
    requires |cmd| >= 9 && cmd[0] != READ_10 && cmd[0] != WRITE_10
    ensures !OffDisk(d, cmd)
  {
  }

  /** READ CAPACITY(10): the host reads the address of the last block and the block length; on a disk with
      blocks address plus one times length is the size of the storage. */
  lemma CapacityRead(c: Config, t: Target, cmd: seq<byte>, stack: seq<byte>)
    requires ConfigOk(c) && TargetOk(t) && Callable(t, cmd) && cmd[0] == 0x25 && c.takes(t.link.calls, 8) >= 8
    ensures exists x ::
      && Gets(c, t, cmd, stack, x) && |x| == 8
      && BeNumber(x[..4]) == (if t.disk.blkNum > 0 then t.disk.blkNum - 1 else 0xFFFF_FFFF)
      && BeNumber(x[4..]) == t.disk.blkSize
      && (t.disk.blkNum > 0 ==> (BeNumber(x[..4]) + 1) * BeNumber(x[4..]) == |t.disk.bytes|)
  {
    hide Gets, Callable, BeNumber, Bytes, Capacity;
    var x := Capacity(t.disk);
    GetsResponse(c, t, cmd, stack, x);
    CapacityInNumbers(t.disk);
    BytesIsProduct(t.disk.blkNum, t.disk.blkSize);
  }

  /** MODE SENSE(6): four bytes, the first the number of those behind it, the third the write protection. */
  lemma ModeRead(c: Config, t: Target, cmd: seq<byte>, stack: seq<byte>)
    requires ConfigOk(c) && TargetOk(t) && Callable(t, cmd) && cmd[0] == 0x1A && c.takes(t.link.calls, 4) >= 4
    ensures exists x ::
      && Gets(c, t, cmd, stack, x) && |x| == 4
      && x[0] as nat == |x| - 1 && x[1] == 0 && x[3] == 0
      && (x[2] == 0x80 || x[2] == 0) && (x[2] == 0 <==> t.disk.state == BlkReady && !t.disk.readonly)
      && Exec(c, t, cmd, stack).0.modeSense == x
  {
    hide Gets, Callable;
    var x := ModeBytes(t.disk);
    GetsResponse(c, t, cmd, stack, x);
    ByteRound(3);
    assert x[0] as nat == 3;
  }

  /** READ FORMAT CAPACITIES with room for an answer: behind three bytes that are not set come the length of the
      list, the number of blocks, the code of formatted media and the block length, which is cut to 16 bits. */
  lemma FormatRead(c: Config, t: Target, cmd: seq<byte>, stack: seq<byte>)
    requires ConfigOk(c) && TargetOk(t) && Callable(t, cmd) && cmd[0] == 0x23 && (cmd[7] != 0 || cmd[8] != 0)
    requires |stack| == 3 && c.takes(t.link.calls, 12) >= 12
    ensures exists x ::
      && Gets(c, t, cmd, stack, x) && |x| == 12
      && x[..3] == stack && x[3] as nat == |x| - 4
      && BeNumber(x[4..8]) == t.disk.blkNum && x[8] == 2 && x[9] == 0
      && (BeNumber(x[10..]) == t.disk.blkSize <==> t.disk.blkSize < 0x1_0000)
      && BeNumber(x[10..]) == t.disk.blkSize % 0x1_0000
  {
    hide Gets, Callable, BeNumber, BigEndian;
    var x := FormatCapacities(t.disk, stack);
    GetsResponse(c, t, cmd, stack, x);
    FormatFields(t.disk, stack);
    ByteRound(8);
    WordRound(t.disk.blkNum);
    FourBytes();
    BigEndianRound(t.disk.blkSize % 0x1_0000, 2);
  }

  lemma FormatFields(d: Disk, stack: seq<byte>)
    requires |stack| == 3
    ensures var x := FormatCapacities(d, stack);
            && |x| == 12 && x[..3] == stack && x[3] == 8 && x[8] == 2 && x[9] == 0
            && x[4..8] == BigEndian(d.blkNum, 4) && x[10..] == BigEndian(d.blkSize % 0x1_0000, 2)
  {
  }

  /** With an allocation length of zero nothing is sent. */
  lemma FormatOfNothing(c: Config, t: Target, cmd: seq<byte>, stack: seq<byte>)
    requires ConfigOk(c) && TargetOk(t) && Callable(t, cmd) && cmd[0] == 0x23 && cmd[7] == 0 && cmd[8] == 0
    ensures Exec(c, t, cmd, stack).1 && Exec(c, t, cmd, stack).0.link == t.link
  {
  }

  /** INQUIRY: the serial number page, the standard answer, or a refusal without an answer. */
  lemma InquiryRead(c: Config, t: Target, cmd: seq<byte>, stack: seq<byte>)
    requires ConfigOk(c) && TargetOk(t) && Callable(t, cmd) && cmd[0] == 0x12
    ensures cmd[1] & 0x01 != 0 && cmd[2] == 0x80 && c.takes(t.link.calls, 12) >= 12 ==> Gets(c, t, cmd, stack, c.serial)
    ensures cmd[1] & 0x03 == 0 && cmd[2] == 0 && c.takes(t.link.calls, 36) >= 36 ==> Gets(c, t, cmd, stack, c.inquiry)
    ensures !(cmd[1] & 0x01 != 0 && cmd[2] == 0x80) && !(cmd[1] & 0x03 == 0 && cmd[2] == 0) ==>
      !Exec(c, t, cmd, stack).1 && Exec(c, t, cmd, stack).0.link == t.link
  {
    InquiryBits(cmd[1]);
    assert c.serial[..12] == c.serial && c.inquiry[..36] == c.inquiry;
  }

  // ---- the sense data ----

  /** Sense data in fixed format: eight further bytes behind byte 7 are announced; no byte but five is set. */
  predicate SenseIs(s: seq<byte>, key: byte, code: byte) {
    && |s| == 18 && s[0] == 0x70 && s[2] == key && s[7] == 8 && s[12] == code
    && forall k :: 0 <= k < 18 && k !in {0, 2, 7, 12} ==> s[k] == 0
  }

  lemma LayoutReads(key: byte, code: byte)
    ensures SenseIs(Layout(key, code, NO_QUALIFIER), key, code)
  {
  }

  /** The sense data after a success, after a command that is not supported, and after a field that is not accepted. */
  lemma SenseReads(c: Config, t: Target, cmd: seq<byte>, stack: seq<byte>)
    requires TargetOk(t) && Callable(t, cmd)
    ensures var (u, ok) := Exec(c, t, cmd, stack);
            && (ok ==> SenseIs(u.sense, 0x00, 0x00))
            && (cmd[0] !in {0x00, 0x03, 0x12, 0x1A, 0x1E, 0x23, 0x25, 0x28, 0x2A, 0x2F} ==>
                  !ok && SenseIs(u.sense, 0x05, 0x20))
            && (cmd[0] == 0x03 && (cmd[1] & 0x01 != 0 || cmd[4] != 18) ==> !ok && SenseIs(u.sense, 0x05, 0x24))
            && (cmd[0] == 0x12 && !(cmd[1] & 0x01 != 0 && cmd[2] == 0x80) && !(cmd[1] & 0x03 == 0 && cmd[2] == 0) ==>
                  !ok && SenseIs(u.sense, 0x05, 0x24))
  {
    hide Exec, Layout, SenseIs;
    ExecOutcome(c, t, cmd, stack);
    LayoutReads(0x00, 0x00);
    LayoutReads(0x05, 0x20);
    LayoutReads(0x05, 0x24);
  }

  /** A transfer is refused, with its own code, exactly when it asks for a block behind the last one. */
  lemma TransferSenseReads(c: Config, t: Target, cmd: seq<byte>, stack: seq<byte>)
    requires TargetOk(t) && Callable(t, cmd) && (cmd[0] == 0x28 || cmd[0] == 0x2A)
    ensures var (u, ok) := Exec(c, t, cmd, stack);
            var first := 0x100_0000 * cmd[2] as nat + 0x1_0000 * cmd[3] as nat + 0x100 * cmd[4] as nat + cmd[5] as nat;
            var count := 0x100 * cmd[7] as nat + cmd[8] as nat;
            && (ok <==> first + count <= t.disk.blkNum)
            && (!ok ==> SenseIs(u.sense, 0x05, 0x21) && u.link == t.link && u.disk == t.disk)
  {
    hide Layout, SenseIs, Transfer, Decode;
    DecodeReads(cmd);
    ExecOutcome(c, t, cmd, stack);
    LayoutReads(0x05, 0x21);
    DecodeBounds(cmd);
    OverflowExact(Decode(cmd).firstLba, Decode(cmd).blkCnt, t.disk.blkNum);
  }
}
