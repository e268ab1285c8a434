/** The SCSI target driver over a RAM disk, as it updates its structures in place. */
module ScsiTarget {

  import opened Bswap
  import opened Endian
  import opened RamDisk
  import S = Scsi

  /** The lower level driver: what has gone to the host, and what is still to come from it. */
  class Transport {
    const takes: (nat, nat) -> nat
    var sent: seq<byte>
    var incoming: seq<byte>
    var calls: nat

    constructor (takes: (nat, nat) -> nat, incoming: seq<byte>)
      ensures this.takes == takes && Contents() == S.Link([], incoming, 0)
    {
      this.takes, this.incoming, sent, calls := takes, incoming, [], 0;
    }

    function Contents(): S.Link
      reads this
    {
      S.Link(sent, incoming, calls)
    }

    method Transmit(data: seq<byte>) returns (n: nat)
      modifies this
      ensures n <= |data| && n == S.Min(takes(old(calls), |data|), |data|)
      ensures Contents() == S.Link(old(sent) + data[..n], old(incoming), old(calls) + 1)
    {
      n := S.Min(takes(calls, |data|), |data|);
      sent := sent + data[..n];
      calls := calls + 1;
    }

    method Receive(buf: array<byte>, len: nat) returns (n: nat)
      requires len <= buf.Length
      modifies this, buf
      ensures n == S.Min(len, |old(incoming)|)
      ensures (buf[..], Contents()) == S.Receive(old(Contents()), old(buf[..]), len)
    {
      n := S.Min(len, |incoming|);
      CopyIn(buf, incoming[..n]);
      incoming := incoming[n..];
    }
  }

  /** The data goes to the front of the buffer. */
  method CopyIn(buf: array<byte>, data: seq<byte>)
    requires |data| <= buf.Length
    modifies buf
    ensures buf[..] == data + old(buf[|data|..])
  {
    for i := 0 to |data|
      invariant forall k :: 0 <= k < i ==> buf[k] == data[k]
      invariant forall k :: i <= k < buf.Length ==> buf[k] == old(buf[k])
    {
      buf[i] := data[i];
    }
  }

  /** decode_data_request */
  method DecodeDataRequest(cmd: seq<byte>) returns (req: S.DataRequest)
    requires |cmd| >= 9
    ensures req == S.Decode(cmd)
  {
    var lba := Word32(cmd[2..6]);
    var blk := Word16(cmd[7..9]);
    lba := Bswap32(lba);
    blk := Bswap16(blk);
    BigEndianLoad32(cmd[2..6]);
    BigEndianLoad16(cmd[7..9]);
    req := S.DataRequest(Value32(lba), Value16(blk));
  }

  /** The bytes in memory of cpu_to_be32(n). */
  method CpuToBe32(n: nat) returns (m: seq<byte>)
    ensures m == BigEndian(n, 4)
  {
    var w := Bswap32(Of32(n));
    BigEndianStore32(n);
    m := Memory32(w);
  }

  /** memset to zero */
  method Clear(a: array<byte>)
    modifies a
    ensures forall k :: 0 <= k < a.Length ==> a[k] == 0
  {
    for i := 0 to a.Length
      invariant forall k :: 0 <= k < i ==> a[k] == 0
    {
      a[i] := 0;
    }
  }

  /** The layout of the sense data, byte by byte. */
  lemma LaidOut(s: seq<byte>, key: byte, code: byte, qual: byte)
    requires |s| == 18 && s[0] == 0x70 && s[2] == key && s[7] == 8 && s[12] == code && s[13] == qual
    requires forall k :: 0 <= k < 18 && k !in {0, 2, 7, 12, 13} ==> s[k] == 0
    ensures s == S.Layout(key, code, qual)
  {
  }

  /** The host has got the address of the last block and the block length. */
  ghost predicate SendsCapacity(before: seq<byte>, after: seq<byte>, blkNum: nat, blkSize: nat) {
    && |after| == |before| + 8 && before <= after
    && BeNumber(after[|before|..][..4]) == (if blkNum > 0 then blkNum - 1 else 0xFFFF_FFFF)
    && BeNumber(after[|before|..][4..]) == blkSize
  }

  lemma CapacitySent(c: S.Config, t: S.Target, x: seq<byte>)
    requires S.TargetOk(t)
    requires x == BigEndian((t.disk.blkNum + TWO_TO_THE_32 - 1) % TWO_TO_THE_32, 4) + BigEndian(t.disk.blkSize, 4)
    ensures x == S.Capacity(t.disk)
    ensures S.TransmitData(c, t, x).1 ==>
      SendsCapacity(t.link.sent, S.TransmitData(c, t, x).0.link.sent, t.disk.blkNum, t.disk.blkSize)
  {
    hide BeNumber, BigEndian;
    S.CapacityInNumbers(t.disk);
    assert x[..|x|] == x;
    assert (t.link.sent + x)[|t.link.sent|..] == x;
  }

  class Driver {
    const config: S.Config
    const transport: Transport
    const blkdev: Device
    const blkbuf: array<byte>
    const sense: array<byte>
    const modeSense: array<byte>
    var residue: nat

    ghost function State(): S.Target
      reads this, sense, modeSense, blkbuf, blkdev, blkdev.storage, transport
    {
      S.Target(sense[..], modeSense[..], residue, blkbuf[..], blkdev.Contents(), transport.Contents())
    }

    ghost predicate Valid()
      reads this, sense, modeSense, blkbuf, blkdev, blkdev.storage, transport
    {
      && S.TargetOk(State()) && S.ConfigOk(config) && transport.takes == config.takes
      && sense != modeSense && sense != blkbuf && modeSense != blkbuf
      && blkdev.storage !in {sense, modeSense, blkbuf}
    }

    /** scsiObjectInit and scsiStart: all sense bytes are zero. */
    constructor (config: S.Config, transport: Transport, blkdev: Device, blkbuf: array<byte>)
      requires S.ConfigOk(config) && transport.takes == config.takes
      requires Sized(blkdev.Contents()) && blkdev.blkSize <= blkbuf.Length && blkdev.storage != blkbuf
      ensures Valid() && State().residue == 0 && State().sense == seq(18, _ => 0)
      ensures this.config == config && this.transport == transport && this.blkdev == blkdev && this.blkbuf == blkbuf
    {
      this.config, this.transport, this.blkdev, this.blkbuf := config, transport, blkdev, blkbuf;
      residue := 0;
      var zeros: array<byte> := new byte[18](_ => 0);
      sense := zeros;
      modeSense := new byte[4];
    }

    /** set_sense: the other bytes become zero. */
    method SetSense(key: byte, code: byte, qual: byte)
      requires Valid()
      modifies sense
      ensures Valid() && State() == old(State()).(sense := S.Layout(key, code, qual))
    {
      Clear(sense);
      sense[0] := 0x70;
      sense[2] := key;
      sense[7] := 8;
      sense[12] := code;
      sense[13] := qual;
      LaidOut(sense[..], key, code, qual);
    }

    method TransmitData(data: seq<byte>) returns (ok: bool)
      requires Valid()
      modifies this`residue, transport
      ensures Valid() && (State(), ok) == S.TransmitData(config, old(State()), data)
    {
      var n := transport.Transmit(data);
      var left := |data| - n;
      if left > 0 {
        residue := left;
        return false;
      }
      return true;
    }

    method Refuse(code: byte)
      requires Valid()
      modifies sense
      ensures Valid() && (State(), false) == S.Refuse(old(State()), S.KEY_ILLEGAL_REQUEST, code)
    {
      SetSense(S.KEY_ILLEGAL_REQUEST, code, S.NO_QUALIFIER);
    }

    method Inquiry(cmd: seq<byte>) returns (ok: bool)
      requires Valid() && |cmd| >= 9
      modifies this`residue, transport, sense
      ensures Valid() && (State(), ok) == S.Inquiry(config, old(State()), cmd)
    {
      if cmd[1] & 0x01 != 0 && cmd[2] == 0x80 {
        ok := TransmitData(config.serial);
      } else if cmd[1] & 0x03 != 0 || cmd[2] != 0 {
        Refuse(S.INVALID_FIELD_IN_CDB);
        ok := false;
      } else {
        ok := TransmitData(config.inquiry);
      }
    }

    method RequestSense(cmd: seq<byte>) returns (ok: bool)
      requires Valid() && |cmd| >= 9
      modifies this`residue, transport, sense
      ensures Valid() && (State(), ok) == S.RequestSense(config, old(State()), cmd)
    {
      if cmd[1] & 0x01 != 0 || cmd[4] != 18 {
        Refuse(S.INVALID_FIELD_IN_CDB);
        ok := false;
      } else {
        ok := TransmitData(sense[..]);
      }
    }

    method ModeSense6() returns (ok: bool)
      requires Valid()
      modifies this`residue, transport, modeSense
      ensures Valid() && (State(), ok) == S.ModeSense6(config, old(State()))
    {
      modeSense[0] := 3;
      modeSense[1] := 0;
      if blkdev.IsProtected() {
        modeSense[2] := 0x80;
      } else {
        modeSense[2] := 0;
      }
      modeSense[3] := 0;
      assert modeSense[..] == S.ModeBytes(blkdev.Contents());
      ok := TransmitData(modeSense[..]);
    }

    method ReadFormatCapacities(cmd: seq<byte>, stack: seq<byte>) returns (ok: bool)
      requires Valid() && |cmd| >= 9
      requires blkdev.state == BlkReady || (cmd[7] == 0 && cmd[8] == 0)
      modifies this`residue, transport
      ensures Valid() && (State(), ok) == S.ReadFormatCapacities(config, old(State()), cmd, stack)
    {
      if cmd[7] == 0 && cmd[8] == 0 {
        return true;
      }
      var _, num, size := blkdev.GetInfo();
      var blocknum := CpuToBe32(num);
      var blocklen := [2, 0] + BigEndian(size % 0x1_0000, 2);
      assert stack + [8] + blocknum + blocklen == S.FormatCapacities(blkdev.Contents(), stack);
      ok := TransmitData(stack + [8] + blocknum + blocklen);
    }

    method ReadCapacity10() returns (ok: bool)
      requires Valid() && blkdev.state == BlkReady
      modifies this`residue, transport
      ensures Valid() && (State(), ok) == S.TransmitData(config, old(State()), S.Capacity(old(State()).disk))
      ensures ok ==> SendsCapacity(old(transport.sent), transport.sent, blkdev.blkNum, blkdev.blkSize)
    {
      hide S.Capacity, BeNumber, Bytes;
      var _, num, size := blkdev.GetInfo();
      var blockSize := CpuToBe32(size);
      var last := CpuToBe32((num + TWO_TO_THE_32 - 1) % TWO_TO_THE_32);
      CapacitySent(config, State(), last + blockSize);
      ok := TransmitData(last + blockSize);
    }

    method DataOverflow(req: S.DataRequest) returns (over: bool)
      requires Valid() && blkdev.state == BlkReady
      modifies sense
      ensures Valid() && over == Overflow(req.firstLba, req.blkCnt, blkdev.blkNum)
      ensures State()
        == if over then S.Refuse(old(State()), S.KEY_ILLEGAL_REQUEST, S.LBA_OUT_OF_RANGE).0 else old(State())
    {
      var _, num, _ := blkdev.GetInfo();
      if (req.firstLba + req.blkCnt) % TWO_TO_THE_32 > num {
        Refuse(S.LBA_OUT_OF_RANGE);
        return true;
      }
      return false;
    }

    /** One block from the disk to the host; neither status is looked at. */
    method SendBlock(k: nat)
      requires Valid() && k < TWO_TO_THE_32 && Unwrapped(k, 1, blkdev.blkNum)
      modifies blkbuf, transport
      ensures Valid() && State() == S.ReadBlock(config, old(State()), k)
    {
      hide Blocks, Bytes;
      OneBlock(blkdev.blkSize);
      var _ := blkdev.Read(k, blkbuf, 1);
      var _ := transport.Transmit(blkbuf[..blkdev.blkSize]);
    }

    /** One block from the host to the disk; neither status is looked at. */
    method TakeBlock(k: nat)
      requires Valid() && k < TWO_TO_THE_32 && Unwrapped(k, 1, blkdev.blkNum)
      modifies blkbuf, transport, blkdev.storage
      ensures Valid() && State() == S.WriteBlock(old(State()), k)
    {
      hide WithBlocks, Bytes;
      OneBlock(blkdev.blkSize);
      var _ := transport.Receive(blkbuf, blkdev.blkSize);
      var _ := blkdev.Write(k, blkbuf, 1);
    }

    /** The block loop of a transfer. */
    method TransferBlocks(op: byte, req: S.DataRequest)
      requires Valid() && req.firstLba < TWO_TO_THE_32 && req.blkCnt < 0x1_0000
      requires req.firstLba + req.blkCnt <= blkdev.blkNum
      modifies blkbuf, transport, blkdev.storage
      ensures Valid() && State() == S.Transfer(config, old(State()), op, req.firstLba, req.blkCnt)
    {
      hide S.MoveBlock;
      ghost var was := State();
      for i := 0 to req.blkCnt
        invariant Valid()
        invariant State() == S.Transfer(config, was, op, req.firstLba, i)
      {
        S.TransferStep(config, was, op, req.firstLba, i, i + 1);
        MoveBlock(op, req.firstLba + i);
      }
    }

    method MoveBlock(op: byte, k: nat)
      requires Valid() && k < TWO_TO_THE_32 && Unwrapped(k, 1, blkdev.blkNum)
      modifies blkbuf, transport, blkdev.storage
      ensures Valid() && State() == S.MoveBlock(config, old(State()), op, k)
    {
      if op == S.READ_10 {
        SendBlock(k);
      } else {
        TakeBlock(k);
      }
    }

    method DataReadWrite10(cmd: seq<byte>) returns (ok: bool)
      requires Valid() && |cmd| >= 9 && blkdev.state == BlkReady
      requires Unwrapped(S.Decode(cmd).firstLba, S.Decode(cmd).blkCnt, blkdev.blkNum)
      modifies sense, blkbuf, transport, blkdev.storage
      ensures Valid() && (State(), ok) == S.DataReadWrite10(config, old(State()), cmd)
    {
      var req := DecodeDataRequest(cmd);
      S.DecodeBounds(cmd);
      OverflowExact(req.firstLba, req.blkCnt, blkdev.blkNum);
      var over := DataOverflow(req);
      if over {
        return false;
      }
      TransferBlocks(cmd[0], req);
      return true;
    }

    /** scsiExecCmd */
    method ExecCmd(cmd: seq<byte>, stack: seq<byte>) returns (ok: bool)
      requires Valid() && S.Callable(State(), cmd)
      modifies this`residue, sense, modeSense, blkbuf, transport, blkdev.storage
      ensures Valid() && (State(), ok) == S.Exec(config, old(State()), cmd, stack)
    {
      ok := Dispatch(cmd, stack);
      if ok {
        SetSense(S.KEY_GOOD, S.NO_ADDITIONAL_INFORMATION, S.NO_QUALIFIER);
      }
    }

    method Dispatch(cmd: seq<byte>, stack: seq<byte>) returns (ok: bool)
      requires Valid() && S.Callable(State(), cmd)
      modifies this`residue, sense, modeSense, blkbuf, transport, blkdev.storage
      ensures Valid() && (State(), ok) == S.Handle(config, old(State()), cmd, stack)
    {
      var op := cmd[0];
      if op == S.INQUIRY {
        ok := Inquiry(cmd);
      } else if op == S.REQUEST_SENSE {
        ok := RequestSense(cmd);
      } else if op == S.READ_CAPACITY_10 {
        ok := ReadCapacity10();
      } else if op == S.READ_10 || op == S.WRITE_10 {
        ok := DataReadWrite10(cmd);
      } else if op == S.TEST_UNIT_READY {
        ok := blkdev.IsInserted();
      } else if op == S.PREVENT_ALLOW_MEDIUM_REMOVAL || op == S.VERIFY_10 {
        ok := true;
      } else if op == S.MODE_SENSE_6 {
        ok := ModeSense6();
      } else if op == S.READ_FORMAT_CAPACITIES {
        ok := ReadFormatCapacities(cmd, stack);
      } else {
        Refuse(S.INVALID_COMMAND);
        ok := false;
      }
    }
  }
}
