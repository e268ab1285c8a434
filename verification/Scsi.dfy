/** The SCSI target as a function from state and command block to state and status. */
module Scsi {

  import opened Bswap
  import opened Endian
  import opened RamDisk

  const TEST_UNIT_READY: byte := 0x00
  const REQUEST_SENSE: byte := 0x03
  const INQUIRY: byte := 0x12
  const MODE_SENSE_6: byte := 0x1A
  const PREVENT_ALLOW_MEDIUM_REMOVAL: byte := 0x1E
  const READ_FORMAT_CAPACITIES: byte := 0x23
  const READ_CAPACITY_10: byte := 0x25
  const READ_10: byte := 0x28
  const WRITE_10: byte := 0x2A
  const VERIFY_10: byte := 0x2F

  const KEY_GOOD: byte := 0x00
  const KEY_ILLEGAL_REQUEST: byte := 0x05

  const NO_ADDITIONAL_INFORMATION: byte := 0x00
  const INVALID_COMMAND: byte := 0x20
  const LBA_OUT_OF_RANGE: byte := 0x21
  const INVALID_FIELD_IN_CDB: byte := 0x24

  const NO_QUALIFIER: byte := 0x00

  /** The fixed responses, and how many bytes the host takes of transmission number k of len bytes. */
  datatype Config = Config(inquiry: seq<byte>, serial: seq<byte>, takes: (nat, nat) -> nat)

  /** Bytes the host has received, bytes it has yet to deliver, and transmissions so far. */
  datatype Link = Link(sent: seq<byte>, incoming: seq<byte>, calls: nat)

  datatype Target = Target(sense: seq<byte>, modeSense: seq<byte>, residue: nat, buf: seq<byte>, disk: Disk, link: Link)

  predicate ConfigOk(c: Config) {
    |c.inquiry| == 36 && |c.serial| == 12
  }

  predicate TargetOk(t: Target) {
    |t.sense| == 18 && |t.modeSense| == 4 && Sized(t.disk) && t.disk.blkSize <= |t.buf|
  }

  function Min(a: nat, b: nat): nat {
    if a < b then a else b
  }

  /** Bytes left over, and the link after transmitting data. */
  function Transmit(c: Config, l: Link, data: seq<byte>): (nat, Link) {
    var n := Min(c.takes(l.calls, |data|), |data|);
    (|data| - n, Link(l.sent + data[..n], l.incoming, l.calls + 1))
  }

  /** The buffer and the link after receiving up to len bytes. */
  function Receive(l: Link, buf: seq<byte>, len: nat): (seq<byte>, Link)
    requires len <= |buf|
  {
    var n := Min(len, |l.incoming|);
    (l.incoming[..n] + buf[n..], l.(incoming := l.incoming[n..]))
  }

  function TransmitData(c: Config, t: Target, data: seq<byte>): (Target, bool) {
    var (residue, l) := Transmit(c, t.link, data);
    if residue > 0 then (t.(residue := residue, link := l), false) else (t.(link := l), true)
  }

  /** Sense data in fixed format. */
  function Layout(key: byte, code: byte, qual: byte): (s: seq<byte>)
    ensures |s| == 18
  {
    [0x70, 0, key, 0, 0, 0, 0, 8, 0, 0, 0, 0, code, qual, 0, 0, 0, 0]
  }

  function Refuse(t: Target, key: byte, code: byte): (Target, bool) {
    (t.(sense := Layout(key, code, NO_QUALIFIER)), false)
  }

  datatype DataRequest = DataRequest(firstLba: nat, blkCnt: nat)

  /** Bytes 2 to 5 are the address and bytes 7 and 8 the count, high byte first. */
  function Decode(cmd: seq<byte>): DataRequest
    requires |cmd| >= 9
  {
    DataRequest(BeNumber(cmd[2..6]), BeNumber(cmd[7..9]))
  }

  /** The command blocks that ask for a transfer. */
  function EncodeRequest(op: byte, req: DataRequest): (cmd: seq<byte>)
    ensures |cmd| == 10
  {
    [op, 0] + BigEndian(req.firstLba, 4) + [0] + BigEndian(req.blkCnt, 2) + [0]
  }

  lemma DecodeInvertsEncode(op: byte, req: DataRequest)
    requires req.firstLba < TWO_TO_THE_32 && req.blkCnt < 0x1_0000
    ensures Decode(EncodeRequest(op, req)) == req
  {
    FourBytes();
    BigEndianRound(req.firstLba, 4);
    BigEndianRound(req.blkCnt, 2);
    var cmd := EncodeRequest(op, req);
    assert cmd[2..6] == BigEndian(req.firstLba, 4);
    assert cmd[7..9] == BigEndian(req.blkCnt, 2);
  }

  lemma DecodeBounds(cmd: seq<byte>)
    requires |cmd| >= 9
    ensures Decode(cmd).firstLba < TWO_TO_THE_32 && Decode(cmd).blkCnt < 0x1_0000
  {
    FourBytes();
    BeNumberRound(cmd[2..6]);
    BeNumberRound(cmd[7..9]);
  }

  /** The two fields are read out whole: they encode back to the bytes they came from. */
  lemma EncodeInvertsDecode(cmd: seq<byte>)
    requires |cmd| >= 9
    ensures BigEndian(Decode(cmd).firstLba, 4) == cmd[2..6] && BigEndian(Decode(cmd).blkCnt, 2) == cmd[7..9]
  {
    BeNumberRound(cmd[2..6]);
    BeNumberRound(cmd[7..9]);
  }

  /** One block to the host: the status of the device and of the link is ignored. */
  function ReadBlock(c: Config, t: Target, k: nat): (u: Target)
    requires TargetOk(t) && Unwrapped(k, 1, t.disk.blkNum)
    ensures TargetOk(u) && u.disk == t.disk
  {
    var bs := t.disk.blkSize;
    var buf := if k + 1 <= t.disk.blkNum then Blocks(t.disk, k, 1) + t.buf[bs..] else t.buf;
    t.(buf := buf, link := Transmit(c, t.link, buf[..bs]).1)
  }

  /** One block from the host. */
  function WriteBlock(t: Target, k: nat): (u: Target)
    requires TargetOk(t) && Unwrapped(k, 1, t.disk.blkNum)
    ensures TargetOk(u) && u.disk == t.disk.(bytes := u.disk.bytes)
  {
    var bs := t.disk.blkSize;
    var (buf, l) := Receive(t.link, t.buf, bs);
    var disk := if k + 1 <= t.disk.blkNum then WithBlocks(t.disk, k, 1, buf[..bs]) else t.disk;
    t.(buf := buf, link := l, disk := disk)
  }

  function MoveBlock(c: Config, t: Target, op: byte, k: nat): (u: Target)
    requires TargetOk(t) && Unwrapped(k, 1, t.disk.blkNum)
    ensures TargetOk(u) && u.disk == t.disk.(bytes := u.disk.bytes)
  {
    if op == READ_10 then ReadBlock(c, t, k) else WriteBlock(t, k)
  }

  /** An accepted range lets every one-block call through, so ignoring their status loses nothing. */
  lemma InnerCallsSucceed(first: nat, cnt: nat, num: nat, i: nat)
    requires first < TWO_TO_THE_32 && cnt < 0x1_0000 && num < TWO_TO_THE_32
    requires !Overflow(first, cnt, num) && Unwrapped(first, cnt, num) && i < cnt
    ensures first + i < TWO_TO_THE_32 && Unwrapped(first + i, 1, num)
    ensures !Overflow(first + i, 1, num) && first + i + 1 <= num
  {
  }

  /** The target after i blocks of a transfer. */
  function Transfer(c: Config, t: Target, op: byte, first: nat, i: nat): (u: Target)
    requires TargetOk(t) && first + i <= t.disk.blkNum
    ensures TargetOk(u) && u.disk == t.disk.(bytes := u.disk.bytes)
    decreases i
  {
    if i == 0 then t
    else
      var p := Transfer(c, t, op, first, i - 1);
      MoveBlock(c, p, op, first + (i - 1))
  }

  lemma TransferStep(c: Config, t: Target, op: byte, first: nat, i: nat, next: nat)
    requires TargetOk(t) && next == i + 1 && first + next <= t.disk.blkNum
    ensures Transfer(c, t, op, first, i).disk.blkNum == t.disk.blkNum && Unwrapped(first + i, 1, t.disk.blkNum)
    ensures Transfer(c, t, op, first, next) == MoveBlock(c, Transfer(c, t, op, first, i), op, first + i)
  {
    hide MoveBlock;
  }

  function DataReadWrite10(c: Config, t: Target, cmd: seq<byte>): (Target, bool)
    requires TargetOk(t) && |cmd| >= 9 && Unwrapped(Decode(cmd).firstLba, Decode(cmd).blkCnt, t.disk.blkNum)
  {
    var req := Decode(cmd);
    DecodeBounds(cmd);
    OverflowExact(req.firstLba, req.blkCnt, t.disk.blkNum);
    if Overflow(req.firstLba, req.blkCnt, t.disk.blkNum) then Refuse(t, KEY_ILLEGAL_REQUEST, LBA_OUT_OF_RANGE)
    else (Transfer(c, t, cmd[0], req.firstLba, req.blkCnt), true)
  }

  function Inquiry(c: Config, t: Target, cmd: seq<byte>): (Target, bool)
    requires |cmd| >= 9
  {
    if cmd[1] & 0x01 != 0 && cmd[2] == 0x80 then TransmitData(c, t, c.serial)
    else if cmd[1] & 0x03 != 0 || cmd[2] != 0 then Refuse(t, KEY_ILLEGAL_REQUEST, INVALID_FIELD_IN_CDB)
    else TransmitData(c, t, c.inquiry)
  }

  function RequestSense(c: Config, t: Target, cmd: seq<byte>): (Target, bool)
    requires |cmd| >= 9
  {
    if cmd[1] & 0x01 != 0 || cmd[4] != 18 then Refuse(t, KEY_ILLEGAL_REQUEST, INVALID_FIELD_IN_CDB)
    else TransmitData(c, t, t.sense)
  }

  /** Four bytes, with the write-protection bit; a disk that is not ready counts as protected. */
  function ModeBytes(d: Disk): (m: seq<byte>)
    ensures |m| == 4
  {
    [3, 0, if d.state != BlkReady || d.readonly then 0x80 else 0, 0]
  }

  function ModeSense6(c: Config, t: Target): (Target, bool) {
    TransmitData(c, t.(modeSense := ModeBytes(t.disk)), ModeBytes(t.disk))
  }

  /** The first three bytes of the header are whatever the stack held. */
  function FormatCapacities(d: Disk, stack: seq<byte>): seq<byte> {
    stack + [8] + BigEndian(d.blkNum, 4) + [2, 0] + BigEndian(d.blkSize % 0x1_0000, 2)
  }

  function ReadFormatCapacities(c: Config, t: Target, cmd: seq<byte>, stack: seq<byte>): (Target, bool)
    requires |cmd| >= 9
  {
    if cmd[7] == 0 && cmd[8] == 0 then (t, true) else TransmitData(c, t, FormatCapacities(t.disk, stack))
  }

  /** The last block address, which wraps on an empty disk, and the block size. */
  function Capacity(d: Disk): (m: seq<byte>)
    ensures |m| == 8
  {
    BigEndian((d.blkNum + TWO_TO_THE_32 - 1) % TWO_TO_THE_32, 4) + BigEndian(d.blkSize, 4)
  }

  lemma WrappedLast(num: nat)
    requires num < TWO_TO_THE_32
    ensures (num + TWO_TO_THE_32 - 1) % TWO_TO_THE_32 == if num > 0 then num - 1 else TWO_TO_THE_32 - 1
  {
  }

  lemma CapacityFields(d: Disk)
    ensures Capacity(d)[..4] == BigEndian((d.blkNum + TWO_TO_THE_32 - 1) % TWO_TO_THE_32, 4)
    ensures Capacity(d)[4..] == BigEndian(d.blkSize, 4)
  {
  }

  /** The two numbers in it. */
  lemma CapacityInNumbers(d: Disk)
    requires Sized(d)
    ensures BeNumber(Capacity(d)[..4]) == if d.blkNum > 0 then d.blkNum - 1 else 0xFFFF_FFFF
    ensures BeNumber(Capacity(d)[4..]) == d.blkSize
  {
    hide Capacity, BeNumber, BigEndian;
    CapacityFields(d);
    WrappedLast(d.blkNum);
    WordRound((d.blkNum + TWO_TO_THE_32 - 1) % TWO_TO_THE_32);
    WordRound(d.blkSize);
  }

  /** Commands that ask the disk for its geometry. */
  predicate NeedsInfo(cmd: seq<byte>)
    requires |cmd| >= 9
  {
    || cmd[0] == READ_10 || cmd[0] == WRITE_10 || cmd[0] == READ_CAPACITY_10
    || (cmd[0] == READ_FORMAT_CAPACITIES && !(cmd[7] == 0 && cmd[8] == 0))
  }

  /** What the code takes for granted when it runs a command. */
  predicate Callable(t: Target, cmd: seq<byte>) {
    && |cmd| >= 9
    && (NeedsInfo(cmd) ==> t.disk.state == BlkReady)
    && (cmd[0] == READ_10 || cmd[0] == WRITE_10 ==> Unwrapped(Decode(cmd).firstLba, Decode(cmd).blkCnt, t.disk.blkNum))
  }

  /** The handler a command goes to. */
  function Handle(c: Config, t: Target, cmd: seq<byte>, stack: seq<byte>): (Target, bool)
    requires TargetOk(t) && Callable(t, cmd)
  {
    var op := cmd[0];
    if op == INQUIRY then Inquiry(c, t, cmd)
    else if op == REQUEST_SENSE then RequestSense(c, t, cmd)
    else if op == READ_CAPACITY_10 then TransmitData(c, t, Capacity(t.disk))
    else if op == READ_10 || op == WRITE_10 then DataReadWrite10(c, t, cmd)
    else if op == TEST_UNIT_READY || op == PREVENT_ALLOW_MEDIUM_REMOVAL || op == VERIFY_10 then (t, true)
    else if op == MODE_SENSE_6 then ModeSense6(c, t)
    else if op == READ_FORMAT_CAPACITIES then ReadFormatCapacities(c, t, cmd, stack)
    else Refuse(t, KEY_ILLEGAL_REQUEST, INVALID_COMMAND)
  }

  /** scsiExecCmd: success leaves the sense data good. */
  function Exec(c: Config, t: Target, cmd: seq<byte>, stack: seq<byte>): (Target, bool)
    requires TargetOk(t) && Callable(t, cmd)
  {
    var (u, ok) := Handle(c, t, cmd, stack);
    if ok then (u.(sense := Layout(KEY_GOOD, NO_ADDITIONAL_INFORMATION, NO_QUALIFIER)), true) else (u, false)
  }

  lemma ExecOk(c: Config, t: Target, cmd: seq<byte>, stack: seq<byte>)
    requires TargetOk(t) && Callable(t, cmd)
    ensures TargetOk(Exec(c, t, cmd, stack).0)
    ensures Exec(c, t, cmd, stack).0.disk == t.disk.(bytes := Exec(c, t, cmd, stack).0.disk.bytes)
  {
    hide Transmit, BigEndian, Capacity, FormatCapacities, Transfer, Decode, Bytes;
  }
}
