/** The communication thread: requests arrive in one static buffer, answers are built in another. */
module CommThread {

  import opened Prelude
  import opened CStrings
  import opened Strtok
  import opened Protocol

  const READ_SIZE: nat := 128
  const WRITE_SIZE: nat := 256

  predicate AllNul(s: string) {
    forall i :: 0 <= i < |s| ==> s[i] == NUL
  }

  /** A text and its terminator at the start of a buffer. */
  lemma TextInBuffer(b: string, s: string)
    requires |s| < |b| && b[..|s|] == s && b[|s|] == NUL && NUL !in s
    ensures CStr(b, 0) == s && Terminated(b, 0)
  {
    assert b[0..|s|] == s;
    StrEndIs(b, 0, |s|);
  }

  lemma NoTextInBuffer(b: string)
    requires |b| > 0 && AllNul(b)
    ensures CStr(b, 0) == [] && Terminated(b, 0)
  {
  }

  /** sprintf of an already formatted text into a buffer with room for it. */
  method Store(b: array<char>, s: string)
    requires |s| < b.Length
    modifies b
    ensures b[..|s|] == s && b[|s|] == NUL && b[|s| + 1..] == old(b[|s| + 1..])
  {
    var i := 0;
    while i < |s|
      invariant 0 <= i <= |s| && b[..i] == s[..i] && b[|s| + 1..] == old(b[|s| + 1..])
    {
      b[i] := s[i];
      i := i + 1;
    }
    b[|s|] := NUL;
  }

  /** memset(b, 0, sizeof(b)) */
  method Clear(b: array<char>)
    modifies b
    ensures AllNul(b[..])
  {
    for i := 0 to b.Length
      invariant forall j :: 0 <= j < i ==> b[j] == NUL
    {
      b[i] := NUL;
    }
  }

  /** A later call of strtok_r leaves the tokens before it alone. */
  lemma CutKeepsEarlier(b: string, from: nat, d: char, b': string, tok: Option<nat>, save: Option<nat>, t: nat)
    requires from <= |b| && Cut(b, from, d, b', tok, save) && Terminated(b, t) && StrEnd(b, t) < from
    ensures Terminated(b', t) && StrEnd(b', t) == StrEnd(b, t) && CStr(b', t) == CStr(b, t)
  {
    if b' != b {
      assert StrEnd(b', tok.value) >= tok.value;
      CStrFrame(b, b', t, save.value - 1);
    }
  }

  lemma TokenLength(s: string, d: char)
    ensures match NextToken(s, d)
            case None => true
            case Some(Token(t, None)) => |t| <= |s|
            case Some(Token(t, Some(r))) => |t| + 1 + |r| <= |s|
  {
  }

  lemma {:induction false} SkipChars(s: string, d: char, c: char)
    requires c !in s
    ensures c !in SkipAll(s, d)
    decreases |s|
  {
    if s != [] && s[0] == d {
      SkipChars(s[1..], d, c);
    }
  }

  lemma TokenChars(s: string, d: char, c: char)
    requires c !in s
    ensures match NextToken(s, d)
            case None => true
            case Some(Token(t, None)) => c !in t
            case Some(Token(t, Some(r))) => c !in t && c !in r
  {
    SkipChars(s, d, c);
  }

  /** Fields that an answer has room for. */
  predicate Short(f: Fields) {
    f.sensor.Some? && f.value.Some? ==>
      |f.command| + |f.sensor.value| + |f.value.value| <= READ_SIZE
      && NUL !in f.command && NUL !in f.sensor.value && NUL !in f.value.value
  }

  lemma EchoFits(f: Fields, ack: bool)
    requires f.sensor.Some? && f.value.Some? && Short(f)
    ensures |EchoText(f.command, f.sensor.value, f.value.value, ack)| < 200
    ensures NUL !in EchoText(f.command, f.sensor.value, f.value.value, ack)
  {
  }

  lemma SplitByTokens(payload: string)
    ensures var t1 := NextToken(payload, '|');
            var t2 := NextOf(RestOf(t1), '|');
            var t3 := NextOf(RestOf(t2), '|');
            Split(payload) == if t1.None? then None else Some(Fields(t1.value.text, TextOf(t2), TextOf(t3)))
  {
  }

  /** The three fields fit into the payload they were cut from, and have no NUL in them. */
  lemma FieldsFit(payload: string)
    requires NUL !in payload && |payload| <= READ_SIZE
    ensures Split(payload).Some? ==> Short(Split(payload).value)
  {
    var t1 := NextToken(payload, '|');
    TokenLength(payload, '|');
    TokenChars(payload, '|', NUL);
    if t1.Some? && t1.value.rest.Some? {
      var rest := t1.value.rest.value;
      TokenLength(rest, '|');
      TokenChars(rest, '|', NUL);
      var t2 := NextToken(rest, '|');
      if t2.Some? && t2.value.rest.Some? {
        TokenLength(t2.value.rest.value, '|');
        TokenChars(t2.value.rest.value, '|', NUL);
      }
    }
  }

  lemma FieldFits(name: string, b: Board, k: nat)
    requires ValidBoard(b) && k < 6 && NUL !in name
    ensures |AnalogField(name, b, k)| <= |name| + 7 && NUL !in AnalogField(name, b, k)
  {
    var s := b.samples;
    assert s[k] in s && s[k + 6] in s && s[k + 12] in s && s[k + 18] in s;
    assert Power10(5) == 100000;
    DecimalLength(Average(s, k), 5, 100000);
  }

  lemma AnalogFits(b: Board)
    requires ValidBoard(b)
    ensures |AnalogText(b)| <= 108 && NUL !in AnalogText(b)
  {
    hide AnalogField;
    FieldFits("ebs_line", b, 0);
    FieldFits("ebs_actuator", b, 1);
    FieldFits("pressure_rag", b, 2);
    FieldFits("service_tank", b, 3);
    FieldFits("position_rack", b, 4);
    FieldFits("steer_pos", b, 5);
  }

  lemma DigitalFits(b: Board)
    ensures |DigitalText(b)| == 33 && NUL !in DigitalText(b)
  {
  }

  /** Whatever the samples are, the status text is short. */
  lemma StatusFits(b: Board)
    requires ValidBoard(b)
    ensures |StatusText(b)| <= 155 && NUL !in StatusText(b)
  {
    AnalogFits(b);
    DigitalFits(b);
  }

  /** A pointer into a buffer and the string it points to, both present or both missing. */
  predicate Holds(b: string, p: Option<nat>, s: Option<string>) {
    p.Some? == s.Some? && (p.Some? ==> Terminated(b, p.value) && CStr(b, p.value) == s.value)
  }

  /** The text of a token and of what follows it, after a call. */
  function TextOf(t: Option<Token>): Option<string> {
    match t case None => None case Some(x) => Some(x.text)
  }

  function RestOf(t: Option<Token>): Option<string> {
    match t case None => None case Some(x) => x.rest
  }

  lemma CallTexts(b: string, from: Option<nat>, s: Option<string>, d: char, b': string,
                  tok: Option<nat>, save: Option<nat>)
    requires Call(b, from, d, b', tok, save) && Holds(b, from, s)
    ensures var t := NextOf(s, d); Holds(b', tok, TextOf(t)) && Holds(b', save, RestOf(t))
    ensures tok.Some? && save.Some? ==> StrEnd(b', tok.value) < save.value
  {
  }

  lemma CallKeeps(b: string, from: Option<nat>, d: char, b': string, tok: Option<nat>, save: Option<nat>,
                  t: Option<nat>, s: Option<string>)
    requires Call(b, from, d, b', tok, save) && Holds(b, t, s)
    requires t.Some? && from.Some? ==> StrEnd(b, t.value) < from.value
    ensures Holds(b', t, s)
    ensures t.Some? ==> StrEnd(b', t.value) == StrEnd(b, t.value)
  {
    if t.Some? && from.Some? {
      CutKeepsEarlier(b, from.value, d, b', tok, save, t.value);
    }
  }

  lemma NextKeyword(sensor: string, k: nat)
    requires k < KEYWORDS
    ensures FirstKeyword(sensor, k) == if Contains(sensor, Keyword(k)) then k else FirstKeyword(sensor, k + 1)
  {
  }

  lemma NoMoreKeywords(sensor: string)
    ensures FirstKeyword(sensor, KEYWORDS) == KEYWORDS
  {
  }

  lemma FirstKeywords(sensor: string)
    ensures FirstKeyword(sensor, 0) ==
      if Contains(sensor, "heart_beat") then 0
      else if Contains(sensor, "rack_right") then 1
      else if Contains(sensor, "rack_left") then 2
      else if Contains(sensor, "service_break") then 3
      else if Contains(sensor, "redundency") then 4
      else if Contains(sensor, "shutdown") then 5
      else FirstKeyword(sensor, 6)
  {
    hide FirstKeyword, Contains;
    NextKeyword(sensor, 0);
    NextKeyword(sensor, 1);
    NextKeyword(sensor, 2);
    NextKeyword(sensor, 3);
    NextKeyword(sensor, 4);
    NextKeyword(sensor, 5);
  }

  lemma MiddleKeywords(sensor: string)
    ensures FirstKeyword(sensor, 6) ==
      if Contains(sensor, "spare") then 6
      else if Contains(sensor, "clamp_set") then 7
      else if Contains(sensor, "compressor") then 8
      else if Contains(sensor, "ebs_relief") then 9
      else if Contains(sensor, "ebs_speaker") then 10
      else if Contains(sensor, "finished") then 11
      else FirstKeyword(sensor, 12)
  {
    hide FirstKeyword, Contains;
    NextKeyword(sensor, 6);
    NextKeyword(sensor, 7);
    NextKeyword(sensor, 8);
    NextKeyword(sensor, 9);
    NextKeyword(sensor, 10);
    NextKeyword(sensor, 11);
  }

  lemma LastKeywords(sensor: string)
    ensures FirstKeyword(sensor, 12) ==
      if Contains(sensor, "steer_speed") then 12
      else if Contains(sensor, "brake_pressure") then 13
      else if Contains(sensor, "assi_blue") then 14
      else if Contains(sensor, "assi_red") then 15
      else if Contains(sensor, "assi_green") then 16
      else KEYWORDS
  {
    hide FirstKeyword, Contains;
    NextKeyword(sensor, 12);
    NextKeyword(sensor, 13);
    NextKeyword(sensor, 14);
    NextKeyword(sensor, 15);
    NextKeyword(sensor, 16);
    NoMoreKeywords(sensor);
  }

  /** The keywords in the order of the C function. */
  lemma KeywordOrder(sensor: string)
    ensures FirstKeyword(sensor, 0) ==
      if Contains(sensor, "heart_beat") then 0
      else if Contains(sensor, "rack_right") then 1
      else if Contains(sensor, "rack_left") then 2
      else if Contains(sensor, "service_break") then 3
      else if Contains(sensor, "redundency") then 4
      else if Contains(sensor, "shutdown") then 5
      else if Contains(sensor, "spare") then 6
      else if Contains(sensor, "clamp_set") then 7
      else if Contains(sensor, "compressor") then 8
      else if Contains(sensor, "ebs_relief") then 9
      else if Contains(sensor, "ebs_speaker") then 10
      else if Contains(sensor, "finished") then 11
      else if Contains(sensor, "steer_speed") then 12
      else if Contains(sensor, "brake_pressure") then 13
      else if Contains(sensor, "assi_blue") then 14
      else if Contains(sensor, "assi_red") then 15
      else if Contains(sensor, "assi_green") then 16
      else 17
  {
    hide FirstKeyword, Contains;
    FirstKeywords(sensor);
    MiddleKeywords(sensor);
    LastKeywords(sensor);
  }

  class Node {
    const readBuffer: array<char>
    const writeBuffer: array<char>
    const width: (Driver, int) -> int
    var board: Board
    var sent: string

    /** What holds whenever the thread is about to read: the write buffer is clear, and the read
        buffer is clear but for what a read of up to three bytes may have left. */
    predicate AtLoopHead()
      reads this, readBuffer, writeBuffer
    {
      && readBuffer.Length == READ_SIZE && writeBuffer.Length == WRITE_SIZE && readBuffer != writeBuffer
      && ValidBoard(board)
      && AllNul(writeBuffer[..]) && AllNul(readBuffer[3..])
    }

    constructor (board: Board, width: (Driver, int) -> int)
      requires ValidBoard(board)
      ensures AtLoopHead() && fresh(readBuffer) && fresh(writeBuffer)
      ensures this.board == board && sent == "" && this.width == width
    {
      readBuffer := new char[READ_SIZE](_ => NUL);
      writeBuffer := new char[WRITE_SIZE](_ => NUL);
      this.board, this.width, sent := board, width, "";
    }

    /** processCommand: one keyword after the other, the first that occurs decides. */
    method ProcessCommand(sensor: string, value: string) returns (ok: bool)
      modifies this`board
      ensures (board, ok) == SetOutput(old(board), sensor, value, width)
    {
      hide FirstKeyword, Contains, Atoi;
      var intValue := Atoi(value);
      var bitValue := if intValue == 0 then 0 else 1;
      KeywordOrder(sensor);
      ok := true;
      if Contains(sensor, "heart_beat") { Write(HeartBeat, bitValue); }
      else if Contains(sensor, "rack_right") { Write(RackRight, bitValue); }
      else if Contains(sensor, "rack_left") { Write(RackLeft, bitValue); }
      else if Contains(sensor, "service_break") { Write(ServiceBreak, bitValue); }
      else if Contains(sensor, "redundency") { Write(Redundency, bitValue); }
      else if Contains(sensor, "shutdown") { Write(Shutdown, bitValue); }
      else if Contains(sensor, "spare") { Write(Spare, bitValue); }
      else if Contains(sensor, "clamp_set") { Write(ClampSet, bitValue); }
      else if Contains(sensor, "compressor") { Write(Compressor, bitValue); }
      else if Contains(sensor, "ebs_relief") { Write(EbsRelief, bitValue); }
      else if Contains(sensor, "ebs_speaker") { Write(EbsSpeaker, bitValue); }
      else if Contains(sensor, "finished") { Write(Finished, bitValue); }
      else if Contains(sensor, "steer_speed") { EnableChannel(PWMD3, 2, intValue); }
      else if Contains(sensor, "brake_pressure") { EnableChannel(PWMD3, 3, intValue); }
      else if Contains(sensor, "assi_blue") { EnableChannel(PWMD4, 1, intValue); }
      else if Contains(sensor, "assi_red") { EnableChannel(PWMD3, 1, intValue); }
      else if Contains(sensor, "assi_green") { EnableChannel(PWMD4, 0, intValue); }
      else { ok := false; }
    }

    /** pwmEnableChannel, with the width for a percentage. */
    method EnableChannel(driver: Driver, channel: nat, percentage: int)
      requires OutputOn(Pwm(driver, channel)).Some?
      modifies this`board
      ensures board == old(board).(outputs :=
        old(board).outputs[OutputOn(Pwm(driver, channel)).value := width(driver, percentage)])
    {
      Write(OutputOn(Pwm(driver, channel)).value, width(driver, percentage));
    }

    /** palWriteLine */
    method Write(o: Output, level: int)
      modifies this`board
      ensures board == old(board).(outputs := old(board).outputs[o := level])
    {
      board := board.(outputs := board.outputs[o := level]);
    }

    /** sendMessage: the text in the write buffer, framed with the given length. */
    method SendMessage(size: nat)
      requires writeBuffer.Length > 0 && Terminated(writeBuffer[..], 0)
      requires |Decimal(size)| + |CStr(writeBuffer[..], 0)| + 2 < WRITE_SIZE
      modifies this`sent
      ensures sent == old(sent) + (Decimal(size) + ":" + CStr(writeBuffer[..], 0) + ";")
    {
      var temp := new char[WRITE_SIZE](_ => NUL);
      var text := Decimal(size) + ":" + CStr(writeBuffer[..], 0) + ";";
      Store(temp, text);
      sent := sent + temp[..|text|];
    }

    /** The three strtok_r calls of decodeNetstring. */
    method ThreeTokens(msg: nat) returns (command: Option<nat>, sensor: Option<nat>, value: Option<nat>)
      requires Terminated(readBuffer[..], msg)
      modifies readBuffer
      ensures match Split(CStr(old(readBuffer[..]), msg))
              case None => command.None?
              case Some(f) =>
                && Holds(readBuffer[..], command, Some(f.command))
                && Holds(readBuffer[..], sensor, f.sensor) && Holds(readBuffer[..], value, f.value)
    {
      ghost var b0, p := readBuffer[..], CStr(readBuffer[..], msg);
      ghost var t1 := NextToken(p, '|');
      ghost var t2 := NextOf(RestOf(t1), '|');
      var rest1, rest2, rest3;
      command, rest1 := StrtokR(readBuffer, Some(msg), '|');
      ghost var b1 := readBuffer[..];
      CallTexts(b0, Some(msg), Some(p), '|', b1, command, rest1);
      sensor, rest2 := StrtokR(readBuffer, rest1, '|');
      ghost var b2 := readBuffer[..];
      CallTexts(b1, rest1, RestOf(t1), '|', b2, sensor, rest2);
      CallKeeps(b1, rest1, '|', b2, sensor, rest2, command, TextOf(t1));
      value, rest3 := StrtokR(readBuffer, rest2, '|');
      CallTexts(b2, rest2, RestOf(t2), '|', readBuffer[..], value, rest3);
      CallKeeps(b2, rest2, '|', readBuffer[..], value, rest3, command, TextOf(t1));
      CallKeeps(b2, rest2, '|', readBuffer[..], value, rest3, sensor, TextOf(t2));
      SplitByTokens(p);
    }

    /** The branches of decodeNetstring; the answer is left in the write buffer. */
    method Dispatch(command: nat, sensor: Option<nat>, value: Option<nat>, ghost f: Fields) returns (msgLength: nat)
      requires writeBuffer.Length == WRITE_SIZE && readBuffer != writeBuffer && ValidBoard(board)
      requires AllNul(writeBuffer[..])
      requires Holds(readBuffer[..], Some(command), Some(f.command)) && Complete(f) && Short(f)
      requires Holds(readBuffer[..], sensor, f.sensor) && Holds(readBuffer[..], value, f.value)
      modifies this`board, writeBuffer
      ensures Terminated(writeBuffer[..], 0) && msgLength == |CStr(writeBuffer[..], 0)| < 200
      ensures (board, CStr(writeBuffer[..], 0)) == Handle(old(board), f, width)
    {
      hide StatusText, EchoText, Atoi, SetOutput, Contains;
      var cmd := CStr(readBuffer[..], command);
      if Contains(cmd, "set") {
        var s, v := CStr(readBuffer[..], sensor.value), CStr(readBuffer[..], value.value);
        var ok := ProcessCommand(s, v);
        EchoFits(f, ok);
        msgLength := Fill(EchoText(cmd, s, v, ok));
      } else if Contains(cmd, "get") {
        StatusFits(board);
        msgLength := Fill(StatusText(board));
      } else {
        NoTextInBuffer(writeBuffer[..]);
        msgLength := 0;
      }
    }

    /** decodeNetstring: handle the payload and send the answer. */
    method DecodeNetstring(msg: nat, ghost payload: string)
      requires readBuffer.Length == READ_SIZE && writeBuffer.Length == WRITE_SIZE && readBuffer != writeBuffer
      requires ValidBoard(board) && AllNul(writeBuffer[..])
      requires Terminated(readBuffer[..], msg) && payload == CStr(readBuffer[..], msg) && Answerable(payload)
      modifies this`board, this`sent, readBuffer, writeBuffer
      ensures var (board', answer) := Handle(old(board), Split(payload).value, width);
              board == board' && sent == old(sent) + Frame(answer)
    {
      hide Split, Handle, Atoi, Contains;
      PayloadFits(readBuffer[..], msg);
      FieldsFit(payload);
      ghost var f := Split(payload).value;
      var command, sensor, value := ThreeTokens(msg);
      var msgLength := Dispatch(command.value, sensor, value, f);
      ShortDecimal(msgLength);
      SendMessage(msgLength);
    }

    /** decodeMessage: take the frame apart, test its length, handle the payload. */
    method DecodeMessage(size: nat, ghost text: string)
      requires readBuffer.Length == READ_SIZE && writeBuffer.Length == WRITE_SIZE && readBuffer != writeBuffer
      requires ValidBoard(board) && AllNul(writeBuffer[..])
      requires Terminated(readBuffer[..], 0) && text == CStr(readBuffer[..], 0) && WellFormed(text, size)
      modifies this`board, this`sent, readBuffer, writeBuffer
      ensures var (board', answer) := Serve(old(board), text, size, width);
              board == board' && sent == old(sent) + answer
    {
      var length, msg := TwoTokens(text);
      var msgLength := Atoi(CStr(readBuffer[..], length));
      if msgLength != -1 && msgLength < size {
        DecodeNetstring(msg.value, Unframe(text).value.1);
      }
    }

    /** The two strtok_r calls of decodeMessage; the second may find nothing. */
    method TwoTokens(ghost text: string) returns (length: nat, msg: Option<nat>)
      requires readBuffer.Length > 0 && Terminated(readBuffer[..], 0) && text == CStr(readBuffer[..], 0)
      requires LengthField(text).Some?
      modifies readBuffer
      ensures Holds(readBuffer[..], Some(length), LengthField(text))
      ensures Unframe(text).Some? ==> Holds(readBuffer[..], msg, Some(Unframe(text).value.1))
    {
      ghost var b0, t1 := readBuffer[..], NextToken(text, ':');
      var tok1, rest1 := StrtokR(readBuffer, Some(0), ':');
      ghost var b1 := readBuffer[..];
      CallTexts(b0, Some(0), Some(text), ':', b1, tok1, rest1);
      var tok2, rest2 := StrtokR(readBuffer, rest1, ';');
      CallTexts(b1, rest1, RestOf(t1), ';', readBuffer[..], tok2, rest2);
      CallKeeps(b1, rest1, ';', readBuffer[..], tok2, rest2, tok1, TextOf(t1));
      length, msg := tok1.value, tok2;
    }

    /** What other threads and the sensor lines have changed by the time of a round. */
    method Sense(samples: seq<nat>, asms: bool, clamped: bool, ebsOk: bool)
      requires AtLoopHead() && |samples| == 24 && forall x :: x in samples ==> x < 0x1_0000
      modifies this`board
      ensures AtLoopHead()
      ensures board == old(board).(samples := samples, asms := asms, clamped := clamped, ebsOk := ebsOk)
    {
      board := board.(samples := samples, asms := asms, clamped := clamped, ebsOk := ebsOk);
    }

    /** One round of the thread, for what one read returned. */
    method Round(input: string)
      requires AtLoopHead() && |input| < READ_SIZE
      requires |input| > 3 ==> WellFormed(Received(input), |input|)
      modifies this`board, this`sent, readBuffer, writeBuffer
      ensures AtLoopHead()
      ensures (board, sent) == AfterRound(old(board), old(sent), input, width)
    {
      Read(input);
      if |input| > 3 {
        ReceivedText(readBuffer[..], input);
        DecodeMessage(|input|, Received(input));
        HandledBoard(old(board), Received(input), |input|, width);
        Clear(readBuffer);
        Clear(writeBuffer);
      }
    }

    /** chnReadTimeout: what arrived replaces the start of the read buffer. */
    method Read(input: string)
      requires |input| <= readBuffer.Length
      modifies readBuffer
      ensures readBuffer[..] == input + old(readBuffer[|input|..])
    {
      var i := 0;
      while i < |input|
        invariant 0 <= i <= |input|
        invariant readBuffer[..i] == input[..i] && readBuffer[i..] == old(readBuffer[i..])
      {
        readBuffer[i] := input[i];
        i := i + 1;
      }
      assert readBuffer[..] == readBuffer[..i] + readBuffer[i..];
    }

    /** sprintf into the write buffer. */
    method Fill(text: string) returns (length: nat)
      requires writeBuffer.Length == WRITE_SIZE && |text| < WRITE_SIZE && NUL !in text
      modifies writeBuffer
      ensures length == |text| && Terminated(writeBuffer[..], 0) && CStr(writeBuffer[..], 0) == text
    {
      Store(writeBuffer, text);
      assert writeBuffer[..][..|text|] == text;
      TextInBuffer(writeBuffer[..], text);
      length := |text|;
    }
  }

  lemma PayloadFits(b: string, i: nat)
    requires i < |b|
    ensures |CStr(b, i)| <= |b| && NUL !in CStr(b, i)
  {
    StrEndFacts(b, i);
  }

  lemma ShortDecimal(n: nat)
    requires n < 1000
    ensures |Decimal(n)| <= 3
  {
    assert Power10(3) == 1000;
    DecimalLength(n, 3, 1000);
  }

  /** What was read, as a C string: up to a NUL among the bytes, if there is one. */
  function Received(input: string): string {
    CStr(input, 0)
  }

  /** A request is decoded from what was read, and from nothing that was in the buffer before. */
  lemma ReceivedText(b: string, input: string)
    requires |input| < |b| && b[..|input|] == input && AllNul(b[|input|..])
    ensures Terminated(b, 0) && CStr(b, 0) == Received(input)
  {
    var e := StrEnd(input, 0);
    StrEndFacts(input, 0);
    assert forall k :: 0 <= k < |input| ==> b[k] == b[..|input|][k];
    assert e == |input| ==> b[e] == b[|input|..][0];
    StrEndIs(b, 0, e);
    assert b[0..e] == input[0..e];
  }

  lemma HandledBoard(b: Board, text: string, size: nat, width: (Driver, int) -> int)
    requires ValidBoard(b) && WellFormed(text, size)
    ensures ValidBoard(Serve(b, text, size, width).0)
  {
  }

  /** The board and all bytes sent after a round of the thread. */
  function AfterRound(b: Board, sent: string, input: string, width: (Driver, int) -> int): (Board, string)
    requires ValidBoard(b) && (|input| > 3 ==> WellFormed(Received(input), |input|))
  {
    if |input| > 3 then
      var (b', answer) := Serve(b, Received(input), |input|, width);
      (b', sent + answer)
    else (b, sent)
  }
}
