/** What the protocol guarantees: frames come apart the way they were put together, a set request
    is answered by its echo and switches one output, and a run of requests does what its
    requests do one by one. */
module Exchange {

  import opened Prelude
  import opened CStrings
  import opened Protocol
  import opened CommThread

  // ---- tokens ----

  lemma {:induction false} SpanOf(t: string, d: char, rest: string)
    requires d !in t && (rest == [] || rest[0] == d)
    ensures Span(t + rest, d) == |t|
    decreases |t|
  {
    if t == [] {
      assert t + rest == rest;
    } else {
      SpanOf(t[1..], d, rest);
      assert (t + rest)[1..] == t[1..] + rest;
    }
  }

  /** A token that is followed by its delimiter. */
  lemma InnerTokenOf(t: string, d: char, rest: string)
    requires t != [] && d !in t
    ensures NextToken(t + [d] + rest, d) == Some(Token(t, Option.Some(rest)))
  {
    var s := t + [d] + rest;
    assert s[0] != d;
    SpanOf(t, d, [d] + rest);
    assert s == t + ([d] + rest);
    assert s[..|t|] == t && s[|t| + 1..] == rest;
  }

  /** A token that ends with the text. */
  lemma LastTokenOf(t: string, d: char)
    requires t != [] && d !in t
    ensures NextToken(t, d) == Some(Token(t, Option.None))
  {
    SpanOf(t, d, []);
    assert t + [] == t && t[..|t|] == t;
  }

  lemma {:induction false} SkipsFront(front: string, s: string, d: char)
    requires forall x :: x in front ==> x == d
    ensures SkipAll(front + s, d) == SkipAll(s, d)
    decreases |front|
  {
    if front == [] {
      assert front + s == s;
    } else {
      assert front[0] in front && forall x :: x in front[1..] ==> x in front;
      SkipsFront(front[1..], s, d);
      assert (front + s)[1..] == front[1..] + s;
    }
  }

  /** Delimiters in front of a token are skipped; a text of nothing but delimiters has no token. */
  lemma LeadingDelimiters(front: string, s: string, d: char)
    requires forall x :: x in front ==> x == d
    ensures NextToken(front + s, d) == NextToken(s, d)
    ensures NextToken(front, d) == None
  {
    SkipsFront(front, s, d);
    SkipsFront(front, "", d);
    assert front + "" == front;
  }

  /** strstr finds a text exactly where it stands between two others. */
  lemma ContainsExact(s: string, p: string)
    ensures Contains(s, p) <==> exists a, b :: Around(s, a, p, b)
  {
    if Contains(s, p) {
      var i :| 0 <= i <= |s| && OccursAt(s, p, i);
      assert s == s[..i] + s[i..i + |p|] + s[i + |p|..];
      assert Around(s, s[..i], p, s[i + |p|..]);
    }
    if a, b :| Around(s, a, p, b) {
      assert s[|a|..|a| + |p|] == p;
      assert OccursAt(s, p, |a|);
    }
  }

  predicate Around(s: string, a: string, p: string, b: string) {
    s == a + p + b
  }

  lemma {:induction false} SpanStops(s: string, d: char)
    ensures d !in s[..Span(s, d)]
    decreases |s|
  {
    if s != [] && s[0] != d {
      SpanStops(s[1..], d);
      assert s[..Span(s, d)] == [s[0]] + s[1..][..Span(s[1..], d)];
    }
  }

  /** No token contains its delimiter. */
  lemma TokenIsClean(s: string, d: char)
    ensures NextToken(s, d).Some? ==> d !in NextToken(s, d).value.text
  {
    SpanStops(SkipAll(s, d), d);
  }

  // ---- frames ----

  lemma DigitsClean(n: nat, c: char)
    requires !IsDigit(c)
    ensures c !in Decimal(n)
  {
  }

  /** Taking a frame apart gives back the length, the payload and a passed length test: for exactly
      the payloads that are not empty and have no end mark in them. */
  lemma FrameRoundTrip(p: string)
    ensures Unframe(Frame(p)) == Some((Decimal(|p|), p)) <==> p != "" && ';' !in p
    ensures Atoi(Decimal(|p|)) == |p| && PassesLengthTest(Decimal(|p|), |Frame(p)|)
  {
    var n, rest := Decimal(|p|), p + ";";
    DigitsClean(|p|, ':');
    assert Frame(p) == n + [':'] + rest;
    InnerTokenOf(n, ':', rest);
    AtoiOfDecimal(|p|);
    if p != "" && ';' !in p {
      InnerTokenOf(p, ';', "");
      assert rest == p + [';'] + "";
    } else if p == "" {
      assert rest == ";" && rest[1..] == "";
      assert SkipAll(rest, ';') == SkipAll("", ';') == "";
    } else {
      TokenIsClean(rest, ';');
    }
  }

  // ---- requests ----

  /** A field that survives framing and splitting. */
  predicate Clean(s: string) {
    s != "" && '|' !in s && ';' !in s && NUL !in s
  }

  function Payload(command: string, sensor: string, value: string): string {
    command + "|" + sensor + "|" + value
  }

  lemma PayloadSplits(command: string, sensor: string, value: string)
    requires Clean(command) && Clean(sensor) && Clean(value)
    ensures Split(Payload(command, sensor, value)) == Some(Fields(command, Some(sensor), Some(value)))
    ensures Payload(command, sensor, value) != "" && ';' !in Payload(command, sensor, value)
  {
    assert Payload(command, sensor, value) == command + ['|'] + (sensor + ['|'] + value);
    InnerTokenOf(command, '|', sensor + ['|'] + value);
    InnerTokenOf(sensor, '|', value);
    LastTokenOf(value, '|');
  }

  /** Which output a sensor text stands for: the first keyword that occurs in it. */
  function Target(sensor: string): Option<Output> {
    var f := FirstKeyword(sensor, 0);
    if f == KEYWORDS then None else Some(Switched(f))
  }

  /** The sensor names and their outputs. */
  lemma TargetInWords(sensor: string)
    ensures Target(sensor) ==
      if Contains(sensor, "heart_beat") then Some(HeartBeat)
      else if Contains(sensor, "rack_right") then Some(RackRight)
      else if Contains(sensor, "rack_left") then Some(RackLeft)
      else if Contains(sensor, "service_break") then Some(ServiceBreak)
      else if Contains(sensor, "redundency") then Some(Redundency)
      else if Contains(sensor, "shutdown") then Some(Shutdown)
      else if Contains(sensor, "spare") then Some(Spare)
      else if Contains(sensor, "clamp_set") then Some(ClampSet)
      else if Contains(sensor, "compressor") then Some(Compressor)
      else if Contains(sensor, "ebs_relief") then Some(EbsRelief)
      else if Contains(sensor, "ebs_speaker") then Some(EbsSpeaker)
      else if Contains(sensor, "finished") then Some(Finished)
      else if Contains(sensor, "steer_speed") then Some(SteerSpeed)
      else if Contains(sensor, "brake_pressure") then Some(BrakePressure)
      else if Contains(sensor, "assi_blue") then Some(AssiBlue)
      else if Contains(sensor, "assi_red") then Some(AssiRed)
      else if Contains(sensor, "assi_green") then Some(AssiGreen)
      else None
  {
    hide Contains;
    KeywordOrder(sensor);
  }

  /** A line gets 0 for the value 0 and 1 for any other; a PWM channel gets its driver's width for the value. */
  lemma LevelsWritten(o: Output, v: int, width: (Driver, int) -> int)
    ensures o !in {SteerSpeed, BrakePressure, AssiBlue, AssiRed, AssiGreen} ==>
      Level(o, v, width) == if v == 0 then 0 else 1
    ensures o in {SteerSpeed, BrakePressure, AssiRed} ==> Level(o, v, width) == width(PWMD3, v)
    ensures o in {AssiBlue, AssiGreen} ==> Level(o, v, width) == width(PWMD4, v)
  {
  }

  predicate SameOutputsBut(b: Board, b': Board, o: Output) {
    b' == b.(outputs := b'.outputs) && forall x :: x != o ==>
      (x in b.outputs <==> x in b'.outputs) && (x in b.outputs ==> b.outputs[x] == b'.outputs[x])
  }

  /** A set request with its three fields. */
  predicate IsSet(command: string, sensor: string, value: string) {
    && Clean(command) && Clean(sensor) && Clean(value) && Contains(command, "set")
    && FitsInt(Atoi(value)) && |Payload(command, sensor, value)| < 0x8000_0000
  }

  /** What the node makes of a framed set request. */
  function Answer(b: Board, command: string, sensor: string, value: string,
                  width: (Driver, int) -> int): (Board, string)
    requires ValidBoard(b) && IsSet(command, sensor, value)
  {
    var request := Frame(Payload(command, sensor, value));
    SetIsWellFormed(command, sensor, value);
    Serve(b, request, |request|, width)
  }

  lemma SetIsWellFormed(command: string, sensor: string, value: string)
    requires IsSet(command, sensor, value)
    ensures WellFormed(Frame(Payload(command, sensor, value)), |Frame(Payload(command, sensor, value))|)
  {
    PayloadSplits(command, sensor, value);
    FrameRoundTrip(Payload(command, sensor, value));
  }

  lemma SetIsServed(b: Board, command: string, sensor: string, value: string, width: (Driver, int) -> int)
    requires ValidBoard(b) && IsSet(command, sensor, value)
    ensures var (b', ack) := SetOutput(b, sensor, value, width);
            Answer(b, command, sensor, value, width) == (b', Frame(EchoText(command, sensor, value, ack)))
  {
    PayloadSplits(command, sensor, value);
    FrameRoundTrip(Payload(command, sensor, value));
  }

  /** Some keyword occurs in the sensor field. */
  predicate Understood(sensor: string) {
    exists k :: 0 <= k < KEYWORDS && Contains(sensor, Keyword(k))
  }

  /** A framed set request is answered by the frame of its echo. It is acknowledged exactly when some
      keyword occurs in the sensor field, and then it changes the output of the first such keyword
      and nothing else. */
  lemma SetRequest(b: Board, command: string, sensor: string, value: string, width: (Driver, int) -> int)
    requires ValidBoard(b) && IsSet(command, sensor, value)
    ensures var (b', answer) := Answer(b, command, sensor, value, width);
            var echo := command + "|" + sensor + "|" + value + (if Understood(sensor) then "|ACK" else "|NACK");
            && answer == Decimal(|echo|) + ":" + echo + ";" && Unframe(answer) == Some((Decimal(|echo|), echo))
            && (if Understood(sensor) then
                  var o := Target(sensor).value;
                  o in b'.outputs && b'.outputs[o] == Level(o, Atoi(value), width) && SameOutputsBut(b, b', o)
                else b' == b)
  {
    hide EchoText, Unframe, Contains, Answer;
    SetIsServed(b, command, sensor, value, width);
    EchoInLetters(command, sensor, value, Understood(sensor));
    EchoIsClean(command, sensor, value, Understood(sensor));
    FrameRoundTrip(EchoText(command, sensor, value, Understood(sensor)));
  }

  lemma EchoInLetters(command: string, sensor: string, value: string, ack: bool)
    ensures EchoText(command, sensor, value, ack)
      == command + "|" + sensor + "|" + value + (if ack then "|ACK" else "|NACK")
  {
  }

  lemma EchoIsClean(command: string, sensor: string, value: string, ack: bool)
    requires Clean(command) && Clean(sensor) && Clean(value)
    ensures EchoText(command, sensor, value, ack) != "" && ';' !in EchoText(command, sensor, value, ack)
  {
  }

  /** A request that is neither a set nor a get request is answered by an empty frame. */
  lemma OtherRequest(b: Board, p: string, width: (Driver, int) -> int)
    requires ValidBoard(b) && p != "" && ';' !in p && |p| < 0x8000_0000 && Split(p).Some?
    requires !Contains(Split(p).value.command, "set") && !Contains(Split(p).value.command, "get")
    ensures WellFormed(Frame(p), |Frame(p)|) && Serve(b, Frame(p), |Frame(p)|, width) == (b, "0:;")
  {
    FrameRoundTrip(p);
    assert Decimal(0) == "0";
    assert Frame("") == "0:;";
  }

  /** A get request is answered by a frame that holds all averages, fits the buffers, and changes
      nothing. */
  lemma GetRequest(b: Board, p: string, width: (Driver, int) -> int)
    requires ValidBoard(b) && p != "" && ';' !in p && |p| < 0x8000_0000 && Split(p).Some?
    requires !Contains(Split(p).value.command, "set") && Contains(Split(p).value.command, "get")
    ensures WellFormed(Frame(p), |Frame(p)|) && Serve(b, Frame(p), |Frame(p)|, width) == (b, Frame(StatusText(b)))
    ensures |StatusText(b)| + 1 <= WRITE_SIZE && |Frame(StatusText(b))| + 1 <= WRITE_SIZE
  {
    FrameRoundTrip(p);
    StatusFits(b);
    ShortDecimal(|StatusText(b)|);
  }

  // ---- what a host reads out of a status answer ----

  /** All tokens of a text. */
  function AllTokens(s: string, d: char): seq<string>
    decreases |s|
  {
    TokenLength(s, d);
    match NextToken(s, d)
    case None => []
    case Some(Token(t, None)) => [t]
    case Some(Token(t, Some(rest))) => [t] + AllTokens(rest, d)
  }

  /** Fields with a bar in front of each. */
  function Barred(ts: seq<string>): string {
    if ts == [] then "" else "|" + ts[0] + Barred(ts[1..])
  }

  predicate IsField(t: string) {
    t != "" && '|' !in t
  }

  lemma BarredStep(ts: seq<string>)
    requires ts != []
    ensures Barred(ts) == "|" + ts[0] + Barred(ts[1..])
  {
  }

  lemma AllTokensStep(t: string, rest: string)
    requires IsField(t)
    ensures AllTokens(t + "|" + rest, '|') == [t] + AllTokens(rest, '|')
    ensures AllTokens(t, '|') == [t]
  {
    hide NextToken;
    assert t + "|" + rest == t + ['|'] + rest;
    InnerTokenOf(t, '|', rest);
    LastTokenOf(t, '|');
  }

  lemma {:induction false} TokensOfBarred(t: string, ts: seq<string>)
    requires IsField(t) && forall x :: x in ts ==> IsField(x)
    ensures AllTokens(t + Barred(ts), '|') == [t] + ts
    decreases |ts|
  {
    hide Barred, AllTokens, IsField;
    if ts == [] {
      assert Barred(ts) == "" by {
        BarredNone();
      }
      assert t + "" == t;
      AllTokensStep(t, "");
    } else {
      var rest := ts[0] + Barred(ts[1..]);
      BarredStep(ts);
      assert t + ("|" + ts[0] + Barred(ts[1..])) == t + "|" + rest;
      AllTokensStep(t, rest);
      TokensOfBarred(ts[0], ts[1..]);
      assert [ts[0]] + ts[1..] == ts;
    }
  }

  lemma BarredNone()
    ensures Barred([]) == ""
  {
  }

  lemma {:induction false} BarredJoin(a: seq<string>, b: seq<string>)
    ensures Barred(a + b) == Barred(a) + Barred(b)
    decreases |a|
  {
    hide Barred;
    if a == [] {
      BarredNone();
      assert a + b == b && "" + Barred(b) == Barred(b);
    } else {
      BarredJoin(a[1..], b);
      assert (a + b)[1..] == a[1..] + b;
      BarredStep(a);
      BarredStep(a + b);
      ThreeTexts("|" + a[0], Barred(a[1..]), Barred(b));
    }
  }

  lemma ThreeTexts(a: string, b: string, c: string)
    ensures (a + b) + c == a + (b + c)
  {
  }

  lemma BarredPair(name: string, value: string)
    ensures Barred([name, value]) == "|" + name + "|" + value
  {
    hide Barred;
    BarredStep([name, value]);
    assert [name, value][1..] == [value];
    BarredStep([value]);
    assert [value][1..] == [];
    BarredNone();
    ThreeTexts("|" + name, "|", value);
    assert "|" + value + "" == "|" + value;
  }

  function AnalogPair(name: string, b: Board, k: nat): seq<string>
    requires ValidBoard(b) && k < 6
  {
    [name, Decimal(Average(b.samples, k))]
  }

  function DigitalPair(name: string, on: bool): seq<string> {
    [name, if on then "1" else "0"]
  }

  lemma AnalogBarred(b: Board)
    requires ValidBoard(b)
    ensures AnalogText(b) == Barred(
      AnalogPair("ebs_line", b, 0) + AnalogPair("ebs_actuator", b, 1) + AnalogPair("pressure_rag", b, 2)
      + AnalogPair("service_tank", b, 3) + AnalogPair("position_rack", b, 4) + AnalogPair("steer_pos", b, 5))
  {
    hide Barred, AnalogPair, AnalogField;
    var p0, p1, p2 := AnalogPair("ebs_line", b, 0), AnalogPair("ebs_actuator", b, 1), AnalogPair("pressure_rag", b, 2);
    var p3, p4, p5 :=
      AnalogPair("service_tank", b, 3), AnalogPair("position_rack", b, 4), AnalogPair("steer_pos", b, 5);
    FieldBarred("ebs_line", b, 0);
    FieldBarred("ebs_actuator", b, 1);
    FieldBarred("pressure_rag", b, 2);
    FieldBarred("service_tank", b, 3);
    FieldBarred("position_rack", b, 4);
    FieldBarred("steer_pos", b, 5);
    BarredJoin(p0, p1);
    BarredJoin(p0 + p1, p2);
    BarredJoin(p0 + p1 + p2, p3);
    BarredJoin(p0 + p1 + p2 + p3, p4);
    BarredJoin(p0 + p1 + p2 + p3 + p4, p5);
  }

  lemma FieldBarred(name: string, b: Board, k: nat)
    requires ValidBoard(b) && k < 6
    ensures Barred(AnalogPair(name, b, k)) == AnalogField(name, b, k)
  {
    BarredPair(name, Decimal(Average(b.samples, k)));
  }

  lemma DigitalBarred(b: Board)
    ensures DigitalText(b) == Barred(
      DigitalPair("asms", b.asms) + DigitalPair("clamped_sensor", b.clamped) + DigitalPair("ebs_ok", b.ebsOk))
  {
    hide Barred;
    var p0, p1, p2 :=
      DigitalPair("asms", b.asms), DigitalPair("clamped_sensor", b.clamped), DigitalPair("ebs_ok", b.ebsOk);
    BarredPair("asms", Flag(b.asms));
    BarredPair("clamped_sensor", Flag(b.clamped));
    BarredPair("ebs_ok", Flag(b.ebsOk));
    BarredJoin(p0, p1);
    BarredJoin(p0 + p1, p2);
  }

  /** The fields behind the first one. */
  function StatusFields(b: Board): seq<string>
    requires ValidBoard(b)
  {
    ["status", "ACK"]
    + (AnalogPair("ebs_line", b, 0) + AnalogPair("ebs_actuator", b, 1) + AnalogPair("pressure_rag", b, 2)
       + AnalogPair("service_tank", b, 3) + AnalogPair("position_rack", b, 4) + AnalogPair("steer_pos", b, 5))
    + (DigitalPair("asms", b.asms) + DigitalPair("clamped_sensor", b.clamped) + DigitalPair("ebs_ok", b.ebsOk))
  }

  lemma StatusBarred(b: Board)
    requires ValidBoard(b)
    ensures StatusText(b) == "get" + Barred(StatusFields(b))
  {
    hide Barred, AnalogPair, DigitalPair, AnalogText, DigitalText;
    var analog := AnalogPair("ebs_line", b, 0) + AnalogPair("ebs_actuator", b, 1) + AnalogPair("pressure_rag", b, 2)
      + AnalogPair("service_tank", b, 3) + AnalogPair("position_rack", b, 4) + AnalogPair("steer_pos", b, 5);
    var digital :=
      DigitalPair("asms", b.asms) + DigitalPair("clamped_sensor", b.clamped) + DigitalPair("ebs_ok", b.ebsOk);
    AnalogBarred(b);
    DigitalBarred(b);
    BarredPair("status", "ACK");
    BarredJoin(["status", "ACK"] + analog, digital);
    BarredJoin(["status", "ACK"], analog);
    StatusJoined(Barred(["status", "ACK"]), Barred(analog), Barred(digital));
  }

  lemma StatusJoined(head: string, analog: string, digital: string)
    requires head == "|" + "status" + "|" + "ACK"
    ensures "get" + (head + analog + digital) == "get|status|ACK" + analog + digital
  {
  }

  lemma AnalogIsFields(name: string, b: Board, k: nat)
    requires ValidBoard(b) && k < 6 && IsField(name)
    ensures forall t :: t in AnalogPair(name, b, k) ==> IsField(t)
  {
    hide Average;
    DigitsClean(Average(b.samples, k), '|');
  }

  lemma DigitalIsFields(name: string, on: bool)
    requires IsField(name)
    ensures forall t :: t in DigitalPair(name, on) ==> IsField(t)
  {
  }

  lemma StatusIsFields(b: Board)
    requires ValidBoard(b)
    ensures forall t :: t in StatusFields(b) ==> IsField(t)
  {
    hide AnalogPair, DigitalPair;
    AnalogIsFields("ebs_line", b, 0);
    AnalogIsFields("ebs_actuator", b, 1);
    AnalogIsFields("pressure_rag", b, 2);
    AnalogIsFields("service_tank", b, 3);
    AnalogIsFields("position_rack", b, 4);
    AnalogIsFields("steer_pos", b, 5);
    DigitalIsFields("asms", b.asms);
    DigitalIsFields("clamped_sensor", b.clamped);
    DigitalIsFields("ebs_ok", b.ebsOk);
  }

  lemma StatusHasNoMark(b: Board)
    requires ValidBoard(b)
    ensures StatusText(b) != "" && ';' !in StatusText(b)
  {
    hide AnalogText, DigitalText;
    AnalogTextHasNoMark(b);
    DigitalTextHasNoMark(b);
  }

  lemma DigitalTextHasNoMark(b: Board)
    ensures ';' !in DigitalText(b)
  {
  }

  lemma AnalogTextHasNoMark(b: Board)
    requires ValidBoard(b)
    ensures ';' !in AnalogText(b)
  {
    hide AnalogField;
    AnalogHasNoMark("ebs_line", b, 0);
    AnalogHasNoMark("ebs_actuator", b, 1);
    AnalogHasNoMark("pressure_rag", b, 2);
    AnalogHasNoMark("service_tank", b, 3);
    AnalogHasNoMark("position_rack", b, 4);
    AnalogHasNoMark("steer_pos", b, 5);
  }

  lemma AnalogHasNoMark(name: string, b: Board, k: nat)
    requires ValidBoard(b) && k < 6 && ';' !in name
    ensures ';' !in AnalogField(name, b, k)
  {
    hide Average;
    DigitsClean(Average(b.samples, k), ';');
  }

  /** The fields in their places. */
  lemma StatusFieldsAt(b: Board)
    requires ValidBoard(b)
    ensures var ts := StatusFields(b);
            && |ts| == 20 && ts[0] == "status" && ts[1] == "ACK"
            && ts[2] == "ebs_line" && ts[3] == Decimal(Average(b.samples, 0))
            && ts[4] == "ebs_actuator" && ts[5] == Decimal(Average(b.samples, 1))
            && ts[6] == "pressure_rag" && ts[7] == Decimal(Average(b.samples, 2))
            && ts[8] == "service_tank" && ts[9] == Decimal(Average(b.samples, 3))
            && ts[10] == "position_rack" && ts[11] == Decimal(Average(b.samples, 4))
            && ts[12] == "steer_pos" && ts[13] == Decimal(Average(b.samples, 5))
            && ts[14] == "asms" && ts[15] == (if b.asms then "1" else "0")
            && ts[16] == "clamped_sensor" && ts[17] == (if b.clamped then "1" else "0")
            && ts[18] == "ebs_ok" && ts[19] == (if b.ebsOk then "1" else "0")
  {
    hide Average, Decimal;
  }

  lemma StatusTokens(b: Board)
    requires ValidBoard(b)
    ensures AllTokens(StatusText(b), '|') == ["get"] + StatusFields(b)
  {
    hide StatusText, StatusFields, AllTokens, Barred;
    StatusBarred(b);
    StatusIsFields(b);
    TokensOfBarred("get", StatusFields(b));
  }

  /** The host takes the frame apart and finds the six averages of four samples each and the three sensor lines. */
  lemma StatusReads(b: Board)
    requires ValidBoard(b)
    ensures Unframe(Frame(StatusText(b))) == Some((Decimal(|StatusText(b)|), StatusText(b)))
    ensures var ts, s := AllTokens(StatusText(b), '|'), b.samples;
            && |ts| == 21 && ts[0] == "get" && ts[1] == "status" && ts[2] == "ACK"
            && ts[3] == "ebs_line" && Atoi(ts[4]) == (s[0] + s[6] + s[12] + s[18]) / 4
            && ts[5] == "ebs_actuator" && Atoi(ts[6]) == (s[1] + s[7] + s[13] + s[19]) / 4
            && ts[7] == "pressure_rag" && Atoi(ts[8]) == (s[2] + s[8] + s[14] + s[20]) / 4
            && ts[9] == "service_tank" && Atoi(ts[10]) == (s[3] + s[9] + s[15] + s[21]) / 4
            && ts[11] == "position_rack" && Atoi(ts[12]) == (s[4] + s[10] + s[16] + s[22]) / 4
            && ts[13] == "steer_pos" && Atoi(ts[14]) == (s[5] + s[11] + s[17] + s[23]) / 4
            && ts[15] == "asms" && ts[16] == (if b.asms then "1" else "0")
            && ts[17] == "clamped_sensor" && ts[18] == (if b.clamped then "1" else "0")
            && ts[19] == "ebs_ok" && ts[20] == (if b.ebsOk then "1" else "0")
  {
    hide StatusText, StatusFields, AllTokens, Decimal, Atoi, Unframe, Frame;
    StatusHasNoMark(b);
    StatusTokens(b);
    FrameRoundTrip(StatusText(b));
    StatusFieldsAt(b);
    forall k: nat | k < 6 ensures Atoi(Decimal(Average(b.samples, k))) == Average(b.samples, k) {
      AtoiOfDecimal(Average(b.samples, k));
    }
  }

  // ---- runs ----

  /** What a round finds: the bytes read, and the samples and sensor lines as they then are. */
  datatype Reading = Reading(text: string, samples: seq<nat>, asms: bool, clamped: bool, ebsOk: bool)

  /** A round reads too little to be decoded or a well-formed request, and samples of 16 bits. */
  predicate Acceptable(r: Reading) {
    && |r.samples| == 24 && (forall x :: x in r.samples ==> x < 0x1_0000)
    && |r.text| < READ_SIZE && (|r.text| > 3 ==> WellFormed(Received(r.text), |r.text|))
  }

  predicate AllAcceptable(rs: seq<Reading>) {
    forall i :: 0 <= i < |rs| ==> Acceptable(rs[i])
  }

  function Sensed(b: Board, r: Reading): Board {
    b.(samples := r.samples, asms := r.asms, clamped := r.clamped, ebsOk := r.ebsOk)
  }

  function AfterReading(b: Board, sent: string, r: Reading, width: (Driver, int) -> int): (Board, string)
    requires ValidBoard(b) && Acceptable(r)
  {
    AfterRound(Sensed(b, r), sent, r.text, width)
  }

  function AfterReadings(b: Board, sent: string, rs: seq<Reading>, width: (Driver, int) -> int): (Board, string)
    requires ValidBoard(b) && AllAcceptable(rs)
    decreases |rs|
  {
    if rs == [] then (b, sent)
    else
      var (b', sent') := AfterReading(b, sent, rs[0], width);
      ReadingKeepsBoard(b, sent, rs[0], width);
      AfterReadings(b', sent', rs[1..], width)
  }

  lemma ReadingKeepsBoard(b: Board, sent: string, r: Reading, width: (Driver, int) -> int)
    requires ValidBoard(b) && Acceptable(r)
    ensures ValidBoard(AfterReading(b, sent, r, width).0)
  {
  }

  /** The thread over a whole run of reads, with the sensors changing in between. */
  method ServeAll(node: Node, rs: seq<Reading>)
    requires node.AtLoopHead() && AllAcceptable(rs)
    modifies node`board, node`sent, node.readBuffer, node.writeBuffer
    ensures node.AtLoopHead()
    ensures (node.board, node.sent) == AfterReadings(old(node.board), old(node.sent), rs, node.width)
  {
    var i := 0;
    while i < |rs|
      invariant 0 <= i <= |rs| && node.AtLoopHead()
      invariant AfterReadings(node.board, node.sent, rs[i..], node.width)
             == AfterReadings(old(node.board), old(node.sent), rs, node.width)
    {
      assert rs[i..][0] == rs[i] && rs[i..][1..] == rs[i + 1..];
      node.Sense(rs[i].samples, rs[i].asms, rs[i].clamped, rs[i].ebsOk);
      node.Round(rs[i].text);
      i := i + 1;
    }
  }

  /** A frame without a NUL is received as it was sent. */
  lemma FrameReceived(p: string)
    requires NUL !in p
    ensures Received(Frame(p)) == Frame(p)
  {
    DigitsClean(|p|, NUL);
    StrEndFacts(Frame(p), 0);
  }

  /** So a round that reads the frame of a well-formed set request answers it as the request says: with its
      fields, and ACK or NACK. */
  lemma RoundAnswersSet(b: Board, sent: string, command: string, sensor: string, value: string,
                        width: (Driver, int) -> int)
    requires ValidBoard(b) && IsSet(command, sensor, value)
    requires |Frame(Payload(command, sensor, value))| < 128
    ensures var request := Frame(Payload(command, sensor, value));
            && |request| > 3 && WellFormed(Received(request), |request|)
            && AfterRound(b, sent, request, width)
               == (Answer(b, command, sensor, value, width).0, sent + Answer(b, command, sensor, value, width).1)
    ensures var echo := command + "|" + sensor + "|" + value + (if Understood(sensor) then "|ACK" else "|NACK");
            AfterRound(b, sent, Frame(Payload(command, sensor, value)), width).1
              == sent + (Decimal(|echo|) + ":" + echo + ";")
  {
    hide EchoText, Serve, Unframe;
    FrameReceived(Payload(command, sensor, value));
    SetIsWellFormed(command, sensor, value);
    SetRequest(b, command, sensor, value, width);
  }

  /** The same for a get request: the board stays, and the status as the sensors then are is sent. */
  lemma RoundAnswersGet(b: Board, sent: string, p: string, width: (Driver, int) -> int)
    requires ValidBoard(b) && p != "" && ';' !in p && NUL !in p && Split(p).Some? && |Frame(p)| < 128
    requires !Contains(Split(p).value.command, "set") && Contains(Split(p).value.command, "get")
    ensures |Frame(p)| > 3 && WellFormed(Received(Frame(p)), |Frame(p)|)
    ensures AfterRound(b, sent, Frame(p), width) == (b, sent + Frame(StatusText(b)))
  {
    FrameReceived(p);
    GetRequest(b, p, width);
  }

  /** And for any other: the answer is an empty frame. */
  lemma RoundAnswersOther(b: Board, sent: string, p: string, width: (Driver, int) -> int)
    requires ValidBoard(b) && p != "" && ';' !in p && NUL !in p && Split(p).Some? && |Frame(p)| < 128
    requires !Contains(Split(p).value.command, "set") && !Contains(Split(p).value.command, "get")
    ensures |Frame(p)| > 3 && WellFormed(Received(Frame(p)), |Frame(p)|)
    ensures AfterRound(b, sent, Frame(p), width) == (b, sent + "0:;")
  {
    FrameReceived(p);
    OtherRequest(b, p, width);
  }

  /** A read of up to three bytes is ignored. */
  lemma ShortReadIgnored(b: Board, sent: string, text: string, width: (Driver, int) -> int)
    requires ValidBoard(b) && |text| <= 3
    ensures AfterRound(b, sent, text, width) == (b, sent)
  {
  }

  /** A request is ignored when the number in front is not below the count of bytes read, as when its end was
      cut off; otherwise its payload is handled. */
  lemma LengthDecides(b: Board, sent: string, n: nat, rest: string, width: (Driver, int) -> int)
    requires ValidBoard(b) && n < 0x8000_0000
    requires var text := Decimal(n) + ":" + rest;
             |text| > 3 && Received(text) == text && WellFormed(text, |text|)
    ensures var text := Decimal(n) + ":" + rest;
            && (n >= |text| ==> AfterRound(b, sent, text, width) == (b, sent))
            && (n < |text| ==>
                  && Unframe(text).Some? && Unframe(text).value.0 == Decimal(n) && Answerable(Unframe(text).value.1)
                  && var (b', answer) := Handle(b, Split(Unframe(text).value.1).value, width);
                  AfterRound(b, sent, text, width) == (b', sent + Frame(answer)))
  {
    hide Split, Handle, Atoi, Contains, Decimal;
    var text := Decimal(n) + ":" + rest;
    DigitsClean(n, ':');
    assert text == Decimal(n) + [':'] + rest;
    InnerTokenOf(Decimal(n), ':', rest);
    AtoiOfDecimal(n);
    assert sent + "" == sent;
  }

  /** The output a read switches, and to which level; most reads switch none. It does not depend on
      the state of the board, nor on its sensors. */
  function Switch(r: Reading, width: (Driver, int) -> int): Option<(Output, int)>
    requires Acceptable(r)
  {
    if |r.text| <= 3 then None
    else
      var length := LengthField(Received(r.text)).value;
      if !PassesLengthTest(length, |r.text|) then None
      else
        var f := Split(Unframe(Received(r.text)).value.1).value;
        if !Contains(f.command, "set") || Target(f.sensor.value).None? then None
        else
          var o := Target(f.sensor.value).value;
          Some((o, Level(o, Atoi(f.value.value), width)))
  }

  /** The level that the last of the reads to switch o left it at. */
  function LastLevel(rs: seq<Reading>, o: Output, width: (Driver, int) -> int): Option<int>
    requires AllAcceptable(rs)
    decreases |rs|
  {
    if rs == [] then None
    else
      var n := |rs| - 1;
      match Switch(rs[n], width)
      case Some((o', level)) => if o' == o then Some(level) else LastLevel(rs[..n], o, width)
      case None => LastLevel(rs[..n], o, width)
  }

  function LevelAt(b: Board, o: Output): Option<int> {
    if o in b.outputs then Some(b.outputs[o]) else None
  }

  lemma ReadingLevel(b: Board, sent: string, r: Reading, width: (Driver, int) -> int, o: Output)
    requires ValidBoard(b) && Acceptable(r)
    ensures LevelAt(AfterReading(b, sent, r, width).0, o) ==
              match Switch(r, width)
              case Some((o', level)) => if o' == o then Some(level) else LevelAt(b, o)
              case None => LevelAt(b, o)
  {
  }

  lemma {:induction false} ReadingsSnoc(b: Board, sent: string, rs: seq<Reading>, last: Reading,
                                          width: (Driver, int) -> int)
    requires ValidBoard(b) && AllAcceptable(rs) && Acceptable(last)
    ensures AllAcceptable(rs + [last])
    ensures var (b', sent') := AfterReadings(b, sent, rs, width);
            ValidBoard(b') && AfterReadings(b, sent, rs + [last], width) == AfterReading(b', sent', last, width)
    decreases |rs|
  {
    hide AfterReading;
    if rs == [] {
      assert rs + [last] == [last] && [last][1..] == [];
      ReadingKeepsBoard(b, sent, last, width);
    } else {
      var (b', sent') := AfterReading(b, sent, rs[0], width);
      ReadingKeepsBoard(b, sent, rs[0], width);
      ReadingsSnoc(b', sent', rs[1..], last, width);
      assert (rs + [last])[1..] == rs[1..] + [last];
    }
  }

  /** After any run, every output is at the level of the last request that switched it, and at its
      initial level if none did, whatever the sensors did in between. */
  lemma {:induction false} LastRequestWins(b: Board, sent: string, rs: seq<Reading>, width: (Driver, int) -> int,
                                               o: Output)
    requires ValidBoard(b) && AllAcceptable(rs)
    ensures var l := LastLevel(rs, o, width);
            LevelAt(AfterReadings(b, sent, rs, width).0, o) == if l.Some? then l else LevelAt(b, o)
    decreases |rs|
  {
    hide Switch, AfterReading, LevelAt;
    if rs != [] {
      var n := |rs| - 1;
      LastRequestWins(b, sent, rs[..n], width, o);
      assert rs == rs[..n] + [rs[n]];
      ReadingsSnoc(b, sent, rs[..n], rs[n], width);
      var (b', sent') := AfterReadings(b, sent, rs[..n], width);
      ReadingLevel(b', sent', rs[n], width, o);
    }
  }
}
