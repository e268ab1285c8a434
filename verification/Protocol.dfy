/** The request-response protocol of the service node, on texts: which tokens a request consists
    of, what it switches, and what is sent back. */
module Protocol {

  import opened Prelude
  import opened CStrings

  /** The outputs a request can set: twelve lines and five PWM channels. */
  datatype Output =
    | HeartBeat | RackRight | RackLeft | ServiceBreak | Redundency | Shutdown | Spare | ClampSet
    | Compressor | EbsRelief | EbsSpeaker | Finished
    | SteerSpeed | BrakePressure | AssiBlue | AssiRed | AssiGreen

  datatype Driver = PWMD3 | PWMD4

  /** A channel of a PWM driver. */
  datatype Pwm = Pwm(driver: Driver, channel: nat)

  const KEYWORDS: nat := 17

  /** The keywords in the order in which the firmware looks for them. */
  function Keyword(k: nat): string
    requires k < KEYWORDS
  {
    match k
    case 0 => "heart_beat"
    case 1 => "rack_right"
    case 2 => "rack_left"
    case 3 => "service_break"
    case 4 => "redundency"
    case 5 => "shutdown"
    case 6 => "spare"
    case 7 => "clamp_set"
    case 8 => "compressor"
    case 9 => "ebs_relief"
    case 10 => "ebs_speaker"
    case 11 => "finished"
    case 12 => "steer_speed"
    case 13 => "brake_pressure"
    case 14 => "assi_blue"
    case 15 => "assi_red"
    case _ => "assi_green"
  }

  /** The output a keyword stands for. */
  function Switched(k: nat): Output
    requires k < KEYWORDS
  {
    match k
    case 0 => HeartBeat
    case 1 => RackRight
    case 2 => RackLeft
    case 3 => ServiceBreak
    case 4 => Redundency
    case 5 => Shutdown
    case 6 => Spare
    case 7 => ClampSet
    case 8 => Compressor
    case 9 => EbsRelief
    case 10 => EbsSpeaker
    case 11 => Finished
    case 12 => SteerSpeed
    case 13 => BrakePressure
    case 14 => AssiBlue
    case 15 => AssiRed
    case _ => AssiGreen
  }

  /** The PWM channel behind an output, if it is not a plain line. */
  function PwmOf(o: Output): Option<Pwm> {
    match o
    case SteerSpeed => Some(Pwm(PWMD3, 2))
    case BrakePressure => Some(Pwm(PWMD3, 3))
    case AssiBlue => Some(Pwm(PWMD4, 1))
    case AssiRed => Some(Pwm(PWMD3, 1))
    case AssiGreen => Some(Pwm(PWMD4, 0))
    case _ => None
  }

  /** The output on a PWM channel. */
  function OutputOn(p: Pwm): Option<Output> {
    match p.driver
    case PWMD3 =>
      if p.channel == 1 then Some(AssiRed)
      else if p.channel == 2 then Some(SteerSpeed)
      else if p.channel == 3 then Some(BrakePressure)
      else None
    case PWMD4 =>
      if p.channel == 0 then Some(AssiGreen) else if p.channel == 1 then Some(AssiBlue) else None
  }

  /** No two outputs share a channel. */
  lemma ChannelsApart(o: Output, p: Pwm)
    ensures PwmOf(o) == Some(p) <==> OutputOn(p) == Some(o)
  {
  }

  /** What is written to an output for a requested value: a level, or a pulse width. */
  function Level(o: Output, v: int, width: (Driver, int) -> int): int {
    match PwmOf(o)
    case None => if v == 0 then 0 else 1
    case Some(p) => width(p.driver, v)
  }

  /** The first keyword from k on that occurs in the sensor text; all of them are passed if none does. */
  function FirstKeyword(sensor: string, k: nat): (f: nat)
    requires k <= KEYWORDS
    ensures k <= f <= KEYWORDS
    ensures forall j :: k <= j < f ==> !Contains(sensor, Keyword(j))
    ensures f < KEYWORDS ==> Contains(sensor, Keyword(f))
    decreases KEYWORDS - k
  {
    if k == KEYWORDS || Contains(sensor, Keyword(k)) then k else FirstKeyword(sensor, k + 1)
  }

  /** Everything the firmware reads and drives besides the serial port. */
  datatype Board = Board(outputs: map<Output, int>, samples: seq<nat>, asms: bool, clamped: bool, ebsOk: bool)

  predicate ValidBoard(b: Board) {
    |b.samples| == 24 && forall x :: x in b.samples ==> x < 0x1_0000
  }

  function Average(s: seq<nat>, k: nat): nat
    requires |s| == 24 && k < 6
  {
    (s[k] + s[k + 6] + s[k + 12] + s[k + 18]) / 4
  }

  function Flag(b: bool): string {
    if b then "1" else "0"
  }

  function AnalogField(name: string, b: Board, k: nat): string
    requires ValidBoard(b) && k < 6
  {
    "|" + name + "|" + Decimal(Average(b.samples, k))
  }

  function DigitalField(name: string, on: bool): string {
    "|" + name + "|" + Flag(on)
  }

  function AnalogText(b: Board): string
    requires ValidBoard(b)
  {
    AnalogField("ebs_line", b, 0) + AnalogField("ebs_actuator", b, 1) + AnalogField("pressure_rag", b, 2)
    + AnalogField("service_tank", b, 3) + AnalogField("position_rack", b, 4) + AnalogField("steer_pos", b, 5)
  }

  function DigitalText(b: Board): string {
    DigitalField("asms", b.asms) + DigitalField("clamped_sensor", b.clamped) + DigitalField("ebs_ok", b.ebsOk)
  }

  /** The payload of an answer to a status request. */
  function StatusText(b: Board): string
    requires ValidBoard(b)
  {
    "get|status|ACK" + AnalogText(b) + DigitalText(b)
  }

  /** The payload of an answer to a set request. */
  function EchoText(command: string, sensor: string, value: string, ack: bool): string {
    command + "|" + sensor + "|" + value + "|" + (if ack then "ACK" else "NACK")
  }

  /** A payload with its length in front and the end mark behind. */
  function Frame(payload: string): string {
    Decimal(|payload|) + ":" + payload + ";"
  }

  /** The three fields of a payload; later ones may be missing. */
  datatype Fields = Fields(command: string, sensor: Option<string>, value: Option<string>)

  /** Three calls of strtok_r with the field delimiter. */
  function Split(payload: string): Option<Fields> {
    match NextToken(payload, '|')
    case None => None
    case Some(Token(command, rest)) =>
      match NextOf(rest, '|')
      case None => Some(Fields(command, None, None))
      case Some(Token(sensor, rest')) =>
        match NextOf(rest', '|')
        case None => Some(Fields(command, Some(sensor), None))
        case Some(Token(value, _)) => Some(Fields(command, Some(sensor), Some(value)))
  }

  function NextOf(s: Option<string>, d: char): Option<Token> {
    if s.None? then None else NextToken(s.value, d)
  }

  /** The length field and the payload of a request. */
  function Unframe(text: string): Option<(string, string)> {
    match NextToken(text, ':')
    case None => None
    case Some(Token(length, rest)) =>
      match NextOf(rest, ';')
      case None => None
      case Some(Token(payload, _)) => Some((length, payload))
  }

  /** The number fits a C int, as atoi demands. */
  predicate FitsInt(n: int) {
    -0x8000_0000 <= n < 0x8000_0000
  }

  /** The request has every field that handling it dereferences. */
  predicate Complete(f: Fields) {
    Contains(f.command, "set") ==> f.sensor.Some? && f.value.Some? && FitsInt(Atoi(f.value.value))
  }

  predicate Answerable(payload: string) {
    Split(payload).Some? && Complete(Split(payload).value)
  }

  /** The first token of a request, which is read as its length. */
  function LengthField(text: string): Option<string> {
    match NextToken(text, ':')
    case None => None
    case Some(Token(length, _)) => Some(length)
  }

  /** There is a length, and a payload that can be answered if the length passes its test. */
  predicate WellFormed(text: string, size: nat) {
    match LengthField(text)
    case None => false
    case Some(length) =>
      && FitsInt(Atoi(length))
      && (PassesLengthTest(length, size) ==> Unframe(text).Some? && Answerable(Unframe(text).value.1))
  }

  predicate PassesLengthTest(length: string, size: nat) {
    Atoi(length) != -1 && Atoi(length) < size
  }

  /** The board after a set request and whether the request was understood. */
  function SetOutput(b: Board, sensor: string, value: string, width: (Driver, int) -> int): (Board, bool) {
    var f := FirstKeyword(sensor, 0);
    if f == KEYWORDS then (b, false)
    else (b.(outputs := b.outputs[Switched(f) := Level(Switched(f), Atoi(value), width)]), true)
  }

  /** The board after a request was handled, and the payload of the answer. */
  function Handle(b: Board, f: Fields, width: (Driver, int) -> int): (Board, string)
    requires ValidBoard(b) && Complete(f)
  {
    if Contains(f.command, "set") then
      var (b', ack) := SetOutput(b, f.sensor.value, f.value.value, width);
      (b', EchoText(f.command, f.sensor.value, f.value.value, ack))
    else if Contains(f.command, "get") then (b, StatusText(b))
    else (b, "")
  }

  /** The board after a request of `size` bytes, and the bytes sent back. */
  function Serve(b: Board, text: string, size: nat, width: (Driver, int) -> int): (Board, string)
    requires ValidBoard(b) && WellFormed(text, size)
  {
    if PassesLengthTest(LengthField(text).value, size) then
      var (b', answer) := Handle(b, Split(Unframe(text).value.1).value, width);
      (b', Frame(answer))
    else (b, "")
  }
}
