/** The memory tester: generators, the fill and compare loops, and the six tests. */
module MemTest {

  import opened Prelude
  import opened Generators
  import opened FaultyMemory

  /** The arguments of the error callback; the two values are 32-bit numbers, whatever the width. */
  datatype Report = Report(testType: TestType, index: nat, width: nat, got: nat, wanted: nat)

  /** A value as the callback gets it. */
  function Shown(v: nat): nat {
    v % 0x1_0000_0000
  }

  /** What one pass reports: its first bad element, if someone listens. */
  function Outcome(s: Setup, seed: nat, n: nat, listening: bool): seq<Report>
    requires SetupOk(s, seed, n)
  {
    var i := FirstBad(s, seed, n, 0);
    if listening && i < n then
      [Report(TypeAt(s.kind, s.r, s.w, seed, i), i, s.w / 8, Shown(Got(s, seed, n, i)), Shown(Expected(s, seed, i)))]
    else []
  }

  /** One pass reports at most once, and exactly when some element is bad. */
  lemma OutcomeExact(s: Setup, seed: nat, n: nat, listening: bool)
    requires SetupOk(s, seed, n)
    ensures Outcome(s, seed, n, listening) == [] <==> !listening || forall i :: 0 <= i < n ==> !Bad(s, seed, n, i)
    ensures forall p :: p in Outcome(s, seed, n, listening) ==>
      && p.index < n && Bad(s, seed, n, p.index) && 8 * p.width <= s.w < 8 * p.width + 8
      && p.got == Shown(Got(s, seed, n, p.index)) && p.wanted == Shown(Expected(s, seed, p.index))
      && forall k :: 0 <= k < p.index ==> !Bad(s, seed, n, k)
  {
    Silent(s, seed, n);
    var i := FirstBad(s, seed, n, 0);
    if i < n {
      FirstBadExact(s, seed, n, i);
    }
  }

  /** A report shows two different values exactly when they differ in one of the low 32 bits. */
  lemma ShownExact(s: Setup, seed: nat, n: nat, p: Report)
    requires SetupOk(s, seed, n) && p in Outcome(s, seed, n, true)
    ensures p.index < n
    ensures p.got != p.wanted <==> !AgreeBelow(Got(s, seed, n, p.index), Expected(s, seed, p.index), 32)
  {
    hide Outcome, Got, Expected, AgreeBelow;
    OutcomeExact(s, seed, n, true);
    Two32();
    LowBits(Got(s, seed, n, p.index), Expected(s, seed, p.index), 32);
  }

  /** A report of a lone stuck bit shows two different values exactly when the bit is one of the low 32. */
  lemma LoneFaultShown(s: Setup, seed: nat, n: nat, i: nat, b: nat, value: bool, p: Report)
    requires SetupOk(s, seed, n) && LoneFault(s, n, i, b, value) && p in Outcome(s, seed, n, true)
    ensures p.index == i && (p.got != p.wanted <==> b < 32)
  {
    hide AgreeBelow;
    LoneFaultIsOnlyStuck(s, n, i, b, value);
    OnlyStuckExact(s, seed, n, i, b, value);
    ShownExact(s, seed, n, p);
    Unaliased(s.cellOf, n, i);
    ForcedAgrees(Got(s, seed, n, i), Expected(s, seed, i), s.w, b, value);
  }

  /** A forced bit that changes the number is the only place where it changes it. */
  lemma ForcedAgrees(x: nat, v: nat, w: nat, b: nat, value: bool)
    requires b < w && v < Pow2(w) && Forced(x, v, w, b, value) && BitOf(v, b) != value
    ensures AgreeBelow(x, v, 32) <==> b >= 32
  {
    assert BitOf(x, b) != BitOf(v, b);
    forall c: nat | c < 32 && c != b ensures BitOf(x, c) == BitOf(v, c) {
      if c >= w {
        HighBits(x, w, c);
        HighBits(v, w, c);
      }
    }
  }

  lemma {:induction false} HighBits(x: nat, w: nat, c: nat)
    requires x < Pow2(w) && w <= c
    ensures !BitOf(x, c)
    decreases c
  {
    if w == 0 {
      ZeroBits(c);
    } else {
      HighBits(x / 2, w - 1, c - 1);
    }
  }

  /** So up to 32 bits, where reads fit the width, a report always shows two different values. */
  lemma ShownApart(s: Setup, seed: nat, n: nat, p: Report)
    requires SetupOk(s, seed, n) && s.w <= 32 && forall i, v :: 0 <= i < n && 0 <= v ==> s.distort(i, v) < Pow2(s.w)
    requires p in Outcome(s, seed, n, true)
    ensures p.got != p.wanted
  {
    hide Outcome, Value;
    OutcomeExact(s, seed, n, true);
    if s.w < 32 {
      Pow2Less(s.w, 32);
    }
    Two32();
    SmallMod(Got(s, seed, n, p.index), 0x1_0000_0000);
    SmallMod(Expected(s, seed, p.index), 0x1_0000_0000);
  }

  /** One element of 64 bits that reads a zero with bit 32 at one. */
  function HighBitStuck(r: Random): Setup {
    Setup(MovingInv, r, 64, [0], (i, v) => if v == 0 then 0x1_0000_0000 else v)
  }

  lemma HighBitRead(r: Random)
    ensures SetupOk(HighBitStuck(r), 0, 1)
    ensures Expected(HighBitStuck(r), 0, 0) == 0 && Got(HighBitStuck(r), 0, 1, 0) == 0x1_0000_0000
  {
    MovingForm(r, 64, Start(MovingInv, r, 64, 0), 0);
    Unaliased([0], 1, 0);
  }

  /** With 64 bits it may not: that element is reported as zero instead of zero. */
  lemma ShownAlike(r: Random)
    ensures SetupOk(HighBitStuck(r), 0, 1)
    ensures Outcome(HighBitStuck(r), 0, 1, true) == [Report(TypeMovingInversionZero, 0, 8, 0, 0)]
  {
    hide Got, Expected, TypeAt, FirstBad;
    HighBitRead(r);
    FirstBadExact(HighBitStuck(r), 0, 1, 0);
    MovingTypes(r, 8, 0);
  }

  /** After init(seed) a used generator makes what a fresh one makes. */
  lemma ResetReplays(kind: Kind, r: Random, w: nat, seed: nat, used: GenState, i: nat)
    requires Fits(w, used) && seed < Pow2(w)
    ensures Pattern(kind, r, w, Init(kind, r, seed, used), i) == Value(kind, r, w, seed, i)
    ensures TypeOf(kind, After(kind, r, w, Init(kind, r, seed, used), i + 1).pattern) == TypeAt(kind, r, w, seed, i)
  {
    InitForgets(kind, r, seed, GenState(0, 0, 0, 0), used);
    Replay(kind, r, w, Start(kind, r, w, seed), Init(kind, r, seed, used), i);
    Replay(kind, r, w, Start(kind, r, w, seed), Init(kind, r, seed, used), i + 1);
  }

  /** The two passes of a moving inversion: the seed, then its complement. */
  function BothPasses(s: Setup, seed: nat, n: nat, listening: bool): seq<Report>
    requires SetupOk(s, seed, n)
  {
    Outcome(s, seed, n, listening) + Outcome(s, Complement(seed, s.w), n, listening)
  }

  /** The cells after both passes. */
  function FilledTwice(s: Setup, seed: nat, n: nat, cells: seq<nat>): (filled: seq<nat>)
    requires SetupOk(s, seed, n)
    requires forall i :: 0 <= i < n ==> s.cellOf[i] < |cells|
  {
    Filled(s, Complement(seed, s.w), n, Filled(s, seed, n, cells))
  }

  /** With someone listening, the zero and the 55AA test report every stuck bit, and under their own type. */
  lemma BothPassesDetect(s: Setup, n: nat, i: nat, b: nat, value: bool)
    requires s.kind == MovingInv && s.w >= 8 && s.w % 8 == 0 && i < n <= |s.cellOf| && Stuck(s, i, b, value)
    ensures Fives(s.w / 8) < Pow2(s.w)
    ensures exists p :: p in BothPasses(s, 0, n, true) && p.index <= i
    ensures exists p :: p in BothPasses(s, Fives(s.w / 8), n, true) && p.index <= i
    ensures forall p :: p in BothPasses(s, 0, n, true) ==> p.testType == TypeMovingInversionZero
    ensures forall p :: p in BothPasses(s, Fives(s.w / 8), n, true) ==> p.testType == TypeMovingInversion55AA
  {
    assert 8 * (s.w / 8) == s.w;
    OnePassDetects(s, 0, n, i, b, value, TypeMovingInversionZero);
    OnePassDetects(s, Fives(s.w / 8), n, i, b, value, TypeMovingInversion55AA);
  }

  lemma OnePassDetects(s: Setup, seed: nat, n: nat, i: nat, b: nat, value: bool, t: TestType)
    requires s.kind == MovingInv && s.w >= 8 && s.w % 8 == 0 && i < n && SetupOk(s, seed, n) && Stuck(s, i, b, value)
    requires (seed == 0 && t == TypeMovingInversionZero) || (seed == Fives(s.w / 8) && t == TypeMovingInversion55AA)
    ensures exists p :: p in BothPasses(s, seed, n, true) && p.index <= i
    ensures forall p :: p in BothPasses(s, seed, n, true) ==> p.testType == t
  {
    hide FirstBad, TypeAt, Fives, Got, Expected;
    assert 8 * (s.w / 8) == s.w;
    MovingInversionDetects(s, seed, n, i, b, value);
    var f, f' := FirstBad(s, seed, n, 0), FirstBad(s, Complement(seed, s.w), n, 0);
    MovingTypes(s.r, s.w / 8, f);
    MovingTypes(s.r, s.w / 8, f');
    if f <= i {
      assert Outcome(s, seed, n, true)[0] in BothPasses(s, seed, n, true);
    } else {
      assert Outcome(s, Complement(seed, s.w), n, true)[0] in BothPasses(s, seed, n, true);
    }
  }

  class Generator {
    const kind: Kind
    const r: Random
    const w: nat
    var pattern: nat
    var step: nat
    var prev: nat
    var rng: nat

    predicate Valid()
      reads this
    {
      Fits(w, State())
    }

    function State(): GenState
      reads this
    {
      GenState(pattern, step, prev, rng)
    }

    constructor (kind: Kind, r: Random, w: nat)
      requires w >= 8
      ensures Valid() && this.kind == kind && this.r == r && this.w == w
    {
      this.kind, this.r, this.w := kind, r, w;
      pattern, step, prev := 0, 0, 0;
    }

    /** init(seed) */
    method Reset(seed: nat)
      requires Valid() && seed < Pow2(w)
      modifies this
      ensures Valid() && State() == Init(kind, r, seed, old(State()))
    {
      if kind == MovingInvRand {
        rng := r.start(seed);
        step := 0;
        prev := 0;
      } else {
        pattern := seed;
      }
    }

    /** pattern <<= 1, starting again from 1 */
    method Shift()
      requires Valid()
      modifies this`pattern
      ensures Valid() && pattern == Doubled(old(pattern), w)
    {
      pattern := pattern * 2 % Pow2(w);
      if pattern == 0 {
        pattern := 1;
        assert Pow2(w) == 2 * Pow2(w - 1);
      }
    }

    /** rand(), and again for an element of 64 bits. */
    method DrawElement() returns (ret: nat)
      modifies this`rng
      ensures (ret, rng) == Draw(r, old(rng), w)
    {
      rng := r.next(rng);
      ret := Rand(r, rng);
      if w == 64 {
        ret := ret * 0x1_0000_0000;
        rng := r.next(rng);
        ret := ret + Rand(r, rng);
      }
      ret := ret % Pow2(w);
    }

    method Next() returns (ret: nat)
      requires Valid()
      modifies this
      ensures Valid() && (ret, State()) == Get(kind, r, w, old(State()))
    {
      hide Draw, Doubled, Pow2;
      GetFits(kind, r, w, State());
      match kind {
        case WalkingOne =>
          ret := pattern;
          Shift();
        case WalkingZero =>
          ret := Complement(pattern, w);
          Shift();
        case OwnAddress =>
          ret := pattern;
          pattern := (pattern + 1) % Pow2(w);
        case MovingInv =>
          ret := pattern;
          pattern := Complement(pattern, w);
        case MovingInvRand =>
          if step % 2 == 0 {
            ret := DrawElement();
            prev := ret;
          } else {
            ret := Complement(prev, w);
          }
          step := step + 1;
      }
    }
  }

  /** The area under test, with its faults. */
  class Memory {
    const cellOf: seq<nat>
    const distort: (nat, nat) -> nat
    const cells: array<nat>

    constructor (cellOf: seq<nat>, distort: (nat, nat) -> nat, cells: array<nat>)
      ensures this.cellOf == cellOf && this.distort == distort && this.cells == cells
    {
      this.cellOf, this.distort, this.cells := cellOf, distort, cells;
    }

    ghost predicate Holds(n: nat) {
      n <= |cellOf| && forall i :: 0 <= i < n ==> cellOf[i] < cells.Length
    }

    method Write(i: nat, v: nat)
      requires Holds(i + 1)
      modifies cells
      ensures cells[..] == old(cells[..])[cellOf[i] := v]
    {
      cells[cellOf[i]] := v;
    }

    method Read(i: nat) returns (v: nat)
      requires Holds(i + 1)
      ensures v == distort(i, cells[cellOf[i]])
    {
      v := distort(i, cells[cellOf[i]]);
    }
  }

  class Tester {
    const mem: Memory
    const size: nat
    const listening: bool
    const r: Random
    var reports: seq<Report>
    var prngSeed: nat

    constructor (mem: Memory, size: nat, listening: bool, r: Random)
      ensures this.mem == mem && this.size == size && this.listening == listening && this.r == r
      ensures reports == [] && prngSeed == 42
    {
      this.mem, this.size, this.listening, this.r := mem, size, listening, r;
      reports := [];
      prngSeed := 42;
    }

    /** How many elements of w bits the area has. */
    function Steps(w: nat): nat
      requires w >= 8
    {
      size / (w / 8)
    }

    /** Element i of w bits lies inside the area. */
    predicate InArea(w: nat, i: nat) {
      (i + 1) * (w / 8) <= size
    }

    /** The passes go over the elements that lie wholly inside the area, and no others. */
    lemma StepsExact(w: nat, i: nat)
      requires w >= 8
      ensures Steps(w) * (w / 8) <= size < (Steps(w) + 1) * (w / 8)
      ensures i < Steps(w) <==> InArea(w, i)
    {
      DivMod(size, w / 8);
      if i < Steps(w) {
        ScaleUp(i + 1, Steps(w), w / 8);
      } else {
        ScaleUp(Steps(w) + 1, i + 1, w / 8);
      }
    }

    ghost predicate Ready(w: nat) {
      w >= 8 && mem.Holds(Steps(w))
    }

    function Made(kind: Kind, w: nat): Setup {
      Setup(kind, r, w, mem.cellOf, mem.distort)
    }

    // ---- what the tests report about an area of `size` bytes ----

    /** Some report of these has this type, and an index up to i. */
    ghost predicate ReportedBy(ps: seq<Report>, t: TestType, i: nat) {
      exists p :: p in ps && p.testType == t && p.index <= i
    }

    /** Every stuck bit of an element in the area is reported under type t. */
    ghost predicate TellsStuck(w: nat, ps: seq<Report>, t: TestType) {
      forall i: nat, b: nat, value ::
        InArea(w, i) && Stuck(Made(MovingInv, w), i, b, value) ==> ReportedBy(ps, t, i)
    }

    /** A stuck bit anywhere in the area is reported by the zero test and by the 55AA test. */
    lemma StuckIsReported(w: nat)
      requires Ready(w) && w % 8 == 0 && listening
      ensures Fives(w / 8) < Pow2(w)
      ensures TellsStuck(w, BothPasses(Made(MovingInv, w), 0, Steps(w), listening), TypeMovingInversionZero)
      ensures TellsStuck(w, BothPasses(Made(MovingInv, w), Fives(w / 8), Steps(w), listening), TypeMovingInversion55AA)
    {
      hide BothPasses, Stuck, InArea;
      assert 8 * (w / 8) == w;
      forall i: nat, b: nat, value | InArea(w, i) && Stuck(Made(MovingInv, w), i, b, value)
        ensures ReportedBy(BothPasses(Made(MovingInv, w), 0, Steps(w), listening), TypeMovingInversionZero, i)
        ensures ReportedBy(BothPasses(Made(MovingInv, w), Fives(w / 8), Steps(w), listening),
                           TypeMovingInversion55AA, i)
      {
        StepsExact(w, i);
        BothPassesDetect(Made(MovingInv, w), Steps(w), i, b, value);
      }
    }

    /** All elements in the area read as what their cells hold. */
    ghost predicate ReadsTrue(w: nat) {
      forall i: nat, v: nat :: InArea(w, i) && v < Pow2(w) ==> mem.distort(i, v) == v
    }

    /** A later element in the area has the cell of element i. */
    ghost predicate LaterTwin(w: nat, i: nat) {
      exists j: nat :: InArea(w, j) && i < j < |mem.cellOf| && mem.cellOf[j] == mem.cellOf[i]
    }

    lemma TwinIsAlias(w: nat, i: nat)
      requires Ready(w) && i < Steps(w)
      ensures LaterTwin(w, i) <==> HasLaterAlias(mem.cellOf, Steps(w), i)
    {
      hide InArea;
      if LaterTwin(w, i) {
        var j: nat :| InArea(w, j) && i < j < |mem.cellOf| && mem.cellOf[j] == mem.cellOf[i];
        StepsExact(w, j);
      }
      if HasLaterAlias(mem.cellOf, Steps(w), i) {
        var j: nat :| i < j < Steps(w) && mem.cellOf[i] == mem.cellOf[j];
        StepsExact(w, j);
      }
    }

    /** On an area of at most 2^w elements that read as stored, the own-address test reports exactly when two
        elements in the area share a cell, and then at the smallest index with a later twin. */
    lemma OwnAddressReports(w: nat)
      requires Ready(w) && listening && ReadsTrue(w) && !InArea(w, Pow2(w))
      ensures var ps := Outcome(Made(OwnAddress, w), 0, Steps(w), listening);
              && (ps == [] <==> forall i: nat :: InArea(w, i) ==> !LaterTwin(w, i))
              && (forall p :: p in ps ==>
                    && p.testType == TypeOwnAddress && InArea(w, p.index) && LaterTwin(w, p.index)
                    && forall k: nat :: k < p.index ==> !LaterTwin(w, k))
    {
      hide InArea, LaterTwin, Bad, HasLaterAlias, Outcome;
      var s, n := Made(OwnAddress, w), Steps(w);
      StepsExact(w, Pow2(w));
      AllTrue(w);
      forall i: nat
        ensures InArea(w, i) <==> i < n
        ensures i < n ==> (Bad(s, 0, n, i) <==> LaterTwin(w, i))
      {
        StepsExact(w, i);
        if i < n {
          OwnAddressNarrow(s, n, i);
          TwinIsAlias(w, i);
        }
      }
      OutcomeExact(s, 0, n, listening);
      TypesNamed(s, 0, n);
    }

    lemma AllTrue(w: nat)
      requires Ready(w) && ReadsTrue(w)
      ensures Undistorted(Made(OwnAddress, w), Steps(w))
    {
      hide InArea;
      forall i: nat, v: nat | i < Steps(w) && v < Pow2(w) ensures mem.distort(i, v) == v {
        StepsExact(w, i);
      }
    }

    /** Every test but the moving inversions, whose type follows the seed, reports under its own type. */
    lemma TypesNamed(s: Setup, seed: nat, n: nat)
      requires SetupOk(s, seed, n)
      ensures forall p :: p in Outcome(s, seed, n, listening) ==>
        match s.kind
        case WalkingOne => p.testType == TypeWalkingOne
        case WalkingZero => p.testType == TypeWalkingZero
        case OwnAddress => p.testType == TypeOwnAddress
        case MovingInvRand => p.testType == TypeMovingInversionRand
        case MovingInv => p.testType in {TypeMovingInversionZero, TypeMovingInversion55AA}
    {
      hide FirstBad, After, Got, Expected;
    }

    /** A lone stuck bit in the area is reported by a walking test, at its own index, exactly when it is the walking
        bit of its element and stuck at the background value, or another bit and stuck at the walking one. */
    lemma WalkingReports(kind: Kind, w: nat, i: nat, b: nat, value: bool)
      requires (kind == WalkingOne || kind == WalkingZero) && Ready(w) && listening && InArea(w, i)
      requires OnlyStuck(Made(kind, w), Steps(w), i, b, value) && 1 < Pow2(w)
      ensures var ps := Outcome(Made(kind, w), 1, Steps(w), listening);
              && (ps != [] <==> (b == i % w) != (value == (kind == WalkingOne)))
              && (forall p :: p in ps ==>
                    && p.index == i
                    && p.testType == if kind == WalkingOne then TypeWalkingOne else TypeWalkingZero)
    {
      hide FirstBad, After, Got, Expected, OnlyStuck;
      StepsExact(w, i);
      WalkingDetects(Made(kind, w), Steps(w), i, b, value);
    }

    // ---- the passes ----

    /** One fill, and a comparison that stops at the first mismatch somebody listens to. */
    method Sequential(generator: Generator, seed: nat)
      requires generator.Valid() && generator.r == r && Ready(generator.w) && seed < Pow2(generator.w)
      modifies this`reports, generator, mem.cells
      ensures generator.Valid()
      ensures reports == old(reports) + Outcome(Made(generator.kind, generator.w), seed, Steps(generator.w), listening)
      ensures mem.cells[..] == Filled(Made(generator.kind, generator.w), seed, Steps(generator.w), old(mem.cells[..]))
    {
      Fill(generator, seed, Steps(generator.w));
      Compare(generator, seed, Steps(generator.w), old(mem.cells[..]));
    }

    /** fill ram */
    method Fill(generator: Generator, seed: nat, steps: nat)
      requires generator.Valid() && generator.r == r && mem.Holds(steps) && seed < Pow2(generator.w)
      modifies generator, mem.cells
      ensures generator.Valid()
      ensures mem.cells[..] == Filled(Made(generator.kind, generator.w), seed, steps, old(mem.cells[..]))
    {
      ghost var s := Made(generator.kind, generator.w);
      generator.Reset(seed);
      for i := 0 to steps
        invariant generator.Valid()
        invariant generator.State()
          == After(generator.kind, r, generator.w, Init(generator.kind, r, seed, old(generator.State())), i)
        invariant mem.cells[..] == Filled(s, seed, i, old(mem.cells[..]))
      {
        ResetReplays(generator.kind, r, generator.w, seed, old(generator.State()), i);
        var v := generator.Next();
        mem.Write(i, v);
      }
    }

    /** read back and compare */
    method Compare(generator: Generator, seed: nat, steps: nat, ghost before: seq<nat>)
      requires generator.Valid() && generator.r == r && mem.Holds(steps) && seed < Pow2(generator.w)
      requires |before| == mem.cells.Length
      requires mem.cells[..] == Filled(Made(generator.kind, generator.w), seed, steps, before)
      modifies this`reports, generator
      ensures generator.Valid()
      ensures reports == old(reports) + Outcome(Made(generator.kind, generator.w), seed, steps, listening)
    {
      hide Filled, Init;
      ghost var s := Made(generator.kind, generator.w);
      generator.Reset(seed);
      var i := 0;
      while i < steps
        invariant i <= steps && generator.Valid()
        invariant generator.State()
          == After(generator.kind, r, generator.w, Init(generator.kind, r, seed, old(generator.State())), i)
        invariant reports == old(reports)
        invariant !listening || FirstBad(s, seed, steps, 0) == FirstBad(s, seed, steps, i)
      {
        var got := mem.Read(i);
        FilledAt(s, seed, steps, before, i);
        ResetReplays(generator.kind, r, generator.w, seed, old(generator.State()), i);
        var wanted := generator.Next();
        if got != wanted && listening {
          Notify(generator, i, got, wanted);
          return;
        }
        i := i + 1;
      }
    }

    /** errcb(testp, get_type(), i, sizeof(T), got, expect) */
    method Notify(generator: Generator, i: nat, got: nat, wanted: nat)
      modifies this`reports
      ensures reports == old(reports)
        + [Report(TypeOf(generator.kind, generator.pattern), i, generator.w / 8, Shown(got), Shown(wanted))]
    {
      var p := Report(TypeOf(generator.kind, generator.pattern), i, generator.w / 8, Shown(got), Shown(wanted));
      reports := reports + [p];
    }

    method WalkingOneTest(w: nat)
      requires Ready(w)
      modifies this`reports, mem.cells
      ensures reports == old(reports) + Outcome(Made(WalkingOne, w), 1, Steps(w), listening)
      ensures mem.cells[..] == Filled(Made(WalkingOne, w), 1, Steps(w), old(mem.cells[..]))
    {
      var generator := new Generator(WalkingOne, r, w);
      Powers(w);
      Sequential(generator, 1);
    }

    method WalkingZeroTest(w: nat)
      requires Ready(w)
      modifies this`reports, mem.cells
      ensures reports == old(reports) + Outcome(Made(WalkingZero, w), 1, Steps(w), listening)
      ensures mem.cells[..] == Filled(Made(WalkingZero, w), 1, Steps(w), old(mem.cells[..]))
    {
      var generator := new Generator(WalkingZero, r, w);
      Powers(w);
      Sequential(generator, 1);
    }

    method OwnAddressTest(w: nat)
      requires Ready(w)
      modifies this`reports, mem.cells
      ensures reports == old(reports) + Outcome(Made(OwnAddress, w), 0, Steps(w), listening)
      ensures listening && ReadsTrue(w) && !InArea(w, Pow2(w)) ==>
        (reports != old(reports) <==> exists i: nat :: InArea(w, i) && LaterTwin(w, i))
      ensures mem.cells[..] == Filled(Made(OwnAddress, w), 0, Steps(w), old(mem.cells[..]))
    {
      hide Outcome, Filled, LaterTwin, InArea, ReadsTrue;
      var generator := new Generator(OwnAddress, r, w);
      Sequential(generator, 0);
      if listening && ReadsTrue(w) && !InArea(w, Pow2(w)) {
        OwnAddressReports(w);
      }
    }

    method MovingInversionZeroTest(w: nat)
      requires Ready(w)
      modifies this`reports, mem.cells
      ensures reports == old(reports) + BothPasses(Made(MovingInv, w), 0, Steps(w), listening)
      ensures listening && w % 8 == 0 ==> TellsStuck(w, reports[|old(reports)|..], TypeMovingInversionZero)
      ensures mem.cells[..] == FilledTwice(Made(MovingInv, w), 0, Steps(w), old(mem.cells[..]))
    {
      var generator := new Generator(MovingInv, r, w);
      var seed := 0;
      Sequential(generator, seed);
      seed := Complement(seed, w);
      Sequential(generator, seed);
      Behind(old(reports), BothPasses(Made(MovingInv, w), 0, Steps(w), listening));
      if listening && w % 8 == 0 {
        StuckIsReported(w);
      }
    }

    lemma Behind(a: seq<Report>, b: seq<Report>)
      ensures (a + b)[|a|..] == b
    {
    }

    method MovingInversion55AATest(w: nat)
      requires Ready(w) && w % 8 == 0
      modifies this`reports, mem.cells
      ensures reports == old(reports) + BothPasses(Made(MovingInv, w), Fives(w / 8), Steps(w), listening)
      ensures listening ==> TellsStuck(w, reports[|old(reports)|..], TypeMovingInversion55AA)
      ensures mem.cells[..] == FilledTwice(Made(MovingInv, w), Fives(w / 8), Steps(w), old(mem.cells[..]))
    {
      var generator := new Generator(MovingInv, r, w);
      assert 8 * (w / 8) == w;
      var seed := Fives(w / 8);
      Sequential(generator, seed);
      seed := Complement(seed, w);
      Sequential(generator, seed);
      Behind(old(reports), BothPasses(Made(MovingInv, w), Fives(w / 8), Steps(w), listening));
      if listening {
        StuckIsReported(w);
      }
    }

    /** The seed is a 32-bit counter, cut to w bits. */
    method MovingInversionRandTest(w: nat)
      requires Ready(w)
      modifies this`reports, this`prngSeed, mem.cells
      ensures prngSeed == (old(prngSeed) + 1) % 0x1_0000_0000
      ensures reports == old(reports) + Outcome(Made(MovingInvRand, w), prngSeed % Pow2(w), Steps(w), listening)
      ensures mem.cells[..] == Filled(Made(MovingInvRand, w), prngSeed % Pow2(w), Steps(w), old(mem.cells[..]))
    {
      var generator := new Generator(MovingInvRand, r, w);
      prngSeed := (prngSeed + 1) % 0x1_0000_0000;
      Sequential(generator, prngSeed % Pow2(w));
    }
  }
}
