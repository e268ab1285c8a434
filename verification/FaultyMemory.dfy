/** What a memory test sees of a memory with wiring and storage faults. */
module FaultyMemory {

  import opened Prelude
  import opened Generators

  /**
   * A test of n elements of w bits on a memory with faults: element i is kept in cell cellOf[i],
   * and reading it gives distort(i, the value the cell was given).
   */
  datatype Setup = Setup(kind: Kind, r: Random, w: nat, cellOf: seq<nat>, distort: (nat, nat) -> nat)

  predicate SetupOk(s: Setup, seed: nat, n: nat) {
    s.w >= 8 && seed < Pow2(s.w) && n <= |s.cellOf|
  }

  /** The last of the first n elements that share the cell of element i. */
  function LastAlias(cellOf: seq<nat>, i: nat, n: nat): (l: nat)
    requires i < n <= |cellOf|
    ensures i <= l < n && cellOf[l] == cellOf[i]
    ensures forall j :: l < j < n ==> cellOf[j] != cellOf[i]
  {
    if i == n - 1 || cellOf[n - 1] == cellOf[i] then n - 1 else LastAlias(cellOf, i, n - 1)
  }

  predicate Injective(cellOf: seq<nat>, n: nat)
    requires n <= |cellOf|
  {
    forall i, j :: 0 <= i < j < n ==> cellOf[i] != cellOf[j]
  }

  /** The cells once the first n elements are written. */
  function Filled(s: Setup, seed: nat, n: nat, cells: seq<nat>): (filled: seq<nat>)
    requires SetupOk(s, seed, n)
    requires forall i :: 0 <= i < n ==> s.cellOf[i] < |cells|
    ensures |filled| == |cells|
  {
    if n == 0 then cells else Filled(s, seed, n - 1, cells)[s.cellOf[n - 1] := Value(s.kind, s.r, s.w, seed, n - 1)]
  }

  /** A cell keeps what was last written through any of its elements. */
  lemma {:induction false} FilledAt(s: Setup, seed: nat, n: nat, cells: seq<nat>, i: nat)
    requires SetupOk(s, seed, n) && i < n
    requires forall k :: 0 <= k < n ==> s.cellOf[k] < |cells|
    ensures Filled(s, seed, n, cells)[s.cellOf[i]] == Value(s.kind, s.r, s.w, seed, LastAlias(s.cellOf, i, n))
    decreases n
  {
    if i < n - 1 && s.cellOf[n - 1] != s.cellOf[i] {
      FilledAt(s, seed, n - 1, cells, i);
    }
  }

  /** A cell that belongs to none of the elements is left alone. */
  lemma {:induction false} FilledElsewhere(s: Setup, seed: nat, n: nat, cells: seq<nat>, j: nat)
    requires SetupOk(s, seed, n) && j < |cells|
    requires forall k :: 0 <= k < n ==> s.cellOf[k] < |cells| && s.cellOf[k] != j
    ensures Filled(s, seed, n, cells)[j] == cells[j]
    decreases n
  {
    if n > 0 {
      FilledElsewhere(s, seed, n - 1, cells, j);
    }
  }

  function Expected(s: Setup, seed: nat, i: nat): (v: nat)
    requires s.w >= 8 && seed < Pow2(s.w)
    ensures v < Pow2(s.w)
  {
    Value(s.kind, s.r, s.w, seed, i)
  }

  /** What element i reads as after the fill. */
  function Got(s: Setup, seed: nat, n: nat, i: nat): nat
    requires SetupOk(s, seed, n) && i < n
  {
    s.distort(i, Value(s.kind, s.r, s.w, seed, LastAlias(s.cellOf, i, n)))
  }

  predicate Bad(s: Setup, seed: nat, n: nat, i: nat)
    requires SetupOk(s, seed, n) && i < n
  {
    Got(s, seed, n, i) != Expected(s, seed, i)
  }

  /** The first bad element from k on, or n. */
  function FirstBad(s: Setup, seed: nat, n: nat, k: nat): (i: nat)
    requires SetupOk(s, seed, n) && k <= n
    ensures k <= i <= n
    decreases n - k
  {
    if k == n || Bad(s, seed, n, k) then k else FirstBad(s, seed, n, k + 1)
  }

  lemma {:induction false} FirstBadIsBad(s: Setup, seed: nat, n: nat, k: nat)
    requires SetupOk(s, seed, n) && k <= n && FirstBad(s, seed, n, k) < n
    ensures Bad(s, seed, n, FirstBad(s, seed, n, k))
    decreases n - k
  {
    if !Bad(s, seed, n, k) {
      FirstBadIsBad(s, seed, n, k + 1);
    }
  }

  lemma {:induction false} FirstBadIsLeast(s: Setup, seed: nat, n: nat, k: nat, j: nat)
    requires SetupOk(s, seed, n) && k <= j < n && Bad(s, seed, n, j)
    ensures FirstBad(s, seed, n, k) <= j
    decreases n - k
  {
    if !Bad(s, seed, n, k) {
      FirstBadIsLeast(s, seed, n, k + 1, j);
    }
  }

  lemma Silent(s: Setup, seed: nat, n: nat)
    requires SetupOk(s, seed, n)
    ensures FirstBad(s, seed, n, 0) == n <==> forall i :: 0 <= i < n ==> !Bad(s, seed, n, i)
  {
    if FirstBad(s, seed, n, 0) < n {
      FirstBadIsBad(s, seed, n, 0);
    } else {
      forall i | 0 <= i < n ensures !Bad(s, seed, n, i) {
        if Bad(s, seed, n, i) {
          FirstBadIsLeast(s, seed, n, 0, i);
        }
      }
    }
  }

  /** An index is the first bad one exactly when it is bad and no smaller one is. */
  lemma FirstBadExact(s: Setup, seed: nat, n: nat, i: nat)
    requires SetupOk(s, seed, n) && i < n
    ensures FirstBad(s, seed, n, 0) == i <==> Bad(s, seed, n, i) && forall k :: 0 <= k < i ==> !Bad(s, seed, n, k)
  {
    if FirstBad(s, seed, n, 0) == i {
      FirstBadIsBad(s, seed, n, 0);
      forall k | 0 <= k < i ensures !Bad(s, seed, n, k) {
        if Bad(s, seed, n, k) {
          FirstBadIsLeast(s, seed, n, 0, k);
        }
      }
    } else if Bad(s, seed, n, i) {
      FirstBadIsLeast(s, seed, n, 0, i);
      FirstBadIsBad(s, seed, n, 0);
    }
  }

  /** Without aliasing an element keeps its own value. */
  lemma Unaliased(cellOf: seq<nat>, n: nat, i: nat)
    requires i < n <= |cellOf| && Injective(cellOf, n)
    ensures LastAlias(cellOf, i, n) == i
  {
  }

  // ---- what each test detects ----

  ghost predicate Undistorted(s: Setup, n: nat) {
    forall i, v :: 0 <= i < n && 0 <= v < Pow2(s.w) ==> s.distort(i, v) == v
  }

  /** A faithful memory is never reported, by any generator. */
  lemma FaithfulSilent(s: Setup, seed: nat, n: nat)
    requires SetupOk(s, seed, n) && Injective(s.cellOf, n) && Undistorted(s, n)
    ensures FirstBad(s, seed, n, 0) == n
  {
    forall i | 0 <= i < n ensures !Bad(s, seed, n, i) {
      Unaliased(s.cellOf, n, i);
    }
    Silent(s, seed, n);
  }

  predicate OwnAddressTest(s: Setup, n: nat) {
    s.kind == OwnAddress && SetupOk(s, 0, n)
  }

  /** own_address blames element i exactly when its last alias writes a different address into the cell. */
  lemma OwnAddressBlames(s: Setup, n: nat, i: nat)
    requires OwnAddressTest(s, n) && Undistorted(s, n) && i < n
    ensures Bad(s, 0, n, i) <==> LastAlias(s.cellOf, i, n) % Pow2(s.w) != i % Pow2(s.w)
  {
    OwnAddressForm(s.r, s.w, Start(OwnAddress, s.r, s.w, 0), i);
    OwnAddressForm(s.r, s.w, Start(OwnAddress, s.r, s.w, 0), LastAlias(s.cellOf, i, n));
  }

  predicate HasLaterAlias(cellOf: seq<nat>, n: nat, i: nat)
    requires n <= |cellOf|
  {
    exists j :: i < j < n && cellOf[i] == cellOf[j]
  }

  lemma LaterAlias(cellOf: seq<nat>, n: nat, i: nat)
    requires i < n <= |cellOf|
    ensures HasLaterAlias(cellOf, n, i) <==> LastAlias(cellOf, i, n) != i
  {
  }

  lemma OwnAddressNarrow(s: Setup, n: nat, i: nat)
    requires OwnAddressTest(s, n) && Undistorted(s, n) && n <= Pow2(s.w) && i < n
    ensures Bad(s, 0, n, i) <==> HasLaterAlias(s.cellOf, n, i)
  {
    OwnAddressBlames(s, n, i);
    LaterAlias(s.cellOf, n, i);
    SmallMod(i, Pow2(s.w));
    SmallMod(LastAlias(s.cellOf, i, n), Pow2(s.w));
  }

  lemma InjectiveIsNoAlias(cellOf: seq<nat>, n: nat)
    requires n <= |cellOf|
    ensures Injective(cellOf, n) <==> forall i :: 0 <= i < n ==> !HasLaterAlias(cellOf, n, i)
  {
    if !Injective(cellOf, n) {
      var i, j :| 0 <= i < j < n && cellOf[i] == cellOf[j];
      assert HasLaterAlias(cellOf, n, i);
    }
  }

  /**
   * On at most 2^w elements, own_address reports exactly when two elements share a cell, and
   * then at the smallest index that has a later alias.
   */
  lemma OwnAddressDetects(s: Setup, n: nat)
    requires OwnAddressTest(s, n) && Undistorted(s, n) && n <= Pow2(s.w)
    ensures FirstBad(s, 0, n, 0) == n <==> Injective(s.cellOf, n)
    ensures forall i :: 0 <= i < n ==> (FirstBad(s, 0, n, 0) == i <==> FirstAliased(s.cellOf, n, i))
  {
    hide Bad, FirstBad, HasLaterAlias, Injective, FirstAliased;
    forall i | 0 <= i < n ensures Bad(s, 0, n, i) <==> HasLaterAlias(s.cellOf, n, i) {
      OwnAddressNarrow(s, n, i);
    }
    Silent(s, 0, n);
    InjectiveIsNoAlias(s.cellOf, n);
    forall i | 0 <= i < n ensures FirstBad(s, 0, n, 0) == i <==> FirstAliased(s.cellOf, n, i) {
      FirstBadAliased(s, n, i);
    }
  }

  /** The smallest index with a later alias. */
  ghost predicate FirstAliased(cellOf: seq<nat>, n: nat, i: nat)
    requires n <= |cellOf|
  {
    HasLaterAlias(cellOf, n, i) && forall k :: 0 <= k < i ==> !HasLaterAlias(cellOf, n, k)
  }

  lemma FirstBadAliased(s: Setup, n: nat, i: nat)
    requires OwnAddressTest(s, n) && i < n
    requires forall j :: 0 <= j < n ==> (Bad(s, 0, n, j) <==> HasLaterAlias(s.cellOf, n, j))
    ensures FirstBad(s, 0, n, 0) == i <==> FirstAliased(s.cellOf, n, i)
  {
    hide Bad, FirstBad, HasLaterAlias;
    FirstBadExact(s, 0, n, i);
  }

  /** Bit b of element i always reads as value. */
  ghost predicate Stuck(s: Setup, i: nat, b: nat, value: bool) {
    b < s.w && forall v :: 0 <= v < Pow2(s.w) ==> BitOf(s.distort(i, v), b) == value
  }

  lemma StuckIsBad(s: Setup, seed: nat, n: nat, i: nat, b: nat, value: bool)
    requires SetupOk(s, seed, n) && i < n && Stuck(s, i, b, value)
    requires BitOf(Expected(s, seed, i), b) != value
    ensures Bad(s, seed, n, i) && FirstBad(s, seed, n, 0) <= i
  {
    FirstBadIsLeast(s, seed, n, 0, i);
  }

  /** Every element gets both values of every bit over the two passes of a moving inversion. */
  lemma MovingBits(s: Setup, seed: nat, i: nat, b: nat)
    requires s.kind == MovingInv && s.w >= 8 && seed < Pow2(s.w) && b < s.w
    ensures Expected(s, Complement(seed, s.w), i) == Complement(Expected(s, seed, i), s.w)
    ensures BitOf(Expected(s, Complement(seed, s.w), i), b) != BitOf(Expected(s, seed, i), b)
  {
    MovingForm(s.r, s.w, Start(MovingInv, s.r, s.w, seed), i);
    MovingForm(s.r, s.w, Start(MovingInv, s.r, s.w, Complement(seed, s.w)), i);
    ComplementBits(Expected(s, seed, i), s.w, b);
  }

  /**
   * The two passes of a moving inversion detect every stuck bit of every element, whatever
   * the seed, and whatever the other faults of the memory are.
   */
  lemma MovingInversionDetects(s: Setup, seed: nat, n: nat, i: nat, b: nat, value: bool)
    requires s.kind == MovingInv && SetupOk(s, seed, n) && i < n && Stuck(s, i, b, value)
    ensures FirstBad(s, seed, n, 0) <= i || FirstBad(s, Complement(seed, s.w), n, 0) <= i
  {
    MovingBits(s, seed, i, b);
    if BitOf(Expected(s, seed, i), b) != value {
      StuckIsBad(s, seed, n, i, b, value);
    } else {
      StuckIsBad(s, Complement(seed, s.w), n, i, b, value);
    }
  }

  /** Without aliasing, both passes are silent exactly when every element holds the seed and its complement. */
  lemma MovingInversionExact(s: Setup, seed: nat, n: nat)
    requires s.kind == MovingInv && SetupOk(s, seed, n) && Injective(s.cellOf, n)
    ensures FirstBad(s, seed, n, 0) == n && FirstBad(s, Complement(seed, s.w), n, 0) == n <==>
      forall i :: 0 <= i < n ==>
        s.distort(i, seed) == seed && s.distort(i, Complement(seed, s.w)) == Complement(seed, s.w)
  {
    var t := Complement(seed, s.w);
    forall i | 0 <= i < n
      ensures !Bad(s, seed, n, i) && !Bad(s, t, n, i) <==> s.distort(i, seed) == seed && s.distort(i, t) == t
    {
      Unaliased(s.cellOf, n, i);
      MovingForm(s.r, s.w, Start(MovingInv, s.r, s.w, seed), i);
      MovingForm(s.r, s.w, Start(MovingInv, s.r, s.w, t), i);
    }
    Silent(s, seed, n);
    Silent(s, t, n);
  }

  /**
   * Bit b of element i is stuck at value; values that have it there anyway, and all other elements, read as
   * written.
   */
  ghost predicate OnlyStuck(s: Setup, n: nat, i: nat, b: nat, value: bool) {
    && i < n <= |s.cellOf|
    && Injective(s.cellOf, n)
    && Stuck(s, i, b, value)
    && (forall v :: 0 <= v < Pow2(s.w) && BitOf(v, b) == value ==> s.distort(i, v) == v)
    && (forall j, v :: 0 <= j < n && j != i && 0 <= v < Pow2(s.w) ==> s.distort(j, v) == v)
  }

  /** x is v with bit b at value. */
  ghost predicate Forced(x: nat, v: nat, w: nat, b: nat, value: bool) {
    x < Pow2(w) && forall c :: 0 <= c < w ==> BitOf(x, c) == if c == b then value else BitOf(v, c)
  }

  /** Bit b of element i is stuck at value, and nothing else is wrong. */
  ghost predicate LoneFault(s: Setup, n: nat, i: nat, b: nat, value: bool) {
    && i < n <= |s.cellOf| && b < s.w
    && Injective(s.cellOf, n)
    && (forall v :: 0 <= v < Pow2(s.w) ==> Forced(s.distort(i, v), v, s.w, b, value))
    && (forall j, v :: 0 <= j < n && j != i && 0 <= v < Pow2(s.w) ==> s.distort(j, v) == v)
  }

  lemma SameBitsSameNumber(x: nat, y: nat, w: nat)
    requires x < Pow2(w) && y < Pow2(w) && AgreeBelow(x, y, w)
    ensures x == y
  {
    LowBits(x, y, w);
    SmallMod(x, Pow2(w));
    SmallMod(y, Pow2(w));
  }

  lemma LoneFaultIsOnlyStuck(s: Setup, n: nat, i: nat, b: nat, value: bool)
    requires LoneFault(s, n, i, b, value)
    ensures OnlyStuck(s, n, i, b, value)
  {
    forall v | 0 <= v < Pow2(s.w)
      ensures BitOf(s.distort(i, v), b) == value && (BitOf(v, b) == value ==> s.distort(i, v) == v)
    {
      assert Forced(s.distort(i, v), v, s.w, b, value);
      if BitOf(v, b) == value {
        SameBitsSameNumber(s.distort(i, v), v, s.w);
      }
    }
  }

  lemma OnlyStuckBad(s: Setup, seed: nat, n: nat, i: nat, b: nat, value: bool, j: nat)
    requires SetupOk(s, seed, n) && OnlyStuck(s, n, i, b, value) && j < n
    ensures Bad(s, seed, n, j) <==> j == i && BitOf(Expected(s, seed, i), b) != value
  {
    Unaliased(s.cellOf, n, j);
  }

  /** Any test finds a lone stuck bit exactly when the pattern there has the other value. */
  lemma OnlyStuckExact(s: Setup, seed: nat, n: nat, i: nat, b: nat, value: bool)
    requires SetupOk(s, seed, n) && OnlyStuck(s, n, i, b, value)
    ensures FirstBad(s, seed, n, 0) == if BitOf(Expected(s, seed, i), b) != value then i else n
  {
    hide Bad, FirstBad, Stuck, Injective, Expected;
    forall j | 0 <= j < n ensures Bad(s, seed, n, j) <==> j == i && BitOf(Expected(s, seed, i), b) != value {
      OnlyStuckBad(s, seed, n, i, b, value, j);
    }
    FirstBadExact(s, seed, n, i);
    Silent(s, seed, n);
  }

  lemma WalkingBits(s: Setup, i: nat, b: nat)
    requires (s.kind == WalkingOne || s.kind == WalkingZero) && s.w >= 8 && 1 < Pow2(s.w) && b < s.w
    ensures BitOf(Expected(s, 1, i), b) == ((b == i % s.w) == (s.kind == WalkingOne))
  {
    var g := Start(s.kind, s.r, s.w, 1);
    WalkingForm(s.kind, s.r, s.w, g, i);
    PowerBits(i % s.w, b);
    var p := After(s.kind, s.r, s.w, g, i).pattern;
    if s.kind == WalkingZero {
      ComplementBits(p, s.w, b);
    }
  }

  /**
   * walking_one finds a lone stuck bit exactly when the bit is the walking bit of its element and
   * stuck at 0, or another bit and stuck at 1; walking_zero finds exactly the others.
   */
  lemma WalkingDetects(s: Setup, n: nat, i: nat, b: nat, value: bool)
    requires (s.kind == WalkingOne || s.kind == WalkingZero) && SetupOk(s, 1, n)
    requires OnlyStuck(s, n, i, b, value)
    ensures FirstBad(s, 1, n, 0) == if (b == i % s.w) != (value == (s.kind == WalkingOne)) then i else n
  {
    WalkingBits(s, i, b);
    OnlyStuckExact(s, 1, n, i, b, value);
  }

  // ---- the type a report names ----

  /** memset(&seed, 0x55, sizeof(seed)) */
  function Fives(bytes: nat): (v: nat)
    ensures v < Pow2(8 * bytes)
  {
    if bytes == 0 then 0
    else
      PowerBytes(bytes);
      256 * Fives(bytes - 1) + 0x55
  }

  /** Bits 0, 2, 4 and 6 of every byte of that seed are set, and no others. */
  lemma {:induction false} FivesBits(bytes: nat, b: nat)
    requires b < 8 * bytes
    ensures BitOf(Fives(bytes), b) == (b % 2 == 0)
    decreases bytes
  {
    hide BitOf, Fives;
    FivesNext(bytes);
    TwoNibbles(Fives(bytes - 1), b);
    if b >= 8 {
      FivesBits(bytes - 1, b - 8);
    }
  }

  lemma TwoNibbles(v: nat, b: nat)
    ensures BitOf(16 * (16 * v + 5) + 5, b) == if b < 8 then b % 2 == 0 else BitOf(v, b - 8)
  {
    hide BitOf;
    if b < 4 {
      FiveBits(16 * v + 5, b);
    } else {
      BitsAboveFive(16 * v + 5, b);
      if b < 8 {
        FiveBits(v, b - 4);
      } else {
        BitsAboveFive(v, b - 4);
      }
    }
  }

  lemma FivesNext(bytes: nat)
    requires bytes > 0
    ensures Fives(bytes) == 16 * (16 * Fives(bytes - 1) + 5) + 5
  {
  }

  lemma Half(q: nat, d: nat)
    requires d < 2
    ensures (2 * q + d) / 2 == q && (2 * q + d) % 2 == d
  {
  }

  lemma Halves(v: nat)
    ensures (16 * v + 5) / 2 == 8 * v + 2 && (8 * v + 2) / 2 == 4 * v + 1 && (4 * v + 1) / 2 == 2 * v && 2 * v / 2 == v
    ensures (16 * v + 5) % 2 == 1 && (8 * v + 2) % 2 == 0 && (4 * v + 1) % 2 == 1 && 2 * v % 2 == 0
  {
    Half(8 * v + 2, 1);
    Half(4 * v + 1, 0);
    Half(2 * v, 1);
    Half(v, 0);
  }

  lemma FiveBits(v: nat, b: nat)
    requires b < 4
    ensures BitOf(16 * v + 5, b) == (b % 2 == 0)
  {
    hide BitOf;
    Halves(v);
    if b == 0 {
      LowestBit(16 * v + 5);
    } else {
      HigherBit(16 * v + 5, b);
      if b == 1 {
        LowestBit(8 * v + 2);
      } else {
        HigherBit(8 * v + 2, b - 1);
        if b == 2 {
          LowestBit(4 * v + 1);
        } else {
          HigherBit(4 * v + 1, 1);
          LowestBit(2 * v);
        }
      }
    }
  }

  lemma BitsAboveFive(v: nat, b: nat)
    requires b >= 4
    ensures BitOf(16 * v + 5, b) == BitOf(v, b - 4)
  {
    hide BitOf;
    Halves(v);
    HigherBit(16 * v + 5, b);
    HigherBit(8 * v + 2, b - 1);
    HigherBit(4 * v + 1, b - 2);
    HigherBit(2 * v, b - 3);
  }

  lemma PowerBytes(bytes: nat)
    requires bytes > 0
    ensures Pow2(8 * bytes) == 256 * Pow2(8 * (bytes - 1))
  {
    var p := 8 * (bytes - 1);
    assert p + 4 + 4 == 8 * bytes;
    Times16(p);
    Times16(p + 4);
  }

  lemma MovingType(r: Random, w: nat, seed: nat, i: nat)
    requires w >= 8 && seed < Pow2(w)
    requires TypeOf(MovingInv, Complement(seed, w)) == TypeOf(MovingInv, seed)
    ensures TypeAt(MovingInv, r, w, seed, i) == TypeOf(MovingInv, seed)
  {
    MovingForm(r, w, Start(MovingInv, r, w, seed), i + 1);
  }

  /** The type follows the seed: zero and all ones are the zero test, 0x55 and 0xAA bytes the other. */
  lemma MovingTypes(r: Random, bytes: nat, i: nat)
    requires bytes >= 1
    ensures TypeAt(MovingInv, r, 8 * bytes, 0, i) == TypeMovingInversionZero
    ensures TypeAt(MovingInv, r, 8 * bytes, Complement(0, 8 * bytes), i) == TypeMovingInversionZero
    ensures TypeAt(MovingInv, r, 8 * bytes, Fives(bytes), i) == TypeMovingInversion55AA
    ensures TypeAt(MovingInv, r, 8 * bytes, Complement(Fives(bytes), 8 * bytes), i) == TypeMovingInversion55AA
  {
    var w := 8 * bytes;
    PowerBytes(bytes);
    SeedTypes(bytes);
    MovingType(r, w, 0, i);
    MovingType(r, w, Complement(0, w), i);
    MovingType(r, w, Fives(bytes), i);
    MovingType(r, w, Complement(Fives(bytes), w), i);
  }

  lemma LowByte(q: nat, b: nat)
    requires b < 256
    ensures (256 * q + b) % 256 == b
  {
  }

  lemma SeedTypes(bytes: nat)
    requires bytes >= 1
    ensures TypeOf(MovingInv, 0) == TypeMovingInversionZero
    ensures TypeOf(MovingInv, Complement(0, 8 * bytes)) == TypeMovingInversionZero
    ensures TypeOf(MovingInv, Fives(bytes)) == TypeMovingInversion55AA
    ensures TypeOf(MovingInv, Complement(Fives(bytes), 8 * bytes)) == TypeMovingInversion55AA
  {
    PowerBytes(bytes);
    var p, f := Pow2(8 * (bytes - 1)), Fives(bytes - 1);
    LowByte(p - 1, 255);
    LowByte(f, 0x55);
    LowByte(p - 1 - f, 0xAA);
  }
}
