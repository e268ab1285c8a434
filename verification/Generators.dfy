/** The pattern generators of the memory tester, for elements of w bits. */
module Generators {

  import opened Prelude

  /** Bit b of an element. */
  predicate BitOf(v: nat, b: nat) {
    if b == 0 then v % 2 == 1 else BitOf(v / 2, b - 1)
  }

  /** ~x in w bits. */
  function Complement(x: nat, w: nat): nat
    requires x < Pow2(w)
  {
    Pow2(w) - 1 - x
  }

  datatype Kind = WalkingOne | WalkingZero | OwnAddress | MovingInv | MovingInvRand

  datatype TestType = TypeWalkingOne | TypeWalkingZero | TypeOwnAddress | TypeMovingInversionZero
    | TypeMovingInversion55AA | TypeMovingInversionRand

  /** Some deterministic pseudo-random source: srand and rand. */
  datatype Random = Random(start: nat -> nat, next: nat -> nat, value: nat -> nat)

  /** The fields of a generator, and the state of the random source. */
  datatype GenState = GenState(pattern: nat, step: nat, prev: nat, rng: nat)

  /** init(seed) */
  function Init(kind: Kind, r: Random, seed: nat, g: GenState): GenState {
    if kind == MovingInvRand then g.(step := 0, prev := 0, rng := r.start(seed)) else g.(pattern := seed)
  }

  /** rand(): a non-negative int. */
  function Rand(r: Random, rng: nat): nat {
    r.value(rng) % 0x8000_0000
  }

  /** A random element: two draws for 64 bits, one for less. */
  function Draw(r: Random, rng: nat, w: nat): (nat, nat) {
    var one := r.next(rng);
    if w == 64 then
      var two := r.next(one);
      ((Rand(r, one) * 0x1_0000_0000 + Rand(r, two)) % Pow2(w), two)
    else (Rand(r, one) % Pow2(w), one)
  }

  function Doubled(p: nat, w: nat): nat {
    var q := 2 * p % Pow2(w);
    if q == 0 then 1 else q
  }

  /** get(): the element, and the generator after it. */
  function Get(kind: Kind, r: Random, w: nat, g: GenState): (nat, GenState)
    requires g.pattern < Pow2(w) && g.prev < Pow2(w)
  {
    match kind
    case WalkingOne => (g.pattern, g.(pattern := Doubled(g.pattern, w)))
    case WalkingZero => (Complement(g.pattern, w), g.(pattern := Doubled(g.pattern, w)))
    case OwnAddress => (g.pattern, g.(pattern := (g.pattern + 1) % Pow2(w)))
    case MovingInv => (g.pattern, g.(pattern := Complement(g.pattern, w)))
    case MovingInvRand =>
      if g.step % 2 == 0 then
        var (v, rng') := Draw(r, g.rng, w);
        (v, g.(prev := v, rng := rng', step := g.step + 1))
      else (Complement(g.prev, w), g.(step := g.step + 1))
  }

  /** get_type(), which looks at the pattern to come. */
  function TypeOf(kind: Kind, pattern: nat): TestType {
    match kind
    case WalkingOne => TypeWalkingOne
    case WalkingZero => TypeWalkingZero
    case OwnAddress => TypeOwnAddress
    case MovingInv => if pattern == 0 || pattern % 256 == 255 then TypeMovingInversionZero else TypeMovingInversion55AA
    case MovingInvRand => TypeMovingInversionRand
  }

  predicate Fits(w: nat, g: GenState) {
    w >= 8 && g.pattern < Pow2(w) && g.prev < Pow2(w)
  }

  lemma GetFits(kind: Kind, r: Random, w: nat, g: GenState)
    requires Fits(w, g)
    ensures Get(kind, r, w, g).0 < Pow2(w) && Fits(w, Get(kind, r, w, g).1)
  {
  }

  /** The generator after i calls of get. */
  function After(kind: Kind, r: Random, w: nat, g: GenState, i: nat): (h: GenState)
    requires Fits(w, g)
    ensures Fits(w, h)
    decreases i
  {
    if i == 0 then g
    else
      var p := After(kind, r, w, g, i - 1);
      GetFits(kind, r, w, p);
      Get(kind, r, w, p).1
  }

  /** The element that call number i of get returns. */
  function Pattern(kind: Kind, r: Random, w: nat, g: GenState, i: nat): (v: nat)
    requires Fits(w, g)
    ensures v < Pow2(w)
  {
    GetFits(kind, r, w, After(kind, r, w, g, i));
    Get(kind, r, w, After(kind, r, w, g, i)).0
  }

  // ---- replay ----

  /** The two generators agree on what their kind looks at. */
  predicate SameView(kind: Kind, g: GenState, h: GenState) {
    if kind == MovingInvRand then g.step % 2 == h.step % 2 && g.prev == h.prev && g.rng == h.rng
    else g.pattern == h.pattern
  }

  lemma InitForgets(kind: Kind, r: Random, seed: nat, g: GenState, h: GenState)
    ensures SameView(kind, Init(kind, r, seed, g), Init(kind, r, seed, h))
  {
  }

  lemma GetAgrees(kind: Kind, r: Random, w: nat, g: GenState, h: GenState)
    requires Fits(w, g) && Fits(w, h) && SameView(kind, g, h)
    ensures Get(kind, r, w, g).0 == Get(kind, r, w, h).0
    ensures SameView(kind, Get(kind, r, w, g).1, Get(kind, r, w, h).1)
  {
    hide Pow2, Draw, Doubled, Complement;
  }

  /** Two generators that agree go on agreeing, whatever else their fields hold. */
  lemma {:induction false} Replay(kind: Kind, r: Random, w: nat, g: GenState, h: GenState, i: nat)
    requires Fits(w, g) && Fits(w, h) && SameView(kind, g, h)
    ensures SameView(kind, After(kind, r, w, g, i), After(kind, r, w, h, i))
    ensures Pattern(kind, r, w, g, i) == Pattern(kind, r, w, h, i)
    decreases i
  {
    if i > 0 {
      Replay(kind, r, w, g, h, i - 1);
      GetAgrees(kind, r, w, After(kind, r, w, g, i - 1), After(kind, r, w, h, i - 1));
    }
    GetAgrees(kind, r, w, After(kind, r, w, g, i), After(kind, r, w, h, i));
  }

  /** A fresh generator after init(seed). */
  function Start(kind: Kind, r: Random, w: nat, seed: nat): (g: GenState)
    requires w >= 8 && seed < Pow2(w)
    ensures Fits(w, g)
  {
    Init(kind, r, seed, GenState(0, 0, 0, 0))
  }

  /** The element number i that seed makes. */
  function Value(kind: Kind, r: Random, w: nat, seed: nat, i: nat): (v: nat)
    requires w >= 8 && seed < Pow2(w)
    ensures v < Pow2(w)
  {
    Pattern(kind, r, w, Start(kind, r, w, seed), i)
  }

  /** What get_type() answers right after element number i. */
  function TypeAt(kind: Kind, r: Random, w: nat, seed: nat, i: nat): TestType
    requires w >= 8 && seed < Pow2(w)
  {
    TypeOf(kind, After(kind, r, w, Start(kind, r, w, seed), i + 1).pattern)
  }

  // ---- closed forms ----

  lemma Powers(w: nat)
    requires w >= 8
    ensures Pow2(w) >= 256
  {
  }

  lemma {:induction false} Pow2Less(j: nat, k: nat)
    requires j < k
    ensures Pow2(j) < Pow2(k)
  {
    if j < k - 1 {
      Pow2Less(j, k - 1);
    }
  }

  lemma Times16(p: nat)
    ensures Pow2(p + 4) == 16 * Pow2(p)
  {
    assert Pow2(p + 4) == 2 * Pow2(p + 3) && Pow2(p + 2) == 2 * Pow2(p + 1);
  }

  lemma Two32()
    ensures Pow2(32) == 0x1_0000_0000
  {
    Times16(0);
    Times16(4);
    Times16(8);
    Times16(12);
    Times16(16);
    Times16(20);
    Times16(24);
    Times16(28);
  }

  lemma Two64()
    ensures Pow2(64) == 0x1_0000_0000_0000_0000
  {
    Two32();
    Times16(32);
    Times16(36);
    Times16(40);
    Times16(44);
    Times16(48);
    Times16(52);
    Times16(56);
    Times16(60);
  }

  lemma SmallMod(x: nat, m: nat)
    requires x < m
    ensures x % m == x
  {
  }

  lemma FullMod(m: nat)
    requires m > 0
    ensures m % m == 0
  {
  }

  lemma DoubledPower(k: nat, w: nat)
    requires k < w
    ensures Doubled(Pow2(k), w) == Pow2(if k + 1 == w then 0 else k + 1)
  {
    assert 2 * Pow2(k) == Pow2(k + 1);
    if k + 1 < w {
      Pow2Less(k + 1, w);
      SmallMod(Pow2(k + 1), Pow2(w));
    } else {
      FullMod(Pow2(w));
      assert Pow2(0) == 1;
    }
  }

  /** A walking one is at bit i mod w. */
  lemma {:induction false} WalkingForm(kind: Kind, r: Random, w: nat, g: GenState, i: nat)
    requires Fits(w, g) && g.pattern == 1 && (kind == WalkingOne || kind == WalkingZero)
    ensures After(kind, r, w, g, i).pattern == Pow2(i % w)
    decreases i
  {
    if i == 0 {
      SmallMod(0, w);
    } else {
      WalkingForm(kind, r, w, g, i - 1);
      WalkingNext(kind, r, w, g, i - 1);
      DoubledPower((i - 1) % w, w);
      NextMod(i - 1, w);
    }
  }

  lemma WalkingNext(kind: Kind, r: Random, w: nat, g: GenState, i: nat)
    requires Fits(w, g) && (kind == WalkingOne || kind == WalkingZero)
    ensures After(kind, r, w, g, i + 1).pattern == Doubled(After(kind, r, w, g, i).pattern, w)
  {
  }

  lemma NextMod(i: nat, w: nat)
    requires w > 0
    ensures (i + 1) % w == if i % w + 1 == w then 0 else i % w + 1
  {
    var q, m := i / w, i % w;
    assert i == q * w + m;
    if m + 1 == w {
      assert i + 1 == (q + 1) * w;
      MultipleMod(q + 1, 0, w);
    } else {
      assert i + 1 == q * w + (m + 1);
      MultipleMod(q, m + 1, w);
    }
  }

  lemma MultipleMod(q: nat, m: nat, w: nat)
    requires m < w
    ensures (q * w + m) % w == m
  {
    var a := q * w + m;
    DivMod(a, w);
    QuotientUnique(q, m, a / w, a % w, w);
  }

  lemma DivMod(a: nat, w: nat)
    requires w > 0
    ensures a == (a / w) * w + a % w && 0 <= a / w && a % w < w
  {
  }

  lemma QuotientUnique(q: int, m: nat, q': int, m': nat, w: nat)
    requires m < w && m' < w
    requires q * w + m == q' * w + m'
    ensures m == m'
  {
    if q < q' {
      ScaleUp(q + 1, q', w);
    } else if q' < q {
      ScaleUp(q' + 1, q, w);
    }
  }

  lemma ScaleUp(a: int, b: int, w: nat)
    requires a <= b
    ensures a * w <= b * w
  {
  }

  /** The own-address pattern is the address, cut to w bits. */
  lemma {:induction false} OwnAddressForm(r: Random, w: nat, g: GenState, i: nat)
    requires Fits(w, g) && g.pattern == 0
    ensures After(OwnAddress, r, w, g, i).pattern == i % Pow2(w)
    decreases i
  {
    if i == 0 {
      SmallMod(0, Pow2(w));
    } else {
      OwnAddressForm(r, w, g, i - 1);
      OwnAddressNext(r, w, g, i - 1);
      Incremented((i - 1) % Pow2(w), Pow2(w));
      NextMod(i - 1, Pow2(w));
    }
  }

  lemma Incremented(x: nat, m: nat)
    requires x < m
    ensures (x + 1) % m == if x + 1 == m then 0 else x + 1
  {
  }

  lemma OwnAddressNext(r: Random, w: nat, g: GenState, i: nat)
    requires Fits(w, g)
    ensures After(OwnAddress, r, w, g, i + 1).pattern == (After(OwnAddress, r, w, g, i).pattern + 1) % Pow2(w)
  {
  }

  /** A moving inversion alternates between the seed and its complement. */
  lemma {:induction false} MovingForm(r: Random, w: nat, g: GenState, i: nat)
    requires Fits(w, g)
    ensures After(MovingInv, r, w, g, i).pattern == if i % 2 == 0 then g.pattern else Complement(g.pattern, w)
    decreases i
  {
    if i > 0 {
      MovingForm(r, w, g, i - 1);
    }
  }

  /** The random source after n draws. */
  function Drawn(r: Random, rng: nat, n: nat): nat {
    if n == 0 then rng else r.next(Drawn(r, rng, n - 1))
  }

  /** How many draws an element takes. */
  function Draws(w: nat): nat {
    if w == 64 then 2 else 1
  }

  /** A random generator after an even number of calls. */
  lemma {:induction false} RandState(r: Random, w: nat, seed: nat, k: nat)
    requires w >= 8 && seed < Pow2(w)
    ensures var g := After(MovingInvRand, r, w, Start(MovingInvRand, r, w, seed), 2 * k);
            g.step == 2 * k && g.rng == Drawn(r, r.start(seed), Draws(w) * k)
    decreases k
  {
    hide After, Draw, Drawn, Draws, Value, Complement;
    if k == 0 {
      RandStart(r, w, seed);
    } else {
      RandState(r, w, seed, k - 1);
      RandPair(r, w, seed, k - 1);
      DrawnOn(r, r.start(seed), w, k - 1);
    }
  }

  lemma RandStart(r: Random, w: nat, seed: nat)
    requires w >= 8 && seed < Pow2(w)
    ensures var g := After(MovingInvRand, r, w, Start(MovingInvRand, r, w, seed), 0);
            g.step == 0 && g.rng == Drawn(r, r.start(seed), Draws(w) * 0)
  {
  }

  lemma DrawnOn(r: Random, rng: nat, w: nat, k: nat)
    requires w >= 8
    ensures Draw(r, Drawn(r, rng, Draws(w) * k), w).1 == Drawn(r, rng, Draws(w) * (k + 1))
  {
    var n := Draws(w) * k;
    assert Draws(w) * (k + 1) == n + Draws(w);
    assert Drawn(r, rng, n + 1) == r.next(Drawn(r, rng, n));
    assert Drawn(r, rng, n + 2) == r.next(Drawn(r, rng, n + 1));
  }

  /** Two calls: a drawn element and its complement. */
  lemma RandPair(r: Random, w: nat, seed: nat, k: nat)
    requires w >= 8 && seed < Pow2(w)
    requires After(MovingInvRand, r, w, Start(MovingInvRand, r, w, seed), 2 * k).step == 2 * k
    ensures var s, i := Start(MovingInvRand, r, w, seed), 2 * k;
            var g, h := After(MovingInvRand, r, w, s, i), After(MovingInvRand, r, w, s, i + 2);
            && h.step == i + 2 && h.rng == Draw(r, g.rng, w).1
            && Value(MovingInvRand, r, w, seed, i) == Draw(r, g.rng, w).0
            && Value(MovingInvRand, r, w, seed, i + 1) == Complement(Draw(r, g.rng, w).0, w)
  {
    hide Draw, Complement;
    var s, i := Start(MovingInvRand, r, w, seed), 2 * k;
    OneCall(r, w, s, i);
    OneCall(r, w, s, i + 1);
  }

  lemma OneCall(r: Random, w: nat, s: GenState, i: nat)
    requires Fits(w, s)
    ensures After(MovingInvRand, r, w, s, i + 1) == Get(MovingInvRand, r, w, After(MovingInvRand, r, w, s, i)).1
    ensures Pattern(MovingInvRand, r, w, s, i) == Get(MovingInvRand, r, w, After(MovingInvRand, r, w, s, i)).0
  {
  }

  /** The even elements of the random kind are draws of 31 bits, two of them for 64 bits; the odd ones are the
      complements of those before. */
  lemma RandForm(r: Random, w: nat, seed: nat, k: nat)
    requires w >= 8 && seed < Pow2(w)
    ensures Value(MovingInvRand, r, w, seed, 2 * k) ==
      if w == 64 then
        0x1_0000_0000 * (r.value(Drawn(r, r.start(seed), 2 * k + 1)) % 0x8000_0000)
        + r.value(Drawn(r, r.start(seed), 2 * k + 2)) % 0x8000_0000
      else r.value(Drawn(r, r.start(seed), k + 1)) % 0x8000_0000 % Pow2(w)
    ensures Value(MovingInvRand, r, w, seed, 2 * k + 1) + Value(MovingInvRand, r, w, seed, 2 * k) == Pow2(w) - 1
  {
    hide Value, After, Pow2;
    RandState(r, w, seed, k);
    RandPair(r, w, seed, k);
    if w == 64 {
      Two64();
    }
  }

  // ---- bits of patterns ----

  lemma LowestBit(x: nat)
    ensures BitOf(x, 0) == (x % 2 == 1)
  {
  }

  lemma HigherBit(x: nat, b: nat)
    requires b > 0
    ensures BitOf(x, b) == BitOf(x / 2, b - 1)
  {
  }

  lemma {:induction false} PowerBits(k: nat, b: nat)
    ensures BitOf(Pow2(k), b) == (b == k)
    decreases b
  {
    if k == 0 && b > 0 {
      ZeroBits(b - 1);
    } else if k > 0 && b > 0 {
      PowerBits(k - 1, b - 1);
    }
  }

  lemma {:induction false} ZeroBits(b: nat)
    ensures !BitOf(0, b)
  {
    if b > 0 {
      ZeroBits(b - 1);
    }
  }

  lemma {:induction false} ComplementBits(x: nat, w: nat, b: nat)
    requires x < Pow2(w) && b < w
    ensures BitOf(Complement(x, w), b) == !BitOf(x, b)
    decreases b
  {
    if b > 0 {
      ComplementBits(x / 2, w - 1, b - 1);
      assert Complement(x, w) / 2 == Complement(x / 2, w - 1);
    }
  }

  lemma ModHalf(x: nat, k: nat)
    requires k > 0
    ensures x % Pow2(k) == 2 * (x / 2 % Pow2(k - 1)) + x % 2
  {
    var p, b := Pow2(k - 1), x % 2;
    var q, m := x / 2 / p, x / 2 % p;
    DivMod(x / 2, p);
    assert q * (2 * p) == 2 * (q * p);
    assert x == q * (2 * p) + (2 * m + b);
    MultipleMod(q, 2 * m + b, 2 * p);
  }

  /** The two numbers have the same low k bits. */
  predicate AgreeBelow(x: nat, y: nat, k: nat) {
    forall c :: 0 <= c < k ==> BitOf(x, c) == BitOf(y, c)
  }

  lemma AgreeBelowNext(x: nat, y: nat, k: nat)
    requires k > 0
    ensures AgreeBelow(x, y, k) <==> x % 2 == y % 2 && AgreeBelow(x / 2, y / 2, k - 1)
  {
    assert BitOf(x, 0) == (x % 2 == 1) && BitOf(y, 0) == (y % 2 == 1);
    if AgreeBelow(x, y, k) {
      forall c | 0 <= c < k - 1 ensures BitOf(x / 2, c) == BitOf(y / 2, c) {
        assert BitOf(x, c + 1) == BitOf(y, c + 1);
      }
    }
    if x % 2 == y % 2 && AgreeBelow(x / 2, y / 2, k - 1) {
      forall c | 0 <= c < k ensures BitOf(x, c) == BitOf(y, c) {
        if c > 0 {
          assert BitOf(x / 2, c - 1) == BitOf(y / 2, c - 1);
        }
      }
    }
  }

  /** Numbers are equal modulo 2^k exactly when their low k bits are. */
  lemma {:induction false} LowBits(x: nat, y: nat, k: nat)
    ensures x % Pow2(k) == y % Pow2(k) <==> AgreeBelow(x, y, k)
    decreases k
  {
    if k > 0 {
      LowBits(x / 2, y / 2, k - 1);
      AgreeBelowNext(x, y, k);
      ModHalf(x, k);
      ModHalf(y, k);
    }
  }
}
