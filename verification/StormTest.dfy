/** The interrupt storm test itself: the timer callbacks, the worker loop cut at the points where
    another thread may run, and the search for the saturation threshold. */
module StormTest {
  import opened StormChain
  import opened StormRuns

  const TWO_TO_THE_32: nat := 0x1_0000_0000

  /** The C computation of the receiving worker, on 32-bit unsigned numbers. */
  function Target(me: nat, d: Dir): nat
    requires me < TWO_TO_THE_32
  {
    if d == Left then (me + TWO_TO_THE_32 - 1) % TWO_TO_THE_32 else (me + 1) % TWO_TO_THE_32
  }

  /** The one test "target < n" recognises both ends of the chain: below worker 0 the subtraction
      wraps around to a number that is no worker either. */
  lemma TargetIsNext(n: nat, me: nat, d: Dir)
    requires me < n < TWO_TO_THE_32
    ensures Target(me, d) < n <==> Station(n, d, me) + 1 < n
    ensures Target(me, d) < n ==> Target(me, d) == Station(n, d, Station(n, d, me) + 1)
  {
  }

  // ---- what happens between two looks at the flag ----

  /** A step that a timer or a worker can take. */
  predicate Plays(c: Chain, e: Event)
    requires WellFormed(c)
  {
    !e.Clear? && Enabled(c, e)
  }

  /** The chain after any such steps; what cannot happen in its turn does not. */
  function Play(c: Chain, es: seq<Event>): (c': Chain)
    requires WellFormed(c)
    ensures WellFormed(c') && |c'.mb| == |c.mb|
    decreases |es|
  {
    if es == [] then c else Play(if Plays(c, es[0]) then Apply(c, es[0]) else c, es[1..])
  }

  class Storm {
    const n: nat
    const size: nat
    var mb: seq<seq<Msg>>
    var workers: seq<Worker>
    var saturated: bool
    // history: the program keeps none of what follows
    var left: Lane
    var right: Lane
    ghost var lost: nat
    ghost var stores: nat
    ghost var pending: nat

    ghost function State(): Chain
      reads this
    {
      Chain(size, mb, workers, saturated, left, right, lost, stores, pending)
    }

    ghost predicate Valid()
      reads this
    {
      WellFormed(State()) && |mb| == n < TWO_TO_THE_32
    }

    /** Mailboxes initialised, worker threads created. */
    constructor (n: nat, size: nat)
      requires 0 < n < TWO_TO_THE_32 && size > 0
      ensures Valid() && this.n == n && State() == Empty(n, size)
    {
      this.n, this.size := n, size;
      mb := seq(n, _ => []);
      workers := seq(n, _ => Waiting);
      saturated := false;
      left, right := Lane(0, [], [], seq(n, _ => [])), Lane(0, [], [], seq(n, _ => []));
      lost, stores, pending := 0, 0, 0;
    }

    /** chMBPostI, and chMBPostTimeout with an immediate timeout: a full mailbox refuses. */
    method MailboxPost(j: nat, m: Msg) returns (ok: bool)
      requires Valid() && j < n
      modifies this`mb
      ensures ok == Room(old(State()), j)
      ensures mb == if ok then old(mb)[j := old(mb)[j] + [m]] else old(mb)
    {
      ok := |mb[j]| < size;
      if ok {
        mb := mb[j := mb[j] + [m]];
      }
    }

    /** irq_storm_gpt1_cb */
    method Gpt1Callback()
      requires Valid()
      modifies this
      ensures Valid() && State() == Apply(old(State()), Inject(Right))
    {
      var ok := MailboxPost(0, Msg(Right, right.next));
      if !ok {
        saturated := true;
        stores := stores + 1;
        right := right.(dropped := right.dropped + [right.next]);
      }
      right := right.(next := right.next + 1);
    }

    /** irq_storm_gpt2_cb */
    method Gpt2Callback()
      requires Valid()
      modifies this
      ensures Valid() && State() == Apply(old(State()), Inject(Left))
    {
      var ok := MailboxPost(n - 1, Msg(Left, left.next));
      if !ok {
        saturated := true;
        stores := stores + 1;
        left := left.(dropped := left.dropped + [left.next]);
      }
      left := left.(next := left.next + 1);
    }

    /** The worker returns from chMBFetchTimeout with a message. */
    method WorkerFetch(me: nat)
      requires Valid() && Enabled(State(), Fetch(me))
      modifies this
      ensures Valid() && State() == Apply(old(State()), Fetch(me))
    {
      var msg := mb[me][0];
      mb := mb[me := mb[me][1..]];
      workers := workers[me := Holding(msg)];
      if msg.dir == Left {
        left := left.(handled := left.handled[n - 1 - me := left.handled[n - 1 - me] + [msg.id]]);
      } else {
        right := right.(handled := right.handled[me := right.handled[me] + [msg.id]]);
      }
    }

    /** The worker computes its target in unsigned arithmetic and posts, or lets the message go. */
    method WorkerPost(me: nat)
      requires Valid() && Enabled(State(), Post(me))
      modifies this
      ensures Valid() && State() == Apply(old(State()), Post(me))
    {
      var msg := workers[me].msg;
      var target := Target(me, msg.dir);
      TargetIsNext(n, me, msg.dir);
      var lane := if msg.dir == Left then left else right;
      if target < n {
        var ok := MailboxPost(target, msg);
        workers := workers[me := if ok then Waiting else Failing];
        if !ok {
          lane := lane.(dropped := lane.dropped + [msg.id]);
        }
      } else {
        workers := workers[me := Waiting];
        lane := lane.(exited := lane.exited + [msg.id]);
      }
      if msg.dir == Left { left := lane; } else { right := lane; }
    }

    /** The store to the flag after a failed post. */
    method WorkerFlag(me: nat)
      requires Valid() && Enabled(State(), Flag(me))
      modifies this
      ensures Valid() && State() == Apply(old(State()), Flag(me))
    {
      saturated := true;
      stores := stores + 1;
      workers := workers[me := Waiting];
    }

    /** The start of an iteration. */
    method ClearFlag()
      requires Valid()
      modifies this
      ensures Valid() && State() == Apply(old(State()), Clear)
    {
      saturated := false;
      lost, stores, pending := |left.dropped| + |right.dropped|, 0, FailingCount(workers);
    }

    predicate CanPlay(e: Event)
      requires Valid()
      reads this
      ensures CanPlay(e) == Plays(State(), e)
    {
      match e
      case Inject(_) => true
      case Fetch(i) => i < n && workers[i].Waiting? && |mb[i]| > 0
      case Post(i) => i < n && workers[i].Holding?
      case Flag(i) => i < n && workers[i].Failing?
      case Clear => false
    }

    /** One step of a timer or a worker. */
    method Step(e: Event)
      requires Valid() && CanPlay(e)
      modifies this
      ensures Valid() && State() == Apply(old(State()), e)
    {
      match e {
        case Inject(d) =>
          if d == Right {
            Gpt1Callback();
          } else {
            Gpt2Callback();
          }
        case Fetch(i) => WorkerFetch(i);
        case Post(i) => WorkerPost(i);
        case Flag(i) => WorkerFlag(i);
      }
    }

    /** The timers and the workers at work. */
    method Storming(es: seq<Event>)
      requires Valid()
      modifies this
      ensures Valid() && State() == Play(old(State()), es)
    {
      var i := 0;
      while i < |es|
        invariant 0 <= i <= |es| && Valid()
        invariant Play(State(), es[i..]) == Play(old(State()), es)
      {
        assert es[i..][0] == es[i] && es[i..][1..] == es[i + 1..];
        if CanPlay(es[i]) {
          Step(es[i]);
        }
        i := i + 1;
      }
    }
  }

  // ---- the search for the threshold ----

  /** The next timer interval: ten percent less, the reduction rounded up. */
  function NextInterval(x: nat): nat {
    x - (x + 9) / 10
  }

  /** The interval of round k. */
  function Interval(k: nat): nat {
    if k == 0 then 2000 else NextInterval(Interval(k - 1))
  }

  /** The intervals start at 2000, and each is nine tenths of the one before, rounded down. */
  lemma IntervalLaw(k: nat)
    ensures Interval(0) == 2000
    ensures 10 * Interval(k + 1) <= 9 * Interval(k) < 10 * Interval(k + 1) + 10
  {
  }

  /** The chain after the flag was cleared and k storms, of the first k intervals. */
  function Stormed(c: Chain, storm: nat -> seq<Event>, k: nat): (c': Chain)
    requires WellFormed(c)
    ensures WellFormed(c') && |c'.mb| == |c.mb|
    decreases k
  {
    if k == 0 then Apply(c, Clear) else Play(Stormed(c, storm, k - 1), storm(k - 1))
  }

  /** What can show after a storm: the flag, or that a message was lost since it was cleared. */
  datatype Sign = FlagUp | MessageLost

  predicate Shows(sign: Sign, c: Chain, storm: nat -> seq<Event>, k: nat)
    requires WellFormed(c)
  {
    var after := Stormed(c, storm, k + 1);
    if sign == FlagUp then after.saturated else LostSince(c, after)
  }

  /** t is the interval of the first round of a sweep from state c that shows the sign, and 0 when none does. */
  ghost predicate IsFirst(sign: Sign, c: Chain, storm: nat -> seq<Event>, t: nat)
    requires WellFormed(c)
  {
    if t == 0 then
      forall k: nat :: Interval(k) >= 2 ==> !Shows(sign, c, storm, k)
    else
      exists k: nat :: Interval(k) == t >= 2 && Shows(sign, c, storm, k)
        && forall j: nat :: j < k ==> !Shows(sign, c, storm, j)
  }

  /** No worker is about to store when the flag is looked at after round k. */
  predicate Settled(c: Chain, storm: nat -> seq<Event>, k: nat)
    requires WellFormed(c)
  {
    FailingCount(Stormed(c, storm, k + 1).workers) == 0
  }

  lemma {:induction false} IntervalsShrink(j: nat, k: nat)
    requires j <= k
    ensures Interval(k) <= Interval(j)
    ensures j < k && Interval(j) >= 1 ==> Interval(k) < Interval(j)
    decreases k
  {
    if j < k {
      IntervalsShrink(j, k - 1);
    }
  }

  /** No lost message is found again from c to c'. */
  predicate NoneFound(c: Chain, c': Chain) {
    c.left.dropped <= c'.left.dropped && c.right.dropped <= c'.right.dropped
  }

  lemma {:induction false} PlayKeepsFlag(c: Chain, es: seq<Event>)
    requires WellFormed(c) && FlagInv(c)
    ensures FlagInv(Play(c, es)) && Play(c, es).pending == c.pending && Play(c, es).lost == c.lost
    ensures NoneFound(c, Play(c, es))
    decreases |es|
  {
    hide FlagInv;
    if es != [] {
      var next := if Plays(c, es[0]) then Apply(c, es[0]) else c;
      if Plays(c, es[0]) {
        StepKeepsFlag(c, es[0]);
        LossExact(c, es[0], Left);
        LossExact(c, es[0], Right);
      }
      PlayKeepsFlag(next, es[1..]);
    }
  }

  lemma {:induction false} StormedFlag(c: Chain, storm: nat -> seq<Event>, k: nat)
    requires WellFormed(c)
    ensures FlagInv(Stormed(c, storm, k)) && Stormed(c, storm, k).pending == FailingCount(c.workers)
    ensures Stormed(c, storm, k).lost == Losses(c) && NoneFound(c, Stormed(c, storm, k))
    decreases k
  {
    if k > 0 {
      StormedFlag(c, storm, k - 1);
      PlayKeepsFlag(Stormed(c, storm, k - 1), storm(k - 1));
    }
  }

  /** Cleared while no worker was about to store, the flag goes up only after a message was lost; and it shows
      every loss when no worker is about to store. */
  lemma SaturatesMeansFails(c: Chain, storm: nat -> seq<Event>, k: nat)
    requires WellFormed(c) && FailingCount(c.workers) == 0
    ensures Shows(FlagUp, c, storm, k) ==> Shows(MessageLost, c, storm, k)
    ensures Settled(c, storm, k) ==> (Shows(FlagUp, c, storm, k) <==> Shows(MessageLost, c, storm, k))
  {
    StormedFlag(c, storm, k + 1);
    LostIsMore(c, Stormed(c, storm, k + 1));
  }

  /** The sweep from state c comes to round k: no storm before has shown the flag. */
  ghost predicate ComesTo(c: Chain, storm: nat -> seq<Event>, k: nat)
    requires WellFormed(c)
  {
    Interval(k) >= 2 && forall j: nat :: j < k ==> !Shows(FlagUp, c, storm, j)
  }

  lemma EarlierRounds(c: Chain, storm: nat -> seq<Event>, k: nat, j: nat)
    requires WellFormed(c) && j <= k && Interval(k) >= 2
    requires forall i: nat :: i < k ==> !Shows(FlagUp, c, storm, i)
    ensures ComesTo(c, storm, j)
  {
    IntervalsShrink(j, k);
  }

  /** Where the flag is the first to show, so is a lost message. */
  lemma FlagFirstIsFailureFirst(c: Chain, storm: nat -> seq<Event>, t: nat)
    requires WellFormed(c) && FailingCount(c.workers) == 0
    requires forall k: nat :: ComesTo(c, storm, k) ==> Settled(c, storm, k)
    requires IsFirst(FlagUp, c, storm, t)
    ensures IsFirst(MessageLost, c, storm, t)
  {
    hide Shows, Settled, ComesTo, Interval;
    if t == 0 {
      forall k: nat | Interval(k) >= 2 ensures !Shows(MessageLost, c, storm, k) {
        NoFlagSoFar(c, storm, k);
        EarlierRounds(c, storm, k, k);
        SaturatesMeansFails(c, storm, k);
      }
    } else {
      var k: nat :| Interval(k) == t >= 2 && Shows(FlagUp, c, storm, k)
        && forall j: nat :: j < k ==> !Shows(FlagUp, c, storm, j);
      SaturatesMeansFails(c, storm, k);
      forall j: nat | j < k ensures !Shows(MessageLost, c, storm, j) {
        EarlierRounds(c, storm, k, j);
        SaturatesMeansFails(c, storm, j);
      }
    }
  }

  lemma NoFlagSoFar(c: Chain, storm: nat -> seq<Event>, k: nat)
    requires WellFormed(c) && Interval(k) >= 2 && IsFirst(FlagUp, c, storm, 0)
    ensures forall j: nat :: j <= k ==> !Shows(FlagUp, c, storm, j)
  {
    hide Shows;
    forall j: nat | j <= k ensures !Shows(FlagUp, c, storm, j) {
      IntervalsShrink(j, k);
    }
  }

  /** And the other way round. */
  lemma FailureFirstIsFlagFirst(c: Chain, storm: nat -> seq<Event>, t: nat)
    requires WellFormed(c) && FailingCount(c.workers) == 0
    requires forall k: nat :: ComesTo(c, storm, k) ==> Settled(c, storm, k)
    requires IsFirst(MessageLost, c, storm, t)
    ensures IsFirst(FlagUp, c, storm, t)
  {
    hide Shows, Settled, ComesTo, Interval;
    forall k: nat | Shows(FlagUp, c, storm, k) ensures Shows(MessageLost, c, storm, k) {
      SaturatesMeansFails(c, storm, k);
    }
    if t != 0 {
      var k: nat :| Interval(k) == t >= 2 && Shows(MessageLost, c, storm, k)
        && forall j: nat :: j < k ==> !Shows(MessageLost, c, storm, j);
      EarlierRounds(c, storm, k, k);
      SaturatesMeansFails(c, storm, k);
    }
  }

  /** So when no worker is about to store at the clearing nor at any look the sweep takes at the flag, its
      threshold is the first interval at which a message was lost. */
  lemma ThresholdIsFirstFailure(c: Chain, storm: nat -> seq<Event>, t: nat)
    requires WellFormed(c) && FailingCount(c.workers) == 0
    requires forall k: nat :: ComesTo(c, storm, k) ==> Settled(c, storm, k)
    ensures IsFirst(FlagUp, c, storm, t) <==> IsFirst(MessageLost, c, storm, t)
  {
    hide IsFirst, Settled, ComesTo;
    if IsFirst(FlagUp, c, storm, t) {
      FlagFirstIsFailureFirst(c, storm, t);
    } else if IsFirst(MessageLost, c, storm, t) {
      FailureFirstIsFlagFirst(c, storm, t);
    }
  }

  /** A sweep from state c is over after so many rounds: at the first that shows the flag, or below interval 2. */
  ghost predicate EndsAfter(c: Chain, storm: nat -> seq<Event>, rounds: nat)
    requires WellFormed(c)
  {
    && (forall j: nat :: j + 1 < rounds ==> !Shows(FlagUp, c, storm, j))
    && (rounds > 0 ==> Interval(rounds - 1) >= 2)
    && ((rounds > 0 && Shows(FlagUp, c, storm, rounds - 1)) || Interval(rounds) < 2)
  }

  /** One iteration of the search: its rounds and its threshold. */
  datatype Iteration = Iteration(rounds: nat, threshold: nat)

  lemma NextIs(k: nat, x: nat, y: nat)
    requires Interval(k) == x && 10 * y <= 9 * x < 10 * y + 10
    ensures Interval(k + 1) == y
  {
    IntervalLaw(k);
  }

  lemma FirstIntervals()
    ensures Interval(28) == 101
  {
    hide Interval;
    IntervalLaw(0);
    NextIs(0, 2000, 1800); NextIs(1, 1800, 1620); NextIs(2, 1620, 1458); NextIs(3, 1458, 1312);
    NextIs(4, 1312, 1180); NextIs(5, 1180, 1062); NextIs(6, 1062, 955); NextIs(7, 955, 859);
    NextIs(8, 859, 773); NextIs(9, 773, 695); NextIs(10, 695, 625); NextIs(11, 625, 562);
    NextIs(12, 562, 505); NextIs(13, 505, 454); NextIs(14, 454, 408); NextIs(15, 408, 367);
    NextIs(16, 367, 330); NextIs(17, 330, 297); NextIs(18, 297, 267); NextIs(19, 267, 240);
    NextIs(20, 240, 216); NextIs(21, 216, 194); NextIs(22, 194, 174); NextIs(23, 174, 156);
    NextIs(24, 156, 140); NextIs(25, 140, 126); NextIs(26, 126, 113); NextIs(27, 113, 101);
  }

  lemma LastIntervals()
    requires Interval(28) == 101
    ensures Interval(54) == 2 && Interval(55) == 1
  {
    hide Interval;
    NextIs(28, 101, 90); NextIs(29, 90, 81); NextIs(30, 81, 72); NextIs(31, 72, 64);
    NextIs(32, 64, 57); NextIs(33, 57, 51); NextIs(34, 51, 45); NextIs(35, 45, 40);
    NextIs(36, 40, 36); NextIs(37, 36, 32); NextIs(38, 32, 28); NextIs(39, 28, 25);
    NextIs(40, 25, 22); NextIs(41, 22, 19); NextIs(42, 19, 17); NextIs(43, 17, 15);
    NextIs(44, 15, 13); NextIs(45, 13, 11); NextIs(46, 11, 9); NextIs(47, 9, 8);
    NextIs(48, 8, 7); NextIs(49, 7, 6); NextIs(50, 6, 5); NextIs(51, 5, 4);
    NextIs(52, 4, 3); NextIs(53, 3, 2); NextIs(54, 2, 1);
  }

  /** A sweep has at most 55 rounds, and exactly 55 when no storm shows the flag. */
  lemma RoundsBounded(c: Chain, storm: nat -> seq<Event>, rounds: nat)
    requires WellFormed(c) && EndsAfter(c, storm, rounds)
    ensures rounds <= 55
    ensures (forall k: nat :: Interval(k) >= 2 ==> !Shows(FlagUp, c, storm, k)) ==> rounds == 55
  {
    hide Shows, Interval;
    FirstIntervals();
    LastIntervals();
    if rounds > 55 {
      IntervalsShrink(55, rounds - 1);
    } else if rounds < 55 {
      IntervalsShrink(rounds, 54);
    }
  }

  /** The state in which the iteration after these clears the flag. */
  function AfterIterations(c: Chain, storms: nat -> nat -> seq<Event>, pauses: nat -> seq<Event>,
                           its: seq<Iteration>): (c': Chain)
    requires WellFormed(c)
    ensures WellFormed(c') && |c'.mb| == |c.mb|
    decreases |its|
  {
    if its == [] then c
    else
      var n := |its| - 1;
      Play(Stormed(AfterIterations(c, storms, pauses, its[..n]), storms(n), its[n].rounds), pauses(n))
  }

  /** Each iteration is the sweep from the state that the ones before it leave. */
  ghost predicate AreSweeps(c: Chain, storms: nat -> nat -> seq<Event>, pauses: nat -> seq<Event>, its: seq<Iteration>)
    requires WellFormed(c)
    decreases |its|
  {
    its == [] ||
    (var n := |its| - 1;
     var start := AfterIterations(c, storms, pauses, its[..n]);
     && AreSweeps(c, storms, pauses, its[..n])
     && EndsAfter(start, storms(n), its[n].rounds) && IsFirst(FlagUp, start, storms(n), its[n].threshold))
  }

  lemma OneMoreSweep(c: Chain, storms: nat -> nat -> seq<Event>, pauses: nat -> seq<Event>,
                     its: seq<Iteration>, it: Iteration)
    requires WellFormed(c) && AreSweeps(c, storms, pauses, its)
    requires var start := AfterIterations(c, storms, pauses, its);
             EndsAfter(start, storms(|its|), it.rounds) && IsFirst(FlagUp, start, storms(|its|), it.threshold)
    ensures AreSweeps(c, storms, pauses, its + [it])
    ensures AfterIterations(c, storms, pauses, its + [it])
      == Play(Stormed(AfterIterations(c, storms, pauses, its), storms(|its|), it.rounds), pauses(|its|))
  {
    hide EndsAfter, IsFirst;
    assert (its + [it])[..|its|] == its;
  }

  /** Iteration k starts from what the ones before it leave. */
  lemma {:induction false} SweepOf(c: Chain, storms: nat -> nat -> seq<Event>, pauses: nat -> seq<Event>,
                                   its: seq<Iteration>, k: nat)
    requires WellFormed(c) && AreSweeps(c, storms, pauses, its) && k < |its|
    ensures IsFirst(FlagUp, AfterIterations(c, storms, pauses, its[..k]), storms(k), its[k].threshold)
    decreases |its|
  {
    hide IsFirst, EndsAfter, AfterIterations;
    var n := |its| - 1;
    if k < n {
      SweepOf(c, storms, pauses, its[..n], k);
      assert its[..n][..k] == its[..k];
    }
  }

  /** After this pause, in whatever state n workers are before, no worker is about to store. */
  ghost predicate PauseSettles(n: nat, pause: seq<Event>) {
    forall c: Chain :: WellFormed(c) && |c.mb| == n ==> FailingCount(Play(c, pause).workers) == 0
  }

  lemma {:induction false} NoneFailing(ws: seq<Worker>)
    requires forall i :: 0 <= i < |ws| ==> !ws[i].Failing?
    ensures FailingCount(ws) == 0
    decreases |ws|
  {
    if ws != [] {
      NoneFailing(ws[..|ws| - 1]);
    }
  }

  lemma {:induction false} FlagsFrom(c: Chain, i: nat, pause: seq<Event>)
    requires WellFormed(c) && i <= |c.mb| && |pause| == |c.mb| - i
    requires forall k :: 0 <= k < |pause| ==> pause[k] == Flag(i + k)
    requires forall j :: 0 <= j < i ==> !c.workers[j].Failing?
    ensures FailingCount(Play(c, pause).workers) == 0
    decreases |pause|
  {
    if pause == [] {
      NoneFailing(c.workers);
    } else {
      FlagsFrom(if Plays(c, pause[0]) then Apply(c, pause[0]) else c, i + 1, pause[1..]);
    }
  }

  /** There are such pauses: every worker in turn makes its store, if it was about to. */
  lemma FlagsSettle(n: nat)
    ensures PauseSettles(n, seq(n, i requires 0 <= i < n => Flag(i)))
  {
    var pause := seq(n, i requires 0 <= i < n => Flag(i));
    forall c: Chain | WellFormed(c) && |c.mb| == n ensures FailingCount(Play(c, pause).workers) == 0 {
      FlagsFrom(c, 0, pause);
    }
  }

  lemma StartSettled(c: Chain, storms: nat -> nat -> seq<Event>, pauses: nat -> seq<Event>, its: seq<Iteration>)
    requires WellFormed(c) && FailingCount(c.workers) == 0
    requires forall j: nat :: j < |its| ==> PauseSettles(|c.mb|, pauses(j))
    ensures FailingCount(AfterIterations(c, storms, pauses, its).workers) == 0
  {
    hide Stormed, Play, FailingCount;
    if its != [] {
      var n := |its| - 1;
      var last := Stormed(AfterIterations(c, storms, pauses, its[..n]), storms(n), its[n].rounds);
      assert PauseSettles(|c.mb|, pauses(n));
      assert FailingCount(Play(last, pauses(n)).workers) == 0;
    }
  }

  /** When every pause lets the workers finish, one that was about to store never spoils the next iteration: each
      threshold is the first interval of its sweep at which a message was lost, provided no worker is about to
      store when the sweep looks at the flag. */
  lemma PausesKeepThresholds(c: Chain, storms: nat -> nat -> seq<Event>, pauses: nat -> seq<Event>,
                             its: seq<Iteration>, k: nat)
    requires WellFormed(c) && FailingCount(c.workers) == 0 && AreSweeps(c, storms, pauses, its) && k < |its|
    requires forall j: nat :: j < |its| ==> PauseSettles(|c.mb|, pauses(j))
    requires var start := AfterIterations(c, storms, pauses, its[..k]);
             forall j: nat :: ComesTo(start, storms(k), j) ==> Settled(start, storms(k), j)
    ensures IsFirst(MessageLost, AfterIterations(c, storms, pauses, its[..k]), storms(k), its[k].threshold)
  {
    hide IsFirst, AreSweeps, ComesTo, Settled, AfterIterations, FailingCount, PauseSettles;
    SweepOf(c, storms, pauses, its, k);
    StartSettled(c, storms, pauses, its[..k]);
    ThresholdIsFirstFailure(AfterIterations(c, storms, pauses, its[..k]), storms(k), its[k].threshold);
  }

  /** All iterations, and the worst of their thresholds. */
  method Search(chain: Storm, iterations: nat, storms: nat -> nat -> seq<Event>, pauses: nat -> seq<Event>)
    returns (its: seq<Iteration>, worst: nat)
    requires chain.Valid()
    modifies chain
    ensures chain.Valid() && |its| == iterations && AreSweeps(old(chain.State()), storms, pauses, its)
    ensures chain.State() == AfterIterations(old(chain.State()), storms, pauses, its)
    ensures forall i :: 0 <= i < iterations ==> its[i].threshold <= worst
    ensures worst == 0 || exists i :: 0 <= i < iterations && its[i].threshold == worst
  {
    hide EndsAfter, IsFirst;
    its, worst := [], 0;
    for i := 0 to iterations
      invariant chain.Valid() && |its| == i && AreSweeps(old(chain.State()), storms, pauses, its)
      invariant chain.State() == AfterIterations(old(chain.State()), storms, pauses, its)
      invariant forall j :: 0 <= j < i ==> its[j].threshold <= worst
      invariant worst == 0 || exists j :: 0 <= j < i && its[j].threshold == worst
    {
      var threshold, rounds := Sweep(chain, storms(i));
      OneMoreSweep(old(chain.State()), storms, pauses, its, Iteration(rounds, threshold));
      chain.Storming(pauses(i));
      its := its + [Iteration(rounds, threshold)];
      if threshold > worst {
        worst := threshold;
        assert its[i].threshold == worst;
      }
    }
  }

  /** A sweep that meets the flag in its last round. */
  lemma SweepFound(c: Chain, storm: nat -> seq<Event>, rounds: nat)
    requires WellFormed(c) && rounds > 0 && Interval(rounds - 1) >= 2 && Shows(FlagUp, c, storm, rounds - 1)
    requires forall j: nat :: j < rounds - 1 ==> !Shows(FlagUp, c, storm, j)
    ensures EndsAfter(c, storm, rounds) && IsFirst(FlagUp, c, storm, Interval(rounds - 1))
  {
    hide Shows, Interval;
  }

  /** A sweep that runs through all intervals. */
  lemma SweepDone(c: Chain, storm: nat -> seq<Event>, rounds: nat)
    requires WellFormed(c) && Interval(rounds) < 2 && (rounds > 0 ==> Interval(rounds - 1) >= 2)
    requires forall j: nat :: j < rounds ==> !Shows(FlagUp, c, storm, j)
    ensures EndsAfter(c, storm, rounds) && IsFirst(FlagUp, c, storm, 0)
  {
    hide Shows;
    forall j: nat | Interval(j) >= 2
      ensures !Shows(FlagUp, c, storm, j)
    {
      if j >= rounds {
        IntervalsShrink(rounds, j);
      }
    }
  }

  /** One iteration: the flag is cleared, then shorter and shorter intervals until the chain saturates. */
  method Sweep(chain: Storm, storm: nat -> seq<Event>) returns (threshold: nat, rounds: nat)
    requires chain.Valid()
    modifies chain
    ensures chain.Valid() && chain.State() == Stormed(old(chain.State()), storm, rounds)
    ensures EndsAfter(old(chain.State()), storm, rounds)
    ensures IsFirst(FlagUp, old(chain.State()), storm, threshold)
  {
    hide EndsAfter, IsFirst, Apply, Play;
    ghost var c := chain.State();
    chain.ClearFlag();
    threshold := 0;
    var interval := 2000;
    rounds := 0;
    while interval >= 2
      invariant interval == Interval(rounds) && threshold == 0 && (rounds > 0 ==> Interval(rounds - 1) >= 2)
      invariant chain.Valid() && chain.State() == Stormed(c, storm, rounds)
      invariant forall j: nat :: j < rounds ==> !Shows(FlagUp, c, storm, j)
      decreases interval
    {
      chain.Storming(storm(rounds));
      if chain.saturated {
        if threshold == 0 {
          threshold := interval;
        }
        rounds := rounds + 1;
        SweepFound(c, storm, rounds);
        return;
      }
      interval := interval - (interval + 9) / 10;
      rounds := rounds + 1;
    }
    SweepDone(c, storm, rounds);
  }
}
