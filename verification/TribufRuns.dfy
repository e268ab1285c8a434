/** A producer and its consumers over one triple buffer, in any order of their critical sections. */
module TribufRuns {

  import opened Tribuf

  /** One front swap: the frame it brought, and how many frames and swaps since the last frame there were before it. */
  datatype Take = Take(frame: nat, published: nat, swaps: nat)

  /**
   * The handler, the threads that hold a token, the frame in each buffer, the frames published, the
   * front swaps since the last publication, and all the takes.
   */
  datatype System = System(h: Handler, granted: seq<nat>, frameIn: map<nat, nat>, published: nat, swaps: nat,
                           taken: seq<Take>)

  datatype Event = Publish | WaitReady(thread: nat, immediate: bool) | TimeOut(thread: nat) | SwapFront(thread: nat)

  predicate Start(s: System) {
    && s.h.front != s.h.back && s.h.back != s.h.orphan && s.h.front != s.h.orphan
    && s.h.cnt == 0 && s.h.queue == []
    && s == System(s.h, [], map[s.h.front := 0, s.h.back := 0, s.h.orphan := 0], 0, 0, [])
  }

  predicate Sound(s: System) {
    && Consistent(s.h) && s.h.cnt <= 1
    && s.h.front != s.h.back && s.h.back != s.h.orphan && s.h.front != s.h.orphan
    && s.frameIn.Keys == {s.h.front, s.h.back, s.h.orphan}
  }

  /** A thread in the queue does nothing but time out. */
  predicate Possible(s: System, e: Event) {
    match e
    case Publish => true
    case WaitReady(thread, _) => thread !in s.h.queue
    case TimeOut(thread) => thread in s.h.queue
    case SwapFront(thread) => thread !in s.h.queue
  }

  /** The next frame goes into the back buffer, which is then swapped out. */
  function Published(s: System): System
    requires Sound(s)
  {
    var (h, woken) := SwappedBack(s.h);
    s.(h := h, granted := s.granted + woken, frameIn := s.frameIn[s.h.back := s.published + 1],
       published := s.published + 1, swaps := 0)
  }

  function Swapped(s: System, thread: nat): System
    requires Sound(s)
  {
    s.(h := SwappedFront(s.h), granted := Without(s.granted, thread), swaps := s.swaps + 1,
       taken := s.taken + [Take(s.frameIn[s.h.orphan], s.published, s.swaps)])
  }

  function Next(s: System, e: Event): System
    requires Sound(s) && Possible(s, e)
  {
    match e
    case Publish => Published(s)
    case WaitReady(thread, immediate) =>
      var (h, msg) := Waited(s.h, thread, immediate);
      s.(h := h, granted := if msg == MsgOk then s.granted + [thread] else s.granted)
    case TimeOut(thread) => s.(h := GaveUp(s.h, thread))
    case SwapFront(thread) => Swapped(s, thread)
  }

  /** No publication while a thread holds a token it has not yet used, and no swap without a token. */
  predicate Careful(s: System, e: Event) {
    match e
    case Publish => s.granted == []
    case SwapFront(thread) => thread in s.granted
    case _ => true
  }

  // ---- every interleaving ----

  predicate Fresh(s: System)
    requires Sound(s)
  {
    s.frameIn[s.h.orphan] > s.frameIn[s.h.front]
  }

  function LastFrame(taken: seq<Take>): nat {
    if taken == [] then 0 else taken[|taken| - 1].frame
  }

  /** One of front and orphan holds the newest frame; every swap since the publication has moved it to the other. */
  predicate Ledger(s: System)
    requires Sound(s)
  {
    && s.frameIn[s.h.front] == LastFrame(s.taken)
    && (s.published == 0 ==> s.frameIn[s.h.front] == s.frameIn[s.h.orphan] == 0)
    && (s.published > 0 && s.swaps % 2 == 0 ==> s.frameIn[s.h.front] < s.frameIn[s.h.orphan] == s.published)
    && (s.published > 0 && s.swaps % 2 == 1 ==> s.frameIn[s.h.orphan] < s.frameIn[s.h.front] == s.published)
  }

  /** What each take says of itself. */
  predicate Honest(taken: seq<Take>, i: nat)
    requires i < |taken|
  {
    var t, before := taken[i], LastFrame(taken[..i]);
    && (t.frame > before <==> t.published > 0 && t.swaps % 2 == 0)
    && (t.published > 0 && t.swaps % 2 == 0 ==> t.frame == t.published)
    && (t.swaps > 0 ==> i > 0 && taken[i - 1].swaps == t.swaps - 1)
  }

  predicate Book(s: System) {
    && (forall i :: 0 <= i < |s.taken| ==> Honest(s.taken, i))
    && (s.swaps > 0 ==> s.taken != [] && s.taken[|s.taken| - 1].swaps == s.swaps - 1)
  }

  predicate Inv(s: System) {
    Sound(s) && Ledger(s) && Book(s)
  }

  lemma StartInv(s: System)
    requires Start(s)
    ensures Inv(s)
  {
  }

  function Buffers3(h: Handler): multiset<nat> {
    multiset{h.front, h.back, h.orphan}
  }

  lemma PublishKeepsSound(s: System)
    requires Sound(s)
    ensures Sound(Published(s)) && Buffers3(Published(s).h) == Buffers3(s.h)
  {
  }

  lemma SwapKeepsSound(s: System, thread: nat)
    requires Sound(s)
    ensures Sound(Swapped(s, thread)) && Buffers3(Swapped(s, thread).h) == Buffers3(s.h)
  {
  }

  lemma StepKeepsSound(s: System, e: Event)
    requires Sound(s) && Possible(s, e)
    ensures Sound(Next(s, e)) && Buffers3(Next(s, e).h) == Buffers3(s.h)
  {
    match e {
      case Publish => PublishKeepsSound(s);
      case SwapFront(thread) => SwapKeepsSound(s, thread);
      case WaitReady(_, _) =>
      case TimeOut(thread) => WithoutOne(s.h.queue, thread);
    }
  }

  lemma PublishKeepsLedger(s: System)
    requires Inv(s)
    ensures Sound(Published(s)) && Ledger(Published(s)) && Fresh(Published(s))
  {
  }

  lemma SwapKeepsLedger(s: System, thread: nat)
    requires Inv(s) && thread !in s.h.queue
    ensures Sound(Swapped(s, thread)) && Ledger(Swapped(s, thread))
  {
  }

  lemma HonestStays(taken: seq<Take>, t: Take, i: nat)
    requires i < |taken| && Honest(taken, i)
    ensures Honest(taken + [t], i)
  {
  }

  lemma SwapKeepsBook(s: System, thread: nat)
    requires Inv(s)
    ensures Book(Swapped(s, thread))
  {
    var t := Take(s.frameIn[s.h.orphan], s.published, s.swaps);
    forall i | 0 <= i < |s.taken| ensures Honest(s.taken + [t], i) {
      HonestStays(s.taken, t, i);
    }
    assert (s.taken + [t])[..|s.taken|] == s.taken;
    assert s.swaps % 2 == 0 || s.swaps % 2 == 1;
    assert Honest(s.taken + [t], |s.taken|);
  }

  /** Every critical section keeps the three buffers, the counter at most one, and the ledger. */
  lemma StepKeepsInv(s: System, e: Event)
    requires Inv(s) && Possible(s, e)
    ensures Inv(Next(s, e)) && Buffers3(Next(s, e).h) == Buffers3(s.h)
  {
    StepKeepsSound(s, e);
    match e {
      case Publish => PublishKeepsLedger(s);
      case SwapFront(thread) =>
        SwapKeepsLedger(s, thread);
        SwapKeepsBook(s, thread);
      case _ =>
    }
  }

  predicate RunPossible(s: System, run: seq<Event>)
    requires Inv(s)
    decreases |run|
  {
    run == [] || (Possible(s, run[0]) && (StepKeepsInv(s, run[0]); RunPossible(Next(s, run[0]), run[1..])))
  }

  function Run(s: System, run: seq<Event>): System
    requires Inv(s) && RunPossible(s, run)
    decreases |run|
  {
    if run == [] then s
    else
      StepKeepsInv(s, run[0]);
      Run(Next(s, run[0]), run[1..])
  }

  lemma {:induction false} RunKeepsInv(s: System, run: seq<Event>)
    requires Inv(s) && RunPossible(s, run)
    ensures Inv(Run(s, run)) && Buffers3(Run(s, run).h) == Buffers3(s.h)
    decreases |run|
  {
    if run != [] {
      StepKeepsInv(s, run[0]);
      RunKeepsInv(Next(s, run[0]), run[1..]);
    }
  }

  // ---- the order of the waiting threads ----

  /** The threads that a step wakes. */
  function WokenBy(s: System, e: Event): seq<nat>
    requires Sound(s)
  {
    if e.Publish? then SwappedBack(s.h).1 else []
  }

  /** The threads that start to wait in a step. */
  function ArrivedBy(s: System, e: Event): seq<nat> {
    if e.WaitReady? && Waited(s.h, e.thread, e.immediate).1 == Blocked then [e.thread] else []
  }

  function LeftBy(e: Event): seq<nat> {
    if e.TimeOut? then [e.thread] else []
  }

  /** The threads woken, those that started to wait, and those that gave up, over a run. */
  datatype Waiting = Waiting(woken: seq<nat>, arrived: seq<nat>, left: seq<nat>)

  function WaitingOf(s: System, run: seq<Event>): Waiting
    requires Inv(s) && RunPossible(s, run)
    decreases |run|
  {
    if run == [] then Waiting([], [], [])
    else
      StepKeepsInv(s, run[0]);
      var w := WaitingOf(Next(s, run[0]), run[1..]);
      Waiting(WokenBy(s, run[0]) + w.woken, ArrivedBy(s, run[0]) + w.arrived, LeftBy(run[0]) + w.left)
  }

  /** b is a with some elements taken out. */
  predicate Thinned(b: seq<nat>, a: seq<nat>) {
    b == [] || (a != [] && ((b[0] == a[0] && Thinned(b[1..], a[1..])) || Thinned(b, a[1..])))
  }

  lemma {:induction false} ThinnedMore(b: seq<nat>, p: seq<nat>, x: nat, q: seq<nat>)
    requires Thinned(b, p + q)
    ensures Thinned(b, p + [x] + q)
    decreases |p|
  {
    var a := p + [x] + q;
    if b == [] {
    } else if p == [] {
      assert p + q == q && a[1..] == q;
    } else {
      assert (p + q)[1..] == p[1..] + q && a[1..] == p[1..] + [x] + q;
      if b[0] == p[0] && Thinned(b[1..], p[1..] + q) {
        ThinnedMore(b[1..], p[1..], x, q);
      } else {
        ThinnedMore(b, p[1..], x, q);
      }
    }
  }

  lemma {:induction false} ThinnedLength(b: seq<nat>, a: seq<nat>)
    requires Thinned(b, a)
    ensures |b| <= |a| && (|b| == |a| ==> b == a)
    decreases |a|
  {
    if b != [] {
      if b[0] == a[0] && Thinned(b[1..], a[1..]) {
        ThinnedLength(b[1..], a[1..]);
        assert b == [b[0]] + b[1..] && a == [a[0]] + a[1..];
      } else {
        ThinnedLength(b, a[1..]);
      }
    }
  }

  lemma {:induction false} ThinnedSelf(a: seq<nat>)
    ensures Thinned(a, a)
  {
    if a != [] {
      ThinnedSelf(a[1..]);
    }
  }

  predicate TakesOut(q: seq<nat>, q': seq<nat>, i: nat) {
    i < |q| && q' == q[..i] + q[i + 1..]
  }

  /** A step appends to the queue, or wakes its first threads, or takes one out. */
  ghost predicate QueueEffect(q: seq<nat>, q': seq<nat>, woken: seq<nat>, arrived: seq<nat>, left: seq<nat>) {
    || (woken == [] && left == [] && q' == q + arrived)
    || (arrived == [] && left == [] && q == woken + q')
    || (woken == [] && arrived == [] && |left| == 1 && exists i: nat :: TakesOut(q, q', i) && left == [q[i]])
  }

  lemma StepQueue(s: System, e: Event)
    requires Sound(s) && Possible(s, e)
    ensures QueueEffect(s.h.queue, Next(s, e).h.queue, WokenBy(s, e), ArrivedBy(s, e), LeftBy(e))
  {
    if e.TimeOut? {
      WithoutOne(s.h.queue, e.thread);
      var i :| 0 <= i < |s.h.queue| && IsFirst(s.h.queue, e.thread, i)
        && Without(s.h.queue, e.thread) == s.h.queue[..i] + s.h.queue[i + 1..];
      assert TakesOut(s.h.queue, Next(s, e).h.queue, i);
    }
  }

  lemma {:induction false} ThinnedFront(w: seq<nat>, b: seq<nat>, a: seq<nat>)
    requires Thinned(b, a)
    ensures Thinned(w + b, w + a)
    decreases |w|
  {
    if w == [] {
      assert w + b == b && w + a == a;
    } else {
      ThinnedFront(w[1..], b, a);
      assert (w + b)[1..] == w[1..] + b && (w + a)[1..] == w[1..] + a;
    }
  }

  lemma Associates(a: seq<nat>, b: seq<nat>, c: seq<nat>)
    ensures (a + b) + c == a + (b + c)
  {
  }

  lemma TakenOut(q: seq<nat>, q': seq<nat>, i: nat, more: seq<nat>)
    requires TakesOut(q, q', i)
    ensures q' + more == q[..i] + (q[i + 1..] + more)
    ensures q[..i] + [q[i]] + (q[i + 1..] + more) == q + more
    ensures |q'| + 1 == |q|
  {
  }

  lemma WakesThin(q: seq<nat>, q': seq<nat>, woken: seq<nat>, x: seq<nat>, more: seq<nat>)
    requires q == woken + q' && Thinned(x, q' + more)
    ensures Thinned(woken + x, q + more)
  {
    hide Thinned;
    ThinnedFront(woken, x, q' + more);
    Associates(woken, q', more);
  }

  lemma LeavesThin(q: seq<nat>, q': seq<nat>, i: nat, x: seq<nat>, more: seq<nat>)
    requires TakesOut(q, q', i) && Thinned(x, q' + more)
    ensures Thinned(x, q + more)
  {
    hide Thinned;
    TakenOut(q, q', i, more);
    ThinnedMore(x, q[..i], q[i], q[i + 1..] + more);
  }

  /** A step before a run whose woken and waiting threads are x. */
  lemma EffectThins(q: seq<nat>, q': seq<nat>, woken: seq<nat>, arrived: seq<nat>, left: seq<nat>,
                    x: seq<nat>, more: seq<nat>)
    requires QueueEffect(q, q', woken, arrived, left) && Thinned(x, q' + more)
    ensures Thinned(woken + x, q + (arrived + more))
    ensures |woken| + |q'| + |left| == |q| + |arrived|
  {
    hide Thinned, TakesOut;
    assert [] + x == x && [] + more == more;
    if woken == [] && left == [] && q' == q + arrived {
      Associates(q, arrived, more);
    } else if arrived == [] && left == [] && q == woken + q' {
      WakesThin(q, q', woken, x, more);
    } else {
      var i: nat :| TakesOut(q, q', i);
      TakenOut(q, q', i, more);
      LeavesThin(q, q', i, x, more);
    }
  }

  /** Threads are woken in the order in which they started to wait, but for those that gave up. */
  lemma {:induction false} WokenInOrder(s: System, run: seq<Event>)
    requires Inv(s) && RunPossible(s, run)
    ensures var w := WaitingOf(s, run);
            && Thinned(w.woken + Run(s, run).h.queue, s.h.queue + w.arrived)
            && |w.woken| + |Run(s, run).h.queue| + |w.left| == |s.h.queue| + |w.arrived|
            && (w.left == [] ==> w.woken + Run(s, run).h.queue == s.h.queue + w.arrived)
    decreases |run|
  {
    hide Thinned, Inv, Next, WokenBy, ArrivedBy, LeftBy, QueueEffect, Possible, Sound;
    var w, z := WaitingOf(s, run), Run(s, run).h.queue;
    if run == [] {
      ThinnedSelf(s.h.queue);
      assert [] + s.h.queue == s.h.queue && s.h.queue + [] == s.h.queue;
    } else {
      SoundInv(s);
      StepKeepsInv(s, run[0]);
      var t := Next(s, run[0]);
      WokenInOrder(t, run[1..]);
      var v := WaitingOf(t, run[1..]);
      StepQueue(s, run[0]);
      EffectThins(s.h.queue, t.h.queue, WokenBy(s, run[0]), ArrivedBy(s, run[0]), LeftBy(run[0]),
        v.woken + z, v.arrived);
      assert WokenBy(s, run[0]) + (v.woken + z) == w.woken + z;
    }
    ThinnedLength(w.woken + z, s.h.queue + w.arrived);
  }

  lemma SoundInv(s: System)
    requires Inv(s)
    ensures Sound(s)
  {
  }

  /** In every reachable state the orphan is newer than the front exactly after an even number of swaps. */
  lemma FreshIsEven(s: System)
    requires Inv(s)
    ensures Fresh(s) <==> s.published > 0 && s.swaps % 2 == 0
  {
  }

  // ---- when consumers see every frame once, and the newest ----

  predicate Increasing(taken: seq<Take>) {
    forall i :: 0 <= i < |taken| ==> taken[i].frame > LastFrame(taken[..i])
  }

  /** Each swap was the first after a publication. */
  predicate FirstSwaps(taken: seq<Take>) {
    forall i :: 0 <= i < |taken| ==> taken[i].swaps == 0 && taken[i].published > 0
  }

  lemma GrownIsFirst(taken: seq<Take>, i: nat)
    requires i < |taken| && Increasing(taken) && forall k :: 0 <= k < |taken| ==> Honest(taken, k)
    ensures taken[i].swaps == 0 && taken[i].published > 0
  {
    assert Honest(taken, i);
    if i > 0 {
      assert Honest(taken, i - 1);
    }
  }

  /**
   * Over any run the consumers' frames grow strictly exactly when each front swap is the first after
   * a publication; and then each frame is the newest there is.
   */
  lemma IncreasingExact(s: System)
    requires Inv(s)
    ensures Increasing(s.taken) <==> FirstSwaps(s.taken)
    ensures FirstSwaps(s.taken) ==> forall i :: 0 <= i < |s.taken| ==> s.taken[i].frame == s.taken[i].published
  {
    if Increasing(s.taken) {
      forall i | 0 <= i < |s.taken| ensures s.taken[i].swaps == 0 && s.taken[i].published > 0 {
        GrownIsFirst(s.taken, i);
      }
    } else {
      var i :| 0 <= i < |s.taken| && s.taken[i].frame <= LastFrame(s.taken[..i]);
      assert Honest(s.taken, i);
    }
    forall i | 0 <= i < |s.taken| && FirstSwaps(s.taken) ensures s.taken[i].frame == s.taken[i].published {
      assert Honest(s.taken, i);
    }
  }

  // ---- careful runs ----

  /** Tokens there are: one unit of the counter, or threads that have been given one. */
  function Tokens(s: System): nat {
    (if s.h.cnt > 0 then 1 else 0) + |s.granted|
  }

  /** There is a token exactly while the front has not been swapped since the last publication. */
  predicate Balanced(s: System) {
    && Tokens(s) == (if s.published > 0 && s.swaps == 0 then 1 else 0)
    && s.swaps <= 1
    && FirstSwaps(s.taken)
  }

  lemma CarefulStep(s: System, e: Event)
    requires Inv(s) && Balanced(s) && Possible(s, e) && Careful(s, e)
    ensures Balanced(Next(s, e))
  {
  }

  predicate RunCareful(s: System, run: seq<Event>)
    requires Inv(s) && RunPossible(s, run)
    decreases |run|
  {
    run == [] || (Careful(s, run[0]) && (StepKeepsInv(s, run[0]); RunCareful(Next(s, run[0]), run[1..])))
  }

  lemma {:induction false} CarefulRun(s: System, run: seq<Event>)
    requires Inv(s) && Balanced(s) && RunPossible(s, run) && RunCareful(s, run)
    ensures Balanced(Run(s, run))
    decreases |run|
  {
    if run != [] {
      StepKeepsInv(s, run[0]);
      CarefulStep(s, run[0]);
      CarefulRun(Next(s, run[0]), run[1..]);
    }
  }

  /**
   * When no frame is published between taking a token and swapping, the consumers' frames grow
   * strictly and each is the newest; the counter is one exactly when the orphan is newer than the
   * front and nobody holds the token.
   */
  lemma CarefulFresh(s: System, run: seq<Event>)
    requires Start(s) && Inv(s) && RunPossible(s, run) && RunCareful(s, run)
    ensures var z := Run(s, run);
            && Inv(z) && Increasing(z.taken)
            && (forall i :: 0 <= i < |z.taken| ==> z.taken[i].frame == z.taken[i].published)
            && (z.h.cnt == 1 <==> Fresh(z) && z.granted == [])
            && |z.granted| <= 1
  {
    var z := Run(s, run);
    RunKeepsInv(s, run);
    CarefulRun(s, run);
    IncreasingExact(z);
    FreshIsEven(z);
  }

  /**
   * In a careful run the ready test announces an unclaimed new front or a waiting thread; so it tells
   * whether there is a new front exactly when there is neither a waiting thread nor a thread that
   * holds the token, or there are both.
   */
  lemma IsReadyExact(s: System, run: seq<Event>)
    requires Start(s) && Inv(s) && RunPossible(s, run) && RunCareful(s, run)
    ensures var z := Run(s, run);
            && Inv(z)
            && (Ready(z.h) <==> (Fresh(z) && z.granted == []) || z.h.queue != [])
            && ((Ready(z.h) <==> Fresh(z)) <==> (z.h.queue == [] <==> z.granted == []))
  {
    var z := Run(s, run);
    RunKeepsInv(s, run);
    CarefulRun(s, run);
    FreshIsEven(z);
  }

  /** A thread that waits makes the test answer yes although nothing was ever published. */
  lemma WaitingLooksReady(s: System, thread: nat)
    requires Start(s) && Inv(s)
    ensures var run := [WaitReady(thread, false)];
            && RunPossible(s, run) && RunCareful(s, run)
            && var z := Run(s, run);
            && Sound(z) && Ready(z.h) && !Fresh(z) && z.h.queue == [thread]
  {
    var e := WaitReady(thread, false);
    StepKeepsInv(s, e);
    var z := Next(s, e);
    assert RunPossible(z, []) && RunCareful(z, []) && Run(z, []) == z;
    assert [e][1..] == [];
  }

  /** A thread that has taken the token and not yet swapped makes it answer no although there is a new front. */
  lemma ClaimedLooksStale(s: System, thread: nat)
    requires Start(s) && Inv(s)
    ensures var run := [Publish, WaitReady(thread, true)];
            && RunPossible(s, run) && RunCareful(s, run)
            && var z := Run(s, run);
            && Sound(z) && !Ready(z.h) && Fresh(z) && z.h.queue == [] && z.granted == [thread]
  {
    var e := WaitReady(thread, true);
    StepKeepsInv(s, Publish);
    var a := Next(s, Publish);
    StepKeepsInv(a, e);
    var z := Next(a, e);
    assert RunPossible(z, []) && RunCareful(z, []) && Run(z, []) == z;
    assert [e][1..] == [] && [Publish, e][1..] == [e];
    assert RunPossible(a, [e]) && RunCareful(a, [e]) && Run(a, [e]) == z;
  }

  /** A publication, a thread that takes the token, and a second publication before it swaps. */
  function Overtaken(s: System, thread: nat): System
    requires Start(s)
  {
    var a := Published(s);
    PublishKeepsSound(s);
    var b := Next(a, WaitReady(thread, true));
    StepKeepsSound(a, WaitReady(thread, true));
    Published(b)
  }

  /** With that token the thread swaps an old frame back in. */
  lemma CarelessRun(s: System, thread: nat)
    requires Start(s)
    ensures Sound(Overtaken(s, thread)) && thread in Overtaken(s, thread).granted
    ensures var d := Swapped(Overtaken(s, thread), thread);
            && Sound(d) && Possible(d, WaitReady(thread, true))
            && var e := Next(d, WaitReady(thread, true));
            && Sound(e) && thread in e.granted
            && Swapped(e, thread).taken == [Take(2, 2, 0), Take(0, 2, 1)]
  {
  }

  /** After a careless publication the test answers yes with nobody waiting, nobody granted and nothing new. */
  lemma CarelessLooksReady(s: System, thread: nat)
    requires Start(s)
    ensures Sound(Overtaken(s, thread))
    ensures var d := Swapped(Overtaken(s, thread), thread);
            Sound(d) && d.h.queue == [] && d.granted == [] && Ready(d.h) && !Fresh(d)
  {
  }
}
