/** Whole runs of the interrupt storm chain: order, conservation and the saturation flag. */
module StormRuns {
  import opened Prelude
  import opened StormChain
  import opened StormOrder

  /** Nothing lost or duplicated unseen: every injection is in the line or was dropped, and the
      line is in injection order. */
  ghost predicate LaneInv(l: Lane, line: seq<nat>) {
    && Increasing(line)
    && (forall x :: x in line ==> x < l.next)
    && multiset(line) + multiset(l.dropped) == multiset(Injected(l.next))
  }

  lemma EnterKeepsLane(l: Lane, line: seq<nat>)
    requires LaneInv(l, line)
    ensures LaneInv(l.(next := l.next + 1), line + [l.next])
    ensures LaneInv(l.(next := l.next + 1, dropped := l.dropped + [l.next]), line)
  {
    assert Injected(l.next + 1) == Injected(l.next) + [l.next];
    forall i, j | 0 <= i < j < |line + [l.next]|
      ensures (line + [l.next])[i] < (line + [l.next])[j]
    {
      assert line[i] in line;
    }
  }

  lemma LossKeepsLane(l: Lane, a: seq<nat>, x: nat, b: seq<nat>)
    requires LaneInv(l, a + [x] + b)
    ensures LaneInv(l.(dropped := l.dropped + [x]), a + b)
  {
    var line := a + [x] + b;
    assert multiset(line) == multiset(a + b) + multiset{x};
    forall i, j | 0 <= i < j < |a + b|
      ensures (a + b)[i] < (a + b)[j]
    {
      var i', j' := if i < |a| then i else i + 1, if j < |a| then j else j + 1;
      assert line[i'] == (a + b)[i] && line[j'] == (a + b)[j];
    }
    forall y | y in a + b
      ensures y < l.next
    {
      assert y in line;
    }
  }

  lemma EffectKeepsLane(f: Effect, l: Lane, line: seq<nat>, l': Lane, line': seq<nat>)
    requires HasEffect(f, l, line, l', line') && LaneInv(l, line)
    ensures LaneInv(l', line')
  {
    match f {
      case Same =>
      case Entered => EnterKeepsLane(l, line);
      case Refused => EnterKeepsLane(l, line);
      case Lost(a, x, b) => LossKeepsLane(l, a, x, b);
    }
  }

  /** The flag is up exactly when it was stored to since it was last cleared, and a store is either
      done or still to come for every message lost since. */
  ghost predicate FlagInv(c: Chain)
    requires WellFormed(c)
  {
    && c.saturated == (c.stores > 0)
    && c.lost + c.stores + FailingCount(c.workers) == Losses(c) + c.pending
  }

  lemma {:induction false} CountUpdate(ws: seq<Worker>, i: nat, w: Worker)
    requires i < |ws|
    ensures FailingCount(ws[i := w]) + (if ws[i].Failing? then 1 else 0)
         == FailingCount(ws) + (if w.Failing? then 1 else 0)
    decreases |ws|
  {
    var n := |ws| - 1;
    if i < n {
      CountUpdate(ws[..n], i, w);
      assert ws[i := w][..n] == ws[..n][i := w];
    } else {
      assert ws[i := w][..n] == ws[..n];
    }
  }

  lemma StepKeepsFlag(c: Chain, e: Event)
    requires WellFormed(c) && Enabled(c, e) && FlagInv(c)
    ensures FlagInv(Apply(c, e))
  {
    hide FailingCount;
    match e {
      case Fetch(i) => CountUpdate(c.workers, i, Holding(c.mb[i][0]));
      case Post(i) =>
        CountUpdate(c.workers, i, Waiting);
        CountUpdate(c.workers, i, Failing);
      case Flag(i) => CountUpdate(c.workers, i, Waiting);
      case _ =>
    }
  }

  ghost predicate Inv(c: Chain)
    requires WellFormed(c)
  {
    && (forall d :: LaneInv(LaneOf(c, d), Line(c, d)))
    && FlagInv(c)
  }

  lemma StepKeepsInv(c: Chain, e: Event)
    requires WellFormed(c) && Enabled(c, e) && Inv(c)
    ensures Inv(Apply(c, e))
  {
    forall d
      ensures LaneInv(LaneOf(Apply(c, e), d), Line(Apply(c, e), d))
    {
      var f := StepEffect(c, e, d);
      EffectKeepsLane(f, LaneOf(c, d), Line(c, d), LaneOf(Apply(c, e), d), Line(Apply(c, e), d));
    }
    StepKeepsFlag(c, e);
  }

  lemma {:induction false} RunKeepsInv(c: Chain, es: seq<Event>, c': Chain)
    requires WellFormed(c) && Inv(c) && Run(c, es, c')
    ensures WellFormed(c') && Inv(c') && |c'.mb| == |c.mb|
    decreases |es|
  {
    if |es| > 0 {
      StepKeepsInv(c, es[0]);
      RunKeepsInv(Apply(c, es[0]), es[1..], c');
    }
  }

  lemma {:induction false} NobodyFailing(n: nat)
    ensures FailingCount(seq(n, _ => Waiting)) == 0
    decreases n
  {
    if n > 0 {
      NobodyFailing(n - 1);
      assert seq(n, _ => Waiting)[..n - 1] == seq(n - 1, _ => Waiting);
    }
  }

  lemma {:induction false} JoinNothing(ss: seq<seq<nat>>)
    requires forall k :: 0 <= k < |ss| ==> ss[k] == []
    ensures Join(ss) == []
    decreases |ss|
  {
    if |ss| > 0 {
      JoinNothing(ss[1..]);
    }
  }

  lemma NothingYet(l: Lane)
    requires l.next == 0 && l.dropped == []
    ensures LaneInv(l, [])
  {
  }

  lemma EmptyInv(n: nat, size: nat)
    requires n > 0 && size > 0
    ensures WellFormed(Empty(n, size)) && Inv(Empty(n, size))
  {
    hide LaneInv, Stages, Join, FailingCount;
    var c := Empty(n, size);
    NobodyFailing(n);
    assert c.workers == seq(n, _ => Waiting);
    forall d
      ensures LaneInv(LaneOf(c, d), Line(c, d))
    {
      NothingOnTheWay(c, d);
      assert LaneOf(c, d) == Lane(0, [], [], seq(n, _ => [])) && Line(c, d) == [];
      NothingYet(LaneOf(c, d));
    }
  }

  /** c is a state that the chain of n workers can be in. */
  ghost predicate Reachable(n: nat, size: nat, c: Chain) {
    n > 0 && size > 0 && WellFormed(Empty(n, size)) && exists es :: Run(Empty(n, size), es, c)
  }

  lemma ReachableInv(n: nat, size: nat, c: Chain)
    requires Reachable(n, size, c)
    ensures WellFormed(c) && |c.mb| == n && Inv(c)
  {
    var es :| Run(Empty(n, size), es, c);
    EmptyInv(n, size);
    RunKeepsInv(Empty(n, size), es, c);
  }

  // ---- order and conservation ----

  lemma {:induction false} AtLeastIndex(s: seq<nat>, i: nat)
    requires Increasing(s) && i < |s|
    ensures s[i] >= i
    decreases i
  {
    if i > 0 {
      AtLeastIndex(s, i - 1);
      assert s[i - 1] < s[i];
    }
  }

  lemma {:induction false} AtMostIndex(s: seq<nat>, i: nat)
    requires Increasing(s) && i < |s| && s[|s| - 1] < |s|
    ensures s[i] <= i
    decreases |s| - i
  {
    if i + 1 < |s| {
      AtMostIndex(s, i + 1);
      assert s[i] < s[i + 1];
    }
  }

  lemma AllInOrder(s: seq<nat>, n: nat)
    requires Increasing(s) && (forall x :: x in s ==> x < n) && |s| == n
    ensures s == Injected(n)
  {
    forall i | 0 <= i < n
      ensures s[i] == i
    {
      assert s[n - 1] in s;
      AtLeastIndex(s, i);
      AtMostIndex(s, i);
    }
  }

  /** Messages of one direction leave the far end in injection order, each at most once, and every
      injection has left, is on its way or was dropped. */
  lemma NoOvertaking(n: nat, size: nat, c: Chain, d: Dir)
    requires Reachable(n, size, c)
    ensures WellFormed(c)
    ensures var l, onTheWay := LaneOf(c, d), Join(Stages(c, d));
            && Increasing(l.exited) && (forall x :: x in l.exited ==> x < l.next)
            && (forall x, y :: x in l.exited && y in onTheWay ==> x < y)
            && multiset(l.exited) + multiset(onTheWay) + multiset(l.dropped) == multiset(Injected(l.next))
  {
    hide Stages, Join, FlagInv;
    ReachableInv(n, size, c);
    var l, onTheWay := LaneOf(c, d), Join(Stages(c, d));
    var line := l.exited + onTheWay;
    assert LaneInv(l, line);
    forall i, j | 0 <= i < j < |l.exited|
      ensures l.exited[i] < l.exited[j]
    {
      assert line[i] < line[j];
    }
    forall x, y | x in l.exited && y in onTheWay
      ensures x < y
    {
      var i :| 0 <= i < |l.exited| && l.exited[i] == x;
      var j :| 0 <= j < |onTheWay| && onTheWay[j] == y;
      assert line[i] < line[|l.exited| + j];
    }
    forall x | x in l.exited
      ensures x < l.next
    {
      assert x in line;
    }
  }

  /** When the chain has drained and no post ever failed, everything that went in came out, in the
      order in which it went in. */
  lemma DrainedInOrder(n: nat, size: nat, c: Chain, d: Dir)
    requires Reachable(n, size, c) && WellFormed(c) && Drained(c) && LaneOf(c, d).dropped == []
    ensures LaneOf(c, d).exited == Injected(LaneOf(c, d).next)
  {
    hide Stages, Join;
    ReachableInv(n, size, c);
    NothingOnTheWay(c, d);
    var l, line := LaneOf(c, d), Line(c, d);
    assert LaneInv(l, line) && line == l.exited;
    assert multiset(line) == multiset(Injected(l.next));
    assert |line| == |multiset(line)| == |multiset(Injected(l.next))| == l.next;
    AllInOrder(line, l.next);
  }

  lemma NothingOnTheWay(c: Chain, d: Dir)
    requires WellFormed(c) && Drained(c)
    ensures Join(Stages(c, d)) == []
  {
    assert forall k :: 0 <= k < |c.mb| ==> Stages(c, d)[k] == AtStage(c, d, k) == [];
    JoinNothing(Stages(c, d));
  }

  // ---- the flag ----

  /** The step meets a full mailbox: the one a timer posts to, or the one of the next worker. */
  predicate MeetsFull(c: Chain, e: Event)
    requires WellFormed(c) && Enabled(c, e)
  {
    match e
    case Inject(Right) => |c.mb[0]| == c.size
    case Inject(Left) => |c.mb[|c.mb| - 1]| == c.size
    case Post(i) =>
      if c.workers[i].msg.dir == Right then i + 1 < |c.mb| && |c.mb[i + 1]| == c.size
      else i > 0 && |c.mb[i - 1]| == c.size
    case _ => false
  }

  /** How often the steps of a run meet a full mailbox. */
  function Hits(c: Chain, es: seq<Event>): nat
    requires WellFormed(c)
    decreases |es|
  {
    if es == [] || !Enabled(c, es[0]) then 0
    else (if MeetsFull(c, es[0]) then 1 else 0) + Hits(Apply(c, es[0]), es[1..])
  }

  /** The message that a step injects or posts. */
  function MessageOf(c: Chain, e: Event): Option<Msg>
    requires WellFormed(c) && Enabled(c, e)
  {
    match e
    case Inject(d) => Some(Msg(d, LaneOf(c, d).next))
    case Post(i) => Some(c.workers[i].msg)
    case _ => None
  }

  /** A step loses its message exactly when it meets a full mailbox, and every interrupt injects one. */
  lemma LossExact(c: Chain, e: Event, d: Dir)
    requires WellFormed(c) && Enabled(c, e)
    ensures var l, l' := LaneOf(c, d), LaneOf(Apply(c, e), d);
            && l'.next == l.next + (if e == Inject(d) then 1 else 0)
            && l'.dropped == l.dropped + (if MeetsFull(c, e) && MessageOf(c, e).value.dir == d
                                          then [MessageOf(c, e).value.id] else [])
  {
    match e {
      case Inject(d') => InjectLoss(c, d', d);
      case Post(i) => PostLoss(c, i, d);
      case _ =>
    }
  }

  lemma InjectLoss(c: Chain, d': Dir, d: Dir)
    requires WellFormed(c)
    ensures var l, l' := LaneOf(c, d), LaneOf(Apply(c, Inject(d')), d);
            && l'.next == l.next + (if d' == d then 1 else 0)
            && l'.dropped == l.dropped + (if MeetsFull(c, Inject(d')) && d' == d then [l.next] else [])
  {
  }

  lemma PostLoss(c: Chain, i: nat, d: Dir)
    requires WellFormed(c) && Enabled(c, Post(i))
    ensures var l, l' := LaneOf(c, d), LaneOf(Apply(c, Post(i)), d);
            && l'.next == l.next
            && l'.dropped == l.dropped + (if MeetsFull(c, Post(i)) && c.workers[i].msg.dir == d
                                          then [c.workers[i].msg.id] else [])
  {
  }

  predicate NoClear(es: seq<Event>) {
    Clear !in es
  }

  /** Over any run the messages lost are as many as the steps that met a full mailbox; none is ever found again. */
  lemma {:induction false} LossesCounted(c: Chain, es: seq<Event>, c': Chain)
    requires WellFormed(c) && Run(c, es, c')
    ensures Losses(c') == Losses(c) + Hits(c, es)
    ensures c.left.dropped <= c'.left.dropped && c.right.dropped <= c'.right.dropped
    decreases |es|
  {
    hide Apply;
    if es != [] {
      LossExact(c, es[0], Left);
      LossExact(c, es[0], Right);
      LossesCounted(Apply(c, es[0]), es[1..], c');
    }
  }

  /** In every reachable state the flag is up exactly when more messages were lost since it was cleared,
      counting workers that were about to store then, than workers are still about to store. */
  lemma FlagRight(n: nat, size: nat, c: Chain)
    requires Reachable(n, size, c)
    ensures c.saturated <==> Losses(c) + c.pending > c.lost + FailingCount(c.workers)
  {
    ReachableInv(n, size, c);
  }

  /** A message of either direction was lost on the way from c to c'. */
  predicate LostSince(c: Chain, c': Chain) {
    c'.left.dropped != c.left.dropped || c'.right.dropped != c.right.dropped
  }

  lemma LostIsMore(c: Chain, c': Chain)
    requires c.left.dropped <= c'.left.dropped && c.right.dropped <= c'.right.dropped
    ensures LostSince(c, c') <==> Losses(c') > Losses(c)
  {
  }

  /** Between clearings no step changes what was noted at the last one. */
  lemma {:induction false} NotesStay(c: Chain, es: seq<Event>, c': Chain)
    requires WellFormed(c) && FlagInv(c) && Run(c, es, c') && NoClear(es)
    ensures WellFormed(c') && FlagInv(c') && c'.pending == c.pending && c'.lost == c.lost
    decreases |es|
  {
    hide FlagInv;
    if |es| > 0 {
      StepKeepsFlag(c, es[0]);
      assert es[0] != Clear && NoClear(es[1..]);
      NotesStay(Apply(c, es[0]), es[1..], c');
    }
  }

  /** After any run from a clearing the flag is up exactly when the mailboxes that were met full, and the
      workers about to store at the clearing, are more than the workers now about to store. */
  lemma FlagSince(c: Chain, es: seq<Event>, c': Chain)
    requires WellFormed(c) && Run(Apply(c, Clear), es, c') && NoClear(es)
    ensures c'.saturated <==> Hits(Apply(c, Clear), es) + FailingCount(c.workers) > FailingCount(c'.workers)
    ensures LostSince(c, c') <==> Hits(Apply(c, Clear), es) > 0
  {
    hide Hits;
    var cleared := Apply(c, Clear);
    NotesStay(cleared, es, c');
    LossesCounted(cleared, es, c');
    LostIsMore(c, c');
  }

  /** With no worker caught between a failed post and its store, now or when the flag was cleared, the flag
      says exactly whether a message of either direction was lost since, that is whether a step met a full mailbox. */
  lemma FlagExact(c: Chain, es: seq<Event>, c': Chain)
    requires WellFormed(c) && Run(Apply(c, Clear), es, c') && NoClear(es)
    requires FailingCount(c.workers) == 0 && FailingCount(c'.workers) == 0
    ensures c'.saturated <==> LostSince(c, c')
    ensures c'.saturated <==> Hits(Apply(c, Clear), es) > 0
  {
    FlagSince(c, es, c');
  }

  /** Without that proviso it does not: when a worker is caught there, the flag goes up after the
      clearing though no message was lost since. */
  lemma StaleReport(c: Chain, i: nat) returns (c': Chain)
    requires WellFormed(c) && i < |c.mb| && c.workers[i].Failing?
    ensures Run(c, [Clear, Flag(i)], c') && c'.saturated && !LostSince(c, c')
  {
    var c1 := Apply(c, Clear);
    c' := Apply(c1, Flag(i));
    assert Run(c', [], c');
    RunOne(c1, Flag(i), [], c');
    RunOne(c, Clear, [Flag(i)], c');
  }

  /** Until the next clearing the flag does not go up unless a message was lost since this one. */
  ghost predicate NeverStale(c: Chain)
    requires WellFormed(c)
  {
    forall es, c' :: Run(Apply(c, Clear), es, c') && NoClear(es) && c'.saturated ==> LostSince(c, c')
  }

  lemma {:induction false} SomeFailing(ws: seq<Worker>) returns (i: nat)
    requires FailingCount(ws) > 0
    ensures i < |ws| && ws[i].Failing?
    decreases |ws|
  {
    var n := |ws| - 1;
    if ws[n].Failing? {
      i := n;
    } else {
      i := SomeFailing(ws[..n]);
    }
  }

  /** A clearing can be trusted exactly when it comes while no worker is between a failed post and its store. */
  lemma ClearingTrusted(c: Chain)
    requires WellFormed(c)
    ensures NeverStale(c) <==> FailingCount(c.workers) == 0
  {
    var cleared := Apply(c, Clear);
    if FailingCount(c.workers) == 0 {
      forall es, c' | Run(cleared, es, c') && NoClear(es) && c'.saturated
        ensures LostSince(c, c')
      {
        FlagSince(c, es, c');
      }
    } else {
      var i := SomeFailing(c.workers);
      var c' := StaleReport(c, i);
      RunOne(cleared, Flag(i), [], Apply(cleared, Flag(i)));
      assert Run(cleared, [Flag(i)], Apply(cleared, Flag(i))) && NoClear([Flag(i)]);
    }
  }

  /** Two workers with mailboxes of one message each, in the middle of such a run. */
  function Sample(mb0: seq<Msg>, mb1: seq<Msg>, w0: Worker, injected: nat, handled: seq<nat>): Chain {
    Chain(1, [mb0, mb1], [w0, Waiting], false, Lane(0, [], [], [[], []]),
          Lane(injected, [], [], [handled, []]), 0, 0, 0)
  }

  lemma SampleInject(mb1: seq<Msg>, k: nat, handled: seq<nat>)
    requires |mb1| <= 1
    ensures var c, c' := Sample([], mb1, Waiting, k, handled), Sample([Msg(Right, k)], mb1, Waiting, k + 1, handled);
            WellFormed(c) && Apply(c, Inject(Right)) == c'
  {
    assert [] + [Msg(Right, k)] == [Msg(Right, k)];
    assert [[], mb1][0 := [] + [Msg(Right, k)]] == [[Msg(Right, k)], mb1];
  }

  lemma SampleFetch(mb1: seq<Msg>, k: nat, handled: seq<nat>)
    requires |mb1| <= 1
    ensures var c := Sample([Msg(Right, k)], mb1, Waiting, k + 1, handled);
            var c' := Sample([], mb1, Holding(Msg(Right, k)), k + 1, handled + [k]);
            WellFormed(c) && Enabled(c, Fetch(0)) && Apply(c, Fetch(0)) == c'
  {
  }

  lemma SamplePost(k: nat, handled: seq<nat>)
    ensures var c := Sample([], [], Holding(Msg(Right, k)), k + 1, handled);
            var c' := Sample([], [Msg(Right, k)], Waiting, k + 1, handled);
            WellFormed(c) && Enabled(c, Post(0)) && Apply(c, Post(0)) == c'
  {
    var m := Msg(Right, k);
    assert [] + [m] == [m];
    assert [[], []][1 := [] + [m]] == [[], [m]];
    assert [Holding(m), Waiting][0 := Waiting] == [Waiting, Waiting];
  }

  lemma SampleStart()
    ensures Empty(2, 1) == Sample([], [], Waiting, 0, []) && WellFormed(Empty(2, 1))
  {
  }

  /** One message goes through the first worker. */
  lemma SampleRun(mb1: seq<Msg>, k: nat, handled: seq<nat>, es: seq<Event>, c': Chain)
    requires |mb1| <= 1
    requires Run(Sample([], mb1, Holding(Msg(Right, k)), k + 1, handled + [k]), es, c')
    ensures Run(Sample([], mb1, Waiting, k, handled), [Inject(Right), Fetch(0)] + es, c')
  {
    SampleInject(mb1, k, handled);
    SampleFetch(mb1, k, handled);
    RunOne(Sample([Msg(Right, k)], mb1, Waiting, k + 1, handled), Fetch(0), es, c');
    RunOne(Sample([], mb1, Waiting, k, handled), Inject(Right), [Fetch(0)] + es, c');
    assert [Inject(Right)] + ([Fetch(0)] + es) == [Inject(Right), Fetch(0)] + es;
  }

  lemma SecondMessageFails() returns (c: Chain)
    ensures Run(Sample([], [Msg(Right, 0)], Waiting, 1, [0]), [Inject(Right), Fetch(0)] + [Post(0)], c)
    ensures WellFormed(c) && |c.mb| == 2 && c.workers[0].Failing?
  {
    var full := Sample([], [Msg(Right, 0)], Holding(Msg(Right, 1)), 2, [0] + [1]);
    c := Apply(full, Post(0));
    RunOne(full, Post(0), [], c);
    SampleRun([Msg(Right, 0)], 1, [0], [Post(0)], c);
  }

  /** Such a worker does occur: two messages into mailboxes of one, the second before the first
      was fetched by the next worker. */
  lemma FailingOccurs() returns (c: Chain)
    ensures Reachable(2, 1, c) && WellFormed(c) && |c.mb| == 2 && c.workers[0].Failing?
  {
    hide Run, Apply;
    c := SecondMessageFails();
    FirstMessagePasses([Inject(Right), Fetch(0)] + [Post(0)], c);
    SampleStart();
  }

  lemma FirstMessagePasses(es: seq<Event>, c: Chain)
    requires Run(Sample([], [Msg(Right, 0)], Waiting, 1, [0]), es, c)
    ensures Run(Sample([], [], Waiting, 0, []), [Inject(Right), Fetch(0)] + ([Post(0)] + es), c)
  {
    hide Run, Apply;
    SamplePost(0, [0]);
    RunOne(Sample([], [], Holding(Msg(Right, 0)), 1, [0]), Post(0), es, c);
    assert [] + [0] == [0];
    SampleRun([], 0, [], [Post(0)] + es, c);
  }

  lemma RunOne(c: Chain, e: Event, es: seq<Event>, c': Chain)
    requires WellFormed(c) && Enabled(c, e) && Run(Apply(c, e), es, c')
    ensures Run(c, [e] + es, c')
  {
  }
}
