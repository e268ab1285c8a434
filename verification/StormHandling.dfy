/** Each worker sees the messages of one direction in injection order, and none of them twice. */
module StormHandling {
  import opened StormChain
  import opened StormOrder
  import opened StormRuns

  /** x has still to be fetched by the k-th worker of direction d. */
  ghost predicate Later(c: Chain, d: Dir, k: nat, x: nat)
    requires WellFormed(c) && k < |c.mb|
  {
    x in OfDir(c.mb[Station(|c.mb|, d, k)], d) || exists s :: 0 <= s < k && x in Stages(c, d)[s]
  }

  /** The log of the k-th worker is in order, and everything still to come is later. */
  ghost predicate HandledAt(c: Chain, d: Dir, k: nat)
    requires WellFormed(c) && k < |c.mb|
  {
    var h := LaneOf(c, d).handled[k];
    && Increasing(h)
    && (forall y :: y in h ==> y < LaneOf(c, d).next)
    && (forall x: nat, y :: y in h && Later(c, d, k, x) ==> y < x)
  }

  ghost predicate HandledInv(c: Chain, d: Dir)
    requires WellFormed(c)
  {
    forall k :: 0 <= k < |c.mb| ==> HandledAt(c, d, k)
  }

  lemma InjectLater(c: Chain, d: Dir, d': Dir, k: nat, x: nat)
    requires WellFormed(c) && k < |c.mb| && Later(Apply(c, Inject(d)), d', k, x)
    ensures Later(c, d', k, x) || (d == d' && x == LaneOf(c, d).next)
  {
    hide Stages, Join;
    var j, m := Station(|c.mb|, d, 0), Msg(d, LaneOf(c, d).next);
    if Room(c, j) {
      PutStages(c, j, m, d');
      LaneStages(Put(c, j, m), Apply(c, Inject(d)), d');
      OfDirAppend(c.mb[j], m, d');
    } else {
      LaneStages(c, Apply(c, Inject(d)), d');
    }
  }

  lemma FetchLater(c: Chain, i: nat, d: Dir, k: nat, x: nat)
    requires WellFormed(c) && Enabled(c, Fetch(i)) && k < |c.mb| && Later(Apply(c, Fetch(i)), d, k, x)
    ensures Later(c, d, k, x)
  {
    OneStation(c, Apply(c, Fetch(i)), d, i);
  }

  lemma {:induction false} InJoin(ss: seq<seq<nat>>, s: nat, x: nat)
    requires s < |ss| && x in ss[s]
    ensures x in Join(ss)
    decreases |ss|
  {
    if s > 0 {
      InJoin(ss[1..], s - 1, x);
    }
  }

  lemma AfterInLine(before: seq<nat>, m: nat, after: seq<nat>, x: nat)
    requires Increasing(before + [m] + after) && x in after
    ensures m < x
  {
    var line := before + [m] + after;
    var t :| 0 <= t < |after| && after[t] == x;
    assert line[|before|] == m && line[|before| + 1 + t] == x;
  }

  lemma FetchedStage(c: Chain, i: nat, d: Dir)
    requires WellFormed(c) && Enabled(c, Fetch(i)) && c.mb[i][0].dir == d
    ensures Stages(c, d)[Station(|c.mb|, d, i)] == [c.mb[i][0].id] + OfDir(c.mb[i][1..], d)
  {
  }

  lemma Regroup(out: seq<nat>, ahead: seq<nat>, m: nat, q: seq<nat>, behind: seq<nat>)
    ensures out + (ahead + ([m] + q) + behind) == (out + ahead) + [m] + (q + behind)
  {
  }

  lemma BehindStage(ss: seq<seq<nat>>, k: nat, out: seq<nat>, m: nat, q: seq<nat>, s: nat, x: nat)
    requires k < |ss| && ss[k] == [m] + q && Increasing(out + Join(ss))
    requires x in q || (s < k && x in ss[s])
    ensures m < x
  {
    JoinAt(ss, k);
    var ahead, behind := Join(ss[k + 1..]), Join(ss[..k]);
    Regroup(out, ahead, m, q, behind);
    if x !in q {
      InJoin(ss[..k], s, x);
    }
    AfterInLine(out + ahead, m, q + behind, x);
  }

  /** What a worker fetches comes before everything it has still to fetch. */
  lemma FetchedFirst(c: Chain, i: nat, d: Dir, x: nat)
    requires WellFormed(c) && Enabled(c, Fetch(i)) && c.mb[i][0].dir == d
    requires Increasing(Line(c, d)) && Later(Apply(c, Fetch(i)), d, Station(|c.mb|, d, i), x)
    ensures c.mb[i][0].id < x
  {
    var k, ss, q := Station(|c.mb|, d, i), Stages(c, d), OfDir(c.mb[i][1..], d);
    FetchedStage(c, i, d);
    FetchStages(c, i, d);
    var s: nat := 0;
    if x !in q {
      s :| 0 <= s < k && x in ss[s];
    }
    BehindStage(ss, k, LaneOf(c, d).exited, c.mb[i][0].id, q, s, x);
  }

  lemma PostAwayLater(c: Chain, i: nat, d: Dir, k: nat, x: nat)
    requires WellFormed(c) && Enabled(c, Post(i)) && k < |c.mb| && Later(Apply(c, Post(i)), d, k, x)
    requires var n, m := |c.mb|, c.workers[i].msg;
             var p := Station(n, m.dir, i);
             !(p + 1 < n && Room(c, Station(n, m.dir, p + 1)))
    ensures Later(c, d, k, x)
  {
    EmptyHandStages(c, Apply(c, Post(i)), i, d);
  }

  lemma ForwardQueue(c: Chain, i: nat, d: Dir, k: nat, x: nat)
    requires WellFormed(c) && Enabled(c, Post(i)) && k < |c.mb|
    requires var n, m := |c.mb|, c.workers[i].msg;
             var p := Station(n, m.dir, i);
             p + 1 < n && Room(c, Station(n, m.dir, p + 1))
    requires var w := Station(|c.mb|, d, k); x in OfDir(Apply(c, Post(i)).mb[w], d) && x !in OfDir(c.mb[w], d)
    ensures var m := c.workers[i].msg; m.dir == d && x == m.id && k == Station(|c.mb|, d, i) + 1
  {
    hide OfDir;
    var n, m := |c.mb|, c.workers[i].msg;
    var j := Station(n, m.dir, Station(n, m.dir, i) + 1);
    PostedQueues(c, i, j);
    OfDirAppend(c.mb[j], m, d);
  }

  /** A message that is passed on is at the back of one queue; the others stay. */
  lemma PostedQueues(c: Chain, i: nat, j: nat)
    requires WellFormed(c) && Enabled(c, Post(i))
    requires var n, m := |c.mb|, c.workers[i].msg;
             var p := Station(n, m.dir, i);
             p + 1 < n && Room(c, Station(n, m.dir, p + 1)) && j == Station(n, m.dir, p + 1)
    ensures Apply(c, Post(i)).mb == c.mb[j := c.mb[j] + [c.workers[i].msg]]
  {
  }

  lemma ForwardStage(c: Chain, i: nat, d: Dir, s: nat, x: nat)
    requires WellFormed(c) && Enabled(c, Post(i)) && s < |c.mb|
    requires x in PostedStages(c, i, d)[s] && x !in Stages(c, d)[s]
    ensures var m := c.workers[i].msg; m.dir == d && x == m.id && s == Station(|c.mb|, d, i) + 1
  {
    hide Stages, OfDir;
    HandStage(c, i, d);
  }

  lemma InHandIsLater(c: Chain, i: nat, d: Dir, k: nat)
    requires WellFormed(c) && Enabled(c, Post(i)) && c.workers[i].msg.dir == d && Station(|c.mb|, d, i) < k < |c.mb|
    ensures Later(c, d, k, c.workers[i].msg.id)
  {
    HandStage(c, i, d);
    var s := Station(|c.mb|, d, i);
    assert c.workers[i].msg.id in Stages(c, d)[s];
  }

  lemma PostForwardLater(c: Chain, i: nat, d: Dir, k: nat, x: nat)
    requires WellFormed(c) && Enabled(c, Post(i)) && k < |c.mb| && Later(Apply(c, Post(i)), d, k, x)
    requires var n, m := |c.mb|, c.workers[i].msg;
             var p := Station(n, m.dir, i);
             p + 1 < n && Room(c, Station(n, m.dir, p + 1))
    ensures Later(c, d, k, x)
  {
    if !Later(c, d, k, x) {
      var w := Station(|c.mb|, d, k);
      if x in OfDir(Apply(c, Post(i)).mb[w], d) {
        ForwardQueue(c, i, d, k, x);
      } else {
        StageOfForward(c, i, d);
        var s :| 0 <= s < k && x in Stages(Apply(c, Post(i)), d)[s];
        ForwardStage(c, i, d, s, x);
      }
      InHandIsLater(c, i, d, k);
    }
  }

  lemma StageOfForward(c: Chain, i: nat, d: Dir)
    requires WellFormed(c) && Enabled(c, Post(i))
    requires var n, m := |c.mb|, c.workers[i].msg;
             var p := Station(n, m.dir, i);
             p + 1 < n && Room(c, Station(n, m.dir, p + 1))
    ensures Stages(Apply(c, Post(i)), d) == PostedStages(c, i, d)
  {
    hide Stages, PostedStages, OfDir;
    ForwardStages(c, c.(workers := c.workers[i := Waiting]), i, d);
  }

  lemma HandStage(c: Chain, i: nat, d: Dir)
    requires WellFormed(c) && Enabled(c, Post(i))
    ensures c.workers[i].msg.dir == d ==>
            Stages(c, d)[Station(|c.mb|, d, i)] == [c.workers[i].msg.id] + OfDir(c.mb[i], d)
  {
  }

  lemma PostLater(c: Chain, i: nat, d: Dir, k: nat, x: nat)
    requires WellFormed(c) && Enabled(c, Post(i)) && k < |c.mb| && Later(Apply(c, Post(i)), d, k, x)
    ensures Later(c, d, k, x)
  {
    var n, m := |c.mb|, c.workers[i].msg;
    var p := Station(n, m.dir, i);
    if p + 1 < n && Room(c, Station(n, m.dir, p + 1)) {
      PostForwardLater(c, i, d, k, x);
    } else {
      PostAwayLater(c, i, d, k, x);
    }
  }

  /** A log that does not change, with nothing older still to come. */
  lemma LogKept(c: Chain, c': Chain, d: Dir, k: nat)
    requires WellFormed(c) && WellFormed(c') && |c.mb| == |c'.mb| && k < |c.mb| && HandledAt(c, d, k)
    requires LaneOf(c', d).handled[k] == LaneOf(c, d).handled[k] && LaneOf(c', d).next >= LaneOf(c, d).next
    requires forall x: nat :: Later(c', d, k, x) ==> Later(c, d, k, x) || x >= LaneOf(c, d).next
    ensures HandledAt(c', d, k)
  {
  }

  lemma InjectHandled(c: Chain, d': Dir, d: Dir, k: nat)
    requires WellFormed(c) && k < |c.mb| && HandledAt(c, d, k)
    ensures HandledAt(Apply(c, Inject(d')), d, k)
  {
    var c' := Apply(c, Inject(d'));
    forall x: nat | Later(c', d, k, x)
      ensures Later(c, d, k, x) || x >= LaneOf(c, d).next
    {
      InjectLater(c, d', d, k, x);
    }
    LogKept(c, c', d, k);
  }

  lemma FetchElsewhere(c: Chain, i: nat, d: Dir, k: nat)
    requires WellFormed(c) && Enabled(c, Fetch(i)) && k < |c.mb| && HandledAt(c, d, k)
    requires c.mb[i][0].dir != d || k != Station(|c.mb|, d, i)
    ensures HandledAt(Apply(c, Fetch(i)), d, k)
  {
    var c' := Apply(c, Fetch(i));
    forall x: nat | Later(c', d, k, x)
      ensures Later(c, d, k, x)
    {
      FetchLater(c, i, d, k, x);
    }
    LogKept(c, c', d, k);
  }

  lemma LogExtended(h: seq<nat>, m: nat)
    requires Increasing(h) && forall y :: y in h ==> y < m
    ensures Increasing(h + [m])
  {
    forall a, b | 0 <= a < b < |h + [m]|
      ensures (h + [m])[a] < (h + [m])[b]
    {
      assert h[a] in h;
    }
  }

  /** A log with one message more, with nothing older still to come. */
  lemma LogGrown(c: Chain, d: Dir, k: nat, h: seq<nat>)
    requires WellFormed(c) && k < |c.mb| && LaneOf(c, d).handled[k] == h && Increasing(h)
    requires forall y :: y in h ==> y < LaneOf(c, d).next
    requires forall x: nat, y :: y in h && Later(c, d, k, x) ==> y < x
    ensures HandledAt(c, d, k)
  {
  }

  /** What a worker fetches is newer than all it has handled, and was injected. */
  lemma FetchedNewer(c: Chain, i: nat, d: Dir, k: nat)
    requires WellFormed(c) && Enabled(c, Fetch(i)) && k < |c.mb| && HandledAt(c, d, k)
    requires c.mb[i][0].dir == d && k == Station(|c.mb|, d, i) && LaneInv(LaneOf(c, d), Line(c, d))
    ensures Increasing(LaneOf(c, d).handled[k] + [c.mb[i][0].id])
    ensures c.mb[i][0].id < LaneOf(c, d).next && forall y :: y in LaneOf(c, d).handled[k] ==> y < LaneOf(c, d).next
  {
    hide Increasing, Stages;
    var m, h := c.mb[i][0].id, LaneOf(c, d).handled[k];
    FetchedStage(c, i, d);
    assert m in OfDir(c.mb[i], d) && Later(c, d, k, m);
    InJoin(Stages(c, d), k, m);
    assert m in Line(c, d);
    LogExtended(h, m);
  }

  /** The same about everything that is still to be fetched afterwards. */
  lemma FetchedBeforeLater(c: Chain, i: nat, d: Dir, k: nat, x: nat, y: nat)
    requires WellFormed(c) && Enabled(c, Fetch(i)) && k < |c.mb| && HandledAt(c, d, k)
    requires c.mb[i][0].dir == d && k == Station(|c.mb|, d, i) && Increasing(Line(c, d))
    requires y in LaneOf(c, d).handled[k] + [c.mb[i][0].id] && Later(Apply(c, Fetch(i)), d, k, x)
    ensures y < x
  {
    FetchLater(c, i, d, k, x);
    FetchedFirst(c, i, d, x);
  }

  lemma FetchHere(c: Chain, i: nat, d: Dir, k: nat)
    requires WellFormed(c) && Enabled(c, Fetch(i)) && k < |c.mb| && HandledAt(c, d, k)
    requires c.mb[i][0].dir == d && k == Station(|c.mb|, d, i) && LaneInv(LaneOf(c, d), Line(c, d))
    ensures HandledAt(Apply(c, Fetch(i)), d, k)
  {
    hide HandledAt, Later, Increasing;
    var c', m, h := Apply(c, Fetch(i)), c.mb[i][0].id, LaneOf(c, d).handled[k];
    FetchedNewer(c, i, d, k);
    forall x: nat, y | y in h + [m] && Later(c', d, k, x)
      ensures y < x
    {
      FetchedBeforeLater(c, i, d, k, x, y);
    }
    assert LaneOf(c', d).handled[k] == h + [m];
    LogGrown(c', d, k, h + [m]);
  }

  lemma PostHandled(c: Chain, i: nat, d: Dir, k: nat)
    requires WellFormed(c) && Enabled(c, Post(i)) && k < |c.mb| && HandledAt(c, d, k)
    ensures HandledAt(Apply(c, Post(i)), d, k)
  {
    var c' := Apply(c, Post(i));
    forall x: nat | Later(c', d, k, x)
      ensures Later(c, d, k, x)
    {
      PostLater(c, i, d, k, x);
    }
    LogKept(c, c', d, k);
  }

  lemma OtherHandled(c: Chain, e: Event, d: Dir, k: nat)
    requires WellFormed(c) && Enabled(c, e) && (e.Flag? || e.Clear?) && k < |c.mb| && HandledAt(c, d, k)
    ensures HandledAt(Apply(c, e), d, k)
  {
    var c' := Apply(c, e);
    if e.Flag? {
      OneStation(c, c', d, e.i);
    } else {
      LaneStages(c, c', d);
    }
    forall x: nat | Later(c', d, k, x)
      ensures Later(c, d, k, x)
    {
    }
    LogKept(c, c', d, k);
  }

  lemma StepHandled(c: Chain, e: Event, d: Dir)
    requires WellFormed(c) && Enabled(c, e) && Inv(c) && HandledInv(c, d)
    ensures HandledInv(Apply(c, e), d)
  {
    forall k | 0 <= k < |c.mb|
      ensures HandledAt(Apply(c, e), d, k)
    {
      match e {
        case Inject(d') => InjectHandled(c, d', d, k);
        case Fetch(i) =>
          if c.mb[i][0].dir == d && k == Station(|c.mb|, d, i) {
            FetchHere(c, i, d, k);
          } else {
            FetchElsewhere(c, i, d, k);
          }
        case Post(i) => PostHandled(c, i, d, k);
        case _ => OtherHandled(c, e, d, k);
      }
    }
  }

  lemma {:induction false} RunHandled(c: Chain, es: seq<Event>, c': Chain, d: Dir)
    requires WellFormed(c) && Inv(c) && HandledInv(c, d) && Run(c, es, c')
    ensures WellFormed(c') && HandledInv(c', d)
    decreases |es|
  {
    if |es| > 0 {
      StepHandled(c, es[0], d);
      StepKeepsInv(c, es[0]);
      RunHandled(Apply(c, es[0]), es[1..], c', d);
    }
  }

  lemma EmptyHandled(n: nat, size: nat, d: Dir)
    requires n > 0 && size > 0 && WellFormed(Empty(n, size))
    ensures HandledInv(Empty(n, size), d)
  {
  }

  /** Every worker handles the messages of a direction in injection order, so each at most once. */
  lemma HandledInOrder(n: nat, size: nat, c: Chain, d: Dir, k: nat)
    requires Reachable(n, size, c) && k < n
    ensures WellFormed(c) && |c.mb| == n && Increasing(LaneOf(c, d).handled[k])
  {
    ReachableInv(n, size, c);
    var es :| Run(Empty(n, size), es, c);
    EmptyInv(n, size);
    EmptyHandled(n, size, d);
    RunHandled(Empty(n, size), es, c, d);
    assert HandledAt(c, d, k);
  }

  // ---- what has passed a worker was handled by it ----

  /** The k-th worker's log has every message of the direction that left, that is further on, or in its hand. */
  ghost predicate PassedAt(c: Chain, d: Dir, k: nat)
    requires WellFormed(c) && k < |c.mb|
  {
    var h := LaneOf(c, d).handled[k];
    && (forall x :: x in LaneOf(c, d).exited ==> x in h)
    && (forall s, x :: k < s < |c.mb| && x in Stages(c, d)[s] ==> x in h)
    && (forall x :: x in InHand(c.workers[Station(|c.mb|, d, k)], d) ==> x in h)
  }

  lemma PassedKept(c: Chain, c': Chain, d: Dir, k: nat)
    requires WellFormed(c) && WellFormed(c') && |c'.mb| == |c.mb| && k < |c.mb| && PassedAt(c, d, k)
    requires LaneOf(c', d).exited == LaneOf(c, d).exited
    requires forall x :: x in LaneOf(c, d).handled[k] ==> x in LaneOf(c', d).handled[k]
    requires forall s, x :: k < s < |c.mb| && x in Stages(c', d)[s] ==> x in Stages(c, d)[s]
    requires var w := Station(|c.mb|, d, k);
             forall x :: x in InHand(c'.workers[w], d) ==>
               x in InHand(c.workers[w], d) || x in LaneOf(c', d).handled[k]
    ensures PassedAt(c', d, k)
  {
    hide Stages, InHand;
  }

  lemma InjectPassed(c: Chain, d': Dir, d: Dir, k: nat)
    requires WellFormed(c) && k < |c.mb| && PassedAt(c, d, k)
    ensures PassedAt(Apply(c, Inject(d')), d, k)
  {
    hide Stages, PassedAt;
    var c', j, m := Apply(c, Inject(d')), Station(|c.mb|, d', 0), Msg(d', LaneOf(c, d').next);
    if Room(c, j) {
      PutStages(c, j, m, d);
      LaneStages(Put(c, j, m), c', d);
    } else {
      LaneStages(c, c', d);
    }
    PassedKept(c, c', d, k);
  }

  lemma FetchPassed(c: Chain, i: nat, d: Dir, k: nat)
    requires WellFormed(c) && Enabled(c, Fetch(i)) && k < |c.mb| && PassedAt(c, d, k)
    ensures PassedAt(Apply(c, Fetch(i)), d, k)
  {
    hide Stages, PassedAt;
    FetchStages(c, i, d);
    PassedKept(c, Apply(c, Fetch(i)), d, k);
  }

  /** What a worker posts was in its hand. */
  lemma PostedWasHandled(c: Chain, i: nat, d: Dir, k: nat)
    requires WellFormed(c) && Enabled(c, Post(i)) && k < |c.mb| && PassedAt(c, d, k)
    requires c.workers[i].msg.dir == d && k <= Station(|c.mb|, d, i)
    ensures c.workers[i].msg.id in LaneOf(c, d).handled[k]
  {
    hide Stages;
    HandStage(c, i, d);
    var p, m := Station(|c.mb|, d, i), c.workers[i].msg.id;
    assert m in Stages(c, d)[p];
    assert k == p ==> m in InHand(c.workers[Station(|c.mb|, d, k)], d);
  }

  lemma PostHands(c: Chain, i: nat, d: Dir, w: nat, x: nat)
    requires WellFormed(c) && Enabled(c, Post(i)) && w < |c.mb| && x in InHand(Apply(c, Post(i)).workers[w], d)
    ensures x in InHand(c.workers[w], d)
  {
  }

  lemma PostForwardPassed(c: Chain, i: nat, d: Dir, k: nat)
    requires WellFormed(c) && Enabled(c, Post(i)) && k < |c.mb| && PassedAt(c, d, k)
    requires var n, m := |c.mb|, c.workers[i].msg;
             var p := Station(n, m.dir, i);
             p + 1 < n && Room(c, Station(n, m.dir, p + 1))
    ensures PassedAt(Apply(c, Post(i)), d, k)
  {
    hide Stages, PostedStages, InHand;
    var c' := Apply(c, Post(i));
    StageOfForward(c, i, d);
    forall s, x | k < s < |c.mb| && x in Stages(c', d)[s]
      ensures x in LaneOf(c', d).handled[k]
    {
      if x !in Stages(c, d)[s] {
        ForwardStage(c, i, d, s, x);
        PostedWasHandled(c, i, d, k);
      }
    }
    HandsKept(c, i, d, k);
  }

  lemma HandsKept(c: Chain, i: nat, d: Dir, k: nat)
    requires WellFormed(c) && Enabled(c, Post(i)) && k < |c.mb| && PassedAt(c, d, k)
    ensures forall x :: x in InHand(Apply(c, Post(i)).workers[Station(|c.mb|, d, k)], d) ==>
      x in LaneOf(c, d).handled[k]
  {
    hide Apply, InHand;
    forall x | x in InHand(Apply(c, Post(i)).workers[Station(|c.mb|, d, k)], d)
      ensures x in LaneOf(c, d).handled[k]
    {
      PostHands(c, i, d, Station(|c.mb|, d, k), x);
    }
  }

  lemma PostAwayPassed(c: Chain, i: nat, d: Dir, k: nat)
    requires WellFormed(c) && Enabled(c, Post(i)) && k < |c.mb| && PassedAt(c, d, k)
    requires var n, m := |c.mb|, c.workers[i].msg;
             var p := Station(n, m.dir, i);
             !(p + 1 < n && Room(c, Station(n, m.dir, p + 1)))
    ensures PassedAt(Apply(c, Post(i)), d, k)
  {
    hide Stages, OfDir, InHand;
    EmptyHandStages(c, Apply(c, Post(i)), i, d);
    HandsKept(c, i, d, k);
    if c.workers[i].msg.dir == d && k <= Station(|c.mb|, d, i) {
      PostedWasHandled(c, i, d, k);
    }
  }

  lemma StepPassed(c: Chain, e: Event, d: Dir, k: nat)
    requires WellFormed(c) && Enabled(c, e) && k < |c.mb| && PassedAt(c, d, k)
    ensures PassedAt(Apply(c, e), d, k)
  {
    hide PassedAt, Stages;
    match e {
      case Inject(d') => InjectPassed(c, d', d, k);
      case Fetch(i) => FetchPassed(c, i, d, k);
      case Post(i) =>
        var n, m := |c.mb|, c.workers[i].msg;
        var p := Station(n, m.dir, i);
        if p + 1 < n && Room(c, Station(n, m.dir, p + 1)) {
          PostForwardPassed(c, i, d, k);
        } else {
          PostAwayPassed(c, i, d, k);
        }
      case Flag(i) =>
        OneStation(c, Apply(c, e), d, i);
        PassedKept(c, Apply(c, e), d, k);
      case Clear =>
        LaneStages(c, Apply(c, e), d);
        PassedKept(c, Apply(c, e), d, k);
    }
  }

  lemma {:induction false} RunPassed(c: Chain, es: seq<Event>, c': Chain, d: Dir, k: nat)
    requires WellFormed(c) && Run(c, es, c') && k < |c.mb| && PassedAt(c, d, k)
    ensures WellFormed(c') && |c'.mb| == |c.mb| && PassedAt(c', d, k)
    decreases |es|
  {
    hide PassedAt, Apply;
    if |es| > 0 {
      StepPassed(c, es[0], d, k);
      RunPassed(Apply(c, es[0]), es[1..], c', d, k);
    }
  }

  lemma EmptyPassed(n: nat, size: nat, d: Dir, k: nat)
    requires n > 0 && size > 0 && WellFormed(Empty(n, size)) && k < n
    ensures PassedAt(Empty(n, size), d, k)
  {
  }

  lemma {:induction false} FromJoin(ss: seq<seq<nat>>, x: nat) returns (s: nat)
    requires x in Join(ss)
    ensures s < |ss| && x in ss[s]
    decreases |ss|
  {
    if x in ss[0] {
      s := 0;
    } else {
      s := FromJoin(ss[1..], x);
      s := s + 1;
    }
  }

  /** Every message that was not lost has been handled by a worker on its way exactly when it is not still
      to come there; so one that left was handled by every worker. */
  lemma HandledExact(n: nat, size: nat, c: Chain, d: Dir, k: nat, x: nat)
    requires Reachable(n, size, c) && k < n
    ensures WellFormed(c) && |c.mb| == n
    ensures x in Line(c, d) ==> (x in LaneOf(c, d).handled[k] <==> !Later(c, d, k, x))
    ensures x in LaneOf(c, d).exited ==> x in LaneOf(c, d).handled[k]
  {
    hide Stages, Later, OfDir, InHand;
    var es :| Run(Empty(n, size), es, c);
    ReachableInv(n, size, c);
    EmptyPassed(n, size, d, k);
    RunPassed(Empty(n, size), es, c, d, k);
    EmptyHandled(n, size, d);
    EmptyInv(n, size);
    RunHandled(Empty(n, size), es, c, d);
    assert HandledAt(c, d, k);
    if x in Line(c, d) && x !in LaneOf(c, d).exited {
      var s := FromJoin(Stages(c, d), x);
      AtOneStage(c, d, k, s, x);
    }
  }

  lemma AtOneStage(c: Chain, d: Dir, k: nat, s: nat, x: nat)
    requires WellFormed(c) && k < |c.mb| && s < |c.mb| && x in Stages(c, d)[s] && PassedAt(c, d, k)
    ensures x in LaneOf(c, d).handled[k] || Later(c, d, k, x)
  {
    hide OfDir;
    assert Stages(c, d)[s] == AtStage(c, d, s);
  }
}
