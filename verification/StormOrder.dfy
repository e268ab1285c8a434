/** What every step does to the line of messages of one direction, and what follows for whole runs:
    no overtaking, nothing lost or duplicated unseen. */
module StormOrder {
  import opened StormChain

  lemma {:induction false} OfDirAppend(q: seq<Msg>, m: Msg, d: Dir)
    ensures OfDir(q + [m], d) == OfDir(q, d) + (if m.dir == d then [m.id] else [])
    decreases |q|
  {
    hide OfDir;
    if |q| == 0 {
      OfDirOne(m, d);
      assert q + [m] == [m];
    } else {
      OfDirAppend(q[1..], m, d);
      OfDirStep(q, d);
      OfDirStep(q + [m], d);
      AppendTail(q, m);
    }
  }

  lemma OfDirOne(m: Msg, d: Dir)
    ensures OfDir([m], d) == (if m.dir == d then [m.id] else []) && OfDir([], d) == []
  {
    assert [m][1..] == [];
  }

  lemma OfDirStep(q: seq<Msg>, d: Dir)
    requires |q| > 0
    ensures OfDir(q, d) == (if q[0].dir == d then [q[0].id] else []) + OfDir(q[1..], d)
  {
  }

  lemma AppendTail(q: seq<Msg>, m: Msg)
    requires |q| > 0
    ensures (q + [m])[1..] == q[1..] + [m] && (q + [m])[0] == q[0]
  {
  }

  lemma {:induction false} JoinSplit(a: seq<seq<nat>>, b: seq<seq<nat>>)
    ensures Join(a + b) == Join(b) + Join(a)
    decreases |a|
  {
    if |a| == 0 {
      assert a + b == b;
    } else {
      JoinSplit(a[1..], b);
      assert (a + b)[1..] == a[1..] + b;
    }
  }

  /** The row around stage k. */
  lemma JoinAt(ss: seq<seq<nat>>, k: nat)
    requires k < |ss|
    ensures Join(ss) == Join(ss[k + 1..]) + ss[k] + Join(ss[..k])
  {
    JoinSplit(ss[..k], ss[k..]);
    assert ss == ss[..k] + ss[k..] && ss[k..][1..] == ss[k + 1..];
  }

  lemma JoinPair(s: seq<nat>, t: seq<nat>)
    ensures Join([s, t]) == t + s
  {
    assert [s, t][1..] == [t] && Join([t]) == t;
  }

  lemma JoinParts(before: seq<seq<nat>>, s: seq<nat>, t: seq<nat>, after: seq<seq<nat>>)
    ensures Join(before + [s, t] + after) == Join(after) + t + (s + Join(before))
  {
    hide Join;
    JoinSplit(before + [s, t], after);
    JoinSplit(before, [s, t]);
    JoinPair(s, t);
  }

  lemma SplitTwo(ss: seq<seq<nat>>, k: nat)
    requires k + 1 < |ss|
    ensures ss == ss[..k] + [ss[k], ss[k + 1]] + ss[k + 2..]
  {
  }

  /** The row around two neighbouring stages. */
  lemma JoinAtTwo(ss: seq<seq<nat>>, k: nat)
    requires k + 1 < |ss|
    ensures Join(ss) == Join(ss[k + 2..]) + ss[k + 1] + (ss[k] + Join(ss[..k]))
  {
    hide Join;
    SplitTwo(ss, k);
    JoinParts(ss[..k], ss[k], ss[k + 1], ss[k + 2..]);
  }

  lemma Moved(ahead: seq<nat>, s: seq<nat>, x: nat, q: seq<nat>, behind: seq<nat>)
    ensures ahead + s + (([x] + q) + behind) == ahead + (s + [x]) + (q + behind)
  {
  }

  /** A message taken from the front of stage k, and the same message put at the back of the next. */
  lemma JoinMoved(ss: seq<seq<nat>>, k: nat, x: nat, q: seq<nat>)
    requires k + 1 < |ss| && ss[k] == [x] + q
    ensures Join(ss[k := q][k + 1 := ss[k + 1] + [x]]) == Join(ss)
  {
    hide Join;
    var tt := ss[k := q][k + 1 := ss[k + 1] + [x]];
    JoinAtTwo(ss, k);
    JoinAtTwo(tt, k);
    assert ss[..k] == tt[..k] && ss[k + 2..] == tt[k + 2..];
    Moved(Join(ss[k + 2..]), ss[k + 1], x, q, Join(ss[..k]));
  }

  lemma JoinRemoved(ss: seq<seq<nat>>, k: nat, x: nat, q: seq<nat>)
    requires k < |ss| && ss[k] == [x] + q
    ensures Join(ss) == Join(ss[k + 1..]) + [x] + (q + Join(ss[..k]))
    ensures Join(ss[k := q]) == Join(ss[k + 1..]) + (q + Join(ss[..k]))
  {
    JoinAt(ss, k);
    JoinAt(ss[k := q], k);
  }

  lemma JoinEntered(ss: seq<seq<nat>>, x: nat)
    requires |ss| > 0
    ensures Join(ss[0 := ss[0] + [x]]) == Join(ss) + [x]
  {
  }

  predicate Removed(old': seq<nat>, a: seq<nat>, x: nat, b: seq<nat>, new': seq<nat>) {
    old' == a + [x] + b && new' == a + b
  }

  /** The four things a step can do to a lane: nothing that shows in the line, a new message at the
      end of it, a message lost on entry, or a message lost on the way. */
  datatype Effect = Same | Entered | Refused | Lost(ahead: seq<nat>, id: nat, after: seq<nat>)

  predicate HasEffect(f: Effect, l: Lane, line: seq<nat>, l': Lane, line': seq<nat>) {
    match f
    case Same => l'.next == l.next && l'.dropped == l.dropped && line' == line
    case Entered => l'.next == l.next + 1 && l'.dropped == l.dropped && line' == line + [l.next]
    case Refused => l'.next == l.next + 1 && l'.dropped == l.dropped + [l.next] && line' == line
    case Lost(a, x, b) => l'.next == l.next && l'.dropped == l.dropped + [x] && Removed(line, a, x, b, line')
  }

  /** A change at one worker or its mailbox shows at one stage of each direction. */
  lemma OneStation(c: Chain, c': Chain, d: Dir, i: nat)
    requires WellFormed(c) && WellFormed(c') && |c.mb| == |c'.mb| && i < |c.mb|
    requires forall j :: 0 <= j < |c.mb| && j != i ==> c'.mb[j] == c.mb[j] && c'.workers[j] == c.workers[j]
    ensures var k, ss, new' := Station(|c.mb|, d, i), Stages(c, d), InHand(c'.workers[i], d) + OfDir(c'.mb[i], d);
            && ss[k] == InHand(c.workers[i], d) + OfDir(c.mb[i], d)
            && Stages(c', d) == ss[k := new']
            && (new' == ss[k] ==> Stages(c', d) == ss)
  {
  }

  lemma PutStages(c: Chain, j: nat, m: Msg, d: Dir)
    requires WellFormed(c) && j < |c.mb| && Room(c, j)
    ensures WellFormed(Put(c, j, m))
    ensures var k, ss := Station(|c.mb|, d, j), Stages(c, d);
            Stages(Put(c, j, m), d) == if m.dir == d then ss[k := ss[k] + [m.id]] else ss
  {
    var hand, q := InHand(c.workers[j], d), OfDir(c.mb[j], d);
    OneStation(c, Put(c, j, m), d, j);
    OfDirAppend(c.mb[j], m, d);
    assert hand + (q + [m.id]) == (hand + q) + [m.id];
  }

  lemma LaneStages(c: Chain, c': Chain, d: Dir)
    requires WellFormed(c) && WellFormed(c') && c'.mb == c.mb && c'.workers == c.workers
    ensures Stages(c', d) == Stages(c, d)
  {
  }

  lemma InjectEffect(c: Chain, d: Dir, d': Dir) returns (f: Effect)
    requires WellFormed(c)
    ensures HasEffect(f, LaneOf(c, d'), Line(c, d'), LaneOf(Apply(c, Inject(d)), d'), Line(Apply(c, Inject(d)), d'))
  {
    var c', j, x := Apply(c, Inject(d)), Station(|c.mb|, d, 0), LaneOf(c, d).next;
    f := Same;
    if Room(c, j) {
      PutStages(c, j, Msg(d, x), d');
      LaneStages(Put(c, j, Msg(d, x)), c', d');
      if d == d' {
        JoinEntered(Stages(c, d), x);
        f := Entered;
      }
    } else {
      LaneStages(c, c', d');
      if d == d' {
        f := Refused;
      }
    }
  }

  /** The oldest message of mailbox i moves into the hand, at the same stage. */
  lemma FetchStages(c: Chain, i: nat, d: Dir)
    requires WellFormed(c) && Enabled(c, Fetch(i))
    ensures Stages(Apply(c, Fetch(i)), d) == Stages(c, d)
  {
    hide Stages;
    var c' := Apply(c, Fetch(i));
    OneStation(c, c', d, i);
    assert InHand(c'.workers[i], d) + OfDir(c'.mb[i], d) == InHand(c.workers[i], d) + OfDir(c.mb[i], d);
  }

  lemma FetchEffect(c: Chain, i: nat, d: Dir)
    requires WellFormed(c) && Enabled(c, Fetch(i))
    ensures HasEffect(Same, LaneOf(c, d), Line(c, d), LaneOf(Apply(c, Fetch(i)), d), Line(Apply(c, Fetch(i)), d))
  {
    hide Join, Stages, OfDir;
    FetchStages(c, i, d);
  }

  /** The hand of worker i is emptied. */
  lemma EmptyHandStages(c: Chain, c': Chain, i: nat, d: Dir)
    requires WellFormed(c) && WellFormed(c') && i < |c.mb| && c.workers[i].Holding?
    requires c'.mb == c.mb && |c'.workers| == |c.workers| && !c'.workers[i].Holding?
    requires c'.workers == c.workers[i := c'.workers[i]]
    ensures var k, q, m, ss := Station(|c.mb|, d, i), OfDir(c.mb[i], d), c.workers[i].msg, Stages(c, d);
            if m.dir == d then ss[k] == [m.id] + q && Stages(c', d) == ss[k := q] else Stages(c', d) == ss
  {
    OneStation(c, c', d, i);
    assert [] + OfDir(c.mb[i], d) == OfDir(c.mb[i], d);
  }

  /** The stages after worker i posted: its message is gone from its stage, and is at the back of
      the next one if it found room there. */
  function PostedStages(c: Chain, i: nat, d: Dir): (ss: seq<seq<nat>>)
    requires WellFormed(c) && Enabled(c, Post(i))
    ensures |ss| == |c.mb|
  {
    var n, m, ss := |c.mb|, c.workers[i].msg, Stages(c, d);
    var k, q := Station(n, d, i), OfDir(c.mb[i], d);
    if m.dir != d then ss
    else if k + 1 < n && Room(c, Station(n, d, k + 1)) then ss[k := q][k + 1 := ss[k + 1] + [m.id]]
    else ss[k := q]
  }

  /** The stages after a message was passed on. */
  lemma ForwardStages(c: Chain, idle: Chain, i: nat, d: Dir)
    requires WellFormed(c) && Enabled(c, Post(i)) && idle == c.(workers := c.workers[i := Waiting])
    requires var n, m := |c.mb|, c.workers[i].msg;
             var k := Station(n, m.dir, i);
             k + 1 < n && Room(c, Station(n, m.dir, k + 1))
    ensures var n, m := |c.mb|, c.workers[i].msg;
            var c' := Put(idle, Station(n, m.dir, Station(n, m.dir, i) + 1), m);
            WellFormed(c') && Stages(c', d) == PostedStages(c, i, d)
  {
    hide Stages, OfDir;
    var n, m := |c.mb|, c.workers[i].msg;
    EmptyHandStages(c, idle, i, d);
    PutStages(idle, Station(n, m.dir, Station(n, m.dir, i) + 1), m, d);
  }

  lemma ForwardJoin(c: Chain, i: nat, d: Dir)
    requires WellFormed(c) && Enabled(c, Post(i))
    requires var n, m := |c.mb|, c.workers[i].msg;
             var k := Station(n, m.dir, i);
             k + 1 < n && Room(c, Station(n, m.dir, k + 1))
    ensures Join(PostedStages(c, i, d)) == Join(Stages(c, d))
  {
    hide Join;
    var k, q, ss, m := Station(|c.mb|, d, i), OfDir(c.mb[i], d), Stages(c, d), c.workers[i].msg;
    if m.dir == d {
      assert ss[k] == [m.id] + q by {
        assert ss[k] == AtStage(c, d, k);
      }
      JoinMoved(ss, k, m.id, q);
    }
  }

  lemma PostForward(c: Chain, i: nat, d: Dir)
    requires WellFormed(c) && Enabled(c, Post(i))
    requires var n, m := |c.mb|, c.workers[i].msg;
             var k := Station(n, m.dir, i);
             k + 1 < n && Room(c, Station(n, m.dir, k + 1))
    ensures HasEffect(Same, LaneOf(c, d), Line(c, d), LaneOf(Apply(c, Post(i)), d), Line(Apply(c, Post(i)), d))
  {
    hide Stages, Join, OfDir, PostedStages;
    ForwardStages(c, c.(workers := c.workers[i := Waiting]), i, d);
    ForwardJoin(c, i, d);
  }

  lemma PostAwayOther(c: Chain, i: nat, d: Dir)
    requires WellFormed(c) && Enabled(c, Post(i)) && c.workers[i].msg.dir != d
    requires var n, m := |c.mb|, c.workers[i].msg;
             var k := Station(n, m.dir, i);
             !(k + 1 < n && Room(c, Station(n, m.dir, k + 1)))
    ensures HasEffect(Same, LaneOf(c, d), Line(c, d), LaneOf(Apply(c, Post(i)), d), Line(Apply(c, Post(i)), d))
  {
    EmptyHandStages(c, Apply(c, Post(i)), i, d);
  }

  /** The row of stages before and after a message left its worker without reaching another. */
  lemma AwayStages(c: Chain, i: nat, d: Dir) returns (ahead: seq<nat>, rest: seq<nat>)
    requires WellFormed(c) && Enabled(c, Post(i)) && c.workers[i].msg.dir == d
    requires var k := Station(|c.mb|, d, i); k + 1 == |c.mb| || !Room(c, Station(|c.mb|, d, k + 1))
    ensures Join(Stages(c, d)) == ahead + [c.workers[i].msg.id] + rest
    ensures Join(Stages(Apply(c, Post(i)), d)) == ahead + rest
    ensures Station(|c.mb|, d, i) + 1 == |c.mb| ==> ahead == []
  {
    var k, q, ss := Station(|c.mb|, d, i), OfDir(c.mb[i], d), Stages(c, d);
    EmptyHandStages(c, Apply(c, Post(i)), i, d);
    JoinRemoved(ss, k, c.workers[i].msg.id, q);
    ahead, rest := Join(ss[k + 1..]), q + Join(ss[..k]);
  }

  lemma Regroup(out: seq<nat>, ahead: seq<nat>, x: nat, rest: seq<nat>)
    ensures out + (ahead + [x] + rest) == (out + ahead) + [x] + rest
    ensures out + (ahead + rest) == (out + ahead) + rest
    ensures ahead == [] ==> out + (ahead + [x] + rest) == (out + [x]) + (ahead + rest)
  {
  }

  lemma PostExit(c: Chain, i: nat, d: Dir)
    requires WellFormed(c) && Enabled(c, Post(i)) && c.workers[i].msg.dir == d
    requires Station(|c.mb|, d, i) + 1 == |c.mb|
    ensures HasEffect(Same, LaneOf(c, d), Line(c, d), LaneOf(Apply(c, Post(i)), d), Line(Apply(c, Post(i)), d))
  {
    hide Stages, Join, OfDir;
    var ahead, rest := AwayStages(c, i, d);
    Regroup(LaneOf(c, d).exited, ahead, c.workers[i].msg.id, rest);
  }

  lemma PostLost(c: Chain, i: nat, d: Dir) returns (f: Effect)
    requires WellFormed(c) && Enabled(c, Post(i)) && c.workers[i].msg.dir == d
    requires var k := Station(|c.mb|, d, i); k + 1 < |c.mb| && !Room(c, Station(|c.mb|, d, k + 1))
    ensures HasEffect(f, LaneOf(c, d), Line(c, d), LaneOf(Apply(c, Post(i)), d), Line(Apply(c, Post(i)), d))
  {
    hide Stages, Join, OfDir;
    var ahead, rest := AwayStages(c, i, d);
    Regroup(LaneOf(c, d).exited, ahead, c.workers[i].msg.id, rest);
    f := Lost(LaneOf(c, d).exited + ahead, c.workers[i].msg.id, rest);
  }

  lemma PostEffect(c: Chain, i: nat, d: Dir) returns (f: Effect)
    requires WellFormed(c) && Enabled(c, Post(i))
    ensures HasEffect(f, LaneOf(c, d), Line(c, d), LaneOf(Apply(c, Post(i)), d), Line(Apply(c, Post(i)), d))
  {
    hide HasEffect, Line, Stages, Join;
    var n, m := |c.mb|, c.workers[i].msg;
    var k := Station(n, m.dir, i);
    if k + 1 < n && Room(c, Station(n, m.dir, k + 1)) {
      PostForward(c, i, d);
      f := Same;
    } else {
      if m.dir != d {
        PostAwayOther(c, i, d);
        f := Same;
      } else if k + 1 == n {
        PostExit(c, i, d);
        f := Same;
      } else {
        f := PostLost(c, i, d);
      }
    }
  }

  lemma StepEffect(c: Chain, e: Event, d: Dir) returns (f: Effect)
    requires WellFormed(c) && Enabled(c, e)
    ensures HasEffect(f, LaneOf(c, d), Line(c, d), LaneOf(Apply(c, e), d), Line(Apply(c, e), d))
  {
    match e {
      case Inject(d') => f := InjectEffect(c, d', d);
      case Fetch(i) => FetchEffect(c, i, d); f := Same;
      case Post(i) => f := PostEffect(c, i, d);
      case Flag(i) =>
        OneStation(c, Apply(c, e), d, i);
        f := Same;
      case Clear => LaneStages(c, Apply(c, e), d); f := Same;
    }
  }
}
