/** The chain of worker threads of the interrupt storm test, as a system of atomic steps. Messages
    carry the number of their injection, which the program does not have; it only names them. */
module StormChain {

  datatype Dir = Left | Right

  datatype Msg = Msg(dir: Dir, id: nat)

  /** Where a worker is in its loop: waiting on its mailbox, between fetch and post with a message
      in hand, or between a failed post and the store to the flag. */
  datatype Worker = Waiting | Holding(msg: Msg) | Failing

  /** The history of one direction: injections so far, messages that left at the far end, messages
      lost to a full mailbox, and what each worker along the way fetched. */
  datatype Lane = Lane(next: nat, exited: seq<nat>, dropped: seq<nat>, handled: seq<seq<nat>>)

  datatype Chain = Chain(
    size: nat, mb: seq<seq<Msg>>, workers: seq<Worker>, saturated: bool,
    left: Lane, right: Lane,
    lost: nat,      // messages lost before the flag was last cleared
    stores: nat,    // stores of true to the flag since then
    pending: nat)   // workers that were about to store when it was cleared

  datatype Event = Inject(dir: Dir) | Fetch(i: nat) | Post(i: nat) | Flag(i: nat) | Clear

  function LaneOf(c: Chain, d: Dir): Lane {
    if d == Left then c.left else c.right
  }

  function WithLane(c: Chain, d: Dir, l: Lane): Chain {
    if d == Left then c.(left := l) else c.(right := l)
  }

  /** The k-th worker that a message of direction d meets; also, how many workers it meets before
      worker k. */
  function Station(n: nat, d: Dir, k: nat): (i: nat)
    requires k < n
    ensures i < n && (d == Right ==> i == k) && (d == Left ==> i == n - 1 - k)
  {
    if d == Right then k else n - 1 - k
  }

  predicate WellFormed(c: Chain) {
    && |c.mb| == |c.workers| > 0 && c.size > 0
    && |c.left.handled| == |c.right.handled| == |c.mb|
    && forall i :: 0 <= i < |c.mb| ==> |c.mb[i]| <= c.size
  }

  /** No mailbox holds a message and every worker waits. */
  predicate Drained(c: Chain)
    requires WellFormed(c)
  {
    forall i :: 0 <= i < |c.mb| ==> c.mb[i] == [] && c.workers[i].Waiting?
  }

  function Empty(n: nat, size: nat): Chain {
    var l := Lane(0, [], [], seq(n, _ => []));
    Chain(size, seq(n, _ => []), seq(n, _ => Waiting), false, l, l, 0, 0, 0)
  }

  // ---- steps ----

  predicate Enabled(c: Chain, e: Event)
    requires WellFormed(c)
  {
    match e
    case Inject(_) => true
    case Fetch(i) => i < |c.mb| && c.workers[i].Waiting? && |c.mb[i]| > 0
    case Post(i) => i < |c.mb| && c.workers[i].Holding?
    case Flag(i) => i < |c.mb| && c.workers[i].Failing?
    case Clear => true
  }

  function Room(c: Chain, j: nat): bool
    requires j < |c.mb|
  {
    |c.mb[j]| < c.size
  }

  function Put(c: Chain, j: nat, m: Msg): Chain
    requires j < |c.mb|
  {
    c.(mb := c.mb[j := c.mb[j] + [m]])
  }

  /** A timer callback: post and flag under one lock. */
  function InjectStep(c: Chain, d: Dir): Chain
    requires WellFormed(c)
  {
    var l, j := LaneOf(c, d), Station(|c.mb|, d, 0);
    if Room(c, j) then
      WithLane(Put(c, j, Msg(d, l.next)), d, l.(next := l.next + 1))
    else
      WithLane(c.(saturated := true, stores := c.stores + 1),
               d, l.(next := l.next + 1, dropped := l.dropped + [l.next]))
  }

  function FetchStep(c: Chain, i: nat): Chain
    requires WellFormed(c) && Enabled(c, Fetch(i))
  {
    var m := c.mb[i][0];
    var l, k := LaneOf(c, m.dir), Station(|c.mb|, m.dir, i);
    WithLane(c.(mb := c.mb[i := c.mb[i][1..]], workers := c.workers[i := Holding(m)]),
             m.dir, l.(handled := l.handled[k := l.handled[k] + [m.id]]))
  }

  /** The message in hand goes to the next worker of its direction, or leaves at the far end. */
  function PostStep(c: Chain, i: nat): Chain
    requires WellFormed(c) && Enabled(c, Post(i))
  {
    var n, m := |c.mb|, c.workers[i].msg;
    var l, k := LaneOf(c, m.dir), Station(n, m.dir, i);
    var idle := c.(workers := c.workers[i := Waiting]);
    if k + 1 == n then
      WithLane(idle, m.dir, l.(exited := l.exited + [m.id]))
    else if Room(c, Station(n, m.dir, k + 1)) then
      Put(idle, Station(n, m.dir, k + 1), m)
    else
      WithLane(c.(workers := c.workers[i := Failing]),
               m.dir, l.(dropped := l.dropped + [m.id]))
  }

  function FlagStep(c: Chain, i: nat): Chain
    requires WellFormed(c) && Enabled(c, Flag(i))
  {
    c.(workers := c.workers[i := Waiting], saturated := true, stores := c.stores + 1)
  }

  /** Messages lost in either direction. */
  function Losses(c: Chain): nat {
    |c.left.dropped| + |c.right.dropped|
  }

  /** The start of an iteration of the test. */
  function ClearStep(c: Chain): Chain {
    c.(saturated := false, lost := Losses(c), stores := 0, pending := FailingCount(c.workers))
  }

  function FailingCount(ws: seq<Worker>): nat {
    if |ws| == 0 then 0 else FailingCount(ws[..|ws| - 1]) + (if ws[|ws| - 1].Failing? then 1 else 0)
  }

  function Apply(c: Chain, e: Event): (c': Chain)
    requires WellFormed(c) && Enabled(c, e)
    ensures WellFormed(c') && |c'.mb| == |c.mb|
  {
    match e
    case Inject(d) => InjectStep(c, d)
    case Fetch(i) => FetchStep(c, i)
    case Post(i) => PostStep(c, i)
    case Flag(i) => FlagStep(c, i)
    case Clear => ClearStep(c)
  }

  /** es takes c to c'. */
  ghost predicate Run(c: Chain, es: seq<Event>, c': Chain)
    requires WellFormed(c)
    decreases |es|
  {
    if |es| == 0 then c' == c
    else Enabled(c, es[0]) && Run(Apply(c, es[0]), es[1..], c')
  }

  // ---- the line of messages of one direction ----

  /** The numbers of the messages of direction d in a queue. */
  function OfDir(q: seq<Msg>, d: Dir): seq<nat> {
    if |q| == 0 then [] else (if q[0].dir == d then [q[0].id] else []) + OfDir(q[1..], d)
  }

  function InHand(w: Worker, d: Dir): seq<nat> {
    if w.Holding? && w.msg.dir == d then [w.msg.id] else []
  }

  /** The messages of direction d at its k-th worker, the one furthest ahead first. */
  function AtStage(c: Chain, d: Dir, k: nat): seq<nat>
    requires WellFormed(c) && k < |c.mb|
  {
    var i := Station(|c.mb|, d, k);
    InHand(c.workers[i], d) + OfDir(c.mb[i], d)
  }

  /** The same for all workers on the way. */
  function Stages(c: Chain, d: Dir): (ss: seq<seq<nat>>)
    requires WellFormed(c)
    ensures |ss| == |c.mb|
  {
    seq(|c.mb|, k requires 0 <= k < |c.mb| => AtStage(c, d, k))
  }

  /** The stages in one row, the last stage first. */
  function Join(ss: seq<seq<nat>>): seq<nat> {
    if |ss| == 0 then [] else Join(ss[1..]) + ss[0]
  }

  /** All messages of direction d that were not dropped, the one furthest ahead first. */
  function Line(c: Chain, d: Dir): seq<nat>
    requires WellFormed(c)
  {
    LaneOf(c, d).exited + Join(Stages(c, d))
  }

  predicate Increasing(s: seq<nat>) {
    forall i, j :: 0 <= i < j < |s| ==> s[i] < s[j]
  }

  /** 0, 1, ..., n - 1: the injections of one direction, in order. */
  function Injected(n: nat): (s: seq<nat>)
    ensures |s| == n && forall i :: 0 <= i < n ==> s[i] == i
  {
    seq(n, i requires 0 <= i < n => i)
  }
}
