/** Without new injections the chain drains: every worker step uses up work that is left. */
module StormProgress {
  import opened StormChain

  /** Three steps for each worker a message still has to pass: fetch, post and, should the post fail,
      the store to the flag. */
  function Cost(n: nat, m: Msg, i: nat): nat
    requires i < n
  {
    3 * (n - Station(n, m.dir, i))
  }

  function QueueWork(n: nat, q: seq<Msg>, i: nat): nat
    requires i < n
  {
    if |q| == 0 then 0 else Cost(n, q[0], i) + QueueWork(n, q[1..], i)
  }

  function WorkerWork(n: nat, w: Worker, i: nat): nat
    requires i < n
  {
    match w
    case Waiting => 0
    case Holding(m) => Cost(n, m, i) - 1
    case Failing => 1
  }

  function LocalWork(c: Chain, i: nat): nat
    requires WellFormed(c) && i < |c.mb|
  {
    WorkerWork(|c.mb|, c.workers[i], i) + QueueWork(|c.mb|, c.mb[i], i)
  }

  function WorkUpTo(c: Chain, k: nat): nat
    requires WellFormed(c) && k <= |c.mb|
  {
    if k == 0 then 0 else WorkUpTo(c, k - 1) + LocalWork(c, k - 1)
  }

  /** The steps that the messages now in the chain can still cause. */
  function Work(c: Chain): nat
    requires WellFormed(c)
  {
    WorkUpTo(c, |c.mb|)
  }

  /** A step of a worker, as opposed to a timer or the clearing of the flag. */
  predicate ByWorker(e: Event) {
    e.Fetch? || e.Post? || e.Flag?
  }

  lemma {:induction false} WorkChange(c: Chain, c': Chain, i: nat, k: nat)
    requires WellFormed(c) && WellFormed(c') && |c.mb| == |c'.mb| && i < |c.mb| && k <= |c.mb|
    requires forall j :: 0 <= j < |c.mb| && j != i ==> c'.mb[j] == c.mb[j] && c'.workers[j] == c.workers[j]
    ensures WorkUpTo(c', k) - WorkUpTo(c, k) == if i < k then LocalWork(c', i) - LocalWork(c, i) else 0
    decreases k
  {
    if k > 0 {
      WorkChange(c, c', i, k - 1);
    }
  }

  lemma {:induction false} QueueWorkAppend(n: nat, q: seq<Msg>, m: Msg, i: nat)
    requires i < n
    ensures QueueWork(n, q + [m], i) == QueueWork(n, q, i) + Cost(n, m, i)
    decreases |q|
  {
    if |q| == 0 {
      assert q + [m] == [m] && [m][1..] == [];
    } else {
      QueueWorkAppend(n, q[1..], m, i);
      assert (q + [m])[1..] == q[1..] + [m];
    }
  }

  lemma PutWork(c: Chain, j: nat, m: Msg)
    requires WellFormed(c) && j < |c.mb| && Room(c, j)
    ensures WellFormed(Put(c, j, m)) && Work(Put(c, j, m)) == Work(c) + Cost(|c.mb|, m, j)
  {
    WorkChange(c, Put(c, j, m), j, |c.mb|);
    QueueWorkAppend(|c.mb|, c.mb[j], m, j);
  }

  lemma HandWork(c: Chain, c': Chain, i: nat)
    requires WellFormed(c) && WellFormed(c') && i < |c.mb| && c'.mb == c.mb
    requires |c'.workers| == |c.workers| && c'.workers == c.workers[i := c'.workers[i]]
    ensures Work(c') - Work(c) == WorkerWork(|c.mb|, c'.workers[i], i) - WorkerWork(|c.mb|, c.workers[i], i)
  {
    WorkChange(c, c', i, |c.mb|);
  }

  lemma PostForwardWork(c: Chain, i: nat)
    requires WellFormed(c) && Enabled(c, Post(i))
    requires var n, m := |c.mb|, c.workers[i].msg;
             var k := Station(n, m.dir, i);
             k + 1 < n && Room(c, Station(n, m.dir, k + 1))
    ensures Work(Apply(c, Post(i))) < Work(c)
  {
    var n, m := |c.mb|, c.workers[i].msg;
    var j := Station(n, m.dir, Station(n, m.dir, i) + 1);
    var idle := c.(workers := c.workers[i := Waiting]);
    HandWork(c, idle, i);
    PutWork(idle, j, m);
    assert Apply(c, Post(i)) == Put(idle, j, m);
  }

  /** Every step of a worker leaves less work. */
  lemma WorkDecreases(c: Chain, e: Event)
    requires WellFormed(c) && Enabled(c, e) && ByWorker(e)
    ensures Work(Apply(c, e)) < Work(c)
  {
    match e {
      case Fetch(i) => WorkChange(c, Apply(c, e), i, |c.mb|);
      case Flag(i) => HandWork(c, Apply(c, e), i);
      case Post(i) =>
        var n, m := |c.mb|, c.workers[i].msg;
        var k := Station(n, m.dir, i);
        if k + 1 < n && Room(c, Station(n, m.dir, k + 1)) {
          PostForwardWork(c, i);
        } else {
          HandWork(c, Apply(c, e), i);
        }
    }
  }

  /** However the workers are scheduled, they take at most Work(c) steps. */
  lemma {:induction false} BoundedDraining(c: Chain, es: seq<Event>, c': Chain)
    requires WellFormed(c) && Run(c, es, c') && forall e :: e in es ==> ByWorker(e)
    ensures |es| <= Work(c)
    decreases |es|
  {
    if |es| > 0 {
      WorkDecreases(c, es[0]);
      BoundedDraining(Apply(c, es[0]), es[1..], c');
    }
  }

  /** The workers are stuck only when nothing is left to do: there is no deadlock. */
  lemma StuckIsDrained(c: Chain)
    requires WellFormed(c)
    ensures (forall e :: ByWorker(e) ==> !Enabled(c, e)) <==> Drained(c)
  {
    if forall e :: ByWorker(e) ==> !Enabled(c, e) {
      forall i | 0 <= i < |c.mb|
        ensures c.mb[i] == [] && c.workers[i].Waiting?
      {
        assert !Enabled(c, Fetch(i)) && !Enabled(c, Post(i)) && !Enabled(c, Flag(i));
      }
    }
  }

  lemma {:induction false} RunJoin(c: Chain, es: seq<Event>, c': Chain, fs: seq<Event>, c'': Chain)
    requires WellFormed(c) && Run(c, es, c') && WellFormed(c') && Run(c', fs, c'')
    ensures Run(c, es + fs, c'')
    decreases |es|
  {
    if |es| == 0 {
      assert es + fs == fs;
    } else {
      RunJoin(Apply(c, es[0]), es[1..], c', fs, c'');
      assert (es + fs)[1..] == es[1..] + fs;
    }
  }

  /** From every state the workers can drain the chain. */
  lemma {:induction false} DrainsFrom(c: Chain) returns (es: seq<Event>, c': Chain)
    requires WellFormed(c)
    ensures Run(c, es, c') && WellFormed(c') && Drained(c') && |c'.mb| == |c.mb|
    ensures forall e :: e in es ==> ByWorker(e)
    decreases Work(c)
  {
    StuckIsDrained(c);
    if Drained(c) {
      es, c' := [], c;
    } else {
      var e :| ByWorker(e) && Enabled(c, e);
      WorkDecreases(c, e);
      es, c' := DrainsFrom(Apply(c, e));
      es := [e] + es;
    }
  }

  /** So every run of the workers alone, however they were scheduled, extends to one that drains the
      chain, and no such run is longer than the work there was. */
  lemma Drains(c: Chain, es: seq<Event>, c': Chain) returns (more: seq<Event>, c'': Chain)
    requires WellFormed(c) && Run(c, es, c') && forall e :: e in es ==> ByWorker(e)
    ensures Run(c, es + more, c'') && WellFormed(c'') && Drained(c'')
    ensures |es + more| <= Work(c) && forall e :: e in more ==> ByWorker(e)
  {
    RunWellFormed(c, es, c');
    more, c'' := DrainsFrom(c');
    RunJoin(c, es, c', more, c'');
    BoundedDraining(c, es + more, c'');
  }

  lemma {:induction false} RunWellFormed(c: Chain, es: seq<Event>, c': Chain)
    requires WellFormed(c) && Run(c, es, c')
    ensures WellFormed(c')
    decreases |es|
  {
    if |es| > 0 {
      RunWellFormed(Apply(c, es[0]), es[1..], c');
    }
  }
}
