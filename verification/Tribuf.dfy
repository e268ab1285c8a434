/** The triple buffer handler: three buffer pointers and a semaphore. */
module Tribuf {

  /** The ready counter, negative while threads wait in the queue. */
  datatype Handler = Handler(front: nat, back: nat, orphan: nat, cnt: int, queue: seq<nat>)

  /** tribufIsReadyI */
  predicate Ready(h: Handler) {
    h.cnt != 0
  }

  predicate Consistent(h: Handler) {
    |h.queue| == if h.cnt < 0 then -h.cnt else 0
  }

  function SwappedFront(h: Handler): Handler {
    h.(front := h.orphan, orphan := h.front)
  }

  /** A signal that does not take the counter above one, and wakes the first thread in the queue. */
  function Signalled(h: Handler): (Handler, seq<nat>)
    requires Consistent(h)
  {
    if h.cnt >= 1 then (h, [])
    else if h.cnt < 0 then (h.(cnt := h.cnt + 1, queue := h.queue[1..]), [h.queue[0]])
    else (h.(cnt := h.cnt + 1), [])
  }

  function SwappedBack(h: Handler): (Handler, seq<nat>)
    requires Consistent(h)
  {
    Signalled(h.(back := h.orphan, orphan := h.back))
  }

  datatype Message = MsgOk | MsgTimeout | Blocked

  /** A thread takes the token, or waits for one, or is turned away at once. */
  function Waited(h: Handler, thread: nat, immediate: bool): (Handler, Message) {
    if h.cnt >= 1 then (h.(cnt := h.cnt - 1), MsgOk)
    else if immediate then (h, MsgTimeout)
    else (h.(cnt := h.cnt - 1, queue := h.queue + [thread]), Blocked)
  }

  function Without(queue: seq<nat>, thread: nat): seq<nat> {
    if queue == [] then [] else if queue[0] == thread then queue[1..] else [queue[0]] + Without(queue[1..], thread)
  }

  /** A waiting thread gives up: the kernel counts it back in. */
  function GaveUp(h: Handler, thread: nat): Handler
    requires thread in h.queue
  {
    h.(cnt := h.cnt + 1, queue := Without(h.queue, thread))
  }

  /** The thread's first place in the queue is taken out; all others stay, in their order. */
  lemma {:induction false} WithoutOne(queue: seq<nat>, thread: nat)
    requires thread in queue
    ensures |Without(queue, thread)| == |queue| - 1
    ensures exists i ::
      && 0 <= i < |queue| && IsFirst(queue, thread, i)
      && Without(queue, thread) == queue[..i] + queue[i + 1..]
  {
    if queue[0] == thread {
      assert IsFirst(queue, thread, 0);
    } else {
      WithoutOne(queue[1..], thread);
      var i :| 0 <= i < |queue[1..]| && IsFirst(queue[1..], thread, i)
        && Without(queue[1..], thread) == queue[1..][..i] + queue[1..][i + 1..];
      OneFurther(queue, thread, i);
    }
  }

  predicate IsFirst(queue: seq<nat>, thread: nat, i: nat) {
    i < |queue| && queue[i] == thread && thread !in queue[..i]
  }

  lemma OneFurther(queue: seq<nat>, thread: nat, i: nat)
    requires queue != [] && queue[0] != thread && IsFirst(queue[1..], thread, i)
    ensures IsFirst(queue, thread, i + 1)
    ensures queue[..i + 1] + queue[i + 2..] == [queue[0]] + (queue[1..][..i] + queue[1..][i + 1..])
  {
    assert queue[..i + 1] == [queue[0]] + queue[1..][..i];
  }

  class Buffers {
    var front: nat
    var back: nat
    var orphan: nat
    var cnt: int
    var queue: seq<nat>

    function State(): Handler
      reads this
    {
      Handler(front, back, orphan, cnt, queue)
    }

    constructor (front: nat, back: nat, orphan: nat)
      ensures State() == Handler(front, back, orphan, 0, []) && Consistent(State())
    {
      this.front, this.back, this.orphan, cnt, queue := front, back, orphan, 0, [];
    }

    predicate IsReady()
      reads this
      ensures IsReady() == Ready(State())
    {
      cnt != 0
    }

    method SwapFront()
      modifies this
      ensures State() == SwappedFront(old(State()))
    {
      var front' := orphan;
      orphan := front;
      front := front';
    }

    method SwapBack() returns (woken: seq<nat>)
      requires Consistent(State())
      modifies this
      ensures Consistent(State()) && (State(), woken) == SwappedBack(old(State()))
    {
      var back' := orphan;
      orphan := back;
      back := back';
      woken := [];
      if cnt < 1 {
        woken := SemSignal();
      }
    }

    method SemSignal() returns (woken: seq<nat>)
      requires Consistent(State())
      modifies this`cnt, this`queue
      ensures Consistent(State()) && cnt == old(cnt) + 1
      ensures woken == if old(cnt) < 0 then [old(queue)[0]] else []
      ensures queue == if old(cnt) < 0 then old(queue)[1..] else old(queue)
    {
      cnt := cnt + 1;
      woken := [];
      if cnt <= 0 {
        woken := [queue[0]];
        queue := queue[1..];
      }
    }

    method WaitReady(thread: nat, immediate: bool) returns (msg: Message)
      requires Consistent(State())
      modifies this
      ensures Consistent(State()) && (State(), msg) == Waited(old(State()), thread, immediate)
    {
      cnt := cnt - 1;
      if cnt < 0 {
        if immediate {
          cnt := cnt + 1;
          return MsgTimeout;
        }
        queue := queue + [thread];
        return Blocked;
      }
      return MsgOk;
    }

    method TimeOut(thread: nat)
      requires Consistent(State()) && thread in queue
      modifies this
      ensures Consistent(State()) && State() == GaveUp(old(State()), thread)
    {
      WithoutOne(queue, thread);
      cnt := cnt + 1;
      queue := Without(queue, thread);
    }
  }
}
