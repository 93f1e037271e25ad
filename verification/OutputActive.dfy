/**
 * An output active that writes to a remote node: ports request their turn in the FIFO, one
 * hardware write is in flight at a time, and its completion lets the next port write. Each
 * function is a region of active.c under the lock of the active; active_wait() has two of them,
 * around the hardware's wait.
 */
module OutputActive {
  import opened Kernel
  import opened Sequences
  import MessagePool

  type Message = MessagePool.Message

  /** `buffer` is the message buffer that the port has, -1 for none, and `message` what is in it. */
  datatype Port = Port(used: bool, requested: bool, buffer: int, message: Message)

  datatype Out = Out(ports: seq<Port>, queue: seq<int>, busy: bool)

  predicate IsUnused(p: Port) { !p.used }

  /** do_request_operation() */
  function Request(s: Out, p: nat): (Out, Status)
    requires p < |s.ports|
  {
    if |s.queue| == |s.ports| then (s, Fail(EBUSY))
    else (s.(ports := s.ports[p := s.ports[p].(requested := true)], queue := s.queue + [p]), Done)
  }

  /** do_request_verify() */
  predicate IsTurn(s: Out, p: nat) { s.queue != [] && s.queue[0] == p }

  /** do_request_complete() */
  function Complete(s: Out, p: nat): (Out, Status)
    requires p < |s.ports|
  {
    if !IsTurn(s, p) then (s, Fail(EINVAL))
    else (s.(ports := s.ports[p := s.ports[p].(requested := false)], queue := s.queue[1..]), Done)
  }

  /** active_alloc() of an output port: the first unused one, with its flags cleared. */
  function Alloc(s: Out): (Out, Result<nat>) {
    var p := FirstIndex(s.ports, IsUnused, 0);
    if p == |s.ports| then (s, Err(EINVAL))
    else (s.(ports := s.ports[p := s.ports[p].(used := true, requested := false)]), Ok(p))
  }

  /** active_release() of an output port: neither its request nor its buffer is looked at. */
  function Release(s: Out, p: nat): (Out, Status)
    requires p < |s.ports|
  {
    if !s.ports[p].used then (s, Fail(EINVAL))
    else (s.(ports := s.ports[p := s.ports[p].(used := false)]), Done)
  }

  /** The first half of active_awrite() through the NoC: a buffer with the message, and a request. */
  function Prepare(s: Out, p: nat, message: Message, found: Option<nat>): (Out, Status)
    requires p < |s.ports|
  {
    if !s.ports[p].used then (s, Fail(EINVAL)) else
    if s.ports[p].buffer < 0 && found.None? then (s, Fail(EBUSY)) else
    var s1 := if s.ports[p].buffer < 0 then Filled(s, p, found.value, message) else s;
    if s1.ports[p].requested then (s1, Done) else Request(s1, p)
  }

  /**
   * active_awrite() through the NoC. `found` is the buffer that mbuffer_alloc() would give, and
   * `hardware` what the hardware answers. The message is copied into a buffer just taken; a port
   * that has a buffer sends what is in it.
   */
  function Awrite(s: Out, p: nat, message: Message, found: Option<nat>, hardware: Status): (Out, Status)
    requires p < |s.ports|
  {
    var (s1, ready) := Prepare(s, p, message, found);
    if ready.Fail? then (s1, ready) else
    if !IsTurn(s1, p) then (s1, Fail(EBUSY)) else
    if s1.busy then (s1, Fail(EBUSY)) else
    if hardware.Fail? then (s1, hardware) else
    (s1.(busy := true), Done)
  }

  /** The port has buffer `id` with the message in it. */
  function Filled(s: Out, p: nat, id: nat, message: Message): Out
    requires p < |s.ports|
  {
    s.(ports := s.ports[p := s.ports[p].(buffer := id, message := message)])
  }

  /** The first region of active_wait(): whether the caller may wait for the hardware. */
  function WaitBegin(s: Out, p: nat): Status
    requires p < |s.ports|
  {
    if !s.ports[p].used then Fail(EBADF)
    else if !s.busy then Fail(EBADF)
    else if s.ports[p].buffer < 0 then Fail(EBADF)
    else if !IsTurn(s, p) then Fail(EBADF)
    else Done
  }

  /** The second region of active_wait(), once the hardware has finished; a failed write stays requested. */
  function WaitEnd(s: Out, p: nat, hardware: Status): Out
    requires p < |s.ports|
  {
    var s1 := if hardware.Done? then Complete(s, p).0 else s;
    s1.(ports := s1.ports[p := s1.ports[p].(buffer := -1)], busy := false)
  }

  // ------------------------------------------------------------------------
  // The invariant
  // ------------------------------------------------------------------------

  /** The FIFO holds exactly the ports flagged as requested, each once. */
  ghost predicate QueueInv(s: Out) {
    && Distinct(s.queue)
    && (forall p :: p in s.queue ==> 0 <= p < |s.ports| && s.ports[p].requested)
    && (forall p :: 0 <= p < |s.ports| && s.ports[p].requested ==> p in s.queue)
  }

  /**
   * What holds whatever ports are closed and opened: entries of the FIFO are ports, a requested
   * port has one, and the port at the front of a busy active is in use with its buffer.
   */
  ghost predicate Inv(s: Out) {
    && |s.queue| <= |s.ports|
    && (forall p :: p in s.queue ==> 0 <= p < |s.ports|)
    && (forall p :: 0 <= p < |s.ports| && s.ports[p].requested ==> p in s.queue)
    && (s.busy ==>
         s.queue != [] && 0 <= s.queue[0] < |s.ports| && s.ports[s.queue[0]].buffer >= 0 && s.ports[s.queue[0]].used)
  }

  // ------------------------------------------------------------------------
  // One region
  // ------------------------------------------------------------------------

  /** By pigeonhole: a port that has no request never finds the FIFO full. */
  lemma RoomForUnrequested(s: Out, p: nat)
    requires QueueInv(s) && p < |s.ports| && !s.ports[p].requested
    ensures |s.queue| < |s.ports|
    ensures Request(s, p).1.Done?
  {
    Pigeonhole(s.queue, |s.ports|, p);
  }

  /** What active_awrite() does to the FIFO: it appends a port that has a buffer and no request. */
  function QueueAfterWrite(s: Out, p: nat, found: Option<nat>): seq<int>
    requires p < |s.ports|
  {
    if s.ports[p].used && !s.ports[p].requested && (s.ports[p].buffer >= 0 || found.Some?) && |s.queue| < |s.ports|
    then s.queue + [p] else s.queue
  }

  lemma RequestKeeps(s: Out, p: nat)
    requires Inv(s) && p < |s.ports|
    ensures Inv(Request(s, p).0)
  {
  }

  lemma FilledKeeps(s: Out, p: nat, id: nat, message: Message)
    requires Inv(s) && p < |s.ports|
    ensures Inv(Filled(s, p, id, message))
  {
  }

  lemma PrepareKeeps(s: Out, p: nat, message: Message, found: Option<nat>)
    requires Inv(s) && p < |s.ports|
    ensures var (y, status) := Prepare(s, p, message, found);
            && Inv(y) && |y.ports| == |s.ports| && y.busy == s.busy
            && y.queue == QueueAfterWrite(s, p, found)
            && (status.Done? ==> y.ports[p].used && y.ports[p].buffer >= 0)
  {
    var s1 := s;
    if s.ports[p].buffer < 0 && found.Some? {
      s1 := Filled(s, p, found.value, message);
      FilledKeeps(s, p, found.value, message);
    }
    RequestKeeps(s1, p);
  }

  /** The port is in use and has a buffer, or finds one, and is in the FIFO, or finds room in it. */
  predicate IsReady(s: Out, p: nat, found: Option<nat>)
    requires p < |s.ports|
  {
    && s.ports[p].used && (s.ports[p].buffer >= 0 || found.Some?)
    && (s.ports[p].requested || |s.queue| < |s.ports|)
  }

  /**
   * active_awrite() appends the port at most once. It starts a write if and only if the port is
   * ready and at the front, the active is idle and the hardware takes the write.
   */
  lemma AwriteKeeps(s: Out, p: nat, message: Message, found: Option<nat>, hardware: Status)
    requires Inv(s) && p < |s.ports|
    ensures var (y, status) := Awrite(s, p, message, found, hardware);
            && Inv(y) && |y.ports| == |s.ports|
            && y.queue == QueueAfterWrite(s, p, found)
            && (status.Done? <==> IsReady(s, p, found) && IsTurn(y, p) && !s.busy && hardware.Done?)
            && y.busy == (s.busy || status.Done?)
            && (!s.ports[p].used ==> status == Fail(EINVAL))
            && (IsReady(s, p, found) && IsTurn(y, p) && !s.busy ==> status == hardware)
            && (s.ports[p].used && !(IsReady(s, p, found) && IsTurn(y, p) && !s.busy) ==> status == Fail(EBUSY))
  {
    PrepareKeeps(s, p, message, found);
  }

  lemma RequestQueue(s: Out, p: nat)
    requires QueueInv(s) && p < |s.ports| && !s.ports[p].requested
    ensures QueueInv(Request(s, p).0)
  {
    RoomForUnrequested(s, p);
  }

  /** A write keeps the FIFO equal to the requested ports, which then have room for every port. */
  lemma AwriteQueue(s: Out, p: nat, message: Message, found: Option<nat>, hardware: Status)
    requires QueueInv(s) && p < |s.ports|
    ensures QueueInv(Awrite(s, p, message, found, hardware).0)
    ensures s.ports[p].used && !s.ports[p].requested ==> |s.queue| < |s.ports|
  {
    var s1 := if s.ports[p].buffer < 0 && found.Some? then Filled(s, p, found.value, message) else s;
    assert QueueInv(s1);
    if !s.ports[p].requested {
      RoomForUnrequested(s, p);
      RequestQueue(s1, p);
    }
  }

  /** A request is completed if and only if it is the port's turn, which then passes on. */
  lemma CompleteIff(s: Out, p: nat)
    requires p < |s.ports|
    ensures var (y, status) := Complete(s, p);
            && status == (if IsTurn(s, p) then Done else Fail(EINVAL))
            && (status.Fail? ==> y == s)
            && (status.Done? ==>
                  && s.queue == [p] + y.queue && y.busy == s.busy && |y.ports| == |s.ports|
                  && y.ports[p] == s.ports[p].(requested := false)
                  && forall q :: 0 <= q < |s.ports| && q != p ==> y.ports[q] == s.ports[q])
  {
  }

  lemma CompleteKeeps(s: Out, p: nat)
    requires p < |s.ports| && IsTurn(s, p) && |s.queue| <= |s.ports|
    requires forall q :: q in s.queue ==> 0 <= q < |s.ports|
    requires forall q :: 0 <= q < |s.ports| && s.ports[q].requested ==> q in s.queue
    ensures var y := Complete(s, p).0;
            && (forall q :: q in y.queue ==> 0 <= q < |y.ports|)
            && (forall q :: 0 <= q < |y.ports| && y.ports[q].requested ==> q in y.queue)
            && (QueueInv(s) ==> QueueInv(y))
  {
    var y := Complete(s, p).0;
    assert s.queue == [p] + y.queue;
    assert forall q :: q in y.queue ==> q in s.queue;
    forall q | 0 <= q < |y.ports| && y.ports[q].requested
      ensures q in y.queue
    {
      assert q != p && s.ports[q].requested && q in s.queue;
    }
    if QueueInv(s) {
      DistinctTail(s.queue);
      assert y.queue == s.queue[1..] && s.queue[0] == p;
      forall q | q in y.queue
        ensures 0 <= q < |y.ports| && y.ports[q].requested
      {
        assert q in s.queue && q != p;
      }
    }
  }

  /**
   * A finished write releases its port's turn: in the order of requests, and only on success. The
   * port has no buffer afterwards, and no other port changes.
   */
  lemma WaitEndKeeps(s: Out, p: nat, hardware: Status)
    requires Inv(s) && p < |s.ports| && s.busy && IsTurn(s, p)
    ensures var y := WaitEnd(s, p, hardware);
            && Inv(y) && |y.ports| == |s.ports| && !y.busy
            && y.queue == (if hardware.Done? then s.queue[1..] else s.queue)
            && y.ports[p].buffer < 0 && y.ports[p].used == s.ports[p].used
            && y.ports[p].requested == (s.ports[p].requested && hardware.Fail?)
            && (forall q :: 0 <= q < |s.ports| && q != p ==> y.ports[q] == s.ports[q])
    ensures Complete(s, p).1.Done?
    ensures QueueInv(s) ==> QueueInv(WaitEnd(s, p, hardware))
  {
    CompleteKeeps(s, p);
  }

  /**
   * Opening succeeds if and only if a port is unused. It takes the first such port, clears its
   * flag, and leaves its buffer, its message, the FIFO and all other ports alone.
   */
  lemma AllocKeeps(s: Out)
    requires Inv(s)
    ensures var (y, r) := Alloc(s);
            && Inv(y) && y.queue == s.queue && y.busy == s.busy && |y.ports| == |s.ports|
            && (r.Err? <==> forall q :: 0 <= q < |s.ports| ==> s.ports[q].used)
            && (r.Err? ==> y == s && r.error == EINVAL)
            && (r.Ok? ==>
                  && r.value < |s.ports| && !s.ports[r.value].used
                  && (forall q :: 0 <= q < r.value ==> s.ports[q].used)
                  && y.ports[r.value] == Port(true, false, s.ports[r.value].buffer, s.ports[r.value].message)
                  && (forall q :: 0 <= q < |s.ports| && q != r.value ==> y.ports[q] == s.ports[q]))
  {
    var q := FirstIndex(s.ports, IsUnused, 0);
    assert q < |s.ports| ==> IsUnused(s.ports[q]);
    assert forall i :: 0 <= i < q ==> !IsUnused(s.ports[i]);
  }

  // ------------------------------------------------------------------------
  // When the FIFO is the set of requested ports
  // ------------------------------------------------------------------------

  /** Whether active_alloc() chooses a port whose last owner left a request in the FIFO. */
  predicate ReopensRequested(s: Out) {
    var p := FirstIndex(s.ports, IsUnused, 0);
    p < |s.ports| && s.ports[p].requested
  }

  /** The flag goes and the entry stays: exactly then the FIFO is no longer the requested ports. */
  lemma OpenKeepsQueueIff(s: Out)
    requires QueueInv(s)
    ensures QueueInv(Alloc(s).0) <==> !ReopensRequested(s)
  {
    var p := FirstIndex(s.ports, IsUnused, 0);
    if p < |s.ports| && s.ports[p].requested {
      assert p in s.queue && !Alloc(s).0.ports[p].requested;
    }
  }

  /** Closing alone does no harm: a port in use becomes unused, with its request and buffer. */
  lemma CloseKeepsQueue(s: Out, p: nat)
    requires QueueInv(s) && p < |s.ports|
    ensures var (y, status) := Release(s, p);
            && QueueInv(y) && y.queue == s.queue && y.busy == s.busy && |y.ports| == |s.ports|
            && status == (if s.ports[p].used then Done else Fail(EINVAL))
            && y.ports[p] == Port(false, s.ports[p].requested, s.ports[p].buffer, s.ports[p].message)
            && (forall q :: 0 <= q < |s.ports| && q != p ==> y.ports[q] == s.ports[q])
  {
  }

  /** What follows: a port closed while requested comes back and gets a second entry. */
  lemma ReopenedTwice(s: Out, p: nat, message: Message, found: nat)
    requires Inv(s) && p < |s.ports| && s.ports[p].requested && s.ports[p].used && |s.queue| < |s.ports|
    requires forall i :: 0 <= i < p ==> s.ports[i].used
    ensures var back := Alloc(Release(s, p).0).0;
            |back.ports| == |s.ports| && !Distinct(Awrite(back, p, message, Some(found), Done).0.queue)
  {
    var r := Release(s, p).0;
    assert IsUnused(r.ports[p]) && forall i :: 0 <= i < p ==> !IsUnused(r.ports[i]);
    assert FirstIndex(r.ports, IsUnused, 0) == p;
    var back := Alloc(r).0;
    var q := Awrite(back, p, message, Some(found), Done).0.queue;
    assert q == s.queue + [p];
    var i :| 0 <= i < |s.queue| && s.queue[i] == p;
    assert q[i] == q[|q| - 1];
  }

  // ------------------------------------------------------------------------
  // Every run
  // ------------------------------------------------------------------------

  /**
   * The active, the ports whose thread is inside the hardware's wait, the port whose write the
   * hardware carries out, and the history: requests made, writes started, writes completed.
   */
  datatype Log = Log(out: Out, waiting: set<int>, writer: int, requests: seq<int>, started: nat, ended: nat,
      completed: seq<int>)

  datatype Op =
    | Opens | Closes(p: nat) | Writes(p: nat, message: Message, found: Option<nat>, hardware: Status)
    | Begins(p: nat) | Ends(p: nat, hardware: Status)

  /** One thread waits on a port at a time; communicator_free() does not close a port during its write. */
  predicate Enabled(x: Log, op: Op) {
    match op
    case Opens => true
    case Closes(p) => p < |x.out.ports| && !(x.out.busy && p == x.writer)
    case Writes(p, _, _, _) => p < |x.out.ports|
    case Begins(p) => p < |x.out.ports| && p !in x.waiting
    case Ends(p, _) => p < |x.out.ports| && p in x.waiting
  }

  function Apply(x: Log, op: Op): Log
    requires Enabled(x, op)
  {
    match op
    case Opens => x.(out := Alloc(x.out).0)
    case Closes(p) => x.(out := Release(x.out, p).0)
    case Writes(p, message, found, hardware) =>
      var (out, status) := Awrite(x.out, p, message, found, hardware);
      x.(out := out,
         requests := if |out.queue| > |x.out.queue| then x.requests + [p] else x.requests,
         started := if status.Done? then x.started + 1 else x.started,
         writer := if status.Done? then p else x.writer)
    case Begins(p) => if WaitBegin(x.out, p).Done? then x.(waiting := x.waiting + {p}) else x
    case Ends(p, hardware) =>
      x.(out := WaitEnd(x.out, p, hardware), waiting := x.waiting - {p}, ended := x.ended + 1,
         completed := if hardware.Done? then x.completed + [p] else x.completed)
  }

  /**
   * At most one hardware write is in flight, it is that of the front port, and only that port
   * waits; what has completed is what was requested first, in that order.
   */
  ghost predicate Orderly(x: Log) {
    && Inv(x.out)
    && x.started == x.ended + (if x.out.busy then 1 else 0)
    && (x.out.busy ==> x.writer == x.out.queue[0])
    && (forall p :: p in x.waiting ==> x.out.busy && p == x.writer)
    && x.requests == x.completed + x.out.queue
  }

  lemma WriteKeeps(x: Log, op: Op)
    requires Orderly(x) && Enabled(x, op) && op.Writes?
    ensures Orderly(Apply(x, op))
    ensures |Apply(x, op).out.ports| == |x.out.ports|
  {
    AwriteKeeps(x.out, op.p, op.message, op.found, op.hardware);
    assert x.completed + (x.out.queue + [op.p]) == x.requests + [op.p];
  }

  lemma StepKeeps(x: Log, op: Op)
    requires Orderly(x) && Enabled(x, op)
    ensures Orderly(Apply(x, op))
    ensures |Apply(x, op).out.ports| == |x.out.ports|
  {
    if op.Opens? {
      AllocKeeps(x.out);
    } else if op.Writes? {
      WriteKeeps(x, op);
    } else if op.Ends? {
      WaitEndKeeps(x.out, op.p, op.hardware);
      assert x.completed + x.out.queue == x.completed + [op.p] + x.out.queue[1..];
    }
  }

  /** The FIFO is the requested ports after a step if and only if the step reopens no requested port. */
  lemma StepKeepsQueueIff(x: Log, op: Op)
    requires Orderly(x) && QueueInv(x.out) && Enabled(x, op)
    ensures QueueInv(Apply(x, op).out) <==> !(op.Opens? && ReopensRequested(x.out))
  {
    if op.Opens? {
      OpenKeepsQueueIff(x.out);
    } else if op.Writes? {
      AwriteQueue(x.out, op.p, op.message, op.found, op.hardware);
    } else if op.Ends? {
      WaitEndKeeps(x.out, op.p, op.hardware);
    }
  }

  predicate Follows(x: Log, op: Op, y: Log) { Enabled(x, op) && y == Apply(x, op) }

  ghost predicate IsRun(xs: seq<Log>, ops: seq<Op>) {
    |xs| == |ops| + 1 && forall i :: 0 <= i < |ops| ==> Follows(xs[i], ops[i], xs[i + 1])
  }

  ghost predicate Boot(x: Log) {
    && (forall p :: 0 <= p < |x.out.ports| ==>
         !x.out.ports[p].used && !x.out.ports[p].requested && x.out.ports[p].buffer < 0)
    && x.out.queue == [] && !x.out.busy && x.waiting == {}
    && x.requests == [] && x.completed == [] && x.started == x.ended
  }

  /** Over every interleaving of the ports' calls, writes are serial and complete in request order. */
  lemma {:induction false} RunIsOrderly(xs: seq<Log>, ops: seq<Op>, i: nat)
    requires IsRun(xs, ops) && Boot(xs[0]) && i < |xs|
    ensures Orderly(xs[i]) && |xs[i].out.ports| == |xs[0].out.ports|
    ensures xs[i].completed <= xs[i].requests
  {
    if i > 0 {
      RunIsOrderly(xs, ops, i - 1);
      assert Follows(xs[i - 1], ops[i - 1], xs[i]);
      StepKeeps(xs[i - 1], ops[i - 1]);
    }
  }

  /** Step `k` of a run opens a port that is requested. */
  ghost predicate Spoils(xs: seq<Log>, ops: seq<Op>, k: nat)
    requires k < |xs| && k < |ops|
  {
    ops[k].Opens? && ReopensRequested(xs[k].out)
  }

  /**
   * The FIFO holds exactly the requested ports, each once, all along a run if and only if the run
   * opens no port that is still requested.
   */
  lemma {:induction false} FifoIsRequestsIff(xs: seq<Log>, ops: seq<Op>, n: nat)
    requires IsRun(xs, ops) && Boot(xs[0]) && n < |xs|
    ensures (forall i :: 0 <= i <= n ==> QueueInv(xs[i].out)) <==> (forall k :: 0 <= k < n ==> !Spoils(xs, ops, k))
  {
    if n > 0 {
      FifoIsRequestsIff(xs, ops, n - 1);
      RunIsOrderly(xs, ops, n - 1);
      assert Follows(xs[n - 1], ops[n - 1], xs[n]);
      if forall i :: 0 <= i <= n - 1 ==> QueueInv(xs[i].out) {
        StepKeepsQueueIff(xs[n - 1], ops[n - 1]);
        assert Spoils(xs, ops, n - 1) <==> !QueueInv(xs[n].out);
      }
    }
  }

  // ------------------------------------------------------------------------
  // What a write sends
  // ------------------------------------------------------------------------

  predicate HasBuffer(x: Log, p: nat) { p < |x.out.ports| && x.out.ports[p].buffer >= 0 }

  /**
   * What a write does to the ports: its port, if in use and without a buffer, gets the one found,
   * with the message; nothing else about buffers changes, and no other port.
   */
  lemma AwriteMessage(s: Out, p: nat, message: Message, found: Option<nat>, hardware: Status, q: nat)
    requires p < |s.ports| && q < |s.ports|
    ensures var (y, status) := Awrite(s, p, message, found, hardware);
            && |y.ports| == |s.ports|
            && (q != p ==> y.ports[q] == s.ports[q])
            && y.ports[p].used == s.ports[p].used
            && (s.ports[p].used && s.ports[p].buffer < 0 && found.Some? ==>
                  y.ports[p].buffer == found.value && y.ports[p].message == message)
            && (!(s.ports[p].used && s.ports[p].buffer < 0 && found.Some?) ==>
                  y.ports[p].buffer == s.ports[p].buffer && y.ports[p].message == s.ports[p].message)
            && (status.Done? ==> y.ports[p].buffer >= 0 && y.ports[p].requested)
  {
  }

  /** A port with a buffer keeps the message in it; a port gets a buffer by a write of its own. */
  lemma StepKeepsMessage(x: Log, op: Op, p: nat)
    requires Enabled(x, op) && p < |x.out.ports| && HasBuffer(Apply(x, op), p)
    ensures HasBuffer(x, p) ==> Apply(x, op).out.ports[p].message == x.out.ports[p].message
    ensures !HasBuffer(x, p) ==> op.Writes? && op.p == p && Apply(x, op).out.ports[p].message == op.message
  {
    if op.Writes? {
      AwriteMessage(x.out, op.p, op.message, op.found, op.hardware, p);
    }
  }

  /** Step `j` is the write in which the buffer that port `p` has in state `k` was filled. */
  ghost predicate Filling(xs: seq<Log>, ops: seq<Op>, j: nat, k: nat, p: nat) {
    && j < k < |xs| && j < |ops|
    && ops[j].Writes? && ops[j].p == p && !HasBuffer(xs[j], p)
    && forall i :: j < i <= k ==> HasBuffer(xs[i], p)
  }

  lemma {:induction false} BufferOrigin(xs: seq<Log>, ops: seq<Op>, k: nat, p: nat) returns (j: nat)
    requires IsRun(xs, ops) && Boot(xs[0]) && k < |xs| && HasBuffer(xs[k], p)
    ensures Filling(xs, ops, j, k, p) && ops[j].message == xs[k].out.ports[p].message
  {
    RunIsOrderly(xs, ops, k);
    if k > 0 {
      RunIsOrderly(xs, ops, k - 1);
      assert Follows(xs[k - 1], ops[k - 1], xs[k]);
      StepKeepsMessage(xs[k - 1], ops[k - 1], p);
      if HasBuffer(xs[k - 1], p) {
        j := BufferOrigin(xs, ops, k - 1, p);
      } else {
        j := k - 1;
      }
    }
  }

  /** Whether step `m` of a run starts a hardware write. */
  ghost predicate StartsWrite(xs: seq<Log>, ops: seq<Op>, m: nat) {
    && m < |ops| && m + 1 < |xs| && ops[m].Writes? && Enabled(xs[m], ops[m])
    && Awrite(xs[m].out, ops[m].p, ops[m].message, ops[m].found, ops[m].hardware).1.Done?
  }

  lemma StartedHasBuffer(s: Out, p: nat, message: Message, found: Option<nat>, hardware: Status)
    requires p < |s.ports| && Awrite(s, p, message, found, hardware).1.Done?
    ensures var y := Awrite(s, p, message, found, hardware).0;
            && |y.ports| == |s.ports| && y.ports[p].buffer >= 0
            && y.ports[p].message == (if s.ports[p].buffer < 0 then message else s.ports[p].message)
  {
    AwriteMessage(s, p, message, found, hardware, p);
  }

  /**
   * A write sends the message of the first attempt since the port last had no buffer, which a
   * refused attempt leaves it with. That is the caller's own attempt if and only if the port has
   * no buffer when it is made.
   */
  lemma SendsFirstAttempt(xs: seq<Log>, ops: seq<Op>, m: nat) returns (j: nat)
    requires IsRun(xs, ops) && Boot(xs[0]) && StartsWrite(xs, ops, m)
    ensures Filling(xs, ops, j, m + 1, ops[m].p) && ops[m].p < |xs[m + 1].out.ports|
    ensures xs[m + 1].out.ports[ops[m].p].message == ops[j].message
    ensures j == m <==> !HasBuffer(xs[m], ops[m].p)
  {
    var op := ops[m];
    assert Follows(xs[m], op, xs[m + 1]);
    StartedHasBuffer(xs[m].out, op.p, op.message, op.found, op.hardware);
    j := BufferOrigin(xs, ops, m + 1, op.p);
  }

  lemma {:induction false} NoBufferStays(xs: seq<Log>, ops: seq<Op>, j: nat, k: nat, p: nat)
    requires IsRun(xs, ops) && Boot(xs[0]) && j <= k <= |ops| && p < |xs[0].out.ports| && !HasBuffer(xs[j], p)
    requires forall i :: j <= i < k ==> !(ops[i].Writes? && ops[i].p == p)
    ensures !HasBuffer(xs[k], p)
  {
    if j < k {
      NoBufferStays(xs, ops, j, k - 1, p);
      SamePorts(xs, ops, k - 1);
      assert Follows(xs[k - 1], ops[k - 1], xs[k]);
      if HasBuffer(xs[k], p) {
        StepKeepsMessage(xs[k - 1], ops[k - 1], p);
      }
    }
  }

  /**
   * After a wait has ended, whatever the hardware said, the next write on the port sends the
   * message it is called with.
   */
  lemma SendsOwnAfterWait(xs: seq<Log>, ops: seq<Op>, e: nat, m: nat)
    requires IsRun(xs, ops) && Boot(xs[0]) && e < m && StartsWrite(xs, ops, m)
    requires ops[e].Ends? && ops[e].p == ops[m].p
    requires forall i :: e < i < m ==> !(ops[i].Writes? && ops[i].p == ops[m].p)
    ensures ops[m].p < |xs[m + 1].out.ports|
    ensures xs[m + 1].out.ports[ops[m].p].message == ops[m].message
  {
    var op := ops[m];
    RunIsOrderly(xs, ops, e);
    assert Follows(xs[e], ops[e], xs[e + 1]);
    SamePorts(xs, ops, e);
    WaitEndKeeps(xs[e].out, op.p, ops[e].hardware);
    NoBufferStays(xs, ops, e + 1, m, op.p);
    assert Follows(xs[m], op, xs[m + 1]);
    StartedHasBuffer(xs[m].out, op.p, op.message, op.found, op.hardware);
  }

  lemma {:induction false} SamePorts(xs: seq<Log>, ops: seq<Op>, k: nat)
    requires IsRun(xs, ops) && k < |xs|
    ensures |xs[k].out.ports| == |xs[0].out.ports|
  {
    if k > 0 {
      SamePorts(xs, ops, k - 1);
      assert Follows(xs[k - 1], ops[k - 1], xs[k]);
    }
  }

  /** A wait is admitted if and only if the write of that port is in flight. */
  lemma WaitBeginIff(x: Log, p: nat)
    requires Orderly(x) && p < |x.out.ports|
    ensures WaitBegin(x.out, p) == if x.out.busy && p == x.writer then Done else Fail(EBADF)
  {
  }

  /** Step `k` opens port `p`. */
  ghost predicate OpensPort(xs: seq<Log>, ops: seq<Op>, k: nat, p: nat) {
    k < |ops| && k < |xs| && ops[k].Opens? && Alloc(xs[k].out).1 == Ok(p)
  }

  /**
   * After a port is opened, and before one of its writes has finished, what it sends was written
   * by its new owner if and only if the port came without a buffer; otherwise the new owner
   * sends the message that the last owner could not.
   */
  lemma SendsOwnIff(xs: seq<Log>, ops: seq<Op>, k: nat, m: nat, j: nat)
    requires IsRun(xs, ops) && Boot(xs[0]) && k < m && StartsWrite(xs, ops, m)
    requires OpensPort(xs, ops, k, ops[m].p) && Filling(xs, ops, j, m + 1, ops[m].p)
    requires forall i :: k <= i <= m ==> !(ops[i].Ends? && ops[i].p == ops[m].p)
    ensures j > k <==> !HasBuffer(xs[k], ops[m].p)
  {
    var p := ops[m].p;
    if HasBuffer(xs[k], p) && j > k {
      BufferStays(xs, ops, k, j, p);
    }
  }

  lemma {:induction false} BufferStays(xs: seq<Log>, ops: seq<Op>, k: nat, j: nat, p: nat)
    requires IsRun(xs, ops) && Boot(xs[0]) && k <= j < |ops| && HasBuffer(xs[k], p)
    requires forall i :: k <= i < j ==> !(ops[i].Ends? && ops[i].p == p)
    ensures HasBuffer(xs[j], p)
  {
    if k < j {
      BufferStays(xs, ops, k, j - 1, p);
      assert Follows(xs[j - 1], ops[j - 1], xs[j]);
      StepKeepsBuffer(xs[j - 1], ops[j - 1], p);
    }
  }

  lemma StepKeepsBuffer(x: Log, op: Op, p: nat)
    requires Enabled(x, op) && HasBuffer(x, p) && !(op.Ends? && op.p == p)
    ensures HasBuffer(Apply(x, op), p)
  {
    if op.Writes? {
      AwriteMessage(x.out, op.p, op.message, op.found, op.hardware, p);
    }
  }

  // ------------------------------------------------------------------------
  // That it sends another message does happen
  // ------------------------------------------------------------------------

  /** The first port is opened, and its first write refused by the hardware. */
  function RefusedWrite(a: Message, id: nat): seq<Op> { [Opens, Writes(0, a, Some(id), Fail(EBUSY))] }

  lemma RefusedLeavesMessage(x: Log, a: Message, id: nat) returns (y: Log, z: Log)
    requires Boot(x) && 0 < |x.out.ports|
    ensures Follows(x, Opens, y) && Follows(y, Writes(0, a, Some(id), Fail(EBUSY)), z)
    ensures |z.out.ports| == |x.out.ports| && !z.out.busy && z.out.queue == [0]
    ensures z.out.ports[0] == Port(true, true, id, a)
    ensures forall p :: 1 <= p < |z.out.ports| ==> z.out.ports[p] == x.out.ports[p]
  {
    assert IsUnused(x.out.ports[0]);
    assert FirstIndex(x.out.ports, IsUnused, 0) == 0;
    y := Apply(x, Opens);
    z := Apply(y, Writes(0, a, Some(id), Fail(EBUSY)));
  }

  /** A caller whose write was refused and who then writes `b` sends `a`. */
  lemma RetrySendsOther(x: Log, a: Message, b: Message, id: nat) returns (xs: seq<Log>, ops: seq<Op>)
    requires Boot(x) && 0 < |x.out.ports|
    ensures ops == RefusedWrite(a, id) + [Writes(0, b, None, Done)]
    ensures IsRun(xs, ops) && xs[0] == x && StartsWrite(xs, ops, 2)
    ensures 0 < |xs[3].out.ports| && xs[3].out.ports[0].message == a
  {
    var y, z := RefusedLeavesMessage(x, a, id);
    var last := Writes(0, b, None, Done);
    ops := RefusedWrite(a, id) + [last];
    xs := [x, y, z, Apply(z, last)];
  }

  /** A caller who opens the port that such a caller closed, and then writes `b`, sends `a`. */
  lemma NextOwnerSendsOther(x: Log, a: Message, b: Message, id: nat) returns (xs: seq<Log>, ops: seq<Op>)
    requires Boot(x) && 1 < |x.out.ports|
    ensures ops == RefusedWrite(a, id) + [Closes(0), Opens, Writes(0, b, None, Done)]
    ensures IsRun(xs, ops) && xs[0] == x && OpensPort(xs, ops, 3, 0) && StartsWrite(xs, ops, 4)
    ensures 0 < |xs[5].out.ports| && xs[5].out.ports[0].message == a
    ensures Spoils(xs, ops, 3) && xs[5].out.queue == [0, 0]
  {
    var y, z := RefusedLeavesMessage(x, a, id);
    var closed := Apply(z, Closes(0));
    assert IsUnused(closed.out.ports[0]);
    assert FirstIndex(closed.out.ports, IsUnused, 0) == 0;
    var anew := Apply(closed, Opens);
    var last := Writes(0, b, None, Done);
    ops := RefusedWrite(a, id) + [Closes(0), Opens, last];
    xs := [x, y, z, closed, anew, Apply(anew, last)];
  }
}
