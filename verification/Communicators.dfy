/**
 * Virtual mailboxes and portals: communicators on top of ports. A communicator goes through
 * busy, finished and allowed states; the table of communicators and the ports of the actives
 * are allocated and released together.
 */
module Communicators {
  import opened Kernel

  /** What an operation on an active answers. */
  datatype Answer = Success | Again | Received | Failed(error: Errno)

  /** `remote` is config.remote_addr, `buffer` config.buffer with 0 for none, and `size` config.size. */
  datatype Communicator = Communicator(
    used: bool, input: bool, busy: bool, finished: bool, allowed: bool, fd: int, remote: int, buffer: int, size: nat)

  const UNUSED := Communicator(false, false, false, false, false, -1, -1, 0, 0)

  // ------------------------------------------------------------------------
  // One communicator
  // ------------------------------------------------------------------------

  /** do_vportal_allow() */
  function Allow(c: Communicator, address: int): (Communicator, Status) {
    if !c.used then (c, Fail(EBADF)) else
    if !c.input then (c, Fail(EBADF)) else
    if c.allowed then (c, Fail(EBUSY)) else
    (c.(allowed := true, remote := address), Done)
  }

  /**
   * communicator_operate() after do_vportal_aread(), or another of these calls, has set buffer
   * and size; `answer` is that of the active.
   */
  function Operate(c: Communicator, input: bool, buffer: int, size: nat, answer: Answer): (Communicator, Result<nat>) {
    var c1 := c.(buffer := buffer, size := size);
    if !c.used then (c1, Err(EBADF)) else
    if input && !c.input then (c1, Err(EBADF)) else
    if input && !c.allowed then (c1, Err(EACCES)) else
    if !input && c.input then (c1, Err(EBADF)) else
    if c.busy then (c1, Err(EBUSY)) else
    match answer
    case Failed(e) => (c1, Err(e))
    case Received => (c1.(finished := true, allowed := false, busy := true), Ok(size))
    case _ => (c1.(busy := true), Ok(size))
  }

  /** The first part of communicator_wait(): refused, over at once, or to ask the active. */
  datatype Waiting = Denied(error: Errno) | Over | Ask

  function WaitBegin(c: Communicator): (Communicator, Waiting) {
    if !c.used then (c, Denied(EBADF)) else
    if !c.busy then (c, Denied(EBADF)) else
    if c.finished then (c.(finished := false, buffer := 0, size := 0, busy := false), Over) else
    (c, Ask)
  }

  /** The second part of communicator_wait(), with the active's answer. */
  function WaitEnd(c: Communicator, answer: Answer): Communicator {
    var c1 := if answer.Success? then c.(allowed := false, remote := if c.input then -1 else c.remote) else c;
    c1.(buffer := 0, size := 0, busy := false)
  }

  // ------------------------------------------------------------------------
  // What each call does
  // ------------------------------------------------------------------------

  /** Permission is given to an input portal that has none open, for one address; nothing else changes. */
  lemma AllowDoes(c: Communicator, address: int)
    ensures var (y, status) := Allow(c, address);
            && (status == Fail(EBADF) <==> !(c.used && c.input))
            && (status == Fail(EBUSY) <==> c.used && c.input && c.allowed)
            && (status.Done? <==> c.used && c.input && !c.allowed)
            && (status.Fail? ==> y == c)
            && (status.Done? ==>
                  y.allowed && y.remote == address && y.(allowed := c.allowed, remote := c.remote) == c)
  {
  }

  /** Whether a communicator is there for operations of the direction, and permitted to. */
  predicate MayOperate(c: Communicator, input: bool) { c.used && c.input == input && (input ==> c.allowed) }

  /**
   * An operation starts if and only if the communicator is in use, of the direction, permitted
   * and idle, and the active takes it; it answers its size. Buffer and size of the call are noted
   * in every case.
   */
  lemma OperateDoes(c: Communicator, input: bool, buffer: int, size: nat, answer: Answer)
    ensures var (y, r) := Operate(c, input, buffer, size, answer);
            && y.buffer == buffer && y.size == size
            && (r.Ok? <==> MayOperate(c, input) && !c.busy && !answer.Failed?)
            && (r.Ok? ==> r.value == size && y.busy && y.finished == (answer.Received? || c.finished))
            && (r.Ok? ==> y.allowed == (c.allowed && !answer.Received?))
            && (!c.used || c.input != input ==> r == Err(EBADF))
            && (c.used && c.input == input && !MayOperate(c, input) ==> r == Err(EACCES))
            && (MayOperate(c, input) && c.busy ==> r == Err(EBUSY))
            && (MayOperate(c, input) && !c.busy && answer.Failed? ==> r == Err(answer.error))
            && (r.Err? ==> y.busy == c.busy && y.finished == c.finished && y.allowed == c.allowed)
            && y.used == c.used && y.input == c.input && y.fd == c.fd && y.remote == c.remote
  {
  }

  /**
   * A wait asks the active for an operation under way that has not finished yet; one that has
   * is over at once, and the communicator is idle, without buffer and size.
   */
  lemma WaitBeginDoes(c: Communicator)
    ensures var (y, w) := WaitBegin(c);
            && (w.Denied? <==> !(c.used && c.busy)) && (w.Denied? ==> w.error == EBADF)
            && (w.Ask? <==> c.used && c.busy && !c.finished)
            && (w.Over? <==> c.used && c.busy && c.finished)
            && (!w.Over? ==> y == c)
            && (w.Over? ==>
                  && !y.busy && !y.finished && y.size == 0 && y.buffer == 0
                  && y.(busy := true, finished := true, size := c.size, buffer := c.buffer) == c)
  {
  }

  /**
   * After the active's answer the communicator is idle, without buffer and size. A delivery uses
   * the permission up, and an input communicator forgets the address; a retry leaves both.
   */
  lemma WaitEndDoes(c: Communicator, answer: Answer)
    ensures var y := WaitEnd(c, answer);
            && !y.busy && y.size == 0 && y.buffer == 0
            && y.used == c.used && y.input == c.input && y.finished == c.finished && y.fd == c.fd
            && y.allowed == (c.allowed && !answer.Success?)
            && y.remote == (if answer.Success? && c.input then -1 else c.remote)
  {
  }

  // ------------------------------------------------------------------------
  // The life of a communicator
  // ------------------------------------------------------------------------

  /**
   * The communicator, whether its thread is inside the active's wait, and the history:
   * permissions given and used up, the address last permitted, operations started and ended, and
   * buffer and size of the operation started last.
   */
  datatype Portal = Portal(
    comm: Communicator, asking: bool, allows: nat, deliveries: nat, peer: int,
    started: nat, ended: nat, buffer: int, size: nat)

  datatype Op =
    | Allows(address: int) | Operates(input: bool, buffer: int, size: nat, answer: Answer)
    | Waits | Ends(answer: Answer)

  /** An operation is never answered with Again, and the active's wait never with Received. */
  predicate Enabled(x: Portal, op: Op) {
    match op
    case Allows(_) => true
    case Operates(_, _, _, answer) => !answer.Again?
    case Waits => !x.asking
    case Ends(answer) => x.asking && !answer.Received?
  }

  function Apply(x: Portal, op: Op): Portal
    requires Enabled(x, op)
  {
    match op
    case Allows(address) =>
      var (c, status) := Allow(x.comm, address);
      if status.Done? then x.(comm := c, allows := x.allows + 1, peer := address) else x.(comm := c)
    case Operates(input, buffer, size, answer) =>
      var (c, r) := Operate(x.comm, input, buffer, size, answer);
      if r.Err? then x.(comm := c) else
      x.(comm := c, started := x.started + 1, buffer := buffer, size := size,
         deliveries := if input && answer.Received? then x.deliveries + 1 else x.deliveries)
    case Waits =>
      var (c, w) := WaitBegin(x.comm);
      x.(comm := c, asking := w.Ask?, ended := if w.Over? then x.ended + 1 else x.ended)
    case Ends(answer) =>
      x.(comm := WaitEnd(x.comm, answer), asking := false, ended := x.ended + 1,
         deliveries := if x.comm.input && answer.Success? then x.deliveries + 1 else x.deliveries)
  }

  /** A communicator just made, for either direction. */
  predicate IsNew(x: Portal) {
    && x.comm.used && !x.comm.busy && !x.comm.finished && !x.comm.allowed
    && !x.asking && x.allows == x.deliveries && x.started == x.ended
  }

  ghost predicate IsRun(xs: seq<Portal>, ops: seq<Op>) {
    && |xs| == |ops| + 1
    && forall i :: 0 <= i < |ops| ==> Follows(xs[i], ops[i], xs[i + 1])
  }

  predicate Follows(x: Portal, op: Op, y: Portal) { Enabled(x, op) && y == Apply(x, op) }

  /**
   * One operation at a time: every one started has ended but for the one of a busy communicator,
   * which alone can be finished or waited for.
   */
  predicate UsageInv(x: Portal) {
    && x.comm.used
    && x.started == x.ended + (if x.comm.busy then 1 else 0)
    && (x.comm.finished ==> x.comm.busy)
    && (x.asking ==> x.comm.busy && !x.comm.finished)
  }

  /**
   * Every permission given is used for one delivery or still open, and an open one is for the
   * address last permitted; an operation in progress holds an open permission.
   */
  predicate PermissionInv(x: Portal) {
    && x.allows == x.deliveries + (if x.comm.allowed then 1 else 0)
    && (x.comm.allowed ==> x.comm.input && x.comm.remote == x.peer)
    && (x.comm.input && x.comm.busy && !x.comm.finished ==> x.comm.allowed)
  }

  lemma StepKeeps(x: Portal, op: Op)
    requires UsageInv(x) && PermissionInv(x) && Enabled(x, op)
    ensures var y := Apply(x, op);
            && UsageInv(y) && PermissionInv(y) && y.comm.input == x.comm.input && y.comm.fd == x.comm.fd
            && (!x.comm.input ==> y.comm.remote == x.comm.remote)
  {
    match op
    case Allows(address) => AllowDoes(x.comm, address);
    case Operates(input, buffer, size, answer) => OperateDoes(x.comm, input, buffer, size, answer);
    case Waits => WaitBeginDoes(x.comm);
    case Ends(answer) => WaitEndDoes(x.comm, answer);
  }

  /**
   * Over every run in the life of a communicator: one operation at a time, every permission
   * accounted for, the descriptor and direction as made, and the address of an output as made.
   * A retry, which the active answers with Again, leaves the permission open.
   */
  lemma {:induction false} PermissionsAccounted(xs: seq<Portal>, ops: seq<Op>, i: nat)
    requires IsRun(xs, ops) && i < |xs| && IsNew(xs[0])
    ensures UsageInv(xs[i]) && PermissionInv(xs[i])
    ensures xs[i].comm.input == xs[0].comm.input && xs[i].comm.fd == xs[0].comm.fd
    ensures !xs[0].comm.input ==> xs[i].comm.remote == xs[0].comm.remote
    ensures xs[i].asking ==>
        Apply(xs[i], Ends(Again)).comm.allowed == xs[i].comm.allowed
        && (xs[i].comm.input ==> Apply(xs[i], Ends(Again)).comm.allowed)
        && Apply(xs[i], Ends(Again)).deliveries == xs[i].deliveries
  {
    if i > 0 {
      PermissionsAccounted(xs, ops, i - 1);
      assert Follows(xs[i - 1], ops[i - 1], xs[i]);
      StepKeeps(xs[i - 1], ops[i - 1]);
    }
  }

  // ------------------------------------------------------------------------
  // Whose buffer the operation under way has
  // ------------------------------------------------------------------------

  /** The operation under way has the buffer and the size that it was called with. */
  predicate HasOwnBuffer(x: Portal) { x.comm.busy ==> x.comm.buffer == x.buffer && x.comm.size == x.size }

  /** A call while an operation is under way, with another buffer or size; it will be refused. */
  predicate Disturbs(x: Portal, op: Op) {
    op.Operates? && x.comm.busy && (op.buffer != x.buffer || op.size != x.size)
  }

  lemma StepKeepsBufferIff(x: Portal, op: Op)
    requires UsageInv(x) && HasOwnBuffer(x) && Enabled(x, op)
    ensures HasOwnBuffer(Apply(x, op)) <==> !Disturbs(x, op)
    ensures op.Operates? && x.comm.busy ==> Operate(x.comm, op.input, op.buffer, op.size, op.answer).1.Err?
  {
    match op
    case Allows(address) => AllowDoes(x.comm, address);
    case Operates(input, buffer, size, answer) => OperateDoes(x.comm, input, buffer, size, answer);
    case Waits => WaitBeginDoes(x.comm);
    case Ends(answer) => WaitEndDoes(x.comm, answer);
  }

  ghost predicate DisturbedBefore(xs: seq<Portal>, ops: seq<Op>, n: nat)
    requires n <= |ops| < |xs|
  {
    exists k :: 0 <= k < n && Disturbs(xs[k], ops[k])
  }

  ghost predicate OwnBuffersUpTo(xs: seq<Portal>, n: nat)
    requires n < |xs|
  {
    forall i :: 0 <= i <= n ==> HasOwnBuffer(xs[i])
  }

  /**
   * Operations write buffer and size before they are checked. So all along a run the operation
   * under way has its own buffer and size if and only if nobody calls another operation with
   * other ones in the meantime, although that call is refused.
   */
  lemma {:induction false} KeepsOwnBufferIff(xs: seq<Portal>, ops: seq<Op>, n: nat)
    requires IsRun(xs, ops) && IsNew(xs[0]) && n < |xs|
    ensures OwnBuffersUpTo(xs, n) <==> !DisturbedBefore(xs, ops, n)
  {
    if n > 0 {
      KeepsOwnBufferIff(xs, ops, n - 1);
      PermissionsAccounted(xs, ops, n - 1);
      assert Follows(xs[n - 1], ops[n - 1], xs[n]);
      if OwnBuffersUpTo(xs, n - 1) {
        assert HasOwnBuffer(xs[n - 1]);
        StepKeepsBufferIff(xs[n - 1], ops[n - 1]);
        assert Disturbs(xs[n - 1], ops[n - 1]) ==> DisturbedBefore(xs, ops, n);
        assert DisturbedBefore(xs, ops, n) ==> Disturbs(xs[n - 1], ops[n - 1]);
      } else {
        assert DisturbedBefore(xs, ops, n);
      }
    }
  }

  /** A run that fails: a second write on an output communicator is refused, and takes the first one's buffer. */
  lemma RefusedCallTakesBuffer(x: Portal, a: int, b: int, size: nat) returns (xs: seq<Portal>)
    requires IsNew(x) && !x.comm.input && a != b
    ensures IsRun(xs, [Operates(false, a, size, Success), Operates(false, b, size, Success)]) && xs[0] == x
    ensures xs[2].comm.busy && xs[2].buffer == a && xs[2].comm.buffer == b && xs[2].started == x.started + 1
  {
    var y := Apply(x, Operates(false, a, size, Success));
    xs := [x, y, Apply(y, Operates(false, b, size, Success))];
  }
}
