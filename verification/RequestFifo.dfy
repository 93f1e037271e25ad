/**
 * The circular FIFO of write requests of an active, with the flags of the ports that have a
 * request in it. The abstract queue is a sequence of port numbers; the fields represent it at
 * every position of the ring.
 */
module RequestFifo {
  import opened Kernel
  import opened Sequences

  /** What requests->fifo holds where there is no request. */
  const NO_PORT := -1

  /** The position after `i`: __mod_pw2(i + 1, capacity). */
  function Next(i: int, capacity: int): int { if i + 1 == capacity then 0 else i + 1 }

  /** The position before `i`: __mod_pw2(i - 1, capacity). */
  function Before(i: int, capacity: int): int { if i == 0 then capacity - 1 else i - 1 }

  /** The position `i` steps after `tail`. */
  function Slot(tail: int, i: int, capacity: int): int { if tail + i < capacity then tail + i else tail + i - capacity }

  /** Buffer, head and tail represent `queue`, from the oldest request on; free slots hold no port. */
  ghost predicate Represents(fifo: seq<int>, head: int, tail: int, queue: seq<int>) {
    && 0 < |fifo| && |queue| <= |fifo| && 0 <= tail < |fifo|
    && head == Slot(tail, |queue|, |fifo|)
    && (forall i :: 0 <= i < |queue| ==> fifo[Slot(tail, i, |fifo|)] == queue[i])
    && (forall i :: |queue| <= i < |fifo| ==> fifo[Slot(tail, i, |fifo|)] == NO_PORT)
  }

  /** Taking the oldest request moves the tail on by one. */
  lemma PopRepresents(fifo: seq<int>, head: int, tail: int, queue: seq<int>)
    requires Represents(fifo, head, tail, queue) && queue != []
    ensures Represents(fifo[tail := NO_PORT], head, Next(tail, |fifo|), queue[1..])
  {
    var n, q, t := |fifo|, queue[1..], Next(tail, |fifo|);
    var after := fifo[tail := NO_PORT];
    forall i | 0 <= i < n
      ensures after[Slot(t, i, n)] == if i < |q| then q[i] else NO_PORT
    {
      assert Slot(t, i, n) == if i + 1 < n then Slot(tail, i + 1, n) else tail;
    }
  }

  /** What slot `i` from the tail holds when a scan that moves up what follows `at` has done `k` slots. */
  function Shifted(queue: seq<int>, at: nat, k: nat, i: nat): int {
    var j := if at <= i < k then i + 1 else i;
    if j < |queue| then queue[j] else NO_PORT
  }

  ghost predicate IsShifted(fifo: seq<int>, tail: int, queue: seq<int>, at: nat, k: nat)
    requires 0 <= tail < |fifo|
  {
    forall i :: 0 <= i < |fifo| ==> fifo[Slot(tail, i, |fifo|)] == Shifted(queue, at, k, i)
  }

  lemma StartShifted(fifo: seq<int>, head: int, tail: int, queue: seq<int>, at: nat)
    requires Represents(fifo, head, tail, queue)
    ensures IsShifted(fifo, tail, queue, at, 0)
  {
  }

  /** One slot of the scan. */
  lemma ShiftOne(fifo: seq<int>, tail: int, queue: seq<int>, at: nat, k: nat, after: seq<int>)
    requires 0 <= tail < |fifo| && IsShifted(fifo, tail, queue, at, k) && k < |queue| < |fifo|
    requires var curr := Slot(tail, k, |fifo|);
             after == if at <= k then fifo[curr := fifo[Next(curr, |fifo|)]] else fifo
    ensures IsShifted(after, tail, queue, at, k + 1)
  {
    var n, curr := |fifo|, Slot(tail, k, |fifo|);
    assert Next(curr, n) == Slot(tail, k + 1, n);
    assert fifo[Slot(tail, k + 1, n)] == Shifted(queue, at, k, k + 1);
    forall i | 0 <= i < n
      ensures after[Slot(tail, i, n)] == Shifted(queue, at, k + 1, i)
    {
      assert i != k ==> Slot(tail, i, n) != curr;
    }
  }

  /** A finished scan has taken the request out. */
  lemma ShiftedRepresents(fifo: seq<int>, head: int, tail: int, queue: seq<int>, p: int)
    requires 0 <= tail < |fifo| && |queue| < |fifo| && head == Slot(tail, |queue|, |fifo|)
    requires p in queue && IsShifted(fifo, tail, queue, IndexOf(queue, p), |queue|)
    ensures Represents(fifo, Before(head, |fifo|), tail, Remove(queue, p))
  {
    RemoveSplits(queue, p);
    var at, q := IndexOf(queue, p), Remove(queue, p);
    forall i | 0 <= i < |fifo|
      ensures fifo[Slot(tail, i, |fifo|)] == if i < |q| then q[i] else NO_PORT
    {
      assert fifo[Slot(tail, i, |fifo|)] == Shifted(queue, at, |queue|, i);
    }
  }

  class Fifo {
    const fifo: array<int>
    var head: int
    var tail: int
    var nelements: nat
    ghost var queue: seq<int>

    ghost predicate Valid()
      reads this, fifo
    {
      nelements == |queue| && Represents(fifo[..], head, tail, queue)
    }

    /** The FIFO as do_mailbox_table_init() leaves it. */
    constructor (capacity: nat)
      requires 0 < capacity
      ensures Valid() && fresh(fifo) && fifo.Length == capacity && queue == []
    {
      fifo := new int[capacity](i => NO_PORT);
      head, tail, nelements, queue := 0, 0, 0, [];
    }

    /** do_request_operation(), without the flag of the port. */
    method Push(p: nat) returns (status: Status)
      requires Valid()
      modifies this, fifo
      ensures Valid()
      ensures status == if |old(queue)| == fifo.Length then Fail(EBUSY) else Done
      ensures queue == if |old(queue)| == fifo.Length then old(queue) else old(queue) + [p]
    {
      if nelements == fifo.Length { return Fail(EBUSY); }
      fifo[head] := p;
      head := Next(head, fifo.Length);
      nelements := nelements + 1;
      queue := queue + [p];
      return Done;
    }

    /** do_request_complete(), without the flag of the port. */
    method Pop(p: nat) returns (status: Status)
      requires Valid()
      modifies this, fifo
      ensures Valid()
      ensures status == if old(queue) != [] && old(queue)[0] == p then Done else Fail(EINVAL)
      ensures queue == if status.Done? then old(queue)[1..] else old(queue)
    {
      assert fifo[Slot(tail, 0, fifo.Length)] == if queue != [] then queue[0] else NO_PORT;
      if fifo[tail] != p { return Fail(EINVAL); }
      PopRepresents(fifo[..], head, tail, queue);
      fifo[tail] := NO_PORT;
      tail := Next(tail, fifo.Length);
      nelements := nelements - 1;
      queue := queue[1..];
      return Done;
    }

    /** do_request_verify() */
    method IsTurn(p: nat) returns (turn: bool)
      requires Valid()
      ensures turn == (queue != [] && queue[0] == p)
    {
      if nelements == 0 { return false; }
      assert fifo[Slot(tail, 0, fifo.Length)] == queue[0];
      return fifo[tail] == p;
    }

    /** The scan of do_request_clear(), which ends at once when the FIFO is full. */
    method Scan(p: nat) returns (cleared: bool)
      requires Valid()
      modifies fifo
      ensures cleared == (p in queue && |queue| < fifo.Length)
      ensures cleared ==> IsShifted(fifo[..], tail, queue, IndexOf(queue, p), |queue|)
      ensures !cleared ==> fifo[..] == old(fifo[..])
    {
      var n := fifo.Length;
      var curr, next := tail, Next(tail, n);
      cleared := false;
      ghost var k, at := 0, IndexOf(queue, p);
      StartShifted(fifo[..], head, tail, queue, at);
      while curr != head
        invariant 0 <= k <= |queue| && curr == Slot(tail, k, n) && next == Next(curr, n)
        invariant |queue| == n ==> k == 0
        invariant cleared == (at < k)
        invariant IsShifted(fifo[..], tail, queue, at, k)
        invariant k <= at ==> fifo[..] == old(fifo[..])
        decreases |queue| - k
      {
        assert k < |queue| < n;
        ghost var before := fifo[..];
        assert before[Slot(tail, k, n)] == Shifted(queue, at, k, k);
        cleared := cleared || p == fifo[curr];
        if cleared {
          fifo[curr] := fifo[next];
        }
        ShiftOne(before, tail, queue, at, k, fifo[..]);
        SlotNext(tail, k, n);
        curr := next;
        next := Next(curr, n);
        k := k + 1;
      }
      SlotsDiffer(tail, k, |queue|, n);
    }

    /**
     * do_request_clear(), without the flag of the port: takes a request out of the middle by
     * moving the later ones up, except that a full FIFO is left as it is, because its scan ends
     * where it starts.
     */
    method Clear(p: nat) returns (cleared: bool)
      requires Valid()
      modifies this, fifo
      ensures Valid()
      ensures cleared == (p in old(queue) && |old(queue)| < fifo.Length)
      ensures queue == if cleared then Remove(old(queue), p) else old(queue)
    {
      if nelements == 0 { return false; }
      cleared := Scan(p);
      if cleared {
        TakeOut(p);
      }
    }

    /** The end of do_request_clear(): the scan has moved up what follows the request. */
    method TakeOut(p: nat)
      requires 0 <= tail < fifo.Length && nelements == |queue| < fifo.Length
      requires p in queue && head == Slot(tail, |queue|, fifo.Length)
      requires IsShifted(fifo[..], tail, queue, IndexOf(queue, p), |queue|)
      modifies this
      ensures Valid() && queue == Remove(old(queue), p)
    {
      ShiftedRepresents(fifo[..], head, tail, queue, p);
      head := Before(head, fifo.Length);
      nelements := nelements - 1;
      queue := Remove(queue, p);
    }
  }

  lemma SlotNext(tail: int, k: int, n: int)
    requires 0 <= tail < n && 0 <= k < n
    ensures Next(Slot(tail, k, n), n) == Slot(tail, k + 1, n)
  {
  }

  lemma SlotsDiffer(tail: int, i: int, j: int, n: int)
    requires 0 <= tail < n && 0 <= i <= n && 0 <= j <= n && Slot(tail, i, n) == Slot(tail, j, n)
    ensures i == j || (i == 0 && j == n) || (i == n && j == 0)
  {
  }
}
