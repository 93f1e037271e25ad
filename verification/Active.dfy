/** An output active as the kernel runs it, with its ports and its request FIFO. */
module Active {
  import opened Kernel
  import opened OutputActive
  import MessagePool
  import RequestFifo
  import Sequences

  class Writer {
    const ports: array<Port>
    const requests: RequestFifo.Fifo
    var busy: bool

    ghost predicate Valid()
      reads this, ports, requests, requests.fifo
    {
      requests.Valid() && requests.fifo.Length == ports.Length
    }

    ghost function View(): Out
      reads this, ports, requests
    {
      Out(ports[..], requests.queue, busy)
    }

    /** The active as do_mailbox_table_init() leaves it. */
    constructor (nports: nat)
      requires 0 < nports
      ensures Valid() && fresh(ports) && fresh(requests) && fresh(requests.fifo) && ports.Length == nports
      ensures Inv(View()) && QueueInv(View()) && requests.queue == [] && !busy
      ensures forall p :: 0 <= p < nports ==> !ports[p].used
    {
      ports := new Port[nports](i => Port(false, false, -1, MessagePool.NO_MESSAGE));
      requests := new RequestFifo.Fifo(nports);
      busy := false;
    }

    /** do_request_operation() */
    method DoRequestOperation(p: nat) returns (status: Status)
      requires Valid() && p < ports.Length
      modifies ports, requests, requests.fifo
      ensures Valid() && (View(), status) == Request(old(View()), p)
    {
      status := requests.Push(p);
      if status.Done? {
        ports[p] := ports[p].(requested := true);
      }
    }

    /** do_request_complete() */
    method DoRequestComplete(p: nat) returns (status: Status)
      requires Valid() && p < ports.Length
      modifies ports, requests, requests.fifo
      ensures Valid() && (View(), status) == Complete(old(View()), p)
    {
      status := requests.Pop(p);
      if status.Done? {
        ports[p] := ports[p].(requested := false);
      }
    }

    /** do_request_clear(): what it does to a full FIFO is nothing. */
    method DoRequestClear(p: nat)
      requires Valid() && p < ports.Length
      modifies ports, requests, requests.fifo
      ensures Valid() && busy == old(busy)
      ensures var hit := p in old(requests.queue) && |old(requests.queue)| < ports.Length;
              && requests.queue == (if hit then Sequences.Remove(old(requests.queue), p) else old(requests.queue))
              && ports[..] == if hit then old(ports[..])[p := old(ports[p]).(requested := false)] else old(ports[..])
    {
      var cleared := requests.Clear(p);
      if cleared {
        ports[p] := ports[p].(requested := false);
      }
    }

    /** active_alloc() for an output port */
    method ActiveAlloc() returns (r: Result<nat>)
      requires Valid()
      modifies ports
      ensures Valid() && (View(), r) == Alloc(old(View()))
    {
      var p := 0;
      while p < ports.Length && ports[p].used
        invariant 0 <= p <= ports.Length
        invariant forall i :: 0 <= i < p ==> ports[i].used
      {
        p := p + 1;
      }
      assert forall i :: 0 <= i < p ==> !IsUnused(ports[..][i]);
      assert FirstIndex(ports[..], IsUnused, 0) == p;
      if p == ports.Length { return Err(EINVAL); }
      ports[p] := ports[p].(requested := false);
      ports[p] := ports[p].(used := true);
      assert ports[..] == old(ports[..])[p := old(ports[p]).(used := true, requested := false)];
      return Ok(p);
    }

    /** active_release() for an output port */
    method ActiveRelease(p: nat) returns (status: Status)
      requires Valid() && p < ports.Length
      modifies ports
      ensures Valid() && (View(), status) == Release(old(View()), p)
    {
      if !ports[p].used { return Fail(EINVAL); }
      ports[p] := ports[p].(used := false);
      return Done;
    }

    /** active_awrite() through the NoC, up to the request */
    method PrepareWrite(p: nat, message: Message, found: Option<nat>) returns (status: Status)
      requires Valid() && p < ports.Length
      modifies ports, requests, requests.fifo
      ensures Valid() && (View(), status) == Prepare(old(View()), p, message, found)
    {
      if !ports[p].used { return Fail(EINVAL); }
      if ports[p].buffer < 0 {
        if found.None? { return Fail(EBUSY); }
        ports[p] := ports[p].(message := message);
        ports[p] := ports[p].(buffer := found.value);
        assert ports[..] == old(ports[..])[p := old(ports[p]).(buffer := found.value, message := message)];
      }
      status := Done;
      if !ports[p].requested {
        status := DoRequestOperation(p);
      }
    }

    /** active_awrite() through the NoC */
    method ActiveAwrite(p: nat, message: Message, found: Option<nat>, hardware: Status) returns (status: Status)
      requires Valid() && p < ports.Length
      modifies this, ports, requests, requests.fifo
      ensures Valid() && (View(), status) == Awrite(old(View()), p, message, found, hardware)
    {
      var ready := PrepareWrite(p, message, found);
      if ready.Fail? { return ready; }
      var turn := requests.IsTurn(p);
      if !turn { return Fail(EBUSY); }
      if busy { return Fail(EBUSY); }
      if hardware.Fail? { return hardware; }
      busy := true;
      return Done;
    }

    /** active_wait(), up to the hardware's wait */
    method ActiveWaitBegin(p: nat) returns (status: Status)
      requires Valid() && p < ports.Length
      ensures status == WaitBegin(View(), p)
    {
      if !ports[p].used { return Fail(EBADF); }
      if !busy { return Fail(EBADF); }
      if ports[p].buffer < 0 { return Fail(EBADF); }
      var turn := requests.IsTurn(p);
      if !turn { return Fail(EBADF); }
      return Done;
    }

    /** active_wait(), from the hardware's wait on */
    method ActiveWaitEnd(p: nat, hardware: Status)
      requires Valid() && p < ports.Length
      modifies this, ports, requests, requests.fifo
      ensures Valid() && View() == WaitEnd(old(View()), p, hardware)
      ensures ports[p].buffer < 0 && !busy
    {
      if hardware.Done? {
        var _ := DoRequestComplete(p);
      }
      ports[p] := ports[p].(buffer := -1);
      busy := false;
    }
  }
}
