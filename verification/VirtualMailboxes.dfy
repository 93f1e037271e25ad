/** Virtual mailboxes and portals as the kernel runs them: tables updated in place. */
module VirtualMailboxes {
  import opened Kernel
  import opened Communicators
  import opened CommunicatorTable
  import opened MessagePool

  class Mailboxes {
    const addressing: Addressing
    const actives: array<ActivePorts>
    const comms: array<Communicator>
    const buffers: Mbuffers
    var counters: Counters

    ghost function View(): Table
      reads this, actives, comms
    {
      Table(actives[..], comms[..], counters)
    }

    ghost predicate Valid()
      reads this, actives, comms
    {
      CommunicatorTable.HasShape(addressing, View())
    }

    /** The tables as do_mailbox_table_init() and do_vmailbox_init() leave them, with the actives of the node. */
    constructor (addressing: Addressing, pools: seq<ActivePorts>, ncomms: nat, buffers: Mbuffers)
      requires forall k :: 0 <= k < |pools| ==> |pools[k].ports| == addressing.ports
      requires forall k :: 0 <= k < |pools| ==> pools[k].refcount == pools[k].usedPorts == 0 && true !in pools[k].ports
      ensures this.addressing == addressing && this.buffers == buffers && fresh(actives) && fresh(comms)
      ensures Valid() && Boot(addressing, View()) && View().actives == pools && comms.Length == ncomms
    {
      this.addressing, this.buffers := addressing, buffers;
      actives := new ActivePorts[|pools|](i requires 0 <= i < |pools| => pools[i]);
      comms := new Communicator[ncomms](i => UNUSED);
      counters := Counters(0, 0, 0, 0);
      new;
      assert actives[..] == pools;
    }

    /** portpool_choose_port() */
    method PortpoolChoosePort(x: ActivePorts) returns (r: Result<nat>)
      ensures r == ChoosePort(x)
    {
      if x.usedPorts >= |x.ports| { return Err(EINVAL); }
      var p := 0;
      while p < |x.ports| && x.ports[p]
        invariant 0 <= p <= |x.ports|
        invariant forall i :: 0 <= i < p ==> !IsFree(x.ports[i])
      {
        p := p + 1;
      }
      assert p < |x.ports| ==> IsFree(x.ports[p]);
      assert FirstIndex(x.ports, IsFree, 0) == p;
      return if p == |x.ports| then Err(EINVAL) else Ok(p);
    }

    /** active_search() */
    method ActiveSearch(local: int, remote: int, input: bool) returns (k: nat)
      requires Valid()
      ensures k == SearchActive(View(), local, remote, input, 0)
    {
      k := 0;
      while k < actives.Length && !Serves(actives[k], local, remote, input)
        invariant 0 <= k <= actives.Length
        invariant SearchActive(View(), local, remote, input, 0) == SearchActive(View(), local, remote, input, k)
      {
        k := k + 1;
      }
    }

    /** active_alloc() */
    method ActiveAlloc(local: int, remote: int, port: int, input: bool) returns (fd: Result<int>)
      requires Valid()
      modifies actives
      ensures Valid() && (View(), fd) == AllocPort(addressing, old(View()), local, remote, port, input)
    {
      AllocPortShape(addressing, View(), local, remote, port, input);
      var k := ActiveSearch(local, remote, input);
      if k == actives.Length { return Err(EBUSY); }
      var p;
      if !input {
        var choice := PortpoolChoosePort(actives[k]);
        if choice.Err? { return Err(choice.error); }
        p := choice.value;
      } else {
        if !(0 <= port < addressing.ports) { return Err(EINVAL); }
        p := port;
      }
      if actives[k].ports[p] { return Err(EBUSY); }
      actives[k] := WithPort(actives[k], p, true);
      return Ok(addressing.Compose(k, p));
    }

    /** active_release() */
    method ActiveRelease(fd: int) returns (status: Status)
      requires Valid() && IsDescriptor(addressing, View(), fd)
      modifies actives
      ensures Valid() && (View(), status) == ReleasePort(addressing, old(View()), fd, buffers.bufs[..])
    {
      var k, p := addressing.ActId(fd), addressing.PortId(fd);
      if !actives[k].used { return Fail(EBADF); }
      if actives[k].input {
        var dest := addressing.Compose(actives[k].local, p);
        var found := buffers.SearchBuffer(addressing, Pool(0, buffers.bufs.Length), dest, -1);
        if found.Some? { return Fail(EBUSY); }
      }
      if !actives[k].ports[p] { return Fail(EINVAL); }
      actives[k] := WithPort(actives[k], p, false);
      return Done;
    }

    /** communicator_alloc() */
    method CommunicatorAlloc(fd: int, remote: int, input: bool) returns (id: Option<nat>)
      modifies comms
      ensures (comms[..], id) == AllocComm(old(comms[..]), fd, remote, input)
    {
      var i := 0;
      while i < comms.Length && comms[i].used
        invariant 0 <= i <= comms.Length
        invariant forall j :: 0 <= j < i ==> !IsUnused(comms[..][j])
      {
        i := i + 1;
      }
      assert i < comms.Length ==> IsUnused(comms[..][i]);
      assert FirstIndex(comms[..], IsUnused, 0) == i;
      if i == comms.Length { return None; }
      comms[i] := UNUSED.(used := true, input := input, fd := fd, remote := remote);
      return Some(i);
    }

    /** do_vmailbox_alloc() */
    method VmailboxAlloc(local: int, remote: int, port: int, input: bool) returns (r: Outcome)
      requires Valid()
      modifies this, actives, comms
      ensures Valid() && (View(), r) == Create(addressing, old(View()), local, remote, port, input, buffers.bufs[..])
    {
      AllocPortShape(addressing, View(), local, remote, port, input);
      var fd := ActiveAlloc(local, remote, port, input);
      if fd.Err? { return Refused(fd.error); }
      var address := if input then -1 else addressing.Compose(remote, port);
      var id := CommunicatorAlloc(fd.value, address, input);
      if id.None? {
        var status := ActiveRelease(fd.value);
        return if status.Done? then Refused(EAGAIN) else Panic;
      }
      if input {
        counters := counters.(ncreates := counters.ncreates + 1);
      } else {
        counters := counters.(nopens := counters.nopens + 1);
      }
      return Made(id.value);
    }

    /** communicator_free(), whose assertion on the descriptor holds in every reachable table. */
    method CommunicatorFree(id: nat, input: bool) returns (status: Status)
      requires Inv(addressing, View()) && id < comms.Length
      modifies this, actives, comms
      ensures old(comms[id].used ==> IsDescriptor(addressing, View(), comms[id].fd))
      ensures Inv(addressing, View()) && (View(), status) == Free(addressing, old(View()), id, input, buffers.bufs[..])
    {
      FreeKeeps(addressing, View(), id, input, buffers.bufs[..]);
      status := FreeLocked(id, input);
    }

    /** The region of communicator_free() under the lock of the communicator. */
    method FreeLocked(id: nat, input: bool) returns (status: Status)
      requires Valid() && id < comms.Length
      requires comms[id].used ==> IsDescriptor(addressing, View(), comms[id].fd)
      modifies this, actives, comms
      ensures Valid() && (View(), status) == Free(addressing, old(View()), id, input, buffers.bufs[..])
    {
      if !comms[id].used { return Fail(EBADF); }
      if comms[id].input != input { return Fail(EBADF); }
      if comms[id].busy { return Fail(EBUSY); }
      status := ActiveRelease(comms[id].fd);
      if status.Done? {
        comms[id] := comms[id].(used := false);
        if input {
          counters := counters.(nunlinks := counters.nunlinks + 1);
        } else {
          counters := counters.(ncloses := counters.ncloses + 1);
        }
      }
    }

    /** do_vportal_allow() */
    method VportalAllow(id: nat, address: int) returns (status: Status)
      requires id < comms.Length
      modifies comms
      ensures (comms[id], status) == Allow(old(comms[id]), address)
      ensures comms[..] == old(comms[..])[id := comms[id]]
    {
      if !comms[id].used { return Fail(EBADF); }
      if !comms[id].input { return Fail(EBADF); }
      if comms[id].allowed { return Fail(EBUSY); }
      comms[id] := comms[id].(allowed := true, remote := address);
      return Done;
    }

    /** do_vportal_aread() and do_vportal_awrite(), with communicator_operate() */
    method CommunicatorOperate(id: nat, input: bool, buffer: int, size: nat, answer: Answer) returns (r: Result<nat>)
      requires id < comms.Length
      modifies comms
      ensures (comms[id], r) == Operate(old(comms[id]), input, buffer, size, answer)
      ensures comms[..] == old(comms[..])[id := comms[id]]
    {
      comms[id] := comms[id].(buffer := buffer);
      comms[id] := comms[id].(size := size);
      if !comms[id].used { return Err(EBADF); }
      if input {
        if !comms[id].input { return Err(EBADF); }
        if !comms[id].allowed { return Err(EACCES); }
      } else if comms[id].input {
        return Err(EBADF);
      }
      if comms[id].busy { return Err(EBUSY); }
      if answer.Failed? { return Err(answer.error); }
      if answer.Received? {
        comms[id] := comms[id].(finished := true);
        comms[id] := comms[id].(allowed := false);
      }
      comms[id] := comms[id].(busy := true);
      return Ok(size);
    }

    /** communicator_wait(), up to the wait of the active */
    method CommunicatorWaitBegin(id: nat) returns (w: Waiting)
      requires id < comms.Length
      modifies comms
      ensures (comms[id], w) == WaitBegin(old(comms[id]))
      ensures comms[..] == old(comms[..])[id := comms[id]]
    {
      if !comms[id].used { return Denied(EBADF); }
      if !comms[id].busy { return Denied(EBADF); }
      if comms[id].finished {
        comms[id] := comms[id].(finished := false);
        comms[id] := comms[id].(buffer := 0, size := 0, busy := false);
        return Over;
      }
      return Ask;
    }

    /** communicator_wait(), from the wait of the active on */
    method CommunicatorWaitEnd(id: nat, answer: Answer)
      requires id < comms.Length
      modifies comms
      ensures comms[..] == old(comms[..])[id := WaitEnd(old(comms[id]), answer)]
    {
      if answer.Success? {
        comms[id] := comms[id].(allowed := false);
        if comms[id].input {
          comms[id] := comms[id].(remote := -1);
        }
      }
      comms[id] := comms[id].(buffer := 0, size := 0, busy := false);
    }
  }
}
