/** Local mail as the kernel runs it: the local output active and the message buffers together. */
module Mailbox {
  import opened Kernel
  import opened MessagePool
  import opened LocalMail
  import Active
  import OutputActive

  class LocalMailbox {
    const cfg: LocalMail.Config
    const writer: Active.Writer
    const buffers: Mbuffers

    ghost predicate Valid()
      reads this, writer, writer.ports, writer.requests, writer.requests.fifo, buffers, buffers.bufs
    {
      writer.Valid() && HasShape(cfg, View())
    }

    ghost function View(): Local
      reads this, writer, writer.ports, writer.requests, buffers, buffers.bufs
    {
      Local(writer.View(), buffers.bufs[..], buffers.counter)
    }

    constructor (cfg: LocalMail.Config, writer: Active.Writer, buffers: Mbuffers)
      requires writer.Valid() && HasShape(cfg, Local(writer.View(), buffers.bufs[..], buffers.counter))
      ensures Valid() && this.cfg == cfg && this.writer == writer && this.buffers == buffers
    {
      this.cfg, this.writer, this.buffers := cfg, writer, buffers;
    }

    /** active_alloc() of a port of the local active */
    method OpenPort() returns (r: Result<nat>)
      requires Valid()
      modifies writer.ports
      ensures Valid() && r == OutputActive.Alloc(old(View()).out).1
      ensures View() == old(View()).(out := OutputActive.Alloc(old(View()).out).0)
    {
      r := writer.ActiveAlloc();
    }

    /** active_release() of a port of the local active */
    method ClosePort(p: nat) returns (status: Status)
      requires Valid() && p < writer.ports.Length
      modifies writer.ports
      ensures Valid() && status == OutputActive.Release(old(View()).out, p).1
      ensures View() == old(View()).(out := OutputActive.Release(old(View()).out, p).0)
    {
      status := writer.ActiveRelease(p);
    }

    /** active_awrite(), to the local node */
    method ForwardWrite(p: nat, message: Message) returns (status: Status)
      requires Valid() && p < writer.ports.Length
      modifies writer.ports, writer.requests, writer.requests.fifo, buffers, buffers.bufs
      ensures Valid() && (View(), status) == Forward(cfg, old(View()), p, message)
    {
      if !writer.ports[p].used { return Fail(EINVAL); }
      if writer.ports[p].requested { return Fail(EBUSY); }
      var asked := writer.DoRequestOperation(p);
      if asked.Fail? { return Fail(EBUSY); }
      var stored := StoreMessage(p, message);
      return if stored then Done else Fail(EBUSY);
    }

    /** active_awrite(): the buffer for a message to the local node. */
    method StoreMessage(p: nat, message: Message) returns (stored: bool)
      requires Valid()
      modifies buffers, buffers.bufs
      ensures Valid() && stored == Store(cfg, old(View()), p, message).Some?
      ensures View() == if stored then Store(cfg, old(View()), p, message).value else old(View())
    {
      var found := buffers.AllocBuffer(cfg.aux);
      if found.None? { return false; }
      var k := cfg.aux.base + found.value;
      buffers.bufs[k] := buffers.bufs[k].(message := message);
      buffers.bufs[k] := buffers.bufs[k].(actid := cfg.sender);
      buffers.bufs[k] := buffers.bufs[k].(portid := p);
      ghost var taken := Alloc(old(buffers.bufs[..]), cfg.aux).0;
      assert buffers.bufs[..] == taken[k := taken[k].(message := message, actid := cfg.sender, portid := p)];
      var _ := buffers.ReleaseBuffer(cfg.aux, found.value, true);
      return true;
    }

    /** active_aread(), as far as stored messages go */
    method StoredRead(dest: int, mask: int, local: bool) returns (message: Option<Message>)
      requires Valid()
      modifies writer.ports, writer.requests, writer.requests.fifo, buffers, buffers.bufs
      ensures Valid() && (View(), message) == Read(cfg, old(View()), dest, mask, local)
    {
      var pool := if local then cfg.aux else cfg.main;
      var found := buffers.SearchBuffer(cfg.addressing, pool, dest, mask);
      if found.None? { return None; }
      var b := buffers.bufs[pool.base + found.value];
      ClearSender(b);
      var _ := buffers.ReleaseBuffer(pool, found.value, false);
      return Some(b.message);
    }

    /** active_aread(): the release of the sender of a local message. */
    method ClearSender(b: Mbuffer)
      requires Valid()
      modifies writer.ports, writer.requests, writer.requests.fifo
      ensures Valid() && View() == old(View()).(out := Released(old(View()).out, b))
    {
      if b.actid >= 0 && 0 <= b.portid < writer.ports.Length {
        writer.DoRequestClear(b.portid);
      }
    }
  }
}
