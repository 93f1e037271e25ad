/**
 * What reads do to the input active they go through: active_aread() notes the remote node that it
 * lets send, and takes the note back only when the read has started. Creating a mailbox or portal
 * searches for an input active without such a note.
 */
module InputReads {
  import opened Kernel
  import opened CommunicatorTable
  import opened MessagePool

  /**
   * A read that gets past stored messages and the busy active: the remote node it is for, what
   * the hardware answers to the permission and to the read, and whether there is a buffer.
   */
  datatype Read = Read(remote: int, allow: Status, buffer: bool, start: Status)

  /** The end of active_aread(), on the remote node of the active. */
  function Aread(x: ActivePorts, r: Read): ActivePorts {
    if r.allow.Fail? then x
    else
      var noted := x.(remote := r.remote);
      if !r.buffer then noted
      else if r.start.Fail? then noted
      else noted.(remote := -1)
  }

  /** The read is allowed for a node and then fails. */
  predicate Strands(r: Read) { r.allow.Done? && r.remote != -1 && (!r.buffer || r.start.Fail?) }

  function After(x: ActivePorts, calls: seq<Read>): ActivePorts
    decreases |calls|
  {
    if calls == [] then x else Aread(After(x, calls[..|calls| - 1]), calls[|calls| - 1])
  }

  /** The last read that was allowed, if any, is one that strands. */
  predicate LeftStranded(calls: seq<Read>)
    decreases |calls|
  {
    calls != [] &&
    var r := calls[|calls| - 1];
    if r.allow.Done? then Strands(r) else LeftStranded(calls[..|calls| - 1])
  }

  /** After any reads the input active is found for a new mailbox if and only if the last allowed one did not strand. */
  lemma {:induction false} FoundAfterReadsIff(x: ActivePorts, local: int, calls: seq<Read>)
    requires Serves(x, local, -1, true)
    ensures Serves(After(x, calls), local, -1, true) <==> !LeftStranded(calls)
    ensures var y := After(x, calls); y.(remote := x.remote) == x
    decreases |calls|
  {
    if calls != [] {
      FoundAfterReadsIff(x, local, calls[..|calls| - 1]);
    }
  }

  lemma {:induction false} NoneServes(t: Table, local: int, from: nat)
    requires from <= |t.actives|
    requires forall k :: from <= k < |t.actives| ==> !Serves(t.actives[k], local, -1, true)
    ensures SearchActive(t, local, -1, true, from) == |t.actives|
    decreases |t.actives| - from
  {
    if from < |t.actives| { NoneServes(t, local, from + 1); }
  }

  /** With the only input active of the node left stranded, no mailbox can be created on any port. */
  lemma StrandedRefusesAll(a: Addressing, t: Table, local: int, k: nat, calls: seq<Read>, port: int, bufs: seq<Mbuffer>)
    requires HasShape(a, t) && k < |t.actives| && Serves(t.actives[k], local, -1, true) && LeftStranded(calls)
    requires forall i :: 0 <= i < |t.actives| && i != k ==> !Serves(t.actives[i], local, -1, true)
    ensures var y := t.(actives := t.actives[k := After(t.actives[k], calls)]);
            HasShape(a, y) && Create(a, y, local, -1, port, true, bufs) == (y, Refused(EBUSY))
  {
    FoundAfterReadsIff(t.actives[k], local, calls);
    var y := t.(actives := t.actives[k := After(t.actives[k], calls)]);
    NoneServes(y, local, 0);
  }
}
