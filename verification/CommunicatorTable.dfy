/**
 * The table of virtual mailboxes and the ports of the actives below them. Creating or opening a
 * mailbox takes a port and a communicator; unlinking or closing it gives both back.
 */
module CommunicatorTable {
  import opened Kernel
  import opened Communicators
  import opened MessagePool
  import opened Sequences

  /** A port pool belongs to the active of one direction between two nodes. */
  datatype ActivePorts = ActivePorts(
    used: bool, input: bool, local: int, remote: int, refcount: int, usedPorts: int, ports: seq<bool>)

  datatype Counters = Counters(ncreates: nat, nunlinks: nat, nopens: nat, ncloses: nat)

  datatype Table = Table(actives: seq<ActivePorts>, comms: seq<Communicator>, counters: Counters)

  /** A call that ends in kpanic() instead of returning. */
  datatype Outcome = Made(id: nat) | Refused(error: Errno) | Panic

  predicate HasShape(a: Addressing, t: Table) {
    forall k :: 0 <= k < |t.actives| ==> |t.actives[k].ports| == a.ports
  }

  predicate IsFree(b: bool) { !b }

  predicate IsUnused(c: Communicator) { !c.used }

  // ------------------------------------------------------------------------
  // Ports
  // ------------------------------------------------------------------------

  predicate Serves(x: ActivePorts, local: int, remote: int, input: bool) {
    x.used && x.input == input && x.local == local && x.remote == remote
  }

  /** active_search() */
  function SearchActive(t: Table, local: int, remote: int, input: bool, from: nat): (r: nat)
    requires from <= |t.actives|
    ensures from <= r <= |t.actives|
    ensures r < |t.actives| ==> Serves(t.actives[r], local, remote, input)
    decreases |t.actives| - from
  {
    if from == |t.actives| || Serves(t.actives[from], local, remote, input) then from
    else SearchActive(t, local, remote, input, from + 1)
  }

  /** portpool_choose_port() */
  function ChoosePort(x: ActivePorts): (r: Result<nat>)
    ensures r.Ok? ==> r.value < |x.ports| && !x.ports[r.value]
  {
    if x.usedPorts >= |x.ports| then Err(EINVAL) else
    var p := FirstIndex(x.ports, IsFree, 0);
    if p == |x.ports| then Err(EINVAL) else Ok(p)
  }

  /** The port pool with port `p` taken or given back. */
  function WithPort(x: ActivePorts, p: nat, taken: bool): ActivePorts
    requires p < |x.ports|
  {
    var d := if taken then 1 else -1;
    x.(ports := x.ports[p := taken], refcount := x.refcount + d, usedPorts := x.usedPorts + d)
  }

  /** active_alloc(): the descriptor of a port. */
  function AllocPort(a: Addressing, t: Table, local: int, remote: int, port: int, input: bool): (Table, Result<int>)
    requires HasShape(a, t)
  {
    var k := SearchActive(t, local, remote, input, 0);
    if k == |t.actives| then (t, Err(EBUSY)) else
    var x := t.actives[k];
    var choice := if !input then ChoosePort(x) else if 0 <= port < a.ports then Ok(port) else Err(EINVAL);
    if choice.Err? then (t, Err(choice.error)) else
    var p := choice.value;
    if x.ports[p] then (t, Err(EBUSY)) else
    (t.(actives := t.actives[k := WithPort(x, p, true)]), Ok(a.Compose(k, p)))
  }

  /** active_valid_call() */
  predicate IsDescriptor(a: Addressing, t: Table, fd: int) {
    0 <= a.ActId(fd) < |t.actives| && 0 <= a.PortId(fd) < a.ports
  }

  /** A message for the address is stored: mbuffer_search() of all the buffers, from any source. */
  predicate MailFor(a: Addressing, bufs: seq<Mbuffer>, dest: int) {
    Search(a, bufs, Pool(0, |bufs|), dest, -1).Some?
  }

  /** There is mail for an address if and only if some buffer stores a message for it, from whomever. */
  lemma MailForIff(a: Addressing, bufs: seq<Mbuffer>, dest: int)
    requires AgesFit(bufs)
    ensures MailFor(a, bufs, dest) <==>
            exists i :: 0 <= i < |bufs| && bufs[i].used && bufs[i].busy && bufs[i].message.dest == dest
  {
    SearchFindsOldest(a, bufs, Pool(0, |bufs|), dest, -1);
    if i :| 0 <= i < |bufs| && bufs[i].used && bufs[i].busy && bufs[i].message.dest == dest {
      assert Pool(0, |bufs|).Covers(i) && Matches(a, bufs[i], dest, -1);
    }
  }

  /** active_release(): an input port is not given back while a message for it is stored. */
  function ReleasePort(a: Addressing, t: Table, fd: int, bufs: seq<Mbuffer>): (Table, Status)
    requires HasShape(a, t) && IsDescriptor(a, t, fd)
  {
    var k, p := a.ActId(fd), a.PortId(fd);
    var x := t.actives[k];
    if !x.used then (t, Fail(EBADF)) else
    if x.input && MailFor(a, bufs, a.Compose(x.local, p)) then (t, Fail(EBUSY)) else
    if !x.ports[p] then (t, Fail(EINVAL)) else
    (t.(actives := t.actives[k := WithPort(x, p, false)]), Done)
  }

  // ------------------------------------------------------------------------
  // Virtual mailboxes
  // ------------------------------------------------------------------------

  /** communicator_alloc() */
  function AllocComm(comms: seq<Communicator>, fd: int, remote: int, input: bool): (seq<Communicator>, Option<nat>) {
    var i := FirstIndex(comms, IsUnused, 0);
    if i == |comms| then (comms, None)
    else (comms[i := UNUSED.(used := true, input := input, fd := fd, remote := remote)], Some(i))
  }

  /** do_vmailbox_alloc(): a failure to undo the port's allocation is a panic. */
  function Create(a: Addressing, t: Table, local: int, remote: int, port: int, input: bool, bufs: seq<Mbuffer>)
    : (Table, Outcome)
    requires HasShape(a, t)
  {
    var (t1, fd) := AllocPort(a, t, local, remote, port, input);
    if fd.Err? then (t, Refused(fd.error)) else
    AllocPortShape(a, t, local, remote, port, input);
    var address := if input then -1 else a.Compose(remote, port);
    var (comms, id) := AllocComm(t1.comms, fd.value, address, input);
    if id.None? then
      var (t2, status) := ReleasePort(a, t1, fd.value, bufs);
      (t2, if status.Done? then Refused(EAGAIN) else Panic)
    else
      var n := t1.counters;
      var m := if input then n.(ncreates := n.ncreates + 1) else n.(nopens := n.nopens + 1);
      (t1.(comms := comms, counters := m), Made(id.value))
  }

  /** communicator_free() */
  function Free(a: Addressing, t: Table, id: nat, input: bool, bufs: seq<Mbuffer>): (Table, Status)
    requires HasShape(a, t) && id < |t.comms|
    requires t.comms[id].used ==> IsDescriptor(a, t, t.comms[id].fd)
  {
    var c := t.comms[id];
    if !c.used then (t, Fail(EBADF)) else
    if c.input != input then (t, Fail(EBADF)) else
    if c.busy then (t, Fail(EBUSY)) else
    var (t1, status) := ReleasePort(a, t, c.fd, bufs);
    if status.Fail? then (t, status) else
    var n := t1.counters;
    var m := if input then n.(nunlinks := n.nunlinks + 1) else n.(ncloses := n.ncloses + 1);
    (t1.(comms := t1.comms[id := c.(used := false)], counters := m), Done)
  }

  lemma AllocPortShape(a: Addressing, t: Table, local: int, remote: int, port: int, input: bool)
    requires HasShape(a, t)
    ensures var (t1, fd) := AllocPort(a, t, local, remote, port, input);
            HasShape(a, t1) && t1.comms == t.comms && t1.counters == t.counters &&
              (fd.Ok? ==> IsDescriptor(a, t1, fd.value))
  {
    var k := SearchActive(t, local, remote, input, 0);
    var fd := AllocPort(a, t, local, remote, port, input).1;
    if fd.Ok? {
      var p := if !input then ChoosePort(t.actives[k]).value else port;
      ComposeRoundTrip(a, k, p);
    }
  }

  // ------------------------------------------------------------------------
  // The invariant
  // ------------------------------------------------------------------------

  predicate IsTaken(b: bool) { b }

  predicate IsInput(c: Communicator) { c.used && c.input }

  predicate IsOutput(c: Communicator) { c.used && !c.input }

  predicate PortUsed(a: Addressing, t: Table, k: int, p: int)
    requires HasShape(a, t)
  {
    0 <= k < |t.actives| && 0 <= p < a.ports && t.actives[k].ports[p]
  }

  predicate Holds(a: Addressing, t: Table, i: int, k: int, p: int) {
    0 <= i < |t.comms| && t.comms[i].used && a.ActId(t.comms[i].fd) == k && a.PortId(t.comms[i].fd) == p
  }

  /** Communicators in use and ports in use correspond one to one, through the descriptors. */
  ghost predicate Bijection(a: Addressing, t: Table)
    requires HasShape(a, t)
  {
    && (forall i, k, p :: Holds(a, t, i, k, p) ==>
          PortUsed(a, t, k, p) && t.actives[k].used && t.actives[k].input == t.comms[i].input)
    && (forall i, j, k, p :: Holds(a, t, i, k, p) && Holds(a, t, j, k, p) ==> i == j)
    && (forall k, p :: PortUsed(a, t, k, p) ==> exists i :: Holds(a, t, i, k, p))
  }

  predicate IsHeld(c: Communicator) { c.used }

  /** The ports in use of all actives. */
  function Taken(actives: seq<ActivePorts>): nat {
    if actives == [] then 0 else Count(actives[0].ports, IsTaken) + Taken(actives[1..])
  }

  lemma {:induction false} TakenUpdate(actives: seq<ActivePorts>, k: nat, x: ActivePorts)
    requires k < |actives|
    ensures Taken(actives[k := x]) == Taken(actives) - Count(actives[k].ports, IsTaken) + Count(x.ports, IsTaken)
  {
    if k == 0 {
      assert actives[0 := x] == [x] + actives[1..];
    } else {
      TakenUpdate(actives[1..], k - 1, x);
      assert actives[k := x] == [actives[0]] + actives[1..][k - 1 := x];
    }
  }

  lemma {:induction false} TakenNone(actives: seq<ActivePorts>)
    requires forall k :: 0 <= k < |actives| ==> Count(actives[k].ports, IsTaken) == 0
    ensures Taken(actives) == 0
  {
    if actives != [] { TakenNone(actives[1..]); }
  }

  ghost predicate Counted(a: Addressing, t: Table)
    requires HasShape(a, t)
  {
    && (forall k :: 0 <= k < |t.actives| ==>
          t.actives[k].refcount == t.actives[k].usedPorts == Count(t.actives[k].ports, IsTaken))
    && t.counters.ncreates == t.counters.nunlinks + Count(t.comms, IsInput)
    && t.counters.nopens == t.counters.ncloses + Count(t.comms, IsOutput)
    && Count(t.comms, IsHeld) == Taken(t.actives)
  }

  ghost predicate Inv(a: Addressing, t: Table) { HasShape(a, t) && Bijection(a, t) && Counted(a, t) }

  // ------------------------------------------------------------------------
  // One call
  // ------------------------------------------------------------------------

  /** A port that nobody used is taken for a communicator that nobody used. */
  lemma PairAdded(a: Addressing, t: Table, y: Table, i: nat, k: nat, p: nat)
    requires HasShape(a, t) && Bijection(a, t) && i < |t.comms| && k < |t.actives| && p < a.ports
    requires !t.comms[i].used && !t.actives[k].ports[p]
    requires y.actives == t.actives[k := WithPort(t.actives[k], p, true)] && |y.comms| == |t.comms|
    requires forall j :: 0 <= j < |t.comms| && j != i ==> y.comms[j] == t.comms[j]
    requires Holds(a, y, i, k, p) && t.actives[k].used && t.actives[k].input == y.comms[i].input
    ensures HasShape(a, y) && Bijection(a, y)
  {
    forall k', p' | PortUsed(a, y, k', p')
      ensures exists j :: Holds(a, y, j, k', p')
    {
      if k' == k && p' == p {
        assert Holds(a, y, i, k', p');
      } else {
        assert PortUsed(a, t, k', p');
        var j :| Holds(a, t, j, k', p');
        assert Holds(a, y, j, k', p');
      }
    }
    forall j, k', p' | Holds(a, y, j, k', p')
      ensures j == i ==> k' == k && p' == p
      ensures j != i ==> Holds(a, t, j, k', p') && !(k' == k && p' == p)
    {
      if j != i {
        assert Holds(a, t, j, k', p') && PortUsed(a, t, k', p');
      }
    }
  }

  /** A communicator and its port are given back together. */
  lemma PairRemoved(a: Addressing, t: Table, y: Table, i: nat, k: nat, p: nat)
    requires HasShape(a, t) && Bijection(a, t) && Holds(a, t, i, k, p) && k < |t.actives| && p < a.ports
    requires y.actives == t.actives[k := WithPort(t.actives[k], p, false)] && |y.comms| == |t.comms|
    requires forall j :: 0 <= j < |t.comms| && j != i ==> y.comms[j] == t.comms[j]
    requires !y.comms[i].used
    ensures HasShape(a, y) && Bijection(a, y)
  {
    forall k', p' | PortUsed(a, y, k', p')
      ensures exists j :: Holds(a, y, j, k', p')
    {
      assert PortUsed(a, t, k', p');
      var j :| Holds(a, t, j, k', p');
      assert Holds(a, y, j, k', p');
    }
    forall j, k', p' | Holds(a, y, j, k', p')
      ensures j != i && Holds(a, t, j, k', p') && !(k' == k && p' == p)
    {
      assert Holds(a, t, j, k', p');
    }
  }

  lemma PortCounted(x: ActivePorts, p: nat, taken: bool)
    requires p < |x.ports| && x.ports[p] != taken
    requires x.refcount == x.usedPorts == Count(x.ports, IsTaken)
    ensures var y := WithPort(x, p, taken); y.refcount == y.usedPorts == Count(y.ports, IsTaken)
  {
    CountUpdate(x.ports, IsTaken, p, taken);
  }

  /**
   * Communicator `c` is for port `p` of active `k`, which serves the pair of nodes. An input port
   * is the one asked for and takes mail from anywhere; an output port is the first free one, and
   * its mail goes to the port asked for on the remote node.
   */
  ghost predicate IsFor(a: Addressing, t: Table, c: Communicator, k: int, p: int,
      local: int, remote: int, port: int, input: bool)
    requires HasShape(a, t)
  {
    && 0 <= k < |t.actives| && Serves(t.actives[k], local, remote, input)
    && (forall j :: 0 <= j < k ==> !Serves(t.actives[j], local, remote, input))
    && 0 <= p < a.ports && !t.actives[k].ports[p]
    && c.used && c.input == input && !c.busy && !c.finished && !c.allowed
    && a.ActId(c.fd) == k && a.PortId(c.fd) == p
    && (input ==> p == port && c.remote == -1)
    && (!input ==> c.remote == a.Compose(remote, port) && forall q :: 0 <= q < p ==> t.actives[k].ports[q])
  }

  lemma {:induction false} SearchFindsFirst(t: Table, local: int, remote: int, input: bool, from: nat, j: int)
    requires from <= |t.actives| && from <= j < SearchActive(t, local, remote, input, from)
    ensures !Serves(t.actives[j], local, remote, input)
    decreases |t.actives| - from
  {
    if from < j { SearchFindsFirst(t, local, remote, input, from + 1, j); }
  }

  /** There is a port to be had, and no communicator for it. */
  ghost predicate Stranded(a: Addressing, t: Table, local: int, remote: int, port: int, input: bool)
    requires HasShape(a, t)
  {
    AllocPort(a, t, local, remote, port, input).1.Ok? && Count(t.comms, IsUnused) == 0
  }

  /** Active `k` is the one that the search finds, and has the port that is asked for, or any for an output. */
  ghost predicate Offers(a: Addressing, t: Table, k: int, local: int, remote: int, port: int, input: bool)
    requires HasShape(a, t)
  {
    && 0 <= k < |t.actives| && Serves(t.actives[k], local, remote, input)
    && (forall j :: 0 <= j < k ==> !Serves(t.actives[j], local, remote, input))
    && if input then 0 <= port < a.ports && !t.actives[k].ports[port] else false in t.actives[k].ports
  }

  /**
   * When a creation succeeds, and with what error it is refused otherwise: EBUSY without an active
   * for the nodes or with the input port taken, EINVAL for a wrong input port or without a free
   * output port, and EAGAIN without a communicator.
   */
  lemma CreateAnswers(a: Addressing, t: Table, local: int, remote: int, port: int, input: bool, bufs: seq<Mbuffer>)
    requires Inv(a, t)
    ensures var r := Create(a, t, local, remote, port, input, bufs).1;
            && (r.Made? <==>
                  && (exists k :: Offers(a, t, k, local, remote, port, input))
                  && exists i :: 0 <= i < |t.comms| && !t.comms[i].used)
            && (r == Refused(EAGAIN) <==>
                  && (exists k :: Offers(a, t, k, local, remote, port, input))
                  && (forall i :: 0 <= i < |t.comms| ==> t.comms[i].used)
                  && !(input && MailFor(a, bufs, a.Compose(local, port))))
            && (r == Refused(EINVAL) <==>
                  && (exists k :: 0 <= k < |t.actives| && Serves(t.actives[k], local, remote, input))
                  && !(exists k :: Offers(a, t, k, local, remote, port, input))
                  && (input ==> !(0 <= port < a.ports)))
            && (r.Refused? ==> r.error in {EAGAIN, EINVAL, EBUSY})
  {
    var k := SearchActive(t, local, remote, input, 0);
    forall j | 0 <= j < k
      ensures !Serves(t.actives[j], local, remote, input)
    {
      SearchFindsFirst(t, local, remote, input, 0, j);
    }
    if k < |t.actives| {
      ChooseAnswers(a, t, k);
      var offers := Offers(a, t, k, local, remote, port, input);
      assert offers <==> AllocPort(a, t, local, remote, port, input).1.Ok?;
      assert forall j :: Offers(a, t, j, local, remote, port, input) ==> j == k;
      if offers {
        AllocPortShape(a, t, local, remote, port, input);
        var i := FirstIndex(t.comms, IsUnused, 0);
        assert forall j :: 0 <= j < i ==> !IsUnused(t.comms[j]);
        if i == |t.comms| {
          CreateUndone(a, t, local, remote, port, input, bufs);
          assert forall j :: 0 <= j < |t.comms| ==> t.comms[j].used;
        } else {
          assert IsUnused(t.comms[i]);
        }
      }
    }
  }

  /** An output port is chosen if and only if one is free. */
  lemma ChooseAnswers(a: Addressing, t: Table, k: nat)
    requires Inv(a, t) && k < |t.actives|
    ensures var x := t.actives[k]; ChoosePort(x).Ok? <==> false in x.ports
    ensures ChoosePort(t.actives[k]).Err? ==> ChoosePort(t.actives[k]).error == EINVAL
  {
    var x := t.actives[k];
    CountOpposites(x.ports, IsTaken, IsFree);
    if false in x.ports {
      var q :| 0 <= q < |x.ports| && !x.ports[q];
      assert IsFree(x.ports[q]);
      CountPositive(x.ports, IsFree, q);
      assert FirstIndex(x.ports, IsFree, 0) <= q;
    }
  }

  /**
   * do_vmailbox_alloc() makes a new pair of port and communicator, or leaves the table exactly
   * as it was. It panics exactly when it has taken an input port for which a message is stored
   * and then finds no communicator.
   */
  lemma CreateKeeps(a: Addressing, t: Table, local: int, remote: int, port: int, input: bool, bufs: seq<Mbuffer>)
    requires Inv(a, t)
    ensures var (y, r) := Create(a, t, local, remote, port, input, bufs);
            && (!r.Panic? ==> Inv(a, y))
            && (r.Refused? ==> y == t)
            && (r.Panic? <==>
                 Stranded(a, t, local, remote, port, input) && input && MailFor(a, bufs, a.Compose(local, port)))
            && (r.Made? ==> r.id < |t.comms| && !t.comms[r.id].used && IsDescriptor(a, y, y.comms[r.id].fd)
                            && y.comms[r.id].used && y.comms[r.id].input == input && !y.comms[r.id].busy)
            && (r.Made? ==> exists k, p :: IsFor(a, t, y.comms[r.id], k, p, local, remote, port, input))
  {
    var (t1, fd) := AllocPort(a, t, local, remote, port, input);
    if fd.Ok? {
      AllocPortShape(a, t, local, remote, port, input);
      UnusedIndex(t.comms);
      if Count(t.comms, IsUnused) == 0 {
        CreateUndone(a, t, local, remote, port, input, bufs);
      } else {
        CreateMade(a, t, local, remote, port, input, bufs);
        CreateIsFor(a, t, local, remote, port, input, bufs);
      }
    }
  }

  lemma CreateUndone(a: Addressing, t: Table, local: int, remote: int, port: int, input: bool, bufs: seq<Mbuffer>)
    requires HasShape(a, t) && AllocPort(a, t, local, remote, port, input).1.Ok?
    requires FirstIndex(t.comms, IsUnused, 0) == |t.comms|
    ensures var (y, r) := Create(a, t, local, remote, port, input, bufs);
            if input && MailFor(a, bufs, a.Compose(local, port)) then r.Panic? else r.Refused? && y == t
  {
    var (t1, fd) := AllocPort(a, t, local, remote, port, input);
    AllocPortShape(a, t, local, remote, port, input);
    var k := SearchActive(t, local, remote, input, 0);
    var p := if !input then ChoosePort(t.actives[k]).value else port;
    ComposeRoundTrip(a, k, p);
    assert t.actives[k].ports[p := true][p := false] == t.actives[k].ports;
    assert t1.actives[k := t.actives[k]] == t.actives;
  }

  lemma CreateMade(a: Addressing, t: Table, local: int, remote: int, port: int, input: bool, bufs: seq<Mbuffer>)
    requires Inv(a, t) && AllocPort(a, t, local, remote, port, input).1.Ok?
    requires FirstIndex(t.comms, IsUnused, 0) < |t.comms|
    ensures var (y, r) := Create(a, t, local, remote, port, input, bufs);
            && Inv(a, y) && r.Made? && r.id < |t.comms| && !t.comms[r.id].used && IsDescriptor(a, y, y.comms[r.id].fd)
            && y.comms[r.id].used && y.comms[r.id].input == input && !y.comms[r.id].busy
  {
    var (t1, fd) := AllocPort(a, t, local, remote, port, input);
    AllocPortShape(a, t, local, remote, port, input);
    var k := SearchActive(t, local, remote, input, 0);
    var p := if !input then ChoosePort(t.actives[k]).value else port;
    ComposeRoundTrip(a, k, p);
    PortCounted(t.actives[k], p, true);
    var (y, r) := Create(a, t, local, remote, port, input, bufs);
    PairAdded(a, t, y, r.id, k, p);
    CountUpdate(t.comms, IsInput, r.id, y.comms[r.id]);
    CountUpdate(t.comms, IsOutput, r.id, y.comms[r.id]);
    CountUpdate(t.comms, IsHeld, r.id, y.comms[r.id]);
    TakenUpdate(t.actives, k, WithPort(t.actives[k], p, true));
  }

  lemma CreateIsFor(a: Addressing, t: Table, local: int, remote: int, port: int, input: bool, bufs: seq<Mbuffer>)
    requires HasShape(a, t) && Create(a, t, local, remote, port, input, bufs).1.Made?
    ensures var (y, r) := Create(a, t, local, remote, port, input, bufs);
            && r.id < |y.comms|
            && exists k, p :: IsFor(a, t, y.comms[r.id], k, p, local, remote, port, input)
  {
    var k := SearchActive(t, local, remote, input, 0);
    var p := if !input then ChoosePort(t.actives[k]).value else port;
    ComposeRoundTrip(a, k, p);
    forall j | 0 <= j < k
      ensures !Serves(t.actives[j], local, remote, input)
    {
      SearchFindsFirst(t, local, remote, input, 0, j);
    }
    assert forall q :: 0 <= q < FirstIndex(t.actives[k].ports, IsFree, 0) ==> !IsFree(t.actives[k].ports[q]);
    var (y, r) := Create(a, t, local, remote, port, input, bufs);
    assert IsFor(a, t, y.comms[r.id], k, p, local, remote, port, input);
  }

  lemma {:induction false} UnusedIndex(comms: seq<Communicator>)
    ensures Count(comms, IsUnused) == 0 <==> FirstIndex(comms, IsUnused, 0) == |comms|
  {
    if comms != [] {
      UnusedIndex(comms[1..]);
      if comms[0].used {
        var i, j := FirstIndex(comms, IsUnused, 0), FirstIndex(comms[1..], IsUnused, 0);
        assert forall k :: 0 <= k < |comms| - 1 ==> comms[1..][k] == comms[k + 1];
        assert i == |comms| <==> forall k :: 0 <= k < |comms| ==> !IsUnused(comms[k]);
        assert j == |comms[1..]| <==> forall k :: 0 <= k < |comms[1..]| ==> !IsUnused(comms[1..][k]);
      } else {
        assert IsUnused(comms[0]);
      }
    }
  }

  /** An idle communicator of the direction. */
  predicate IsClosable(c: Communicator, input: bool) { c.used && c.input == input && !c.busy }

  /** The address of the port that a communicator holds. */
  function OwnAddress(a: Addressing, t: Table, id: nat): int
    requires id < |t.comms| && 0 <= a.ActId(t.comms[id].fd) < |t.actives|
  {
    a.Compose(t.actives[a.ActId(t.comms[id].fd)].local, a.PortId(t.comms[id].fd))
  }

  /**
   * communicator_free() succeeds exactly on an idle communicator of the right direction for
   * whose port no message is stored; the port is always found in use.
   */
  lemma FreeKeeps(a: Addressing, t: Table, id: nat, input: bool, bufs: seq<Mbuffer>)
    requires Inv(a, t) && id < |t.comms|
    ensures t.comms[id].used ==> IsDescriptor(a, t, t.comms[id].fd)
    ensures var (y, status) := Free(a, t, id, input, bufs);
            && Inv(a, y)
            && (status.Done? <==> IsClosable(t.comms[id], input) && !(input && MailFor(a, bufs, OwnAddress(a, t, id))))
            && (status.Fail? ==> y == t)
            && (status.Done? ==> !y.comms[id].used)
            && (status == Fail(EBADF) <==> !(t.comms[id].used && t.comms[id].input == input))
            && (status.Fail? ==> status.error in {EBADF, EBUSY})
  {
    var c := t.comms[id];
    if c.used {
      var k, p := a.ActId(c.fd), a.PortId(c.fd);
      assert Holds(a, t, id, k, p);
      assert PortUsed(a, t, k, p);
      var (y, status) := Free(a, t, id, input, bufs);
      if status.Done? {
        PortCounted(t.actives[k], p, false);
        PairRemoved(a, t, y, id, k, p);
        CountUpdate(t.comms, IsInput, id, c.(used := false));
        CountUpdate(t.comms, IsOutput, id, c.(used := false));
        CountUpdate(t.comms, IsHeld, id, c.(used := false));
        TakenUpdate(t.actives, k, WithPort(t.actives[k], p, false));
      }
    }
  }

  /** It gives back that communicator and its port alone. */
  lemma FreeGives(a: Addressing, t: Table, id: nat, input: bool, bufs: seq<Mbuffer>)
    requires HasShape(a, t) && id < |t.comms| && (t.comms[id].used ==> IsDescriptor(a, t, t.comms[id].fd))
    requires Free(a, t, id, input, bufs).1.Done?
    ensures var y := Free(a, t, id, input, bufs).0;
            && HasShape(a, y) && |y.actives| == |t.actives| && y.comms == t.comms[id := t.comms[id].(used := false)]
            && forall k, p :: PortUsed(a, y, k, p) <==> PortUsed(a, t, k, p) && !Holds(a, t, id, k, p)
  {
  }

  // ------------------------------------------------------------------------
  // Every run
  // ------------------------------------------------------------------------

  /** Uses is any operation on a communicator: it changes neither its descriptor nor its direction. */
  datatype Op =
    | Creates(local: int, remote: int, port: int, input: bool, bufs: seq<Mbuffer>)
    | Frees(id: nat, input: bool, bufs: seq<Mbuffer>)
    | Uses(id: nat, comm: Communicator)

  ghost predicate Follows(a: Addressing, t: Table, op: Op, y: Table) {
    HasShape(a, t) &&
    match op
    case Creates(local, remote, port, input, bufs) =>
      !Create(a, t, local, remote, port, input, bufs).1.Panic? && y == Create(a, t, local, remote, port, input, bufs).0
    case Frees(id, input, bufs) =>
      id < |t.comms| && (t.comms[id].used ==> IsDescriptor(a, t, t.comms[id].fd)) && y == Free(a, t, id, input, bufs).0
    case Uses(id, comm) =>
      && id < |t.comms| && comm.used == t.comms[id].used && comm.input == t.comms[id].input && comm.fd == t.comms[id].fd
      && y == t.(comms := t.comms[id := comm])
  }

  lemma StepKeeps(a: Addressing, t: Table, op: Op, y: Table)
    requires Inv(a, t) && Follows(a, t, op, y)
    ensures Inv(a, y)
  {
    match op
    case Creates(local, remote, port, input, bufs) => CreateKeeps(a, t, local, remote, port, input, bufs);
    case Frees(id, input, bufs) => FreeKeeps(a, t, id, input, bufs);
    case Uses(id, comm) =>
      CountUpdate(t.comms, IsInput, id, comm);
      CountUpdate(t.comms, IsOutput, id, comm);
      CountUpdate(t.comms, IsHeld, id, comm);
      assert forall i, k, p :: Holds(a, y, i, k, p) == Holds(a, t, i, k, p);
      forall k, p | PortUsed(a, y, k, p)
        ensures exists i :: Holds(a, y, i, k, p)
      {
        assert PortUsed(a, t, k, p);
        var i :| Holds(a, t, i, k, p);
        assert Holds(a, y, i, k, p);
      }
  }

  /** No port, no communicator, and all counters at zero. */
  ghost predicate Boot(a: Addressing, t: Table) {
    && HasShape(a, t)
    && (forall k :: 0 <= k < |t.actives| ==>
         t.actives[k].refcount == t.actives[k].usedPorts == 0 && true !in t.actives[k].ports)
    && (forall i :: 0 <= i < |t.comms| ==> !t.comms[i].used)
    && t.counters == Counters(0, 0, 0, 0)
  }

  lemma BootKeeps(a: Addressing, t: Table)
    requires Boot(a, t)
    ensures Inv(a, t)
  {
    CountNone(t.comms, IsInput);
    CountNone(t.comms, IsOutput);
    CountNone(t.comms, IsHeld);
    forall k | 0 <= k < |t.actives|
      ensures Count(t.actives[k].ports, IsTaken) == 0
    {
      CountNone(t.actives[k].ports, IsTaken);
    }
    TakenNone(t.actives);
  }

  /**
   * In every run communicators and ports in use correspond one to one, reference and port counts
   * are the numbers of ports in use, and the counters of creations, unlinks, opens and closes
   * tell how many of each direction exist.
   */
  lemma {:induction false} RunKeeps(a: Addressing, ts: seq<Table>, ops: seq<Op>, i: nat)
    requires |ts| == |ops| + 1 && i < |ts| && Boot(a, ts[0])
    requires forall n :: 0 <= n < |ops| ==> Follows(a, ts[n], ops[n], ts[n + 1])
    ensures Inv(a, ts[i])
  {
    if i == 0 {
      BootKeeps(a, ts[0]);
    } else {
      RunKeeps(a, ts, ops, i - 1);
      StepKeeps(a, ts[i - 1], ops[i - 1], ts[i]);
    }
  }
}
