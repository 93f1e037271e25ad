/**
 * Messages between ports of one node: active_awrite() forwards them to the auxiliary pool, and
 * active_aread() serves reads from stored messages, local ones or ones that a remote read kept.
 */
module LocalMail {
  import opened Kernel
  import opened MessagePool
  import OA = OutputActive
  import opened Sequences

  /** The pools of the message buffers, and the number of the active that local writes go through. */
  datatype Config = Config(addressing: Addressing, main: Pool, aux: Pool, sender: nat)

  datatype Local = Local(out: OA.Out, bufs: seq<Mbuffer>, counter: nat)

  /**
   * The layout that do_mailbox_table_init() sets up: the auxiliary pool is the end of the main
   * pool. A port of the local active never has a buffer of its own.
   */
  predicate HasShape(cfg: Config, s: Local) {
    && cfg.main == Pool(0, |s.bufs|)
    && cfg.aux.base + cfg.aux.count == |s.bufs|
    && |s.out.queue| <= |s.out.ports|
    && forall p :: 0 <= p < |s.out.ports| ==> s.out.ports[p].buffer < 0
  }

  /** do_request_clear(): a full FIFO is left as it is. */
  function ClearRequest(out: OA.Out, p: nat): OA.Out
    requires p < |out.ports|
  {
    if p in out.queue && |out.queue| < |out.ports| then
      out.(queue := Remove(out.queue, p), ports := out.ports[p := out.ports[p].(requested := false)])
    else out
  }

  /**
   * active_awrite() to the local node. The request is registered before a buffer is looked for,
   * and stays registered if there is none.
   */
  function Forward(cfg: Config, s: Local, p: nat, message: Message): (Local, Status)
    requires HasShape(cfg, s) && p < |s.out.ports|
  {
    if !s.out.ports[p].used then (s, Fail(EINVAL)) else
    if s.out.ports[p].requested then (s, Fail(EBUSY)) else
    var (out, asked) := OA.Request(s.out, p);
    if asked.Fail? then (s, Fail(EBUSY)) else
    var t := Store(cfg, s.(out := out), p, message);
    if t.None? then (s.(out := out), Fail(EBUSY)) else (t.value, Done)
  }

  /** The message goes into a buffer of the auxiliary pool and is kept there. */
  function Store(cfg: Config, s: Local, p: nat, message: Message): Option<Local>
    requires HasShape(cfg, s)
  {
    var (bufs, found) := Alloc(s.bufs, cfg.aux);
    if found.None? then None else
    var k := cfg.aux.base + found.value;
    var filled := bufs[k := bufs[k].(message := message, actid := cfg.sender, portid := p)];
    var (stored, counter, _) := Release(filled, s.counter, cfg.aux, found.value, true);
    Some(s.(bufs := stored, counter := counter))
  }

  /** Where a read looks: in the auxiliary pool for local sources, in the whole array otherwise. */
  function Searched(cfg: Config, local: bool): Pool { if local then cfg.aux else cfg.main }

  /** The buffer that active_aread() would take a stored message from. */
  function Found(cfg: Config, s: Local, dest: int, mask: int, local: bool): (r: Option<nat>)
    requires HasShape(cfg, s)
    ensures r.Some? ==> r.value < |s.bufs| && Searched(cfg, local).Covers(r.value)
                        && Matches(cfg.addressing, s.bufs[r.value], dest, mask)
  {
    var r := Search(cfg.addressing, s.bufs, Searched(cfg, local), dest, mask);
    if r.Some? then Some(Searched(cfg, local).base + r.value) else None
  }

  /** The release of the sender of a local message. */
  function Released(out: OA.Out, b: Mbuffer): OA.Out {
    if b.actid >= 0 && 0 <= b.portid < |out.ports| then ClearRequest(out, b.portid) else out
  }

  /** active_aread() served from storage: the message is handed over, its sender's request cleared. */
  function Read(cfg: Config, s: Local, dest: int, mask: int, local: bool): (Local, Option<Message>)
    requires HasShape(cfg, s)
  {
    var found := Found(cfg, s, dest, mask, local);
    if found.None? then (s, None) else
    var b := s.bufs[found.value];
    var pool := Searched(cfg, local);
    (s.(out := Released(s.out, b), bufs := Release(s.bufs, s.counter, pool, found.value - pool.base, false).0),
      Some(b.message))
  }

  // ------------------------------------------------------------------------
  // Conservation
  // ------------------------------------------------------------------------

  /**
   * The layer and its history: `kept` are the messages stored so far, in the order of their
   * ages; `delivered` are the ages handed over from storage; `taken` are the buffers that remote
   * reads and writes have in use.
   */
  datatype Mail = Mail(local: Local, kept: seq<Message>, delivered: seq<nat>, taken: set<nat>)

  predicate Stores(s: Local, i: nat) { i < |s.bufs| && s.bufs[i].used && s.bufs[i].busy }

  /** Every buffer is free, taken by a transfer, or stores one of the messages kept and not delivered. */
  ghost predicate BufferInv(x: Mail) {
    && |x.kept| <= AGE_MAX && x.local.counter == |x.kept|
    && (forall i: nat :: Stores(x.local, i) ==>
          var b := x.local.bufs[i]; b.age < |x.kept| && x.kept[b.age] == b.message && b.age !in x.delivered)
    && (forall i: nat, j: nat :: Stores(x.local, i) && Stores(x.local, j) && i != j ==>
          x.local.bufs[i].age != x.local.bufs[j].age)
    && (forall i: nat :: i < |x.local.bufs| ==> (i in x.taken <==> x.local.bufs[i].used && !x.local.bufs[i].busy))
    && (forall i: nat :: i in x.taken ==> i < |x.local.bufs| && x.local.bufs[i].actid == -1)
    && (forall i: nat :: i < |x.local.bufs| && !x.local.bufs[i].used ==> !x.local.bufs[i].busy)
    && AgesFit(x.local.bufs)
  }

  ghost predicate StoredAge(x: Mail, age: nat) { exists i: nat :: Stores(x.local, i) && x.local.bufs[i].age == age }

  /** No message is lost, and none is handed over twice. */
  ghost predicate LedgerInv(x: Mail) {
    && (forall k :: 0 <= k < |x.delivered| ==> x.delivered[k] < |x.kept|)
    && (forall j, k :: 0 <= j < k < |x.delivered| ==> x.delivered[j] != x.delivered[k])
    && (forall age: nat :: age < |x.kept| ==> age in x.delivered || StoredAge(x, age))
  }

  ghost predicate Inv(cfg: Config, x: Mail) {
    HasShape(cfg, x.local) && BufferInv(x) && LedgerInv(x)
  }

  datatype Op =
    | Sends(p: nat, message: Message) | Receives(dest: int, mask: int, local: bool)
    | Takes | Keeps(i: nat, message: Message) | Drops(i: nat)
    | Opens | Closes(p: nat)

  /** Ages do not wrap: fewer than 2^64 - 1 messages have been stored before the one that is. */
  predicate Enabled(cfg: Config, x: Mail, op: Op) {
    && HasShape(cfg, x.local)
    && match op
       case Sends(p, _) => p < |x.local.out.ports| && |x.kept| < AGE_MAX
       case Receives(_, _, _) => true
       case Takes => true
       case Keeps(i, _) => i in x.taken && i < |x.local.bufs| && |x.kept| < AGE_MAX
       case Drops(i) => i in x.taken && i < |x.local.bufs|
       case Opens => true
       case Closes(p) => p < |x.local.out.ports|
  }

  /**
   * Takes is mbuffer_alloc() by a remote read or write; Keeps and Drops are the two ways in which
   * active_wait() gives the buffer back, with and without the message that arrived in it. Opens
   * and Closes are active_alloc() and active_release() of a port of the local active.
   */
  function Apply(cfg: Config, x: Mail, op: Op): Mail
    requires Enabled(cfg, x, op)
  {
    var s := x.local;
    match op
    case Sends(p, message) =>
      var (t, status) := Forward(cfg, s, p, message);
      x.(local := t, kept := if status.Done? then x.kept + [message] else x.kept)
    case Receives(dest, mask, local) =>
      var found := Found(cfg, s, dest, mask, local);
      x.(local := Read(cfg, s, dest, mask, local).0,
         delivered := if found.Some? then x.delivered + [s.bufs[found.value].age] else x.delivered)
    case Takes =>
      var (bufs, found) := Alloc(s.bufs, cfg.main);
      if found.None? then x else x.(local := s.(bufs := bufs), taken := x.taken + {found.value})
    case Keeps(i, message) =>
      var (bufs, counter, _) := Release(s.bufs[i := s.bufs[i].(message := message)], s.counter, cfg.main, i, true);
      x.(local := s.(bufs := bufs, counter := counter), taken := x.taken - {i}, kept := x.kept + [message])
    case Drops(i) =>
      x.(local := s.(bufs := Release(s.bufs, s.counter, cfg.main, i, false).0), taken := x.taken - {i})
    case Opens => x.(local := s.(out := OA.Alloc(s.out).0))
    case Closes(p) => x.(local := s.(out := OA.Release(s.out, p).0))
  }

  /** A buffer that stored nothing now stores the next message. */
  lemma StoreKeeps(cfg: Config, x: Mail, y: Mail, k: nat)
    requires Inv(cfg, x) && k < |x.local.bufs| && !Stores(x.local, k) && |x.kept| < AGE_MAX
    requires HasShape(cfg, y.local) && |y.local.bufs| == |x.local.bufs| && y.local.counter == x.local.counter + 1
    requires forall i :: 0 <= i < |x.local.bufs| && i != k ==> y.local.bufs[i] == x.local.bufs[i]
    requires var b := y.local.bufs[k];
             b.used && b.busy && b.age == |x.kept| && y.kept == x.kept + [b.message]
    requires y.delivered == x.delivered && y.taken == x.taken - {k}
    ensures Inv(cfg, y)
  {
    assert forall i: nat :: i != k ==> Stores(y.local, i) == Stores(x.local, i);
    assert Stores(y.local, k);
    forall age: nat | age < |y.kept|
      ensures age in y.delivered || StoredAge(y, age)
    {
      if age == |x.kept| {
        assert Stores(y.local, k) && y.local.bufs[k].age == age;
      } else if age !in x.delivered {
        assert StoredAge(x, age);
        var i: nat :| Stores(x.local, i) && x.local.bufs[i].age == age;
        assert Stores(y.local, i) && y.local.bufs[i].age == age;
      }
    }
  }

  /** A buffer is emptied: one that a transfer had taken, or one whose message is now delivered. */
  lemma EmptyKeeps(cfg: Config, x: Mail, y: Mail, k: nat)
    requires Inv(cfg, x) && k < |x.local.bufs| && x.local.bufs[k].used
    requires HasShape(cfg, y.local) && |y.local.bufs| == |x.local.bufs| && y.local.counter == x.local.counter &&
        y.kept == x.kept
    requires forall i :: 0 <= i < |x.local.bufs| && i != k ==> y.local.bufs[i] == x.local.bufs[i]
    requires y.local.bufs[k] == FREE
    requires y.delivered == if Stores(x.local, k) then x.delivered + [x.local.bufs[k].age] else x.delivered
    requires y.taken == x.taken - {k}
    ensures Inv(cfg, y)
  {
    assert forall i: nat :: i != k ==> Stores(y.local, i) == Stores(x.local, i);
    assert !Stores(y.local, k);
    forall age: nat | age < |y.kept|
      ensures age in y.delivered || StoredAge(y, age)
    {
      if age !in x.delivered {
        assert StoredAge(x, age);
        var i: nat :| Stores(x.local, i) && x.local.bufs[i].age == age;
        if i == k {
          assert y.delivered[|x.delivered|] == age;
        } else {
          assert Stores(y.local, i) && y.local.bufs[i].age == age;
        }
      }
    }
  }

  /** The same messages are stored in the same buffers. */
  lemma SameStored(x: Mail, y: Mail)
    requires LedgerInv(x) && y.kept == x.kept && y.delivered == x.delivered
    requires forall i: nat :: Stores(x.local, i) ==> Stores(y.local, i) && y.local.bufs[i].age == x.local.bufs[i].age
    ensures LedgerInv(y)
  {
    forall age: nat | age < |y.kept| && age !in x.delivered
      ensures StoredAge(y, age)
    {
      assert StoredAge(x, age);
      var i: nat :| Stores(x.local, i) && x.local.bufs[i].age == age;
      assert Stores(y.local, i) && y.local.bufs[i].age == age;
    }
  }

  lemma TakeKeeps(cfg: Config, x: Mail)
    requires Inv(cfg, x)
    ensures Inv(cfg, Apply(cfg, x, Takes))
  {
    var y := Apply(cfg, x, Takes);
    if y != x {
      assert forall i: nat :: Stores(y.local, i) == Stores(x.local, i);
      SameStored(x, y);
    }
  }

  lemma SameBuffers(cfg: Config, x: Mail, y: Mail)
    requires Inv(cfg, x) && HasShape(cfg, y.local) && y == x.(local := x.local.(out := y.local.out))
    ensures Inv(cfg, y)
  {
    assert forall i: nat :: Stores(y.local, i) == Stores(x.local, i);
    SameStored(x, y);
  }

  /** A forwarded message is stored exactly when the write succeeds; otherwise no buffer changes. */
  lemma SendKeeps(cfg: Config, x: Mail, p: nat, message: Message)
    requires Inv(cfg, x) && Enabled(cfg, x, Sends(p, message))
    ensures Inv(cfg, Apply(cfg, x, Sends(p, message)))
  {
    var y := Apply(cfg, x, Sends(p, message));
    if Forward(cfg, x.local, p, message).1.Done? {
      var k := cfg.aux.base + Alloc(x.local.bufs, cfg.aux).1.value;
      assert x.taken - {k} == x.taken;
      StoreKeeps(cfg, x, y, k);
    } else {
      SameBuffers(cfg, x, y);
    }
  }

  lemma ReadEmpties(cfg: Config, s: Local, dest: int, mask: int, local: bool)
    requires HasShape(cfg, s)
    ensures var (found, t) := (Found(cfg, s, dest, mask, local), Read(cfg, s, dest, mask, local).0);
            t.counter == s.counter && t.bufs == if found.Some? then s.bufs[found.value := FREE] else s.bufs
    ensures HasShape(cfg, Read(cfg, s, dest, mask, local).0)
  {
  }

  lemma ReceiveRecords(cfg: Config, x: Mail, op: Op, y: Mail)
    requires Follows(cfg, x, op, y) && op.Receives?
    ensures var found := Found(cfg, x.local, op.dest, op.mask, op.local);
            && y.local == Read(cfg, x.local, op.dest, op.mask, op.local).0
            && y.kept == x.kept && y.taken == x.taken
            && y.delivered == if found.Some? then x.delivered + [x.local.bufs[found.value].age] else x.delivered
  {
  }

  lemma ReceiveKeeps(cfg: Config, x: Mail, op: Op, y: Mail)
    requires Inv(cfg, x) && Follows(cfg, x, op, y) && op.Receives?
    ensures Inv(cfg, y)
  {
    ReceiveRecords(cfg, x, op, y);
    ReadEmpties(cfg, x.local, op.dest, op.mask, op.local);
    var found := Found(cfg, x.local, op.dest, op.mask, op.local);
    if found.Some? {
      assert Stores(x.local, found.value);
      assert x.taken - {found.value} == x.taken;
      EmptyKeeps(cfg, x, y, found.value);
    } else {
      SameBuffers(cfg, x, y);
    }
  }

  lemma StepKeeps(cfg: Config, x: Mail, op: Op, y: Mail)
    requires Inv(cfg, x) && Follows(cfg, x, op, y)
    ensures Inv(cfg, y)
  {
    match op
    case Sends(p, message) => SendKeeps(cfg, x, p, message);
    case Receives(_, _, _) => ReceiveKeeps(cfg, x, op, y);
    case Takes => TakeKeeps(cfg, x);
    case Keeps(i, message) => StoreKeeps(cfg, x, y, i);
    case Drops(i) => EmptyKeeps(cfg, x, y, i);
    case Opens => SameBuffers(cfg, x, y);
    case Closes(_) => SameBuffers(cfg, x, y);
  }

  predicate Follows(cfg: Config, x: Mail, op: Op, y: Mail) { Enabled(cfg, x, op) && y == Apply(cfg, x, op) }

  ghost predicate IsRun(cfg: Config, xs: seq<Mail>, ops: seq<Op>) {
    |xs| == |ops| + 1 && forall i :: 0 <= i < |ops| ==> Follows(cfg, xs[i], ops[i], xs[i + 1])
  }

  /** Empty buffers, no message so far, no port in use and no request. */
  ghost predicate Boot(cfg: Config, x: Mail) {
    && HasShape(cfg, x.local) && x.local.counter == 0
    && x.local.out.queue == []
    && (forall p :: 0 <= p < |x.local.out.ports| ==> !x.local.out.ports[p].used && !x.local.out.ports[p].requested)
    && (forall i :: 0 <= i < |x.local.bufs| ==> x.local.bufs[i] == FREE)
    && x.kept == [] && x.delivered == [] && x.taken == {}
  }

  lemma {:induction false} RunKeeps(cfg: Config, xs: seq<Mail>, ops: seq<Op>, i: nat)
    requires IsRun(cfg, xs, ops) && Boot(cfg, xs[0]) && i < |xs|
    ensures Inv(cfg, xs[i])
  {
    if i > 0 {
      RunKeeps(cfg, xs, ops, i - 1);
      StepKeeps(cfg, xs[i - 1], ops[i - 1], xs[i]);
    }
  }

  lemma RunHasShape(cfg: Config, xs: seq<Mail>, ops: seq<Op>, i: nat)
    requires IsRun(cfg, xs, ops) && Boot(cfg, xs[0]) && i < |xs|
    ensures HasShape(cfg, xs[i].local)
  {
    RunKeeps(cfg, xs, ops, i);
  }

  /** The ages of stored messages. */
  ghost function StoredAges(x: Mail): set<nat> {
    set i: nat | i < |x.local.bufs| && Stores(x.local, i) :: x.local.bufs[i].age
  }

  /**
   * Conservation, for every run: each message kept so far is either stored, in one buffer and as
   * it was sent, or was delivered, once; and nothing else is stored or was delivered.
   */
  lemma MessagesConserved(cfg: Config, xs: seq<Mail>, ops: seq<Op>, n: nat)
    requires IsRun(cfg, xs, ops) && Boot(cfg, xs[0]) && n < |xs|
    ensures var x := xs[n];
            && (forall age: nat :: age < |x.kept| <==> (age in x.delivered || age in StoredAges(x)))
            && (forall age: nat :: !(age in x.delivered && age in StoredAges(x)))
            && (forall j, k :: 0 <= j < k < |x.delivered| ==> x.delivered[j] != x.delivered[k])
            && (forall i: nat, j: nat :: Stores(x.local, i) && Stores(x.local, j) && i != j ==>
                  x.local.bufs[i].age != x.local.bufs[j].age)
            && (forall i: nat :: Stores(x.local, i) ==>
                  x.local.bufs[i].age < |x.kept| && x.local.bufs[i].message == x.kept[x.local.bufs[i].age])
  {
    RunKeeps(cfg, xs, ops, n);
    var x := xs[n];
    forall age: nat | age < |x.kept| && age !in x.delivered
      ensures age in StoredAges(x)
    {
      assert StoredAge(x, age);
      var i: nat :| Stores(x.local, i) && x.local.bufs[i].age == age;
    }
  }

  /**
   * Buffer `k` stores a message that a read may have: it is for the destination, from a source
   * that the mask admits, and for a local read in the buffers of local messages.
   */
  predicate Admitted(cfg: Config, s: Local, k: nat, dest: int, mask: int, local: bool) {
    && Stores(s, k) && s.bufs[k].message.dest == dest && cfg.addressing.SourceCheck(s.bufs[k].message.src, mask)
    && (local ==> cfg.aux.base <= k)
  }

  lemma FoundIsAdmitted(cfg: Config, s: Local, dest: int, mask: int, local: bool)
    requires HasShape(cfg, s) && AgesFit(s.bufs)
    ensures var found := Found(cfg, s, dest, mask, local);
            && (found.None? <==> forall k: nat :: !Admitted(cfg, s, k, dest, mask, local))
            && (found.Some? ==>
                  && Admitted(cfg, s, found.value, dest, mask, local)
                  && forall k: nat :: Admitted(cfg, s, k, dest, mask, local) ==>
                       s.bufs[found.value].age <= s.bufs[k].age)
  {
    var pool := Searched(cfg, local);
    SearchFindsOldest(cfg.addressing, s.bufs, pool, dest, mask);
    forall k: nat | k < |s.bufs|
      ensures Admitted(cfg, s, k, dest, mask, local) <==>
              (pool.Covers(k) && Matches(cfg.addressing, s.bufs[k], dest, mask))
    {
    }
  }

  /**
   * Oldest first, for every run: a read served from storage returns the message that was kept
   * first among those that it may have, and fails if and only if there is none.
   */
  lemma ReadsOldestFirst(cfg: Config, xs: seq<Mail>, ops: seq<Op>, n: nat, dest: int, mask: int, local: bool)
    requires IsRun(cfg, xs, ops) && Boot(cfg, xs[0]) && n < |xs|
    ensures HasShape(cfg, xs[n].local)
    ensures var x := xs[n];
            var (found, got) := (Found(cfg, x.local, dest, mask, local), Read(cfg, x.local, dest, mask, local).1);
            && (got.None? <==> forall k: nat :: !Admitted(cfg, x.local, k, dest, mask, local))
            && (got.Some? ==>
                  && found.Some? && Admitted(cfg, x.local, found.value, dest, mask, local)
                  && x.local.bufs[found.value].age < |x.kept|
                  && got.value == x.kept[x.local.bufs[found.value].age]
                  && forall k: nat :: Admitted(cfg, x.local, k, dest, mask, local) ==>
                       x.local.bufs[found.value].age <= x.local.bufs[k].age)
  {
    RunKeeps(cfg, xs, ops, n);
    FoundIsAdmitted(cfg, xs[n].local, dest, mask, local);
  }

  /** active_release() of an input port: refused while the main pool stores a message for it. */
  function ReleaseInput(cfg: Config, s: Local, used: bool, node: int, port: nat): Status
    requires HasShape(cfg, s)
  {
    if Search(cfg.addressing, s.bufs, cfg.main, cfg.addressing.Compose(node, port), -1).Some? then Fail(EBUSY)
    else if used then Done else Fail(EINVAL)
  }

  /** A released input port leaves no message behind, in neither pool, from no source. */
  lemma ReleasedPortHasNoMail(cfg: Config, s: Local, used: bool, node: int, port: nat)
    requires HasShape(cfg, s) && AgesFit(s.bufs)
    ensures ReleaseInput(cfg, s, used, node, port) == Fail(EBUSY) <==>
              exists i: nat :: Stores(s, i) && s.bufs[i].message.dest == cfg.addressing.Compose(node, port)
    ensures ReleaseInput(cfg, s, used, node, port) != Fail(EBUSY) ==>
              ReleaseInput(cfg, s, used, node, port) == if used then Done else Fail(EINVAL)
    ensures ReleaseInput(cfg, s, used, node, port).Done? ==>
              forall mask: int, local: bool :: Found(cfg, s, cfg.addressing.Compose(node, port), mask, local).None?
  {
    SearchFindsOldest(cfg.addressing, s.bufs, cfg.main, cfg.addressing.Compose(node, port), -1);
    forall i: nat | Stores(s, i)
      ensures cfg.main.Covers(i)
    {
    }
  }

  // ------------------------------------------------------------------------
  // When a sender gets its turn back
  // ------------------------------------------------------------------------

  /** Buffer `i` stores a message that local port `p` sent. */
  predicate From(s: Local, i: nat, p: nat) { Stores(s, i) && s.bufs[i].actid >= 0 && s.bufs[i].portid == p }

  ghost predicate Owed(s: Local, p: nat) { exists i: nat :: From(s, i, p) }

  /** A port is requested exactly while one message of its own is stored: it may write again once that is read. */
  ghost predicate Healthy(s: Local) {
    && OA.QueueInv(s.out)
    && (forall p: nat :: p < |s.out.ports| ==> (s.out.ports[p].requested <==> Owed(s, p)))
    && (forall i: nat, j: nat, p: nat :: From(s, i, p) && From(s, j, p) ==> i == j)
    && (forall i: nat :: Stores(s, i) && s.bufs[i].actid >= 0 ==> 0 <= s.bufs[i].portid < |s.out.ports|)
  }

  /** Whether a forwarded write is left without a buffer. */
  predicate LacksBuffer(cfg: Config, s: Local, p: nat)
    requires HasShape(cfg, s) && p < |s.out.ports|
  {
    && s.out.ports[p].used && !s.out.ports[p].requested && |s.out.queue| < |s.out.ports|
    && Alloc(s.bufs, cfg.aux).1.None?
  }

  lemma ClearKeepsQueue(out: OA.Out, p: nat)
    requires OA.QueueInv(out) && p < |out.ports|
    ensures OA.QueueInv(ClearRequest(out, p))
  {
    RemoveDistinct(out.queue, p);
  }

  /** Reading a local message gives its sender the turn back exactly when the FIFO is not full. */
  lemma ReadFreesSenderIff(cfg: Config, s: Local, dest: int, mask: int, local: bool, p: nat)
    requires HasShape(cfg, s) && Healthy(s)
    requires var found := Found(cfg, s, dest, mask, local); found.Some? && From(s, found.value, p)
    ensures p < |s.out.ports| && s.out.ports[p].requested
    ensures var t := Read(cfg, s, dest, mask, local).0;
            && |t.out.ports| == |s.out.ports| && !Owed(t, p)
            && (!t.out.ports[p].requested <==> |s.out.queue| < |s.out.ports|)
  {
    var k := Found(cfg, s, dest, mask, local).value;
    assert Owed(s, p);
    var t := Read(cfg, s, dest, mask, local).0;
    forall i: nat
      ensures !From(t, i, p)
    {
      assert i != k && From(t, i, p) ==> From(s, i, p);
    }
  }

  /** A port whose request outlives its message, or never had one. */
  ghost predicate Stuck(s: Local, p: nat) { p < |s.out.ports| && s.out.ports[p].requested && !Owed(s, p) }

  /** Buffer `k` is the first unused one for local messages. */
  ghost predicate FirstFree(cfg: Config, s: Local, k: nat) {
    && cfg.aux.base <= k < |s.bufs| && !s.bufs[k].used
    && forall i :: cfg.aux.base <= i < k ==> s.bufs[i].used
  }

  /**
   * What a local write does. It succeeds if and only if the port is in use and not requested, the
   * FIFO has room and a buffer for local messages is unused: the first such buffer then stores
   * the message, with the next age and its sender. Otherwise no buffer changes; the FIFO and the
   * port's flag do if all but the buffer was there.
   */
  lemma ForwardDoes(cfg: Config, s: Local, p: nat, message: Message)
    requires HasShape(cfg, s) && p < |s.out.ports|
    ensures var (t, status) := Forward(cfg, s, p, message);
            var asks := s.out.ports[p].used && !s.out.ports[p].requested && |s.out.queue| < |s.out.ports|;
            && (status == Fail(EINVAL) <==> !s.out.ports[p].used)
            && (status.Done? <==> asks && exists k: nat :: FirstFree(cfg, s, k))
            && (status.Fail? && s.out.ports[p].used ==> status == Fail(EBUSY))
            && (!asks ==> t == s)
            && (asks ==>
                  && t.out.queue == s.out.queue + [p] && t.out.busy == s.out.busy
                  && t.out.ports == s.out.ports[p := s.out.ports[p].(requested := true)])
            && (status.Fail? ==> t.bufs == s.bufs && t.counter == s.counter)
            && (status.Done? ==>
                  && t.counter == (s.counter + 1) % (AGE_MAX + 1)
                  && exists k: nat :: FirstFree(cfg, s, k) &&
                       t.bufs == s.bufs[k := Mbuffer(true, true, s.counter, cfg.sender, p, message)])
  {
    var found := Alloc(s.bufs, cfg.aux).1;
    if found.Some? {
      var k := cfg.aux.base + found.value;
      assert FirstFree(cfg, s, k);
      var (t, status) := Forward(cfg, s, p, message);
      if status.Done? {
        assert t.bufs == s.bufs[k := Mbuffer(true, true, s.counter, cfg.sender, p, message)];
      }
    } else {
      assert forall k: nat :: cfg.aux.base <= k < |s.bufs| ==> s.bufs[k].used;
    }
  }

  /** A forwarded write leaves its port stuck exactly when it gets as far as the FIFO and finds no buffer. */
  lemma SendSticksIff(cfg: Config, s: Local, p: nat, message: Message)
    requires HasShape(cfg, s) && Healthy(s) && p < |s.out.ports|
    ensures Stuck(Forward(cfg, s, p, message).0, p) <==> LacksBuffer(cfg, s, p)
  {
    var (t, status) := Forward(cfg, s, p, message);
    if !s.out.ports[p].requested {
      OA.RoomForUnrequested(s.out, p);
    }
    if status.Done? {
      assert From(t, cfg.aux.base + Alloc(s.bufs, cfg.aux).1.value, p);
      assert Owed(t, p);
    } else {
      assert t.bufs == s.bufs;
      assert forall i: nat :: From(t, i, p) == From(s, i, p);
      assert Owed(t, p) == Owed(s, p);
    }
  }

  /** The step opens port `p` anew, for its next owner. */
  predicate Reopens(x: Mail, op: Op, p: nat) { op.Opens? && OA.Alloc(x.local.out).1 == Ok(p) }

  /** Only a new owner frees a stuck port of its request. */
  lemma StuckUntouched(cfg: Config, x: Mail, op: Op, y: Mail, p: nat)
    requires Follows(cfg, x, op, y) && Stuck(x.local, p)
    ensures |y.local.out.ports| == |x.local.out.ports|
    ensures y.local.out.ports[p].requested <==> !Reopens(x, op, p)
  {
    if op.Receives? {
      var found := Found(cfg, x.local, op.dest, op.mask, op.local);
      if found.Some? {
        assert Stores(x.local, found.value) && !From(x.local, found.value, p);
      }
    }
  }

  lemma StuckNotOwed(cfg: Config, x: Mail, op: Op, y: Mail, p: nat, i: nat)
    requires Follows(cfg, x, op, y) && Stuck(x.local, p) && From(y.local, i, p)
    requires op.Keeps? ==> x.local.bufs[op.i].actid == -1
    ensures From(x.local, i, p)
  {
  }

  /** A stuck port stays stuck in a step if and only if the step does not open it anew. */
  lemma StuckStaysIff(cfg: Config, x: Mail, op: Op, y: Mail, p: nat)
    requires Inv(cfg, x) && Follows(cfg, x, op, y) && Stuck(x.local, p)
    ensures Stuck(y.local, p) <==> !Reopens(x, op, p)
  {
    StuckUntouched(cfg, x, op, y, p);
    if Owed(y.local, p) {
      var i: nat :| From(y.local, i, p);
      StuckNotOwed(cfg, x, op, y, p, i);
      assert Owed(x.local, p);
    }
  }

  ghost predicate StuckAlong(xs: seq<Mail>, j: nat, k: nat, p: nat)
    requires k < |xs|
  {
    forall n :: j <= n <= k ==> Stuck(xs[n].local, p)
  }

  ghost predicate ReopensAlong(xs: seq<Mail>, ops: seq<Op>, j: nat, k: nat, p: nat)
    requires k < |xs| && k <= |ops|
  {
    exists n :: j <= n < k && Reopens(xs[n], ops[n], p)
  }

  lemma AlongOneMore(xs: seq<Mail>, ops: seq<Op>, j: nat, k: nat, p: nat)
    requires j < k < |xs| && k <= |ops|
    ensures StuckAlong(xs, j, k, p) <==> StuckAlong(xs, j, k - 1, p) && Stuck(xs[k].local, p)
    ensures ReopensAlong(xs, ops, j, k, p) <==> ReopensAlong(xs, ops, j, k - 1, p) || Reopens(xs[k - 1], ops[k - 1], p)
  {
    if ReopensAlong(xs, ops, j, k - 1, p) {
      var n :| j <= n < k - 1 && Reopens(xs[n], ops[n], p);
      assert j <= n < k && Reopens(xs[n], ops[n], p);
    }
  }

  ghost predicate FreedByReopening(x: Mail, op: Op, y: Mail, p: nat) {
    Stuck(x.local, p) ==> (Stuck(y.local, p) <==> !Reopens(x, op, p))
  }

  lemma {:induction false} StuckAlongIff(xs: seq<Mail>, ops: seq<Op>, j: nat, k: nat, p: nat)
    requires j <= k < |xs| && k <= |ops| && Stuck(xs[j].local, p)
    requires forall m :: j <= m < k ==> FreedByReopening(xs[m], ops[m], xs[m + 1], p)
    ensures StuckAlong(xs, j, k, p) <==> !ReopensAlong(xs, ops, j, k, p)
  {
    if j < k {
      StuckAlongIff(xs, ops, j, k - 1, p);
      AlongOneMore(xs, ops, j, k, p);
      assert FreedByReopening(xs[k - 1], ops[k - 1], xs[k - 1 + 1], p);
    }
  }

  lemma RunFreesByReopening(cfg: Config, xs: seq<Mail>, ops: seq<Op>, m: nat, p: nat)
    requires IsRun(cfg, xs, ops) && Boot(cfg, xs[0]) && m < |ops|
    ensures FreedByReopening(xs[m], ops[m], xs[m + 1], p)
  {
    if Stuck(xs[m].local, p) {
      RunKeeps(cfg, xs, ops, m);
      StuckStaysIff(cfg, xs[m], ops[m], xs[m + 1], p);
    }
  }

  /** A port that is requested refuses a write. */
  lemma StuckRefuses(cfg: Config, s: Local, p: nat, message: Message)
    requires HasShape(cfg, s) && Stuck(s, p)
    ensures Forward(cfg, s, p, message).1.Fail?
  {
  }

  /**
   * In every run a stuck port stays so until it is closed and opened anew, and all that time its
   * writes are refused, whatever is read and whoever else writes.
   */
  lemma StuckUntilReopened(cfg: Config, xs: seq<Mail>, ops: seq<Op>, j: nat, k: nat, p: nat, message: Message)
    requires IsRun(cfg, xs, ops) && Boot(cfg, xs[0]) && j <= k < |xs| && Stuck(xs[j].local, p)
    ensures StuckAlong(xs, j, k, p) <==> !ReopensAlong(xs, ops, j, k, p)
    ensures HasShape(cfg, xs[k].local)
    ensures StuckAlong(xs, j, k, p) ==> Forward(cfg, xs[k].local, p, message).1.Fail?
  {
    forall m | j <= m < k
      ensures FreedByReopening(xs[m], ops[m], xs[m + 1], p)
    {
      RunFreesByReopening(cfg, xs, ops, m, p);
    }
    StuckAlongIff(xs, ops, j, k, p);
    RunHasShape(cfg, xs, ops, k);
    if StuckAlong(xs, j, k, p) {
      assert Stuck(xs[k].local, p);
      StuckRefuses(cfg, xs[k].local, p, message);
    }
  }

  /** A port opened anew sends if and only if the FIFO, with the entries left in it, and the pool have room. */
  lemma ReopenedSendsIff(cfg: Config, x: Mail, op: Op, y: Mail, p: nat, message: Message)
    requires Inv(cfg, x) && Follows(cfg, x, op, y) && Reopens(x, op, p)
    ensures p < |y.local.out.ports| && HasShape(cfg, y.local)
    ensures Forward(cfg, y.local, p, message).1.Done? <==>
              |x.local.out.queue| < |x.local.out.ports| && Alloc(x.local.bufs, cfg.aux).1.Some?
  {
  }

  /** No step takes anything out of a full FIFO, or puts anything in. */
  lemma FullStays(cfg: Config, x: Mail, op: Op, y: Mail)
    requires Follows(cfg, x, op, y) && |x.local.out.queue| == |x.local.out.ports|
    ensures y.local.out.queue == x.local.out.queue && |y.local.out.ports| == |x.local.out.ports|
  {
  }

  /**
   * Once the FIFO of the local active is full, it stays as it is in every run, and no local
   * message can be sent on any port, whatever is read, closed and opened meanwhile.
   */
  lemma {:induction false} FullForever(cfg: Config, xs: seq<Mail>, ops: seq<Op>, j: nat, k: nat, p: nat,
      message: Message)
    requires IsRun(cfg, xs, ops) && Boot(cfg, xs[0]) && j <= k < |xs|
    requires |xs[j].local.out.queue| == |xs[j].local.out.ports| && p < |xs[j].local.out.ports|
    ensures xs[k].local.out.queue == xs[j].local.out.queue && |xs[k].local.out.ports| == |xs[j].local.out.ports|
    ensures HasShape(cfg, xs[k].local) && Forward(cfg, xs[k].local, p, message).1.Fail?
  {
    RunHasShape(cfg, xs, ops, k);
    if j < k {
      FullForever(cfg, xs, ops, j, k - 1, p, message);
      FullStays(cfg, xs[k - 1], ops[k - 1], xs[k]);
    }
  }

  /** The run with one more step. */
  lemma RunOneMore(cfg: Config, xs: seq<Mail>, ops: seq<Op>, op: Op)
    requires IsRun(cfg, xs, ops) && Enabled(cfg, xs[|ops|], op)
    ensures IsRun(cfg, xs + [Apply(cfg, xs[|ops|], op)], ops + [op])
  {
  }

  /** The first `n` ports have been opened, and `sent` of them have written. */
  ghost predicate Filling(cfg: Config, x: Mail, n: nat, sent: nat) {
    && HasShape(cfg, x.local) && sent <= n <= |x.local.out.ports| && |x.kept| <= sent
    && |x.local.out.queue| == sent
    && (forall p :: 0 <= p < |x.local.out.ports| ==> (x.local.out.ports[p].used <==> p < n))
    && (forall p :: sent <= p < |x.local.out.ports| ==> !x.local.out.ports[p].requested)
  }

  lemma OpenFills(cfg: Config, x: Mail, n: nat)
    requires Filling(cfg, x, n, 0) && n < |x.local.out.ports|
    ensures Filling(cfg, Apply(cfg, x, Opens), n + 1, 0)
    ensures |Apply(cfg, x, Opens).local.out.ports| == |x.local.out.ports|
  {
    var ports := x.local.out.ports;
    assert OA.IsUnused(ports[n]) && forall p :: 0 <= p < n ==> !OA.IsUnused(ports[p]);
    assert FirstIndex(ports, OA.IsUnused, 0) == n;
  }

  /** A write enters the FIFO before it looks for a buffer. */
  lemma SendFills(cfg: Config, x: Mail, sent: nat, message: Message)
    requires Filling(cfg, x, |x.local.out.ports|, sent) && sent < |x.local.out.ports| && sent < AGE_MAX
    ensures Enabled(cfg, x, Sends(sent, message))
    ensures var y := Apply(cfg, x, Sends(sent, message));
            |y.local.out.ports| == |x.local.out.ports| && Filling(cfg, y, |x.local.out.ports|, sent + 1)
  {
  }

  lemma {:induction false} OpenAll(cfg: Config, x: Mail, n: nat) returns (xs: seq<Mail>, ops: seq<Op>)
    requires Boot(cfg, x) && n <= |x.local.out.ports|
    ensures IsRun(cfg, xs, ops) && xs[0] == x && |xs[|ops|].local.out.ports| == |x.local.out.ports|
    ensures Filling(cfg, xs[|ops|], n, 0)
  {
    if n == 0 {
      xs, ops := [x], [];
    } else {
      var ys, ps := OpenAll(cfg, x, n - 1);
      OpenFills(cfg, ys[|ps|], n - 1);
      RunOneMore(cfg, ys, ps, Opens);
      xs, ops := ys + [Apply(cfg, ys[|ps|], Opens)], ps + [Opens];
    }
  }

  /**
   * The FIFO does fill up, however many buffers there are: it is enough that each port writes
   * once before a message is read.
   */
  lemma {:induction false} FifoFillsUp(cfg: Config, x: Mail, message: Message, n: nat)
    returns (xs: seq<Mail>, ops: seq<Op>)
    requires Boot(cfg, x) && n <= |x.local.out.ports| < AGE_MAX
    ensures IsRun(cfg, xs, ops) && xs[0] == x && |xs[|ops|].local.out.ports| == |x.local.out.ports|
    ensures Filling(cfg, xs[|ops|], |x.local.out.ports|, n)
    ensures |xs[|ops|].local.out.queue| == n
  {
    if n == 0 {
      xs, ops := OpenAll(cfg, x, |x.local.out.ports|);
    } else {
      var ys, ps := FifoFillsUp(cfg, x, message, n - 1);
      SendFills(cfg, ys[|ps|], n - 1, message);
      RunOneMore(cfg, ys, ps, Sends(n - 1, message));
      xs, ops := ys + [Apply(cfg, ys[|ps|], Sends(n - 1, message))], ps + [Sends(n - 1, message)];
    }
  }

  /** The first `n` buffers are taken by transfers, and nothing else has happened. */
  ghost predicate Draining(cfg: Config, x: Mail, n: nat) {
    && HasShape(cfg, x.local) && n <= |x.local.bufs| && x.kept == [] && x.local.out.queue == []
    && (forall i :: 0 <= i < |x.local.bufs| ==> x.local.bufs[i] == if i < n then FREE.(used := true) else FREE)
    && (forall p :: 0 <= p < |x.local.out.ports| ==> !x.local.out.ports[p].used && !x.local.out.ports[p].requested)
  }

  lemma TakeDrains(cfg: Config, x: Mail, n: nat)
    requires Draining(cfg, x, n) && n < |x.local.bufs|
    ensures Draining(cfg, Apply(cfg, x, Takes), n + 1)
    ensures |Apply(cfg, x, Takes).local.out.ports| == |x.local.out.ports|
    ensures |Apply(cfg, x, Takes).local.bufs| == |x.local.bufs|
  {
    assert !x.local.bufs[n].used && forall i :: 0 <= i < n ==> x.local.bufs[i].used;
    assert FirstUnused(x.local.bufs, cfg.main, 0) == n;
  }

  lemma {:induction false} TakeAll(cfg: Config, x: Mail, n: nat) returns (xs: seq<Mail>, ops: seq<Op>)
    requires Boot(cfg, x) && n <= |x.local.bufs|
    ensures IsRun(cfg, xs, ops) && xs[0] == x && Draining(cfg, xs[|ops|], n)
    ensures |xs[|ops|].local.out.ports| == |x.local.out.ports| && |xs[|ops|].local.bufs| == |x.local.bufs|
  {
    if n == 0 {
      xs, ops := [x], [];
    } else {
      var ys, ps := TakeAll(cfg, x, n - 1);
      TakeDrains(cfg, ys[|ps|], n - 1);
      RunOneMore(cfg, ys, ps, Takes);
      xs, ops := ys + [Apply(cfg, ys[|ps|], Takes)], ps + [Takes];
    }
  }

  /** With every buffer taken, the first write of a port that was just opened leaves it stuck. */
  lemma DrainedSticks(cfg: Config, x: Mail, message: Message)
    requires Draining(cfg, x, |x.local.bufs|) && 0 < |x.local.out.ports|
    ensures var y := Apply(cfg, x, Opens);
            && LacksBuffer(cfg, y.local, 0) && Enabled(cfg, y, Sends(0, message))
            && Stuck(Apply(cfg, y, Sends(0, message)).local, 0)
  {
    var y := Apply(cfg, x, Opens);
    assert OA.IsUnused(x.local.out.ports[0]);
    assert FirstIndex(x.local.out.ports, OA.IsUnused, 0) == 0;
    assert Alloc(y.local.bufs, cfg.aux).1.None?;
    var z := Apply(cfg, y, Sends(0, message));
    assert z.local.bufs == x.local.bufs && forall i: nat :: !From(z.local, i, 0);
  }

  /** Ports do get stuck: a run from boot that takes every buffer for transfers and then writes locally. */
  lemma PortGetsStuck(cfg: Config, x: Mail, message: Message) returns (xs: seq<Mail>, ops: seq<Op>)
    requires Boot(cfg, x) && 0 < |x.local.out.ports|
    ensures IsRun(cfg, xs, ops) && xs[0] == x && 0 < |ops|
    ensures ops[|ops| - 1] == Sends(0, message) && Enabled(cfg, xs[|ops| - 1], Sends(0, message))
    ensures LacksBuffer(cfg, xs[|ops| - 1].local, 0)
    ensures Stuck(xs[|ops|].local, 0)
  {
    var ys, ps := TakeAll(cfg, x, |x.local.bufs|);
    var y := ys[|ps|];
    DrainedSticks(cfg, y, message);
    RunOneMore(cfg, ys, ps, Opens);
    var zs, qs := ys + [Apply(cfg, y, Opens)], ps + [Opens];
    RunOneMore(cfg, zs, qs, Sends(0, message));
    xs, ops := zs + [Apply(cfg, zs[|qs|], Sends(0, message))], qs + [Sends(0, message)];
  }

  // ------------------------------------------------------------------------
  // When every sender gets its turn back
  // ------------------------------------------------------------------------

  /**
   * A step that runs out of buffers, reads a local message while the FIFO is full, or opens a
   * port whose last owner's request is still there.
   */
  predicate Mishap(cfg: Config, x: Mail, op: Op)
    requires Enabled(cfg, x, op)
  {
    match op
    case Sends(p, _) => LacksBuffer(cfg, x.local, p)
    case Receives(dest, mask, local) =>
      var found := Found(cfg, x.local, dest, mask, local);
      found.Some? && x.local.bufs[found.value].actid >= 0 && |x.local.out.queue| == |x.local.out.ports|
    case Opens => OA.ReopensRequested(x.local.out)
    case _ => false
  }

  /** The same messages of local senders are stored in the same buffers. */
  lemma SameSenders(s: Local, t: Local)
    requires Healthy(s) && OA.QueueInv(t.out) && |t.out.ports| == |s.out.ports|
    requires forall p :: 0 <= p < |s.out.ports| ==> t.out.ports[p].requested == s.out.ports[p].requested
    requires forall i: nat, p: nat :: From(t, i, p) == From(s, i, p)
    requires forall i: nat :: Stores(t, i) && t.bufs[i].actid >= 0 ==> Stores(s, i) && t.bufs[i] == s.bufs[i]
    ensures Healthy(t)
  {
    assert forall p: nat :: Owed(t, p) == Owed(s, p);
  }

  lemma SendHealthy(cfg: Config, s: Local, p: nat, message: Message)
    requires HasShape(cfg, s) && Healthy(s) && p < |s.out.ports|
    requires !LacksBuffer(cfg, s, p)
    ensures Healthy(Forward(cfg, s, p, message).0)
  {
    var (t, status) := Forward(cfg, s, p, message);
    if !s.out.ports[p].requested {
      OA.RoomForUnrequested(s.out, p);
    }
    if status.Done? {
      var k: nat := cfg.aux.base + Alloc(s.bufs, cfg.aux).1.value;
      assert !Owed(s, p);
      forall i: nat, q: nat
        ensures From(t, i, q) <==> From(s, i, q) || (i == k && q == p)
      {
      }
      assert From(t, k, p);
      forall q: nat | q < |s.out.ports| && q != p
        ensures Owed(t, q) == Owed(s, q)
      {
        if Owed(s, q) { var i: nat :| From(s, i, q); assert From(t, i, q); }
      }
    }
  }

  lemma ReadHealthy(cfg: Config, s: Local, dest: int, mask: int, local: bool)
    requires HasShape(cfg, s) && Healthy(s)
    requires var found := Found(cfg, s, dest, mask, local);
             found.None? || s.bufs[found.value].actid < 0 || |s.out.queue| < |s.out.ports|
    ensures Healthy(Read(cfg, s, dest, mask, local).0)
  {
    var found, t := Found(cfg, s, dest, mask, local), Read(cfg, s, dest, mask, local).0;
    if found.Some? {
      var k := found.value;
      assert Stores(s, k);
      forall i: nat, q: nat
        ensures From(t, i, q) <==> From(s, i, q) && i != k
      {
      }
      if s.bufs[k].actid < 0 {
        SameSenders(s, t);
      } else {
        var p := s.bufs[k].portid;
        assert From(s, k, p) && Owed(s, p);
        ClearKeepsQueue(s.out, p);
        forall q: nat | q < |s.out.ports|
          ensures Owed(t, q) <==> Owed(s, q) && q != p
        {
          if Owed(s, q) && q != p { var i: nat :| From(s, i, q); assert From(t, i, q); }
        }
      }
    }
  }

  lemma OpenHealthyIff(s: Local)
    requires Healthy(s)
    ensures Healthy(s.(out := OA.Alloc(s.out).0)) <==> !OA.ReopensRequested(s.out)
  {
    OA.OpenKeepsQueueIff(s.out);
    var t := s.(out := OA.Alloc(s.out).0);
    if !OA.ReopensRequested(s.out) {
      SameSenders(s, t);
    }
  }

  lemma OtherHealthy(cfg: Config, x: Mail, op: Op, y: Mail)
    requires Inv(cfg, x) && Healthy(x.local) && Follows(cfg, x, op, y)
    requires op.Takes? || op.Keeps? || op.Drops? || op.Closes?
    ensures Healthy(y.local)
  {
    if op.Closes? {
      OA.CloseKeepsQueue(x.local.out, op.p);
    }
    SameSenders(x.local, y.local);
  }

  lemma FullReadUnhealthy(cfg: Config, s: Local, dest: int, mask: int, local: bool)
    requires HasShape(cfg, s) && Healthy(s) && |s.out.queue| == |s.out.ports|
    requires Found(cfg, s, dest, mask, local).Some? && s.bufs[Found(cfg, s, dest, mask, local).value].actid >= 0
    ensures !Healthy(Read(cfg, s, dest, mask, local).0)
  {
    var k := Found(cfg, s, dest, mask, local).value;
    var p := s.bufs[k].portid;
    assert From(s, k, p);
    ReadFreesSenderIff(cfg, s, dest, mask, local, p);
  }

  /**
   * Each requested port is owed its turn by exactly one stored message. A step keeps that if and
   * only if it is not one of the three mishaps.
   */
  lemma HealthyStaysIff(cfg: Config, x: Mail, op: Op, y: Mail)
    requires Inv(cfg, x) && Healthy(x.local) && Follows(cfg, x, op, y)
    ensures Healthy(y.local) <==> !Mishap(cfg, x, op)
  {
    if op.Sends? {
      SendSticksIff(cfg, x.local, op.p, op.message);
      if !LacksBuffer(cfg, x.local, op.p) { SendHealthy(cfg, x.local, op.p, op.message); }
    } else if op.Receives? {
      if Mishap(cfg, x, op) {
        FullReadUnhealthy(cfg, x.local, op.dest, op.mask, op.local);
      } else {
        ReadHealthy(cfg, x.local, op.dest, op.mask, op.local);
      }
    } else if op.Opens? {
      OpenHealthyIff(x.local);
    } else {
      OtherHealthy(cfg, x, op, y);
    }
  }

  ghost predicate MishapAt(cfg: Config, xs: seq<Mail>, ops: seq<Op>, k: nat)
    requires k < |xs| && k < |ops|
  {
    Enabled(cfg, xs[k], ops[k]) && Mishap(cfg, xs[k], ops[k])
  }

  ghost predicate HealthyAlong(xs: seq<Mail>, n: nat)
    requires n < |xs|
  {
    forall i :: 0 <= i <= n ==> Healthy(xs[i].local)
  }

  ghost predicate NoMishapBefore(cfg: Config, xs: seq<Mail>, ops: seq<Op>, n: nat)
    requires n < |xs| && n <= |ops|
  {
    forall k :: 0 <= k < n ==> !MishapAt(cfg, xs, ops, k)
  }

  lemma BootIsHealthy(cfg: Config, x: Mail)
    requires Boot(cfg, x)
    ensures Healthy(x.local)
  {
    assert forall i: nat, p: nat :: !From(x.local, i, p);
  }

  /** A run from boot is healthy all along if and only if it has no mishap. */
  lemma {:induction false} RunIsHealthyIff(cfg: Config, xs: seq<Mail>, ops: seq<Op>, n: nat)
    requires IsRun(cfg, xs, ops) && Boot(cfg, xs[0]) && n < |xs|
    ensures HealthyAlong(xs, n) <==> NoMishapBefore(cfg, xs, ops, n)
  {
    if n == 0 {
      BootIsHealthy(cfg, xs[0]);
    } else {
      RunIsHealthyIff(cfg, xs, ops, n - 1);
      RunKeeps(cfg, xs, ops, n - 1);
      assert HealthyAlong(xs, n) <==> HealthyAlong(xs, n - 1) && Healthy(xs[n].local);
      assert NoMishapBefore(cfg, xs, ops, n) <==> NoMishapBefore(cfg, xs, ops, n - 1) && !MishapAt(cfg, xs, ops, n - 1);
      if HealthyAlong(xs, n - 1) {
        assert Follows(cfg, xs[n - 1], ops[n - 1], xs[n]);
        HealthyStaysIff(cfg, xs[n - 1], ops[n - 1], xs[n]);
      }
    }
  }

  // ------------------------------------------------------------------------
  // Buffers that a transfer has taken
  // ------------------------------------------------------------------------

  /** Buffer `i` is given back by the step. */
  predicate GivesBack(op: Op, i: nat) { (op.Keeps? || op.Drops?) && op.i == i }

  /**
   * In every run a buffer that a remote transfer has taken stays its own until it is kept or
   * dropped: neither pool hands it out and no read finds it, although the pools overlap.
   */
  lemma {:induction false} TakenIsExclusive(cfg: Config, xs: seq<Mail>, ops: seq<Op>, j: nat, k: nat, i: nat)
    requires IsRun(cfg, xs, ops) && Boot(cfg, xs[0]) && j <= k < |xs| && i in xs[j].taken
    requires forall n :: j <= n < k ==> !GivesBack(ops[n], i)
    ensures i in xs[k].taken && HasShape(cfg, xs[k].local)
    ensures var bufs := xs[k].local.bufs;
            && i < |bufs| && bufs[i].used && !bufs[i].busy
            && Alloc(bufs, cfg.main).1 != Some(i)
            && (cfg.aux.base <= i ==> Alloc(bufs, cfg.aux).1 != Some(i - cfg.aux.base))
            && forall dest, mask, local :: Found(cfg, xs[k].local, dest, mask, local) != Some(i)
  {
    RunKeeps(cfg, xs, ops, k);
    if j < k {
      TakenIsExclusive(cfg, xs, ops, j, k - 1, i);
      assert Follows(cfg, xs[k - 1], ops[k - 1], xs[k]);
    }
  }
}
