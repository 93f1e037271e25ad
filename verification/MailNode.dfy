/**
 * The mailboxes of one node as a whole: the table of communicators and ports together with the
 * local active and the message buffers. The question is when do_vmailbox_alloc() panics: it has
 * taken a port, finds no communicator, and cannot give the port back because mail is stored for
 * it.
 */
module MailNode {
  import opened Kernel
  import opened Communicators
  import opened MessagePool
  import opened Sequences
  import CT = CommunicatorTable
  import LM = LocalMail
  import OA = OutputActive

  /** The mail layer of node number `here`. */
  datatype Config = Config(mail: LM.Config, here: nat)

  datatype Node = Node(table: CT.Table, mail: LM.Mail)

  predicate HasShape(cfg: Config, n: Node) {
    && CT.HasShape(cfg.mail.addressing, n.table)
    && LM.HasShape(cfg.mail, n.mail.local)
    && cfg.mail.sender < |n.table.actives|
    && |n.mail.local.out.ports| == cfg.mail.addressing.ports
  }

  // ------------------------------------------------------------------------
  // Steps
  // ------------------------------------------------------------------------

  /** active_alloc() at the local active, and active_release() again when no communicator was found. */
  function Opened(m: LM.Mail, made: bool): LM.Mail {
    var (out, p) := OA.Alloc(m.local.out);
    m.(local := m.local.(out := if made || p.Err? then out else OA.Release(out, p.value).0))
  }

  /** do_vmailbox_create() and do_vmailbox_open() */
  function Create(cfg: Config, n: Node, remote: int, port: int, input: bool): (Node, CT.Outcome)
    requires HasShape(cfg, n)
  {
    var a, t := cfg.mail.addressing, n.table;
    var (y, r) := CT.Create(a, t, cfg.here, remote, port, input, n.mail.local.bufs);
    var local := CT.SearchActive(t, cfg.here, remote, input, 0) == cfg.mail.sender;
    var taken := CT.AllocPort(a, t, cfg.here, remote, port, input).1.Ok?;
    (Node(y, if local && taken then Opened(n.mail, r.Made?) else n.mail), r)
  }

  /** do_vmailbox_unlink() and do_vmailbox_close() */
  function Free(cfg: Config, n: Node, id: nat, input: bool): Node
    requires HasShape(cfg, n) && id < |n.table.comms|
    requires n.table.comms[id].used ==> CT.IsDescriptor(cfg.mail.addressing, n.table, n.table.comms[id].fd)
  {
    var a, fd := cfg.mail.addressing, n.table.comms[id].fd;
    var (y, status) := CT.Free(a, n.table, id, input, n.mail.local.bufs);
    if status.Done? && a.ActId(fd) == cfg.mail.sender
    then Node(y, n.mail.(local := n.mail.local.(out := OA.Release(n.mail.local.out, a.PortId(fd)).0)))
    else n.(table := y)
  }

  /** Mails is any step of the mail layer but the opening and closing of ports, which the others do. */
  datatype Op =
    | Creates(port: int) | Opens(remote: int, port: int) | Frees(id: nat, input: bool)
    | Uses(id: nat, comm: Communicator) | Mails(step: LM.Op)

  predicate Enabled(cfg: Config, n: Node, op: Op) {
    && HasShape(cfg, n)
    && match op
       case Creates(port) => true
       case Opens(_, _) => true
       case Frees(id, _) =>
         id < |n.table.comms| &&
           (n.table.comms[id].used ==> CT.IsDescriptor(cfg.mail.addressing, n.table, n.table.comms[id].fd))
       case Uses(id, comm) =>
         && id < |n.table.comms|
         && var c := n.table.comms[id]; comm.used == c.used && comm.input == c.input && comm.fd == c.fd
       case Mails(step) => !step.Opens? && !step.Closes? && LM.Enabled(cfg.mail, n.mail, step)
  }

  function Outcome(cfg: Config, n: Node, op: Op): CT.Outcome
    requires HasShape(cfg, n) && (op.Creates? || op.Opens?)
  {
    if op.Creates? then Create(cfg, n, -1, op.port, true).1 else Create(cfg, n, op.remote, op.port, false).1
  }

  /** The step ends in kpanic(). */
  predicate Panics(cfg: Config, n: Node, op: Op) {
    HasShape(cfg, n) && (op.Creates? || op.Opens?) && Outcome(cfg, n, op).Panic?
  }

  function Apply(cfg: Config, n: Node, op: Op): Node
    requires Enabled(cfg, n, op)
  {
    match op
    case Creates(port) => Create(cfg, n, -1, port, true).0
    case Opens(remote, port) => Create(cfg, n, remote, port, false).0
    case Frees(id, input) => Free(cfg, n, id, input)
    case Uses(id, comm) => n.(table := n.table.(comms := n.table.comms[id := comm]))
    case Mails(step) => n.(mail := LM.Apply(cfg.mail, n.mail, step))
  }

  predicate Follows(cfg: Config, n: Node, op: Op, y: Node) {
    Enabled(cfg, n, op) && !Panics(cfg, n, op) && y == Apply(cfg, n, op)
  }

  predicate CanRun(cfg: Config, n: Node, ops: seq<Op>)
    decreases |ops|
  {
    ops == [] || (Enabled(cfg, n, ops[0]) && !Panics(cfg, n, ops[0]) && CanRun(cfg, Apply(cfg, n, ops[0]), ops[1..]))
  }

  function After(cfg: Config, n: Node, ops: seq<Op>): Node
    requires CanRun(cfg, n, ops)
    decreases |ops|
  {
    if ops == [] then n else After(cfg, Apply(cfg, n, ops[0]), ops[1..])
  }

  // ------------------------------------------------------------------------
  // The ports that can be had
  // ------------------------------------------------------------------------

  /** An active whose ports the calls of this node can take. */
  predicate IsDoor(cfg: Config, t: CT.Table, k: int) {
    && 0 <= k < |t.actives|
    && var x := t.actives[k];
       && x.used && x.local == cfg.here && (x.input ==> x.remote == -1)
       && CT.SearchActive(t, cfg.here, x.remote, x.input, 0) == k
  }

  /** The ports behind the doors from number `k` on, and those of them that are free. */
  function Capacity(cfg: Config, t: CT.Table, k: nat): nat
    requires k <= |t.actives|
    decreases |t.actives| - k
  {
    if k == |t.actives| then 0
    else (if IsDoor(cfg, t, k) then cfg.mail.addressing.ports else 0) + Capacity(cfg, t, k + 1)
  }

  function FreePorts(cfg: Config, t: CT.Table, k: nat): nat
    requires k <= |t.actives|
    decreases |t.actives| - k
  {
    if k == |t.actives| then 0
    else (if IsDoor(cfg, t, k) then Count(t.actives[k].ports, CT.IsFree) else 0) + FreePorts(cfg, t, k + 1)
  }

  /** The actives are for the same directions and nodes. */
  ghost predicate SameActives(t: CT.Table, y: CT.Table) {
    && |y.actives| == |t.actives|
    && forall k :: 0 <= k < |t.actives| ==>
         var x, z := t.actives[k], y.actives[k];
         z.used == x.used && z.input == x.input && z.local == x.local && z.remote == x.remote
  }

  lemma {:induction false} SameSearch(t: CT.Table, y: CT.Table, local: int, remote: int, input: bool, k: nat)
    requires SameActives(t, y) && k <= |t.actives|
    ensures CT.SearchActive(y, local, remote, input, k) == CT.SearchActive(t, local, remote, input, k)
    decreases |t.actives| - k
  {
    if k < |t.actives| { SameSearch(t, y, local, remote, input, k + 1); }
  }

  lemma SameDoor(cfg: Config, t: CT.Table, y: CT.Table, k: int)
    requires SameActives(t, y)
    ensures IsDoor(cfg, y, k) == IsDoor(cfg, t, k)
  {
    if 0 <= k < |t.actives| {
      SameSearch(t, y, cfg.here, t.actives[k].remote, t.actives[k].input, 0);
    }
  }

  lemma {:induction false} SameCapacity(cfg: Config, t: CT.Table, y: CT.Table, k: nat)
    requires SameActives(t, y) && k <= |t.actives|
    ensures Capacity(cfg, y, k) == Capacity(cfg, t, k)
    decreases |t.actives| - k
  {
    if k < |t.actives| {
      SameDoor(cfg, t, y, k);
      SameCapacity(cfg, t, y, k + 1);
    }
  }

  /** Ports are taken behind doors only. */
  ghost predicate BehindDoors(cfg: Config, t: CT.Table) {
    forall k :: 0 <= k < |t.actives| && true in t.actives[k].ports ==> IsDoor(cfg, t, k)
  }

  /** Every port behind a door is taken or free. */
  lemma {:induction false} PortsAddUp(cfg: Config, t: CT.Table, k: nat)
    requires CT.HasShape(cfg.mail.addressing, t) && BehindDoors(cfg, t) && k <= |t.actives|
    ensures CT.Taken(t.actives[k..]) + FreePorts(cfg, t, k) == Capacity(cfg, t, k)
    decreases |t.actives| - k
  {
    if k < |t.actives| {
      PortsAddUp(cfg, t, k + 1);
      assert t.actives[k..][1..] == t.actives[k + 1..] && t.actives[k..][0] == t.actives[k];
      CountOpposites(t.actives[k].ports, CT.IsTaken, CT.IsFree);
      if !IsDoor(cfg, t, k) {
        CountNone(t.actives[k].ports, CT.IsTaken);
      }
    }
  }

  lemma {:induction false} CountSome<T>(s: seq<T>, p: T -> bool) returns (i: nat)
    requires Count(s, p) > 0
    ensures i < |s| && p(s[i])
  {
    if p(s[0]) {
      i := 0;
    } else {
      i := CountSome(s[1..], p);
      i := i + 1;
    }
  }

  lemma {:induction false} FreePositive(cfg: Config, t: CT.Table, k: nat, i: nat, p: nat)
    requires k <= i < |t.actives| && IsDoor(cfg, t, i) && p < |t.actives[i].ports| && !t.actives[i].ports[p]
    ensures FreePorts(cfg, t, k) > 0
    decreases i - k
  {
    if k == i {
      CountUpdate(t.actives[i].ports, CT.IsFree, p, true);
    } else {
      FreePositive(cfg, t, k + 1, i, p);
    }
  }

  /** With two free ports there is one beside port `q` of active `i`. */
  lemma {:induction false} AnotherFree(cfg: Config, t: CT.Table, k: nat, i: nat, q: nat) returns (j: nat, p: nat)
    requires k <= |t.actives| && i < |t.actives| && q < |t.actives[i].ports| && !t.actives[i].ports[q]
    requires FreePorts(cfg, t, k) > if k <= i then 1 else 0
    ensures k <= j < |t.actives| && IsDoor(cfg, t, j) && p < |t.actives[j].ports| && !t.actives[j].ports[p]
    ensures (j, p) != (i, q)
    decreases |t.actives| - k
  {
    var ports := t.actives[k].ports;
    if k == i && IsDoor(cfg, t, k) && Count(ports, CT.IsFree) > 1 {
      CountUpdate(ports, CT.IsFree, q, true);
      p := CountSome(ports[q := true], CT.IsFree);
      j := k;
    } else if k != i && IsDoor(cfg, t, k) && Count(ports, CT.IsFree) > 0 {
      p := CountSome(ports, CT.IsFree);
      j := k;
    } else {
      j, p := AnotherFree(cfg, t, k + 1, i, q);
    }
  }

  // ------------------------------------------------------------------------
  // What every step keeps
  // ------------------------------------------------------------------------

  /** The table and the local active agree on which of its ports are in use. */
  ghost predicate Synced(cfg: Config, n: Node)
    requires HasShape(cfg, n)
  {
    forall p :: 0 <= p < cfg.mail.addressing.ports ==>
      n.table.actives[cfg.mail.sender].ports[p] == n.mail.local.out.ports[p].used
  }

  /** The active that local writes go through is the output active of this node to itself. */
  predicate SendsLocally(cfg: Config, t: CT.Table) {
    CT.SearchActive(t, cfg.here, cfg.here, false, 0) == cfg.mail.sender < |t.actives|
  }

  ghost predicate Inv(cfg: Config, n: Node) {
    && HasShape(cfg, n) && Synced(cfg, n) && SendsLocally(cfg, n.table)
    && CT.Inv(cfg.mail.addressing, n.table) && LM.Inv(cfg.mail, n.mail) && BehindDoors(cfg, n.table)
  }

  /** A call makes or refuses a mailbox; which port it takes, and where. */
  ghost predicate TookPort(cfg: Config, n: Node, y: Node, k: nat, p: nat)
    requires HasShape(cfg, n)
  {
    && k < |n.table.actives| && p < cfg.mail.addressing.ports
    && IsDoor(cfg, n.table, k) && !n.table.actives[k].ports[p]
    && y.table.actives == n.table.actives[k := CT.WithPort(n.table.actives[k], p, true)]
    && y.mail.local.bufs == n.mail.local.bufs
  }

  lemma FoundIsDoor(cfg: Config, t: CT.Table, remote: int, input: bool)
    requires input ==> remote == -1
    ensures var k := CT.SearchActive(t, cfg.here, remote, input, 0); k < |t.actives| ==> IsDoor(cfg, t, k)
  {
  }

  lemma CreateTakes(cfg: Config, n: Node, remote: int, port: int, input: bool)
    requires Inv(cfg, n) && (input ==> remote == -1)
    ensures var (y, r) := Create(cfg, n, remote, port, input);
            var k := CT.SearchActive(n.table, cfg.here, remote, input, 0);
            && (r.Refused? ==> y.table == n.table)
            && (r.Made? ==> k < |n.table.actives|)
            && (r.Made? ==>
                 TookPort(cfg, n, y, k, if input then port else FirstIndex(n.table.actives[k].ports, CT.IsFree, 0)))
  {
    CT.CreateKeeps(cfg.mail.addressing, n.table, cfg.here, remote, port, input, n.mail.local.bufs);
    FoundIsDoor(cfg, n.table, remote, input);
  }

  /** Another opening of ports, and of doors alone. */
  lemma TookKeepsDoors(cfg: Config, n: Node, y: Node, k: nat, p: nat)
    requires HasShape(cfg, n) && BehindDoors(cfg, n.table) && TookPort(cfg, n, y, k, p)
    ensures SameActives(n.table, y.table) && BehindDoors(cfg, y.table)
  {
    forall i
      ensures IsDoor(cfg, y.table, i) == IsDoor(cfg, n.table, i)
    {
      SameDoor(cfg, n.table, y.table, i);
    }
  }

  lemma OpenedKeeps(cfg: Config, n: Node, made: bool)
    requires HasShape(cfg, n) && LM.Inv(cfg.mail, n.mail)
    ensures var m := Opened(n.mail, made);
            && LM.Inv(cfg.mail, m) && LM.HasShape(cfg.mail, m.local) && |m.local.out.ports| == |n.mail.local.out.ports|
            && m.local.bufs == n.mail.local.bufs
            && forall p :: 0 <= p < |m.local.out.ports| ==> (m.local.out.ports[p].used <==>
                 n.mail.local.out.ports[p].used || (made && p == FirstIndex(n.mail.local.out.ports, OA.IsUnused, 0)))
  {
    LM.SameBuffers(cfg.mail, n.mail, Opened(n.mail, made));
  }

  lemma SameFirst(cfg: Config, n: Node)
    requires HasShape(cfg, n) && Synced(cfg, n)
    ensures FirstIndex(n.table.actives[cfg.mail.sender].ports, CT.IsFree, 0) ==
        FirstIndex(n.mail.local.out.ports, OA.IsUnused, 0)
  {
    var ports, outs := n.table.actives[cfg.mail.sender].ports, n.mail.local.out.ports;
    var i, j := FirstIndex(ports, CT.IsFree, 0), FirstIndex(outs, OA.IsUnused, 0);
    if i < |ports| { assert OA.IsUnused(outs[i]); }
    if j < |outs| { assert CT.IsFree(ports[j]); }
  }

  lemma CreateSynced(cfg: Config, n: Node, remote: int, port: int, input: bool)
    requires Inv(cfg, n) && (input ==> remote == -1)
    requires !Create(cfg, n, remote, port, input).1.Panic?
    ensures var y := Create(cfg, n, remote, port, input).0;
            HasShape(cfg, y) && Synced(cfg, y) && LM.Inv(cfg.mail, y.mail)
  {
    var (y, r) := Create(cfg, n, remote, port, input);
    CreateTakes(cfg, n, remote, port, input);
    OpenedKeeps(cfg, n, r.Made?);
    SameFirst(cfg, n);
  }

  lemma CreateKeeps(cfg: Config, n: Node, remote: int, port: int, input: bool)
    requires Inv(cfg, n) && (input ==> remote == -1)
    requires !Create(cfg, n, remote, port, input).1.Panic?
    ensures var y := Create(cfg, n, remote, port, input).0; Inv(cfg, y) && SameActives(n.table, y.table)
    ensures |Create(cfg, n, remote, port, input).0.table.comms| == |n.table.comms|
  {
    var (y, r) := Create(cfg, n, remote, port, input);
    CT.CreateKeeps(cfg.mail.addressing, n.table, cfg.here, remote, port, input, n.mail.local.bufs);
    CreateTakes(cfg, n, remote, port, input);
    CreateSynced(cfg, n, remote, port, input);
    if r.Made? {
      var k := CT.SearchActive(n.table, cfg.here, remote, input, 0);
      TookKeepsDoors(cfg, n, y, k, if input then port else FirstIndex(n.table.actives[k].ports, CT.IsFree, 0));
      SameSearch(n.table, y.table, cfg.here, cfg.here, false, 0);
    }
  }

  /** Given back at most: the port of the communicator. */
  ghost predicate GavePort(t: CT.Table, y: CT.Table, k: int, p: int) {
    && 0 <= k < |t.actives| && 0 <= p < |t.actives[k].ports|
    && y.actives == t.actives[k := CT.WithPort(t.actives[k], p, false)]
  }

  lemma FreeGives(cfg: Config, n: Node, id: nat, input: bool)
    requires Inv(cfg, n) && Enabled(cfg, n, Frees(id, input))
    ensures var a, fd := cfg.mail.addressing, n.table.comms[id].fd;
            var (y, status) := CT.Free(a, n.table, id, input, n.mail.local.bufs);
            && CT.Inv(a, y) && |y.comms| == |n.table.comms|
            && (status.Fail? ==> y == n.table)
            && (status.Done? ==> GavePort(n.table, y, a.ActId(fd), a.PortId(fd)))
  {
    CT.FreeKeeps(cfg.mail.addressing, n.table, id, input, n.mail.local.bufs);
  }

  lemma GaveKeepsDoors(cfg: Config, t: CT.Table, y: CT.Table, k: int, p: int)
    requires BehindDoors(cfg, t) && SendsLocally(cfg, t) && GavePort(t, y, k, p)
    ensures SameActives(t, y) && BehindDoors(cfg, y) && SendsLocally(cfg, y)
  {
    SameSearch(t, y, cfg.here, cfg.here, false, 0);
    forall i | 0 <= i < |y.actives| && true in y.actives[i].ports
      ensures IsDoor(cfg, y, i)
    {
      var q :| 0 <= q < |y.actives[i].ports| && y.actives[i].ports[q];
      assert t.actives[i].ports[q];
      SameDoor(cfg, t, y, i);
    }
  }

  lemma ClosedKeeps(cfg: Config, m: LM.Mail, p: nat)
    requires LM.Inv(cfg.mail, m) && p < |m.local.out.ports|
    ensures LM.Inv(cfg.mail, m.(local := m.local.(out := OA.Release(m.local.out, p).0)))
  {
    LM.SameBuffers(cfg.mail, m, m.(local := m.local.(out := OA.Release(m.local.out, p).0)));
  }

  lemma FreeSynced(cfg: Config, n: Node, id: nat, input: bool)
    requires Inv(cfg, n) && Enabled(cfg, n, Frees(id, input))
    ensures var y := Free(cfg, n, id, input); HasShape(cfg, y) && Synced(cfg, y)
  {
    FreeGives(cfg, n, id, input);
  }

  lemma FreeKeeps(cfg: Config, n: Node, id: nat, input: bool)
    requires Inv(cfg, n) && Enabled(cfg, n, Frees(id, input))
    ensures var y := Free(cfg, n, id, input);
            Inv(cfg, y) && SameActives(n.table, y.table) && |y.table.comms| == |n.table.comms|
  {
    var a, fd := cfg.mail.addressing, n.table.comms[id].fd;
    var (y, status) := CT.Free(a, n.table, id, input, n.mail.local.bufs);
    FreeGives(cfg, n, id, input);
    FreeSynced(cfg, n, id, input);
    if status.Done? {
      GaveKeepsDoors(cfg, n.table, y, a.ActId(fd), a.PortId(fd));
      ClosedKeeps(cfg, n.mail, a.PortId(fd));
    }
  }

  /** The mail layer opens and closes no port by itself. */
  lemma MailKeepsUsed(cfg: Config, m: LM.Mail, step: LM.Op)
    requires LM.Enabled(cfg.mail, m, step) && !step.Opens? && !step.Closes?
    ensures var y := LM.Apply(cfg.mail, m, step);
            && |y.local.out.ports| == |m.local.out.ports|
            && forall p :: 0 <= p < |m.local.out.ports| ==> y.local.out.ports[p].used == m.local.out.ports[p].used
  {
  }

  lemma StepKeeps(cfg: Config, n: Node, op: Op, y: Node)
    requires Inv(cfg, n) && Follows(cfg, n, op, y)
    ensures Inv(cfg, y) && SameActives(n.table, y.table) && |y.table.comms| == |n.table.comms|
  {
    match op
    case Creates(port) => CreateKeeps(cfg, n, -1, port, true);
    case Opens(remote, port) => CreateKeeps(cfg, n, remote, port, false);
    case Frees(id, input) => FreeKeeps(cfg, n, id, input);
    case Uses(id, comm) =>
      CT.StepKeeps(cfg.mail.addressing, n.table, CT.Uses(id, comm), y.table);
      UsesKeepsDoors(cfg, n, y);
    case Mails(step) =>
      LM.StepKeeps(cfg.mail, n.mail, step, y.mail);
      MailKeepsUsed(cfg, n.mail, step);
  }

  // ------------------------------------------------------------------------
  // What the calls do to the mail
  // ------------------------------------------------------------------------

  /** The steps of the mail layer that lead from `m` to `y`. */
  predicate MailRuns(cfg: Config, m: LM.Mail, steps: seq<LM.Op>, y: LM.Mail)
    decreases |steps|
  {
    if steps == [] then y == m
    else LM.Enabled(cfg.mail, m, steps[0]) && MailRuns(cfg, LM.Apply(cfg.mail, m, steps[0]), steps[1..], y)
  }

  /**
   * What creating a mailbox does to the mail: an output mailbox for this node opens a port of the
   * local active. If no communicator is left the port is opened and closed again.
   */
  function CreateSteps(cfg: Config, n: Node, remote: int, port: int, input: bool): seq<LM.Op>
    requires HasShape(cfg, n)
  {
    var p := OA.Alloc(n.mail.local.out).1;
    if input || CT.SearchActive(n.table, cfg.here, remote, input, 0) != cfg.mail.sender || p.Err? then []
    else if Count(n.table.comms, CT.IsUnused) > 0 then [LM.Opens] else [LM.Opens, LM.Closes(p.value)]
  }

  lemma CreateIsMailSteps(cfg: Config, n: Node, remote: int, port: int, input: bool)
    requires Inv(cfg, n) && (input ==> remote == -1)
    ensures MailRuns(cfg, n.mail, CreateSteps(cfg, n, remote, port, input), Create(cfg, n, remote, port, input).0.mail)
  {
    var local := CT.SearchActive(n.table, cfg.here, remote, input, 0) == cfg.mail.sender;
    if local {
      assert !input;
      var (y, r) := Create(cfg, n, remote, port, false);
      LocalTakesIff(cfg, n, remote, port);
      CT.UnusedIndex(n.table.comms);
      assert r.Made? <==> OA.Alloc(n.mail.local.out).1.Ok? && Count(n.table.comms, CT.IsUnused) > 0;
      if OA.Alloc(n.mail.local.out).1.Ok? { OpenedIsMailSteps(cfg, n.mail, r.Made?); }
    }
  }

  /** The table has a port for a local write if and only if the local active has. */
  lemma LocalTakesIff(cfg: Config, n: Node, remote: int, port: int)
    requires Inv(cfg, n) && CT.SearchActive(n.table, cfg.here, remote, false, 0) == cfg.mail.sender
    ensures CT.AllocPort(cfg.mail.addressing, n.table, cfg.here, remote, port, false).1.Ok? <==>
            OA.Alloc(n.mail.local.out).1.Ok?
  {
    CT.ChooseAnswers(cfg.mail.addressing, n.table, cfg.mail.sender);
    SameFirst(cfg, n);
    var ports := n.table.actives[cfg.mail.sender].ports;
    var q := FirstIndex(ports, CT.IsFree, 0);
    assert q < |ports| ==> !ports[q];
    assert forall i :: 0 <= i < q ==> !CT.IsFree(ports[i]);
  }

  lemma OpenedIsMailSteps(cfg: Config, m: LM.Mail, made: bool)
    requires LM.HasShape(cfg.mail, m.local) && OA.Alloc(m.local.out).1.Ok?
    ensures var p := OA.Alloc(m.local.out).1.value;
            MailRuns(cfg, m, if made then [LM.Opens] else [LM.Opens, LM.Closes(p)], Opened(m, made))
  {
    var p := OA.Alloc(m.local.out).1.value;
    var y := LM.Apply(cfg.mail, m, LM.Opens);
    assert MailRuns(cfg, Opened(m, made), [], Opened(m, made));
    if !made {
      assert [LM.Opens, LM.Closes(p)][1..] == [LM.Closes(p)];
      assert [LM.Closes(p)][1..] == [];
      assert LM.Enabled(cfg.mail, y, LM.Closes(p));
      assert LM.Apply(cfg.mail, y, LM.Closes(p)) == Opened(m, made);
      assert MailRuns(cfg, y, [LM.Closes(p)], Opened(m, made));
    }
  }

  /** What freeing a mailbox does to the mail: an output mailbox for this node closes its port. */
  function FreeSteps(cfg: Config, n: Node, id: nat, input: bool): seq<LM.Op>
    requires HasShape(cfg, n) && id < |n.table.comms|
    requires n.table.comms[id].used ==> CT.IsDescriptor(cfg.mail.addressing, n.table, n.table.comms[id].fd)
  {
    var a, c := cfg.mail.addressing, n.table.comms[id];
    if CT.IsClosable(c, input) && !input && a.ActId(c.fd) == cfg.mail.sender then [LM.Closes(a.PortId(c.fd))] else []
  }

  lemma FreeIsMailSteps(cfg: Config, n: Node, id: nat, input: bool)
    requires Inv(cfg, n) && Enabled(cfg, n, Frees(id, input))
    ensures MailRuns(cfg, n.mail, FreeSteps(cfg, n, id, input), Free(cfg, n, id, input).mail)
  {
    var a, c := cfg.mail.addressing, n.table.comms[id];
    CT.FreeKeeps(a, n.table, id, input, n.mail.local.bufs);
    if c.used {
      assert CT.Holds(a, n.table, id, a.ActId(c.fd), a.PortId(c.fd));
      assert CT.IsClosable(c, input) && a.ActId(c.fd) == cfg.mail.sender ==> !input;
    }
    assert MailRuns(cfg, Free(cfg, n, id, input).mail, [], Free(cfg, n, id, input).mail);
  }

  /** The steps of the mail layer that a call or step of the node is. */
  function MailSteps(cfg: Config, n: Node, op: Op): seq<LM.Op>
    requires Enabled(cfg, n, op)
  {
    match op
    case Creates(port) => CreateSteps(cfg, n, -1, port, true)
    case Opens(remote, port) => CreateSteps(cfg, n, remote, port, false)
    case Frees(id, input) => FreeSteps(cfg, n, id, input)
    case Uses(_, _) => []
    case Mails(step) => [step]
  }

  lemma StepIsMailSteps(cfg: Config, n: Node, op: Op)
    requires Inv(cfg, n) && Enabled(cfg, n, op)
    ensures MailRuns(cfg, n.mail, MailSteps(cfg, n, op), Apply(cfg, n, op).mail)
  {
    match op
    case Creates(port) => CreateIsMailSteps(cfg, n, -1, port, true);
    case Opens(remote, port) => CreateIsMailSteps(cfg, n, remote, port, false);
    case Frees(id, input) => FreeIsMailSteps(cfg, n, id, input);
    case Uses(_, _) =>
    case Mails(step) =>
      var y := Apply(cfg, n, op).mail;
      assert [step][1..] == [];
      assert MailRuns(cfg, y, [], y);
  }

  function AllMailSteps(cfg: Config, n: Node, ops: seq<Op>): seq<LM.Op>
    requires CanRun(cfg, n, ops)
    decreases |ops|
  {
    if ops == [] then [] else MailSteps(cfg, n, ops[0]) + AllMailSteps(cfg, Apply(cfg, n, ops[0]), ops[1..])
  }

  /** The states of a run of the mail layer. */
  lemma {:induction false} MailStates(cfg: Config, m: LM.Mail, steps: seq<LM.Op>, y: LM.Mail) returns (xs: seq<LM.Mail>)
    requires MailRuns(cfg, m, steps, y)
    ensures LM.IsRun(cfg.mail, xs, steps) && xs[0] == m && xs[|steps|] == y
    decreases |steps|
  {
    if steps == [] {
      xs := [m];
    } else {
      var z := LM.Apply(cfg.mail, m, steps[0]);
      var ys := MailStates(cfg, z, steps[1..], y);
      xs := [m] + ys;
      forall i | 0 <= i < |steps|
        ensures LM.Follows(cfg.mail, xs[i], steps[i], xs[i + 1])
      {
        if i > 0 { assert LM.Follows(cfg.mail, ys[i - 1], steps[1..][i - 1], ys[i]); }
      }
    }
  }

  lemma MailRunsCompose(cfg: Config, xs: seq<LM.Mail>, a: seq<LM.Op>, ys: seq<LM.Mail>, b: seq<LM.Op>)
    requires LM.IsRun(cfg.mail, xs, a) && LM.IsRun(cfg.mail, ys, b) && xs[|a|] == ys[0]
    ensures LM.IsRun(cfg.mail, xs + ys[1..], a + b)
  {
    var step := (x, op, y) => LM.Follows(cfg.mail, x, op, y);
    ChainsCompose(step, xs, a, ys, b);
    assert IsChain(step, xs + ys[1..], a + b);
  }

  /** The first call of a run, and the mail's states in it. */
  lemma FirstCall(cfg: Config, n: Node, ops: seq<Op>) returns (y: Node, a: seq<LM.Op>, xs: seq<LM.Mail>)
    requires Inv(cfg, n) && ops != [] && CanRun(cfg, n, ops)
    ensures Inv(cfg, y) && CanRun(cfg, y, ops[1..]) && After(cfg, n, ops) == After(cfg, y, ops[1..])
    ensures AllMailSteps(cfg, n, ops) == a + AllMailSteps(cfg, y, ops[1..])
    ensures LM.IsRun(cfg.mail, xs, a) && xs[0] == n.mail && xs[|a|] == y.mail
  {
    y := Apply(cfg, n, ops[0]);
    a := MailSteps(cfg, n, ops[0]);
    StepKeeps(cfg, n, ops[0], y);
    StepIsMailSteps(cfg, n, ops[0]);
    xs := MailStates(cfg, n.mail, a, y.mail);
  }

  /**
   * In every run of the node the mail goes through a run of the mail layer, so that what holds
   * over every run of the local active and the buffers holds on the node.
   */
  lemma {:induction false} NodeRunIsMailRun(cfg: Config, n: Node, ops: seq<Op>) returns (xs: seq<LM.Mail>)
    requires Inv(cfg, n) && CanRun(cfg, n, ops)
    ensures LM.IsRun(cfg.mail, xs, AllMailSteps(cfg, n, ops))
    ensures xs[0] == n.mail && xs[|xs| - 1] == After(cfg, n, ops).mail
    decreases |ops|
  {
    if ops == [] {
      xs := [n.mail];
    } else {
      var y, a, head := FirstCall(cfg, n, ops);
      var tail := NodeRunIsMailRun(cfg, y, ops[1..]);
      MailRunsCompose(cfg, head, a, tail, AllMailSteps(cfg, y, ops[1..]));
      xs := head + tail[1..];
    }
  }

  /**
   * In every run of the node from boot, whatever mailboxes are made and freed, each message kept
   * is either stored, as sent, or was delivered, once.
   */
  lemma NodeConservesMail(cfg: Config, n: Node, ops: seq<Op>)
    requires Boot(cfg, n) && CanRun(cfg, n, ops)
    ensures var x := After(cfg, n, ops).mail;
            && (forall age: nat :: age < |x.kept| <==> (age in x.delivered || age in LM.StoredAges(x)))
            && (forall age: nat :: !(age in x.delivered && age in LM.StoredAges(x)))
            && (forall j, k :: 0 <= j < k < |x.delivered| ==> x.delivered[j] != x.delivered[k])
            && (forall i: nat :: LM.Stores(x.local, i) ==>
                  x.local.bufs[i].age < |x.kept| && x.local.bufs[i].message == x.kept[x.local.bufs[i].age])
  {
    BootIsSound(cfg, n);
    var xs := NodeRunIsMailRun(cfg, n, ops);
    LM.MessagesConserved(cfg.mail, xs, AllMailSteps(cfg, n, ops), |xs| - 1);
  }

  lemma UsesKeepsDoors(cfg: Config, n: Node, y: Node)
    requires HasShape(cfg, n) && BehindDoors(cfg, n.table) && SendsLocally(cfg, n.table) &&
        y.table.actives == n.table.actives
    ensures SameActives(n.table, y.table) && BehindDoors(cfg, y.table) && SendsLocally(cfg, y.table)
  {
    SameSearch(n.table, y.table, cfg.here, cfg.here, false, 0);
    forall i
      ensures IsDoor(cfg, y.table, i) == IsDoor(cfg, n.table, i)
    {
      SameDoor(cfg, n.table, y.table, i);
    }
  }

  lemma {:induction false} RunKeeps(cfg: Config, n: Node, ops: seq<Op>)
    requires Inv(cfg, n) && CanRun(cfg, n, ops)
    ensures var y := After(cfg, n, ops);
            && Inv(cfg, y) && |y.table.comms| == |n.table.comms| && |y.table.actives| == |n.table.actives|
            && Capacity(cfg, y.table, 0) == Capacity(cfg, n.table, 0)
    decreases |ops|
  {
    if ops != [] {
      var y := Apply(cfg, n, ops[0]);
      StepKeeps(cfg, n, ops[0], y);
      SameCapacity(cfg, n.table, y.table, 0);
      RunKeeps(cfg, y, ops[1..]);
    }
  }

  // ------------------------------------------------------------------------
  // When the node can panic
  // ------------------------------------------------------------------------

  /** The ports that are free exceed the communicators that are by what the ports exceed them at all. */
  lemma FreeFormula(cfg: Config, n: Node)
    requires Inv(cfg, n)
    ensures FreePorts(cfg, n.table, 0) + |n.table.comms| ==
        Capacity(cfg, n.table, 0) + Count(n.table.comms, CT.IsUnused)
  {
    PortsAddUp(cfg, n.table, 0);
    assert n.table.actives[0..] == n.table.actives;
    CountOpposites(n.table.comms, CT.IsHeld, CT.IsUnused);
  }

  /** A panic leaves a port over when every communicator is in use. */
  lemma PanicNeedsPorts(cfg: Config, n: Node, op: Op)
    requires Inv(cfg, n) && Panics(cfg, n, op)
    ensures |n.table.comms| < Capacity(cfg, n.table, 0)
  {
    var remote, input := if op.Creates? then -1 else op.remote, op.Creates?;
    CT.CreateKeeps(cfg.mail.addressing, n.table, cfg.here, remote, op.port, input, n.mail.local.bufs);
    FoundIsDoor(cfg, n.table, remote, input);
    var k := CT.SearchActive(n.table, cfg.here, remote, input, 0);
    FreePositive(cfg, n.table, 0, k, op.port);
    FreeFormula(cfg, n);
  }

  /** The input active of the node. */
  function InputActive(cfg: Config, t: CT.Table): nat { CT.SearchActive(t, cfg.here, -1, true, 0) }

  /** Mail is stored for input port `q`, which is free. */
  ghost predicate Awaited(cfg: Config, n: Node, q: nat)
    requires HasShape(cfg, n)
  {
    var k := InputActive(cfg, n.table);
    && k < |n.table.actives| && q < cfg.mail.addressing.ports && !n.table.actives[k].ports[q]
    && CT.MailFor(cfg.mail.addressing, n.mail.local.bufs, cfg.mail.addressing.Compose(cfg.here, q))
  }

  /** The call that takes port `p` of a door, or the first free one of an output door. */
  function Knock(cfg: Config, t: CT.Table, k: nat, p: nat): Op
    requires k < |t.actives|
  {
    if t.actives[k].input then Creates(p) else Opens(t.actives[k].remote, 0)
  }

  lemma KnockOpens(cfg: Config, n: Node, k: nat, p: nat)
    requires Inv(cfg, n) && IsDoor(cfg, n.table, k) && p < cfg.mail.addressing.ports && !n.table.actives[k].ports[p]
    requires Count(n.table.comms, CT.IsUnused) > 0
    ensures var op := Knock(cfg, n.table, k, p);
            && Enabled(cfg, n, op) && !Panics(cfg, n, op) && Outcome(cfg, n, op).Made?
  {
    var x := n.table.actives[k];
    var port := if x.input then p else 0;
    CountOpposites(x.ports, CT.IsTaken, CT.IsFree);
    CountUpdate(x.ports, CT.IsFree, p, true);
    assert x.usedPorts < |x.ports|;
    var f := FirstIndex(x.ports, CT.IsFree, 0);
    assert CT.IsFree(x.ports[p]);
    assert CT.AllocPort(cfg.mail.addressing, n.table, cfg.here, x.remote, port, x.input).1.Ok?;
    CT.UnusedIndex(n.table.comms);
    CT.CreateMade(cfg.mail.addressing, n.table, cfg.here, x.remote, port, x.input, n.mail.local.bufs);
  }

  /** A mailbox made is one communicator less. */
  lemma MadeUses(cfg: Config, n: Node, remote: int, port: int, input: bool)
    requires Inv(cfg, n) && (input ==> remote == -1) && Create(cfg, n, remote, port, input).1.Made?
    ensures Count(Create(cfg, n, remote, port, input).0.table.comms, CT.IsUnused) ==
        Count(n.table.comms, CT.IsUnused) - 1
  {
    var (y, r) := Create(cfg, n, remote, port, input);
    CT.CreateKeeps(cfg.mail.addressing, n.table, cfg.here, remote, port, input, n.mail.local.bufs);
    CountUpdate(n.table.comms, CT.IsUnused, r.id, y.table.comms[r.id]);
  }

  lemma KnockKeepsAwaited(cfg: Config, n: Node, k: nat, p: nat, q: nat)
    requires Inv(cfg, n) && Awaited(cfg, n, q) && IsDoor(cfg, n.table, k) && p < cfg.mail.addressing.ports
    requires !n.table.actives[k].ports[p] && (k, p) != (InputActive(cfg, n.table), q)
    requires Count(n.table.comms, CT.IsUnused) > 0
    ensures var op := Knock(cfg, n.table, k, p);
            && Enabled(cfg, n, op) && !Panics(cfg, n, op)
            && var y := Apply(cfg, n, op);
               && Inv(cfg, y) && Awaited(cfg, y, q) && |y.table.comms| == |n.table.comms|
               && Capacity(cfg, y.table, 0) == Capacity(cfg, n.table, 0)
               && Count(y.table.comms, CT.IsUnused) == Count(n.table.comms, CT.IsUnused) - 1
  {
    var op, x := Knock(cfg, n.table, k, p), n.table.actives[k];
    KnockOpens(cfg, n, k, p);
    var y := Apply(cfg, n, op);
    StepKeeps(cfg, n, op, y);
    SameCapacity(cfg, n.table, y.table, 0);
    SameSearch(n.table, y.table, cfg.here, -1, true, 0);
    var port := if x.input then p else 0;
    CreateTakes(cfg, n, x.remote, port, x.input);
    MadeUses(cfg, n, x.remote, port, x.input);
  }

  /** With no communicator left, taking that port is a panic. */
  lemma AwaitedPanics(cfg: Config, n: Node, q: nat)
    requires Inv(cfg, n) && Awaited(cfg, n, q) && Count(n.table.comms, CT.IsUnused) == 0
    ensures Panics(cfg, n, Creates(q))
  {
    CT.CreateKeeps(cfg.mail.addressing, n.table, cfg.here, -1, q, true, n.mail.local.bufs);
  }

  lemma RunOneMore(cfg: Config, n: Node, op: Op, rest: seq<Op>)
    requires Enabled(cfg, n, op) && !Panics(cfg, n, op) && CanRun(cfg, Apply(cfg, n, op), rest)
    ensures CanRun(cfg, n, [op] + rest) && After(cfg, n, [op] + rest) == After(cfg, Apply(cfg, n, op), rest)
  {
    assert ([op] + rest)[1..] == rest;
  }

  /** With mail stored for a free input port and more ports than communicators, the rest is a matter of calls. */
  lemma {:induction false} FillUp(cfg: Config, n: Node, q: nat) returns (ops: seq<Op>)
    requires Inv(cfg, n) && Awaited(cfg, n, q) && |n.table.comms| < Capacity(cfg, n.table, 0)
    ensures CanRun(cfg, n, ops) && Panics(cfg, After(cfg, n, ops), Creates(q))
    decreases Count(n.table.comms, CT.IsUnused)
  {
    if Count(n.table.comms, CT.IsUnused) == 0 {
      ops := [];
      AwaitedPanics(cfg, n, q);
    } else {
      FreeFormula(cfg, n);
      var k, p := AnotherFree(cfg, n.table, 0, InputActive(cfg, n.table), q);
      KnockKeepsAwaited(cfg, n, k, p, q);
      var op := Knock(cfg, n.table, k, p);
      var rest := FillUp(cfg, Apply(cfg, n, op), q);
      RunOneMore(cfg, n, op, rest);
      ops := [op] + rest;
    }
  }

  /** The node at system start, with its input active and its active to itself. */
  ghost predicate Boot(cfg: Config, n: Node) {
    && HasShape(cfg, n) && SendsLocally(cfg, n.table)
    && CT.Boot(cfg.mail.addressing, n.table) && LM.Boot(cfg.mail, n.mail)
    && InputActive(cfg, n.table) < |n.table.actives|
  }

  lemma BootIsSound(cfg: Config, n: Node)
    requires Boot(cfg, n)
    ensures Inv(cfg, n)
  {
    CT.BootKeeps(cfg.mail.addressing, n.table);
    LM.RunKeeps(cfg.mail, [n.mail], [], 0);
    forall p | 0 <= p < cfg.mail.addressing.ports
      ensures !n.table.actives[cfg.mail.sender].ports[p]
    {
      assert n.table.actives[cfg.mail.sender].ports[p] in n.table.actives[cfg.mail.sender].ports;
    }
  }

  lemma StoredIsMail(a: Addressing, bufs: seq<Mbuffer>, i: nat)
    requires AgesFit(bufs) && i < |bufs| && bufs[i].used && bufs[i].busy
    ensures CT.MailFor(a, bufs, bufs[i].message.dest)
  {
    SearchFindsOldest(a, bufs, Pool(0, |bufs|), bufs[i].message.dest, -1);
    assert Pool(0, |bufs|).Covers(i) && Matches(a, bufs[i], bufs[i].message.dest, -1);
  }

  /** A local write stores mail for any address, whether or not there is a mailbox at it. */
  lemma SendStores(cfg: Config, m: LM.Mail, p: nat, message: Message)
    requires LM.Inv(cfg.mail, m) && |m.kept| < AGE_MAX && p < |m.local.out.ports|
    requires m.local.out.ports[p].used && !m.local.out.ports[p].requested && |m.local.out.queue| < |m.local.out.ports|
    requires Alloc(m.local.bufs, cfg.mail.aux).1.Some?
    ensures LM.Enabled(cfg.mail, m, LM.Sends(p, message))
    ensures CT.MailFor(cfg.mail.addressing, LM.Apply(cfg.mail, m, LM.Sends(p, message)).local.bufs, message.dest)
  {
    var y := LM.Apply(cfg.mail, m, LM.Sends(p, message));
    LM.StepKeeps(cfg.mail, m, LM.Sends(p, message), y);
    var k := cfg.mail.aux.base + Alloc(m.local.bufs, cfg.mail.aux).1.value;
    assert y.local.bufs[k].used && y.local.bufs[k].busy && y.local.bufs[k].message == message;
    StoredIsMail(cfg.mail.addressing, y.local.bufs, k);
  }

  /** Some run of the node ends in kpanic(). */
  ghost predicate CanPanic(cfg: Config, n: Node) {
    exists ops, op :: CanRun(cfg, n, ops) && Panics(cfg, After(cfg, n, ops), op)
  }

  /** The first two calls: a mailbox to the node itself is opened, and sends to a port without one. */
  lemma FirstMail(cfg: Config, n: Node, q: nat) returns (open: Op, send: Op)
    requires Boot(cfg, n) && q < cfg.mail.addressing.ports && 0 < cfg.mail.aux.count && 0 < |n.table.comms|
    ensures Enabled(cfg, n, open) && !Panics(cfg, n, open)
    ensures var y := Apply(cfg, n, open);
            && Enabled(cfg, y, send) && !Panics(cfg, y, send)
            && var z := Apply(cfg, y, send);
               && Inv(cfg, z) && Awaited(cfg, z, q) && |z.table.comms| == |n.table.comms|
               && Capacity(cfg, z.table, 0) == Capacity(cfg, n.table, 0)
  {
    BootIsSound(cfg, n);
    open := Opens(cfg.here, 0);
    BootOpens(cfg, n, q);
    var y := Apply(cfg, n, open);
    StepKeeps(cfg, n, open, y);
    SameCapacity(cfg, n.table, y.table, 0);
    SameSearch(n.table, y.table, cfg.here, -1, true, 0);
    var message := Message(cfg.mail.addressing.Compose(cfg.here, q), 0, []);
    send := Mails(LM.Sends(0, message));
    SendStores(cfg, y.mail, 0, message);
    StepKeeps(cfg, y, send, Apply(cfg, y, send));
  }

  /** The mailbox opened at start has port 0 of the local active, ready to write. */
  lemma BootOpens(cfg: Config, n: Node, q: nat)
    requires Boot(cfg, n) && Inv(cfg, n) && q < cfg.mail.addressing.ports && 0 < cfg.mail.aux.count &&
        0 < |n.table.comms|
    ensures Enabled(cfg, n, Opens(cfg.here, 0)) && !Panics(cfg, n, Opens(cfg.here, 0))
    ensures var y := Apply(cfg, n, Opens(cfg.here, 0));
            && |y.mail.local.out.ports| == cfg.mail.addressing.ports && HasShape(cfg, y)
            && y.mail.local.out.ports[0].used && !y.mail.local.out.ports[0].requested && y.mail.local.out.queue == []
            && y.mail.kept == [] && Alloc(y.mail.local.bufs, cfg.mail.aux).1.Some?
            && !y.table.actives[InputActive(cfg, n.table)].ports[q]
  {
    var k := cfg.mail.sender;
    var ports := n.table.actives[k].ports;
    forall i, p | 0 <= i < |n.table.actives| && 0 <= p < cfg.mail.addressing.ports
      ensures !n.table.actives[i].ports[p]
    {
      assert n.table.actives[i].ports[p] in n.table.actives[i].ports;
    }
    CountUpdate(n.table.comms, CT.IsUnused, 0, UNUSED.(used := true));
    KnockOpens(cfg, n, k, 0);
    CreateTakes(cfg, n, cfg.here, 0, false);
    assert OA.IsUnused(n.mail.local.out.ports[0]);
    assert FirstIndex(n.mail.local.out.ports, OA.IsUnused, 0) == 0;
    assert !n.mail.local.bufs[cfg.mail.aux.base].used;
  }

  /** A run that ends in a panic, for a node with a port too many. */
  lemma PanicRun(cfg: Config, n: Node) returns (ops: seq<Op>)
    requires Boot(cfg, n) && 0 < cfg.mail.addressing.ports && 0 < cfg.mail.aux.count
    requires 0 < |n.table.comms| < Capacity(cfg, n.table, 0)
    ensures CanRun(cfg, n, ops) && Panics(cfg, After(cfg, n, ops), Creates(0))
  {
    var open, send := FirstMail(cfg, n, 0);
    var y := Apply(cfg, n, open);
    var rest := FillUp(cfg, Apply(cfg, y, send), 0);
    RunOneMore(cfg, y, send, rest);
    RunOneMore(cfg, n, open, [send] + rest);
    ops := [open] + ([send] + rest);
  }

  /**
   * A node can come to panic in do_vmailbox_alloc() if and only if its actives have more ports
   * than there are virtual mailboxes.
   */
  lemma PanicReachableIff(cfg: Config, n: Node)
    requires Boot(cfg, n) && 0 < cfg.mail.addressing.ports && 0 < cfg.mail.aux.count && 0 < |n.table.comms|
    ensures CanPanic(cfg, n) <==> |n.table.comms| < Capacity(cfg, n.table, 0)
  {
    if CanPanic(cfg, n) {
      var ops, op :| CanRun(cfg, n, ops) && Panics(cfg, After(cfg, n, ops), op);
      BootIsSound(cfg, n);
      RunKeeps(cfg, n, ops);
      PanicNeedsPorts(cfg, After(cfg, n, ops), op);
    } else if |n.table.comms| < Capacity(cfg, n.table, 0) {
      var ops := PanicRun(cfg, n);
    }
  }
}
