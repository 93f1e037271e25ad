/**
 * The system-call board on values. Client cores post requests on their boards and wait; the
 * master core takes a unit of the dispatcher's semaphore, sweeps the boards in a circle, serves
 * the request it finds and wakes the poster. No lock covers the boards, so every shared access
 * is a step of its own, and the steps of all cores interleave freely.
 */
module SysBoard {
  import opened Kernel

  /** A request: system call number and arguments. */
  datatype Request = Request(nr: nat, args: seq<int>)

  datatype Reply = Value(value: int) | Error(error: Errno)

  datatype Board = Board(request: Request, pending: bool, ret: Reply, sem: nat)

  /** Where a client core is in do_kcall(). */
  datatype Client =
    | Away                   // outside a forwarded system call
    | Filled                 // arguments written
    | Marked                 // pending flag set
    | Blocked                // dispatcher's semaphore raised
    | Woken                  // its own semaphore lowered

  /** Where the master core is in do_kcall2(). */
  datatype Master =
    | Idle
    | Sweeping(i: nat)
    | Serving(core: nat)
    | Served(core: nat, ret: Reply)
    | Cleared(core: nat, ret: Reply)
    | Stored(core: nat)

  /**
   * The boards, the dispatcher's semaphore, the next core to look at, and where every core is.
   * The rest is history: the requests each core posted, the requests served for it with their
   * replies, the replies it returned with, and how many other requests were picked since it
   * set its pending flag.
   */
  datatype System = System(
    boards: seq<Board>, syssem: nat, next: nat, client: seq<Client>, master: Master,
    posted: seq<seq<Request>>, served: seq<seq<(Request, Reply)>>, returned: seq<seq<Reply>>, overtaken: seq<nat>)

  /** `limit` is NR_SYSCALLS. */
  datatype Config = Config(cores: nat, limit: nat)

  predicate HasShape(cfg: Config, s: System) {
    && |s.boards| == |s.client| == |s.posted| == |s.served| == |s.returned| == |s.overtaken| == cfg.cores
    && s.next < cfg.cores
  }

  /** What do_kcall2() answers: `handler` is what the handler of the call returned, if it returns anything. */
  function ReplyTo(cfg: Config, request: Request, handler: Option<int>): Reply {
    if request.nr >= cfg.limit then Error(EINVAL)
    else if handler.None? then Error(ENOSYS) else Value(handler.value)
  }

  /** sys_next_coreid after one position of the sweep. */
  function After(cfg: Config, c: nat): nat
    requires c < cfg.cores
  {
    (c + 1) % cfg.cores
  }

  // ------------------------------------------------------------------------
  // Steps
  // ------------------------------------------------------------------------

  datatype Step =
    | Fill(c: nat, request: Request) | Mark(c: nat) | Raise(c: nat) | Wake(c: nat) | Return(c: nat)
    | Take | Look | Serve(handler: Option<int>) | Clear | Store | Notify

  /** Whether the code of the core concerned is at the step and not blocked. */
  predicate Enabled(cfg: Config, s: System, step: Step) {
    && HasShape(cfg, s)
    && match step
       case Fill(c, _) => c < cfg.cores && s.client[c].Away?
       case Mark(c) => c < cfg.cores && s.client[c].Filled?
       case Raise(c) => c < cfg.cores && s.client[c].Marked?
       case Wake(c) => c < cfg.cores && s.client[c].Blocked? && s.boards[c].sem > 0
       case Return(c) => c < cfg.cores && s.client[c].Woken?
       case Take => s.master.Idle? && s.syssem > 0
       case Look => s.master.Sweeping?
       case Serve(_) => s.master.Serving? && s.master.core < cfg.cores
       case Clear => s.master.Served? && s.master.core < cfg.cores
       case Store => s.master.Cleared? && s.master.core < cfg.cores
       case Notify => s.master.Stored? && s.master.core < cfg.cores
  }

  /** One position of the sweep; a sweep that comes round without a find serves core 0. */
  function LookAt(cfg: Config, s: System): System
    requires HasShape(cfg, s) && s.master.Sweeping?
  {
    if s.master.i >= cfg.cores then s.(master := Serving(0))
    else if s.boards[s.next].pending then
      s.(master := Serving(s.next), next := After(cfg, s.next),
         overtaken := seq(cfg.cores, c requires 0 <= c < cfg.cores =>
           if c == s.next then s.overtaken[c] else s.overtaken[c] + 1))
    else s.(master := Sweeping(s.master.i + 1), next := After(cfg, s.next))
  }

  function Apply(cfg: Config, s: System, step: Step): System
    requires Enabled(cfg, s, step)
  {
    match step
    case Fill(c, request) =>
      s.(boards := s.boards[c := s.boards[c].(request := request)], client := s.client[c := Filled],
         posted := s.posted[c := s.posted[c] + [request]])
    case Mark(c) =>
      s.(boards := s.boards[c := s.boards[c].(pending := true)], client := s.client[c := Marked],
         overtaken := s.overtaken[c := 0])
    case Raise(c) => s.(syssem := s.syssem + 1, client := s.client[c := Blocked])
    case Wake(c) =>
      s.(boards := s.boards[c := s.boards[c].(sem := s.boards[c].sem - 1)], client := s.client[c := Woken])
    case Return(c) =>
      s.(client := s.client[c := Away], returned := s.returned[c := s.returned[c] + [s.boards[c].ret]])
    case Take => s.(syssem := s.syssem - 1, master := Sweeping(0))
    case Look => LookAt(cfg, s)
    case Serve(handler) =>
      var c := s.master.core;
      var ret := ReplyTo(cfg, s.boards[c].request, handler);
      s.(master := Served(c, ret), served := s.served[c := s.served[c] + [(s.boards[c].request, ret)]])
    case Clear =>
      var c := s.master.core;
      s.(master := Cleared(c, s.master.ret), boards := s.boards[c := s.boards[c].(pending := false)])
    case Store =>
      var c := s.master.core;
      s.(master := Stored(c), boards := s.boards[c := s.boards[c].(ret := s.master.ret)])
    case Notify =>
      var c := s.master.core;
      s.(master := Idle, boards := s.boards[c := s.boards[c].(sem := s.boards[c].sem + 1)])
  }

  // ------------------------------------------------------------------------
  // The invariant
  // ------------------------------------------------------------------------

  function PendingCores(s: System): set<int> { set c | 0 <= c < |s.boards| && s.boards[c].pending }

  function MarkedCores(s: System): set<int> { set c | 0 <= c < |s.client| && s.client[c].Marked? }

  /** Whether the master has taken a unit and the request it stands for is still pending. */
  predicate InService(s: System) { s.master.Sweeping? || s.master.Serving? || s.master.Served? }

  /** Pending boards are matched by units of the semaphore, units still to come, and the one in service. */
  ghost predicate CountInv(s: System) {
    |PendingCores(s)| == s.syssem + |MarkedCores(s)| + if InService(s) then 1 else 0
  }

  /** How many positions the sweep has to go from `from` to reach `c`. */
  function Distance(cfg: Config, from: int, c: int): int {
    if from <= c then c - from else c - from + cfg.cores
  }

  /** What a core's board, its place in do_kcall() and the master's place say about its last request. */
  ghost predicate CoreInv(cfg: Config, s: System, c: nat)
    requires HasShape(cfg, s) && c < cfg.cores
  {
    var b, p, v, r := s.boards[c], s.posted[c], s.served[c], s.returned[c];
    match s.client[c]
    case Away => !b.pending && b.sem == 0 && !AtMaster(s, c) && |p| == |v| == |r|
    case Filled =>
      !b.pending && b.sem == 0 && !AtMaster(s, c) && |p| == |v| + 1 && |v| == |r| && p[|p| - 1] == b.request
    case Woken => !b.pending && b.sem == 0 && !AtMaster(s, c) && |p| == |v| == |r| + 1 && b.ret == v[|v| - 1].1
    case _ =>
      && |p| == |r| + 1 && p[|p| - 1] == b.request
      && (if s.master == Serving(c) then b.pending && b.sem == 0 && |v| == |r|
          else if s.master.Served? && s.master.core == c then
            b.pending && b.sem == 0 && |v| == |p| && v[|v| - 1].1 == s.master.ret
          else if s.master.Cleared? && s.master.core == c then
            !b.pending && b.sem == 0 && |v| == |p| && v[|v| - 1].1 == s.master.ret
          else if s.master == Stored(c) then !b.pending && b.sem == 0 && |v| == |p| && v[|v| - 1].1 == b.ret
          else if b.pending then b.sem == 0 && |v| == |r|
          else b.sem == 1 && |v| == |p| && v[|v| - 1].1 == b.ret)
  }

  /** The master works on the request of core `c`. */
  predicate AtMaster(s: System, c: int) {
    (s.master.Serving? || s.master.Served? || s.master.Cleared? || s.master.Stored?) && s.master.core == c
  }

  /** The history of a core: what was served is what it posted, what it got is what was answered. */
  ghost predicate HistoryInv(s: System, c: nat)
    requires c < |s.posted| == |s.served| == |s.returned|
  {
    && |s.returned[c]| <= |s.served[c]| <= |s.posted[c]|
    && (forall k :: 0 <= k < |s.served[c]| ==> s.served[c][k].0 == s.posted[c][k])
    && (forall k :: 0 <= k < |s.returned[c]| ==> s.returned[c][k] == s.served[c][k].1)
  }

  /** A sweep still has a pending board ahead of it, within the positions it has left. */
  ghost predicate SweepInv(cfg: Config, s: System)
    requires HasShape(cfg, s)
  {
    && (s.master.Sweeping? ==>
         exists c :: 0 <= c < cfg.cores && s.boards[c].pending && Distance(cfg, s.next, c) < cfg.cores - s.master.i)
    && (s.master.Serving? || s.master.Served? || s.master.Cleared? || s.master.Stored? ==> s.master.core < cfg.cores)
  }

  /**
   * A pending request that the master has not picked: picks so far plus positions left stay below
   * the number of cores.
   */
  ghost predicate FairInv(cfg: Config, s: System)
    requires HasShape(cfg, s)
  {
    forall c :: 0 <= c < cfg.cores && s.boards[c].pending && !AtMaster(s, c) ==>
      s.overtaken[c] + Distance(cfg, s.next, c) <= cfg.cores - 1
  }

  ghost predicate Inv(cfg: Config, s: System) {
    && HasShape(cfg, s) && CountInv(s) && SweepInv(cfg, s) && FairInv(cfg, s)
    && (forall c: nat :: c < cfg.cores ==> CoreInv(cfg, s, c))
    && (forall c: nat :: c < cfg.cores ==> HistoryInv(s, c))
  }

  // ------------------------------------------------------------------------
  // One step
  // ------------------------------------------------------------------------

  lemma SameCounts(s: System, y: System)
    requires |y.boards| == |s.boards| && |y.client| == |s.client|
    requires forall c :: 0 <= c < |s.boards| ==> y.boards[c].pending == s.boards[c].pending
    requires forall c :: 0 <= c < |s.client| ==> y.client[c].Marked? == s.client[c].Marked?
    ensures PendingCores(y) == PendingCores(s) && MarkedCores(y) == MarkedCores(s)
  {
  }

  /** A core that a step does not concern. */
  predicate Untouched(cfg: Config, s: System, y: System, d: nat)
    requires HasShape(cfg, s) && HasShape(cfg, y) && d < cfg.cores
  {
    && y.boards[d] == s.boards[d] && y.client[d] == s.client[d]
    && y.posted[d] == s.posted[d] && y.served[d] == s.served[d] && y.returned[d] == s.returned[d]
    && (y.master == s.master || (!AtMaster(s, d) && !AtMaster(y, d)))
  }

  /** Of the facts about single cores, a step has to establish those of the core it concerns. */
  lemma OthersKeep(cfg: Config, s: System, y: System, c: nat)
    requires Inv(cfg, s) && HasShape(cfg, y) && c < cfg.cores
    requires forall d: nat :: d < cfg.cores && d != c ==> Untouched(cfg, s, y, d)
    requires CoreInv(cfg, y, c) && HistoryInv(y, c)
    ensures forall d: nat :: d < cfg.cores ==> CoreInv(cfg, y, d)
    ensures forall d: nat :: d < cfg.cores ==> HistoryInv(y, d)
  {
    forall d: nat | d < cfg.cores
      ensures CoreInv(cfg, y, d) && HistoryInv(y, d)
    {
      assert CoreInv(cfg, s, d) && HistoryInv(s, d);
      if d != c {
        assert Untouched(cfg, s, y, d);
      }
    }
  }

  /** A sweep keeps its target while no pending flag is cleared. */
  lemma SweepMonotone(cfg: Config, s: System, y: System)
    requires HasShape(cfg, s) && SweepInv(cfg, s) && HasShape(cfg, y) && y.master == s.master && y.next == s.next
    requires forall d :: 0 <= d < cfg.cores && s.boards[d].pending ==> y.boards[d].pending
    ensures SweepInv(cfg, y)
  {
    if s.master.Sweeping? {
      var d :| 0 <= d < cfg.cores && s.boards[d].pending && Distance(cfg, s.next, d) < cfg.cores - s.master.i;
      assert y.boards[d].pending;
    }
  }

  lemma FillKeeps(cfg: Config, s: System, c: nat, request: Request)
    requires Inv(cfg, s) && Enabled(cfg, s, Fill(c, request))
    ensures Inv(cfg, Apply(cfg, s, Fill(c, request)))
  {
    var y := Apply(cfg, s, Fill(c, request));
    SameCounts(s, y);
    assert CoreInv(cfg, s, c) && HistoryInv(s, c);
    OthersKeep(cfg, s, y, c);
    SweepMonotone(cfg, s, y);
  }

  lemma MarkCounts(cfg: Config, s: System, c: nat)
    requires HasShape(cfg, s) && Enabled(cfg, s, Mark(c)) && !s.boards[c].pending && CountInv(s)
    ensures CountInv(Apply(cfg, s, Mark(c)))
  {
    var y := Apply(cfg, s, Mark(c));
    assert PendingCores(y) == PendingCores(s) + {c};
    assert MarkedCores(y) == MarkedCores(s) + {c};
  }

  lemma MarkKeeps(cfg: Config, s: System, c: nat)
    requires Inv(cfg, s) && Enabled(cfg, s, Mark(c))
    ensures Inv(cfg, Apply(cfg, s, Mark(c)))
  {
    var y := Apply(cfg, s, Mark(c));
    assert CoreInv(cfg, s, c) && HistoryInv(s, c);
    MarkCounts(cfg, s, c);
    OthersKeep(cfg, s, y, c);
    SweepMonotone(cfg, s, y);
  }

  lemma RaiseKeeps(cfg: Config, s: System, c: nat)
    requires Inv(cfg, s) && Enabled(cfg, s, Raise(c))
    ensures Inv(cfg, Apply(cfg, s, Raise(c)))
  {
    var y := Apply(cfg, s, Raise(c));
    assert CoreInv(cfg, s, c) && HistoryInv(s, c);
    assert PendingCores(y) == PendingCores(s);
    assert MarkedCores(y) == MarkedCores(s) - {c};
    OthersKeep(cfg, s, y, c);
    SweepMonotone(cfg, s, y);
  }

  lemma WakeKeeps(cfg: Config, s: System, c: nat)
    requires Inv(cfg, s) && Enabled(cfg, s, Wake(c))
    ensures Inv(cfg, Apply(cfg, s, Wake(c)))
  {
    var y := Apply(cfg, s, Wake(c));
    assert CoreInv(cfg, s, c) && HistoryInv(s, c);
    SameCounts(s, y);
    OthersKeep(cfg, s, y, c);
    SweepMonotone(cfg, s, y);
  }

  lemma ReturnKeeps(cfg: Config, s: System, c: nat)
    requires Inv(cfg, s) && Enabled(cfg, s, Return(c))
    ensures Inv(cfg, Apply(cfg, s, Return(c)))
  {
    var y := Apply(cfg, s, Return(c));
    assert CoreInv(cfg, s, c) && HistoryInv(s, c);
    SameCounts(s, y);
    OthersKeep(cfg, s, y, c);
    SweepMonotone(cfg, s, y);
  }

  /** A unit of the semaphore stands for a pending board, so a sweep never starts without one. */
  lemma TakeKeeps(cfg: Config, s: System)
    requires Inv(cfg, s) && Enabled(cfg, s, Take)
    ensures Inv(cfg, Apply(cfg, s, Take))
  {
    var y := Apply(cfg, s, Take);
    SameCounts(s, y);
    assert CoreInv(cfg, s, 0) && HistoryInv(s, 0);
    OthersKeep(cfg, s, y, 0);
    assert PendingCores(s) != {};
    var c :| c in PendingCores(s);
    assert y.boards[c].pending && Distance(cfg, y.next, c) < cfg.cores;
  }

  /** One position further, everything but the core just passed is one position nearer. */
  lemma DistanceStep(cfg: Config, from: nat, c: nat)
    requires from < cfg.cores && c < cfg.cores
    ensures After(cfg, from) < cfg.cores
    ensures c != from ==> Distance(cfg, After(cfg, from), c) == Distance(cfg, from, c) - 1
    ensures 0 <= Distance(cfg, from, c) < cfg.cores && (Distance(cfg, from, c) == 0 <==> c == from)
  {
    assert After(cfg, from) == if from + 1 == cfg.cores then 0 else from + 1;
  }

  lemma LookFair(cfg: Config, s: System)
    requires HasShape(cfg, s) && s.master.Sweeping? && s.master.i < cfg.cores && FairInv(cfg, s)
    ensures HasShape(cfg, LookAt(cfg, s)) && FairInv(cfg, LookAt(cfg, s))
  {
    var y := LookAt(cfg, s);
    forall c: nat | c < cfg.cores && y.boards[c].pending && !AtMaster(y, c)
      ensures y.overtaken[c] + Distance(cfg, y.next, c) <= cfg.cores - 1
    {
      DistanceStep(cfg, s.next, c);
    }
  }

  lemma LookSweeps(cfg: Config, s: System)
    requires HasShape(cfg, s) && s.master.Sweeping? && s.master.i < cfg.cores && SweepInv(cfg, s)
    ensures HasShape(cfg, LookAt(cfg, s)) && SweepInv(cfg, LookAt(cfg, s))
  {
    var y := LookAt(cfg, s);
    var t :| 0 <= t < cfg.cores && s.boards[t].pending && Distance(cfg, s.next, t) < cfg.cores - s.master.i;
    DistanceStep(cfg, s.next, t);
    if !s.boards[s.next].pending {
      assert y.boards[t].pending && Distance(cfg, y.next, t) < cfg.cores - y.master.i;
    }
  }

  /** A sweep picks a pending board: the fallback to core 0 is never taken. */
  lemma LookKeeps(cfg: Config, s: System)
    requires Inv(cfg, s) && Enabled(cfg, s, Look)
    ensures Inv(cfg, Apply(cfg, s, Look))
  {
    var y := Apply(cfg, s, Look);
    ServesBeforeEnd(cfg, s);
    LookSweeps(cfg, s);
    LookFair(cfg, s);
    SameCounts(s, y);
    assert CoreInv(cfg, s, s.next) && HistoryInv(s, s.next);
    OthersKeep(cfg, s, y, s.next);
  }

  lemma ServeKeeps(cfg: Config, s: System, handler: Option<int>)
    requires Inv(cfg, s) && Enabled(cfg, s, Serve(handler))
    ensures Inv(cfg, Apply(cfg, s, Serve(handler)))
  {
    var y := Apply(cfg, s, Serve(handler));
    SameCounts(s, y);
    assert CoreInv(cfg, s, s.master.core) && HistoryInv(s, s.master.core);
    OthersKeep(cfg, s, y, s.master.core);
  }

  lemma ClearKeeps(cfg: Config, s: System)
    requires Inv(cfg, s) && Enabled(cfg, s, Clear)
    ensures Inv(cfg, Apply(cfg, s, Clear))
  {
    var y := Apply(cfg, s, Clear);
    assert CoreInv(cfg, s, s.master.core) && HistoryInv(s, s.master.core);
    assert PendingCores(y) == PendingCores(s) - {s.master.core};
    assert MarkedCores(y) == MarkedCores(s);
    OthersKeep(cfg, s, y, s.master.core);
  }

  lemma StoreKeeps(cfg: Config, s: System)
    requires Inv(cfg, s) && Enabled(cfg, s, Store)
    ensures Inv(cfg, Apply(cfg, s, Store))
  {
    var y := Apply(cfg, s, Store);
    SameCounts(s, y);
    assert CoreInv(cfg, s, s.master.core) && HistoryInv(s, s.master.core);
    OthersKeep(cfg, s, y, s.master.core);
  }

  lemma NotifyKeeps(cfg: Config, s: System)
    requires Inv(cfg, s) && Enabled(cfg, s, Notify)
    ensures Inv(cfg, Apply(cfg, s, Notify))
  {
    var y := Apply(cfg, s, Notify);
    SameCounts(s, y);
    assert CoreInv(cfg, s, s.master.core) && HistoryInv(s, s.master.core);
    OthersKeep(cfg, s, y, s.master.core);
  }

  lemma StepKeeps(cfg: Config, s: System, step: Step, y: System)
    requires Inv(cfg, s) && Follows(cfg, s, step, y)
    ensures Inv(cfg, y)
  {
    match step
    case Fill(c, request) => FillKeeps(cfg, s, c, request);
    case Mark(c) => MarkKeeps(cfg, s, c);
    case Raise(c) => RaiseKeeps(cfg, s, c);
    case Wake(c) => WakeKeeps(cfg, s, c);
    case Return(c) => ReturnKeeps(cfg, s, c);
    case Take => TakeKeeps(cfg, s);
    case Look => LookKeeps(cfg, s);
    case Serve(handler) => ServeKeeps(cfg, s, handler);
    case Clear => ClearKeeps(cfg, s);
    case Store => StoreKeeps(cfg, s);
    case Notify => NotifyKeeps(cfg, s);
  }

  // ------------------------------------------------------------------------
  // Every run
  // ------------------------------------------------------------------------

  /** The boards as syscall_init() leaves them, and no core inside a system call. */
  ghost predicate Boot(cfg: Config, s: System) {
    && HasShape(cfg, s) && s.syssem == 0 && s.master.Idle?
    && (forall c :: 0 <= c < cfg.cores ==>
          && !s.boards[c].pending && s.boards[c].sem == 0 && s.client[c].Away?
          && s.posted[c] == [] && s.served[c] == [] && s.returned[c] == [])
  }

  ghost predicate IsRun(cfg: Config, xs: seq<System>, steps: seq<Step>) {
    && |xs| == |steps| + 1
    && forall i :: 0 <= i < |steps| ==> Follows(cfg, xs[i], steps[i], xs[i + 1])
  }

  predicate Follows(cfg: Config, x: System, step: Step, y: System) {
    Enabled(cfg, x, step) && y == Apply(cfg, x, step)
  }

  lemma {:induction false} RunKeeps(cfg: Config, xs: seq<System>, steps: seq<Step>, i: nat)
    requires IsRun(cfg, xs, steps) && Boot(cfg, xs[0]) && i < |xs|
    ensures Inv(cfg, xs[i])
  {
    if i == 0 {
      assert PendingCores(xs[0]) == {} && MarkedCores(xs[0]) == {};
      forall c: nat | c < cfg.cores
        ensures CoreInv(cfg, xs[0], c) && HistoryInv(xs[0], c)
      {
      }
    } else {
      RunKeeps(cfg, xs, steps, i - 1);
      StepKeeps(cfg, xs[i - 1], steps[i - 1], xs[i]);
    }
  }

  /**
   * In every interleaving each core's calls are answered exactly once and in order: the served
   * requests are the posted ones, at most one is outstanding, and each call returned the reply
   * that was computed for its own request.
   */
  lemma AnsweredOnce(cfg: Config, xs: seq<System>, steps: seq<Step>, i: nat, c: nat)
    requires IsRun(cfg, xs, steps) && Boot(cfg, xs[0]) && i < |xs| && c < cfg.cores
    ensures HasShape(cfg, xs[i])
    ensures var (p, v, r) := (xs[i].posted[c], xs[i].served[c], xs[i].returned[c]);
            && |r| <= |v| <= |p| <= |r| + 1
            && (forall k :: 0 <= k < |v| ==> v[k].0 == p[k])
            && (forall k :: 0 <= k < |r| ==> r[k] == v[k].1)
            && (xs[i].client[c].Away? ==> |r| == |p|)
  {
    RunKeeps(cfg, xs, steps, i);
    assert CoreInv(cfg, xs[i], c) && HistoryInv(xs[i], c);
  }

  // ------------------------------------------------------------------------
  // What each call returns
  // ------------------------------------------------------------------------

  /** The requests that core `c` posts in the first `n` steps. */
  function Requests(steps: seq<Step>, c: nat, n: nat): seq<Request>
    requires n <= |steps|
  {
    if n == 0 then []
    else Requests(steps, c, n - 1) + match steps[n - 1] case Fill(d, r) => if d == c then [r] else [] case _ => []
  }

  /** What core `c` reads from its board when it returns, in the first `n` steps. */
  function Replies(xs: seq<System>, steps: seq<Step>, c: nat, n: nat): seq<Reply>
    requires n <= |steps| < |xs| && forall i :: 0 <= i < |xs| ==> c < |xs[i].boards|
  {
    if n == 0 then []
    else Replies(xs, steps, c, n - 1) + if steps[n - 1] == Return(c) then [xs[n - 1].boards[c].ret] else []
  }

  /** Step `m` serves core `c`, with the handler's answer `h`. */
  predicate ServesCore(x: System, step: Step, c: nat, h: Option<int>) {
    step == Serve(h) && x.master == Serving(c)
  }

  /** What a caller is promised for request `r`, which is handled with the answer `h`. */
  ghost predicate Answers(cfg: Config, r: Request, h: Option<int>, ret: Reply) {
    && (ret == Error(EINVAL) <==> r.nr >= cfg.limit)
    && (ret == Error(ENOSYS) <==> r.nr < cfg.limit && h.None?)
    && (forall x :: ret == Value(x) <==> r.nr < cfg.limit && h == Some(x))
  }

  lemma ReplyAnswers(cfg: Config, r: Request, h: Option<int>)
    ensures Answers(cfg, r, h, ReplyTo(cfg, r, h))
  {
  }

  lemma {:induction false} PostedAreRequests(cfg: Config, xs: seq<System>, steps: seq<Step>, n: nat, c: nat)
    requires IsRun(cfg, xs, steps) && Boot(cfg, xs[0]) && n < |xs| && c < cfg.cores
    ensures HasShape(cfg, xs[n]) && xs[n].posted[c] == Requests(steps, c, n)
  {
    if n > 0 {
      PostedAreRequests(cfg, xs, steps, n - 1, c);
      assert Follows(cfg, xs[n - 1], steps[n - 1], xs[n]);
    }
  }

  lemma StepReturns(cfg: Config, x: System, step: Step, y: System, c: nat)
    requires Follows(cfg, x, step, y) && c < cfg.cores
    ensures HasShape(cfg, y)
    ensures y.returned[c] == x.returned[c] + if step == Return(c) then [x.boards[c].ret] else []
  {
  }

  lemma {:induction false} ReturnedAreReplies(cfg: Config, xs: seq<System>, steps: seq<Step>, n: nat, c: nat)
    requires IsRun(cfg, xs, steps) && Boot(cfg, xs[0]) && n < |xs| && c < cfg.cores
    requires forall i :: 0 <= i < |xs| ==> c < |xs[i].boards|
    ensures HasShape(cfg, xs[n]) && xs[n].returned[c] == Replies(xs, steps, c, n)
  {
    if n > 0 {
      ReturnedAreReplies(cfg, xs, steps, n - 1, c);
      assert Follows(cfg, xs[n - 1], steps[n - 1], xs[n]);
      StepReturns(cfg, xs[n - 1], steps[n - 1], xs[n], c);
    }
  }

  /** The `k`th request of core `c` was served in one step, with the answer computed there. */
  lemma {:induction false} ServedAt(cfg: Config, xs: seq<System>, steps: seq<Step>, n: nat, c: nat, k: nat)
    returns (m: nat, h: Option<int>)
    requires IsRun(cfg, xs, steps) && Boot(cfg, xs[0]) && n < |xs| && c < cfg.cores
    requires HasShape(cfg, xs[n]) && k < |xs[n].served[c]|
    ensures m < n && ServesCore(xs[m], steps[m], c, h) && HasShape(cfg, xs[m]) && |xs[m].served[c]| == k
    ensures Answers(cfg, xs[n].served[c][k].0, h, xs[n].served[c][k].1)
  {
    RunKeeps(cfg, xs, steps, n);
    if n > 0 {
      RunKeeps(cfg, xs, steps, n - 1);
      assert Follows(cfg, xs[n - 1], steps[n - 1], xs[n]);
      if k < |xs[n - 1].served[c]| {
        m, h := ServedAt(cfg, xs, steps, n - 1, c, k);
      } else {
        m, h := n - 1, steps[n - 1].handler;
        ReplyAnswers(cfg, xs[m].boards[c].request, h);
      }
    }
  }

  /**
   * In every interleaving, the `k`th reply that a core returns with is the answer to the `k`th
   * request it posted: the dispatcher served that core in some step in between, and the reply is
   * an error or the handler's own result, as the request's number and the handler have it.
   */
  lemma ReturnsOwnAnswer(cfg: Config, xs: seq<System>, steps: seq<Step>, n: nat, c: nat, k: nat)
    returns (m: nat, h: Option<int>)
    requires IsRun(cfg, xs, steps) && Boot(cfg, xs[0]) && n < |xs| && c < cfg.cores
    requires forall i :: 0 <= i < |xs| ==> c < |xs[i].boards|
    requires k < |Replies(xs, steps, c, n)|
    ensures m < n && ServesCore(xs[m], steps[m], c, h) && |Replies(xs, steps, c, m)| == k
    ensures k < |Requests(steps, c, m)| <= |Requests(steps, c, n)|
    ensures Answers(cfg, Requests(steps, c, n)[k], h, Replies(xs, steps, c, n)[k])
  {
    ReturnedAreReplies(cfg, xs, steps, n, c);
    PostedAreRequests(cfg, xs, steps, n, c);
    AnsweredOnce(cfg, xs, steps, n, c);
    m, h := ServedAt(cfg, xs, steps, n, c, k);
    ReturnedAreReplies(cfg, xs, steps, m, c);
    PostedAreRequests(cfg, xs, steps, m, c);
    RunKeeps(cfg, xs, steps, m);
    assert CoreInv(cfg, xs[m], c);
    RequestsGrow(steps, c, m, n);
  }

  lemma {:induction false} RequestsGrow(steps: seq<Step>, c: nat, m: nat, n: nat)
    requires m <= n <= |steps|
    ensures |Requests(steps, c, m)| <= |Requests(steps, c, n)|
  {
    if m < n { RequestsGrow(steps, c, m, n - 1); }
  }

  /**
   * The dispatcher never serves a core by accident: when it serves, that core's request is
   * pending, and there are always as many pending boards as units it can still take.
   */
  lemma ServesPending(cfg: Config, xs: seq<System>, steps: seq<Step>, i: nat)
    requires IsRun(cfg, xs, steps) && Boot(cfg, xs[0]) && i < |xs|
    ensures HasShape(cfg, xs[i])
    ensures xs[i].master.Serving? ==> xs[i].master.core < cfg.cores && xs[i].boards[xs[i].master.core].pending
    ensures xs[i].master.Sweeping? ==> xs[i].master.i < cfg.cores
    ensures |PendingCores(xs[i])| >= xs[i].syssem + if InService(xs[i]) then 1 else 0
  {
    RunKeeps(cfg, xs, steps, i);
    if xs[i].master.Serving? {
      assert CoreInv(cfg, xs[i], xs[i].master.core);
    }
    if xs[i].master.Sweeping? {
      var c :| 0 <= c < cfg.cores && xs[i].boards[c].pending &&
        Distance(cfg, xs[i].next, c) < cfg.cores - xs[i].master.i;
      DistanceStep(cfg, xs[i].next, c);
    }
  }

  /** Whether a step picks a request to serve. */
  predicate Picks(s: System, step: Step) { step.Look? && s.next < |s.boards| && s.boards[s.next].pending }

  /** How many of the steps `from..to` of a run pick a request. */
  ghost function Picked(xs: seq<System>, steps: seq<Step>, from: nat, to: nat): nat
    requires from <= to <= |steps| < |xs|
  {
    if from == to then 0 else Picked(xs, steps, from, to - 1) + if Picks(xs[to - 1], steps[to - 1]) then 1 else 0
  }

  /** Core `c` waits: its request is pending and the master has not picked it. */
  predicate Waits(s: System, c: nat) { c < |s.boards| && s.boards[c].pending && !AtMaster(s, c) }

  /** The step adds to core `c`'s count if and only if it picks a request. */
  ghost predicate CountsPick(x: System, step: Step, y: System, c: nat) {
    && c < |x.overtaken| && c < |y.overtaken|
    && y.overtaken[c] == x.overtaken[c] + if Picks(x, step) then 1 else 0
  }

  lemma {:induction false} PicksAddUp(xs: seq<System>, steps: seq<Step>, j: nat, k: nat, c: nat)
    requires j <= k <= |steps| < |xs| && c < |xs[j].overtaken| && xs[j].overtaken[c] == 0
    requires forall m :: j <= m < k ==> CountsPick(xs[m], steps[m], xs[m + 1], c)
    ensures c < |xs[k].overtaken| && Picked(xs, steps, j, k) == xs[k].overtaken[c]
  {
    if j < k {
      PicksAddUp(xs, steps, j, k - 1, c);
      assert CountsPick(xs[k - 1], steps[k - 1], xs[k - 1 + 1], c);
    }
  }

  /** `overtaken` counts the picks since the core set its pending flag. */
  lemma OvertakenCounts(cfg: Config, xs: seq<System>, steps: seq<Step>, j: nat, k: nat, c: nat)
    requires IsRun(cfg, xs, steps) && Boot(cfg, xs[0]) && j < k < |xs| && c < cfg.cores
    requires steps[j] == Mark(c) && forall m :: j < m <= k ==> Waits(xs[m], c)
    ensures HasShape(cfg, xs[k]) && Picked(xs, steps, j + 1, k) == xs[k].overtaken[c]
  {
    forall m | j + 1 <= m < k
      ensures CountsPick(xs[m], steps[m], xs[m + 1], c)
    {
      assert Waits(xs[m], c) && Waits(xs[m + 1], c);
      RunOvertakes(cfg, xs, steps, m, c);
    }
    MarkStarts(cfg, xs, steps, j, c);
    PicksAddUp(xs, steps, j + 1, k, c);
    RunKeeps(cfg, xs, steps, k);
  }

  lemma MarkStarts(cfg: Config, xs: seq<System>, steps: seq<Step>, j: nat, c: nat)
    requires IsRun(cfg, xs, steps) && j < |steps| && steps[j] == Mark(c)
    ensures HasShape(cfg, xs[j + 1]) && xs[j + 1].overtaken[c] == 0
  {
    assert Follows(cfg, xs[j], steps[j], xs[j + 1]);
    MarkResets(cfg, xs[j], c, xs[j + 1]);
  }

  lemma RunOvertakes(cfg: Config, xs: seq<System>, steps: seq<Step>, m: nat, c: nat)
    requires IsRun(cfg, xs, steps) && Boot(cfg, xs[0]) && m < |steps| && c < cfg.cores
    requires Waits(xs[m], c) && Waits(xs[m + 1], c)
    ensures HasShape(cfg, xs[m]) && HasShape(cfg, xs[m + 1])
    ensures xs[m + 1].overtaken[c] == xs[m].overtaken[c] + if Picks(xs[m], steps[m]) then 1 else 0
  {
    RunKeeps(cfg, xs, steps, m);
    RunKeeps(cfg, xs, steps, m + 1);
    StepOvertakes(cfg, xs[m], steps[m], xs[m + 1], c);
  }

  lemma MarkResets(cfg: Config, s: System, c: nat, y: System)
    requires Follows(cfg, s, Mark(c), y)
    ensures HasShape(cfg, y) && y.overtaken[c] == 0
  {
  }

  lemma StepOvertakes(cfg: Config, s: System, step: Step, y: System, c: nat)
    requires Inv(cfg, s) && Follows(cfg, s, step, y) && HasShape(cfg, y) && c < cfg.cores && Waits(s, c) && Waits(y, c)
    ensures y.overtaken[c] == s.overtaken[c] + if Picks(s, step) then 1 else 0
  {
    assert CoreInv(cfg, s, c);
    if step.Look? {
      ServesBeforeEnd(cfg, s);
    }
  }

  lemma ServesBeforeEnd(cfg: Config, s: System)
    requires Inv(cfg, s) && s.master.Sweeping?
    ensures s.master.i < cfg.cores
  {
    var c :| 0 <= c < cfg.cores && s.boards[c].pending && Distance(cfg, s.next, c) < cfg.cores - s.master.i;
    DistanceStep(cfg, s.next, c);
  }

  /**
   * Bounded waiting: from the moment a core sets its pending flag, at most CORES_NUM - 1 other
   * requests are picked before its own, whatever the cores do meanwhile.
   */
  lemma BoundedWaiting(cfg: Config, xs: seq<System>, steps: seq<Step>, j: nat, k: nat, c: nat)
    requires IsRun(cfg, xs, steps) && Boot(cfg, xs[0]) && j < k < |xs| && c < cfg.cores
    requires steps[j] == Mark(c) && forall m :: j < m <= k ==> Waits(xs[m], c)
    ensures Picked(xs, steps, j + 1, k) <= cfg.cores - 1
  {
    OvertakenCounts(cfg, xs, steps, j, k, c);
    RunKeeps(cfg, xs, steps, k);
    assert Waits(xs[k], c);
    DistanceStep(cfg, xs[k].next, c);
  }
}
