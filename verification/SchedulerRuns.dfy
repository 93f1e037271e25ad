/** The scheduler over every interleaving of the cores' atomic regions. */
module SchedulerRuns {
  import opened Kernel
  import opened Scheduler

  /**
   * One region under the lock, by the core that executes it. A creation comes with whether both
   * stack pages were found. Arming is the return of an idle thread from semaphore_down(), and
   * sleeping is the wait of any thread for a condition that thread `t` waits for already.
   */
  datatype Op =
    | Creates(stacks: bool) | Yields(c: int) | Exits(c: int) | Reaps(c: int) | Arms(c: int) | Sleeps(c: int, t: int)

  /**
   * Whether the code of a core can be at this region: an idle thread waits for the semaphore
   * before it yields, only user threads exit, and they do so once.
   */
  predicate Enabled(cfg: Config, s: Sched, op: Op) {
    && HasShape(cfg, s)
    && match op
       case Creates(_) => true
       case Yields(c) => 0 <= c < cfg.cores && Curr(s, c) >= 0 && (cfg.IsIdle(Curr(s, c)) ==> c in s.armed)
       case Exits(c) => 0 <= c < cfg.cores && cfg.IsUser(Curr(s, c)) && s.state[Curr(s, c)].Running?
       case Reaps(c) => 0 <= c < cfg.cores && Curr(s, c) >= 0
       case Arms(c) => cfg.IsIdle(c) && s.state[c].Running? && c !in s.armed && s.sem > 0
       case Sleeps(c, t) => 0 <= c < cfg.cores && Curr(s, c) >= 0 && -1 <= t < cfg.Slots()
  }

  function Apply(cfg: Config, s: Sched, op: Op): Sched
    requires Inv(cfg, s) && Enabled(cfg, s, op)
  {
    match op
    case Creates(stacks) => Create(cfg, s, stacks).0
    case Yields(c) => HeadInRange(cfg, s); Yield(cfg, s, c).0
    case Exits(c) => Exit(s, c)
    case Reaps(c) => Reap(s, Curr(s, c))
    case Arms(c) => Arm(s, c)
    case Sleeps(c, t) => Sleep(s, c, t)
  }

  lemma HeadInRange(cfg: Config, s: Sched)
    requires Inv(cfg, s)
    ensures s.queue != [] ==> 0 <= s.queue[0] < |s.state|
  {
    assert s.queue != [] ==> s.queue[0] in s.queue;
  }

  /** The state that thread_init() leaves: master and idle threads on their cores, no user thread. */
  ghost predicate Boot(cfg: Config, s: Sched) {
    && HasShape(cfg, s)
    && (forall t :: 0 <= t < cfg.cores ==> s.state[t].Running? && s.core[t] == t)
    && (forall t :: cfg.IsUser(t) ==> s.state[t].NotStarted?)
    && (forall t :: 0 <= t < cfg.Slots() ==> s.link[t] == -1)
    && s.queue == [] && s.sem == 0 && s.armed == {}
  }

  lemma BootIsSound(cfg: Config, s: Sched)
    requires Boot(cfg, s)
    ensures Inv(cfg, s)
  {
    forall c | 0 <= c < cfg.cores
      ensures Occupied(s, c)
    {
      assert Active(s, c, c);
    }
  }

  ghost predicate IsRun(cfg: Config, xs: seq<Sched>, ops: seq<Op>) {
    && |xs| == |ops| + 1
    && forall i :: 0 <= i < |ops| ==> Follows(cfg, xs[i], ops[i], xs[i + 1])
  }

  /** `y` follows from `x`; the regions are defined on sound states. */
  ghost predicate Follows(cfg: Config, x: Sched, op: Op, y: Sched) {
    Enabled(cfg, x, op) && (Inv(cfg, x) ==> y == Apply(cfg, x, op))
  }

  lemma MasterIsCurr(cfg: Config, s: Sched)
    requires Inv(cfg, s)
    ensures Curr(s, 0) == 0
  {
    CurrIsActive(cfg, s, 0);
    assert Active(s, 0, 0);
  }

  /** Every region keeps the invariant, whichever core executes it. */
  lemma StepKeeps(cfg: Config, x: Sched, op: Op, y: Sched)
    requires Inv(cfg, x) && Follows(cfg, x, op, y)
    ensures Inv(cfg, y)
  {
    match op
    case Creates(stacks) => CreateKeeps(cfg, x, stacks);
    case Yields(c) =>
      if c == 0 {
        MasterIsCurr(cfg, x);
      } else {
        YieldKeeps(cfg, x, c);
      }
    case Exits(c) => ExitKeeps(cfg, x, c);
    case Reaps(c) => ReapKeeps(cfg, x, Curr(x, c));
    case Arms(c) => ArmKeeps(cfg, x, c);
    case Sleeps(c, t) => SleepKeeps(cfg, x, c, t);
  }

  lemma {:induction false} RunKeeps(cfg: Config, xs: seq<Sched>, ops: seq<Op>, i: nat)
    requires IsRun(cfg, xs, ops) && i < |xs| && Inv(cfg, xs[0])
    ensures Inv(cfg, xs[i])
  {
    if i > 0 {
      RunKeeps(cfg, xs, ops, i - 1);
      StepKeeps(cfg, xs[i - 1], ops[i - 1], xs[i]);
    }
  }

  /**
   * The guarantees, spelled out: the queue holds each waiting user thread once, every core has
   * exactly one thread, and a queued thread is matched by a semaphore unit or an idle core that
   * is about to take it.
   */
  ghost predicate Guarantees(cfg: Config, s: Sched)
    requires HasShape(cfg, s)
  {
    && (forall i, j :: 0 <= i < j < |s.queue| ==> s.queue[i] != s.queue[j])
    && (forall t :: t in s.queue ==> cfg.IsUser(t) && s.core[t] == -1)
    && (forall t :: cfg.IsUser(t) && s.state[t].Stopped? ==> t in s.queue)
    && (forall c :: 0 <= c < cfg.cores ==> Active(s, Curr(s, c), c))
    && (forall t, c :: Active(s, t, c) ==> 0 <= c < cfg.cores && t == Curr(s, c))
    && s.sem + |s.armed| >= |s.queue|
    && (s.queue != [] && s.sem == 0 ==> s.armed != {})
    && (forall c :: c in s.armed ==> cfg.IsIdle(c) && Curr(s, c) == c)
  }

  /** In every interleaving, from boot on, all of this holds: no thread is lost and no wake-up is. */
  lemma EveryRunGuarantees(cfg: Config, xs: seq<Sched>, ops: seq<Op>, i: nat)
    requires IsRun(cfg, xs, ops) && Boot(cfg, xs[0]) && i < |xs|
    ensures HasShape(cfg, xs[i]) && Guarantees(cfg, xs[i])
  {
    BootIsSound(cfg, xs[0]);
    RunKeeps(cfg, xs, ops, i);
    SoundGuarantees(cfg, xs[i]);
  }

  lemma SoundGuarantees(cfg: Config, s: Sched)
    requires Inv(cfg, s)
    ensures Guarantees(cfg, s)
  {
    forall c | 0 <= c < cfg.cores
      ensures Active(s, Curr(s, c), c) && forall t :: Active(s, t, c) ==> t == Curr(s, c)
    {
      CurrIsActive(cfg, s, c);
    }
    assert forall c :: c in s.armed ==> Active(s, c, c);
  }

  // ------------------------------------------------------------------------
  // First come, first served
  // ------------------------------------------------------------------------

  /** Whether a step takes a thread from the queue. */
  predicate Takes(s: Sched, op: Op) {
    op.Yields? && op.c != 0 && s.queue != []
  }

  /** How many of the first `n` steps of a run take a thread from the queue. */
  ghost function Taken(cfg: Config, xs: seq<Sched>, ops: seq<Op>, n: nat): nat
    requires IsRun(cfg, xs, ops) && n <= |ops|
  {
    if n == 0 then 0 else Taken(cfg, xs, ops, n - 1) + if Takes(xs[n - 1], ops[n - 1]) then 1 else 0
  }

  /** A step either takes the head of the queue and may append, or only appends. */
  lemma StepQueue(cfg: Config, x: Sched, op: Op, y: Sched)
    requires Inv(cfg, x) && Follows(cfg, x, op, y) && HasShape(cfg, y)
    ensures Takes(x, op) ==> x.queue[1..] <= y.queue && Curr(y, op.c) == x.queue[0]
    ensures !Takes(x, op) ==> x.queue <= y.queue
  {
    match op
    case Creates(stacks) => CreateKeeps(cfg, x, stacks);
    case Yields(c) =>
      if c == 0 {
        MasterIsCurr(cfg, x);
      } else {
        YieldKeeps(cfg, x, c);
      }
    case Exits(c) =>
    case Reaps(c) =>
    case Arms(c) =>
    case Sleeps(c, t) =>
  }

  /** A queued thread moves up by one with each thread taken, whatever the cores do in between. */
  lemma {:induction false} QueuePosition(cfg: Config, xs: seq<Sched>, ops: seq<Op>, n: nat, p: nat)
    requires IsRun(cfg, xs, ops) && Inv(cfg, xs[0]) && n <= |ops| && p < |xs[0].queue|
    requires Taken(cfg, xs, ops, n) <= p
    ensures p - Taken(cfg, xs, ops, n) < |xs[n].queue|
    ensures xs[n].queue[p - Taken(cfg, xs, ops, n)] == xs[0].queue[p]
  {
    if n > 0 {
      QueuePosition(cfg, xs, ops, n - 1, p);
      RunKeeps(cfg, xs, ops, n - 1);
      RunKeeps(cfg, xs, ops, n);
      StepQueue(cfg, xs[n - 1], ops[n - 1], xs[n]);
      var k := p - Taken(cfg, xs, ops, n - 1);
      if Takes(xs[n - 1], ops[n - 1]) {
        assert xs[n - 1].queue[1..][k - 1] == xs[n - 1].queue[k];
      }
    }
  }

  /**
   * First come, first served, without bypass: the thread at position `p` gets the core of
   * exactly the yield that takes the `p + 1`st thread from now on.
   */
  lemma DispatchedInTurn(cfg: Config, xs: seq<Sched>, ops: seq<Op>, n: nat, p: nat)
    requires IsRun(cfg, xs, ops) && Inv(cfg, xs[0]) && n < |ops| && p < |xs[0].queue|
    requires Taken(cfg, xs, ops, n) == p && Takes(xs[n], ops[n])
    ensures HasShape(cfg, xs[n + 1]) && Curr(xs[n + 1], ops[n].c) == xs[0].queue[p]
  {
    QueuePosition(cfg, xs, ops, n, p);
    RunKeeps(cfg, xs, ops, n);
    StepKeeps(cfg, xs[n], ops[n], xs[n + 1]);
    StepQueue(cfg, xs[n], ops[n], xs[n + 1]);
  }

  // ------------------------------------------------------------------------
  // Threads that exit
  // ------------------------------------------------------------------------

  /** No thread runs, or waits to run, in the user slot `t`. */
  predicate Gone(cfg: Config, s: Sched, t: int) {
    HasShape(cfg, s) && cfg.IsUser(t) && t !in s.queue && !s.state[t].Running?
  }

  /** Thread `t` has terminated and is still on core `c`. */
  predicate Leaving(cfg: Config, s: Sched, t: int, c: int) {
    HasShape(cfg, s) && cfg.IsUser(t) && Active(s, t, c) && s.state[t].Terminated?
  }

  /** A step makes a new thread in slot `t`. */
  predicate Remakes(cfg: Config, s: Sched, op: Op, t: int) {
    HasShape(cfg, s) && op.Creates? && Create(cfg, s, op.stacks).1 == Ok(t)
  }

  lemma YieldLeavesGone(cfg: Config, s: Sched, c: int, y: Sched, t: int)
    requires Inv(cfg, s) && 1 <= c < cfg.cores && Scheduler.Yields(cfg, s, c)
    requires 0 <= NextThread(s, c) < cfg.Slots() && Yielded(cfg, s, c, y) && Gone(cfg, s, t)
    ensures Gone(cfg, y, t)
  {
    YieldCaller(cfg, s, c);
    YieldQueueMembers(cfg, s, c, y);
    assert s.queue != [] ==> s.queue[0] in s.queue;
  }

  lemma StepLeavesGone(cfg: Config, x: Sched, op: Op, y: Sched, t: int)
    requires Inv(cfg, x) && Follows(cfg, x, op, y) && Gone(cfg, x, t) && !Remakes(cfg, x, op, t)
    ensures Gone(cfg, y, t)
  {
    if op.Creates? {
      CreateKeeps(cfg, x, op.stacks);
      AllocFindsUser(cfg, x);
    } else if op.Yields? {
      if op.c == 0 {
        MasterStays(cfg, x);
      } else {
        YieldCaller(cfg, x, op.c);
        YieldMeets(cfg, x, op.c);
        YieldLeavesGone(cfg, x, op.c, y, t);
      }
    }
  }

  /** Step `j` is the exit of thread `t` on core `c`. */
  ghost predicate ExitsAt(cfg: Config, xs: seq<Sched>, ops: seq<Op>, j: nat, t: int, c: int) {
    && IsRun(cfg, xs, ops) && Inv(cfg, xs[0]) && j < |ops|
    && ops[j] == Exits(c) && HasShape(cfg, xs[j]) && Curr(xs[j], c) == t
  }

  lemma ExitLeavesGone(cfg: Config, x: Sched, c: int, y: Sched)
    requires Inv(cfg, x) && Follows(cfg, x, Exits(c), y)
    ensures Gone(cfg, y, Curr(x, c)) && Leaving(cfg, y, Curr(x, c), c)
  {
    CurrIsActive(cfg, x, c);
    ExitKeeps(cfg, x, c);
  }

  lemma {:induction false} RunLeavesGone(cfg: Config, xs: seq<Sched>, ops: seq<Op>, j: nat, k: nat, t: int)
    requires IsRun(cfg, xs, ops) && Inv(cfg, xs[0]) && j <= k < |xs| && Gone(cfg, xs[j], t)
    requires forall i :: j <= i < k ==> !Remakes(cfg, xs[i], ops[i], t)
    ensures Gone(cfg, xs[k], t)
  {
    if j < k {
      RunLeavesGone(cfg, xs, ops, j, k - 1, t);
      RunKeeps(cfg, xs, ops, k - 1);
      StepLeavesGone(cfg, xs[k - 1], ops[k - 1], xs[k], t);
    }
  }

  /**
   * In every run a thread that has exited is in no queue and runs on no core, until a new thread
   * is created in its slot.
   */
  lemma ExitedStaysOut(cfg: Config, xs: seq<Sched>, ops: seq<Op>, j: nat, k: nat, t: int, c: int)
    requires ExitsAt(cfg, xs, ops, j, t, c) && j < k < |xs|
    requires forall i :: j < i < k ==> !Remakes(cfg, xs[i], ops[i], t)
    ensures Inv(cfg, xs[k]) && cfg.IsUser(t) && t !in xs[k].queue && !xs[k].state[t].Running?
    ensures forall d :: 0 <= d < cfg.cores && Curr(xs[k], d) == t ==> xs[k].state[t].Terminated?
  {
    RunKeeps(cfg, xs, ops, j);
    ExitLeavesGone(cfg, xs[j], c, xs[j + 1]);
    RunLeavesGone(cfg, xs, ops, j + 1, k, t);
    RunKeeps(cfg, xs, ops, k);
    GoneRunsNowhere(cfg, xs[k], t);
  }

  lemma GoneRunsNowhere(cfg: Config, s: Sched, t: int)
    requires Inv(cfg, s) && Gone(cfg, s, t)
    ensures forall d :: 0 <= d < cfg.cores && Curr(s, d) == t ==> s.state[t].Terminated?
  {
    forall d | 0 <= d < cfg.cores && Curr(s, d) == t
      ensures s.state[t].Terminated?
    {
      CurrIsActive(cfg, s, d);
    }
  }

  lemma YieldLeavesLeaving(cfg: Config, s: Sched, d: int, y: Sched, t: int, c: int)
    requires Inv(cfg, s) && 1 <= d < cfg.cores && Scheduler.Yields(cfg, s, d) && d != c
    requires 0 <= NextThread(s, d) < cfg.Slots() && Yielded(cfg, s, d, y) && Leaving(cfg, s, t, c)
    ensures Leaving(cfg, y, t, c)
  {
    YieldCaller(cfg, s, d);
    assert s.queue != [] ==> s.queue[0] in s.queue;
  }

  lemma StepLeavesLeaving(cfg: Config, x: Sched, op: Op, y: Sched, t: int, c: int)
    requires Inv(cfg, x) && Follows(cfg, x, op, y) && Leaving(cfg, x, t, c) && op != Yields(c)
    ensures Leaving(cfg, y, t, c)
  {
    if op.Creates? {
      AllocFindsUser(cfg, x);
    } else if op.Yields? {
      if op.c == 0 {
        MasterStays(cfg, x);
      } else {
        YieldCaller(cfg, x, op.c);
        YieldMeets(cfg, x, op.c);
        YieldLeavesLeaving(cfg, x, op.c, y, t, c);
      }
    }
  }

  lemma {:induction false} LeavingUntilYield(
    cfg: Config, xs: seq<Sched>, ops: seq<Op>, j: nat, k: nat, t: int, c: int)
    requires ExitsAt(cfg, xs, ops, j, t, c) && j < k < |xs|
    requires forall i :: j < i < k ==> ops[i] != Yields(c)
    ensures Leaving(cfg, xs[k], t, c)
  {
    RunKeeps(cfg, xs, ops, k - 1);
    if k == j + 1 {
      ExitLeavesGone(cfg, xs[j], c, xs[k]);
    } else {
      LeavingUntilYield(cfg, xs, ops, j, k - 1, t, c);
      StepLeavesLeaving(cfg, xs[k - 1], ops[k - 1], xs[k], t, c);
    }
  }

  /** Steps `j` and `k` are the exit of thread `t` on core `c` and the next yield of that core. */
  ghost predicate ExitsAndYields(cfg: Config, xs: seq<Sched>, ops: seq<Op>, j: nat, k: nat, t: int, c: int) {
    && ExitsAt(cfg, xs, ops, j, t, c) && j < k < |ops| && ops[k] == Yields(c)
    && forall i :: j < i < k ==> ops[i] != Yields(c)
  }

  /** That yield makes the thread a zombie, which the thread that then runs is to release. */
  lemma ExitedBecomesZombie(cfg: Config, xs: seq<Sched>, ops: seq<Op>, j: nat, k: nat, t: int, c: int)
    requires ExitsAndYields(cfg, xs, ops, j, k, t, c)
    ensures Inv(cfg, xs[k + 1]) && cfg.IsUser(t) && 1 <= c < cfg.cores && Curr(xs[k + 1], c) >= 0
    ensures xs[k + 1].state[t].Zombie? && xs[k + 1].link[Curr(xs[k + 1], c)] == t
  {
    RunKeeps(cfg, xs, ops, k);
    RunKeeps(cfg, xs, ops, k + 1);
    LeavingUntilYield(cfg, xs, ops, j, k, t, c);
    CurrIsActive(cfg, xs[k], c);
    if c == 0 {
      MasterIsCurr(cfg, xs[k]);
    }
    YieldKeeps(cfg, xs[k], c);
  }

  /** Thread `u` on core `c` is to release the zombie in slot `t`. */
  predicate ToRelease(cfg: Config, s: Sched, t: int, u: int, c: int) {
    HasShape(cfg, s) && cfg.IsUser(t) && Active(s, u, c) && s.state[t].Zombie? && s.link[u] == t
  }

  predicate IsFree(cfg: Config, s: Sched, t: int) {
    HasShape(cfg, s) && cfg.IsUser(t) && s.state[t].NotStarted?
  }

  /** Whether core `c` executes the step. */
  predicate By(op: Op, c: int) { !op.Creates? && op.c == c }

  /** A step takes slot `t` for a new thread, with or without success. */
  predicate TakesSlot(cfg: Config, s: Sched, op: Op, t: int) {
    HasShape(cfg, s) && op.Creates? && Alloc(cfg, s).1 == Some(t)
  }

  lemma YieldElsewhere(cfg: Config, s: Sched, d: int, y: Sched, t: int, u: int, c: int)
    requires Inv(cfg, s) && 1 <= d < cfg.cores && Scheduler.Yields(cfg, s, d) && d != c
    requires 0 <= NextThread(s, d) < cfg.Slots() && Yielded(cfg, s, d, y) && ToRelease(cfg, s, t, u, c)
    ensures ToRelease(cfg, y, t, u, c)
  {
    YieldCaller(cfg, s, d);
    assert s.queue != [] ==> s.queue[0] in s.queue;
  }

  /** Another core may release the zombie first, when a condition's queue leads it there. */
  lemma ReapElsewhere(cfg: Config, x: Sched, d: int, y: Sched, t: int, u: int, c: int)
    requires Inv(cfg, x) && Follows(cfg, x, Reaps(d), y) && ToRelease(cfg, x, t, u, c) && d != c
    ensures ToRelease(cfg, y, t, u, c) || IsFree(cfg, y, t)
  {
    CurrIsActive(cfg, x, d);
    ReapKeeps(cfg, x, Curr(x, d));
  }

  lemma CreateElsewhere(cfg: Config, x: Sched, stacks: bool, y: Sched, t: int, u: int, c: int)
    requires Inv(cfg, x) && Follows(cfg, x, Creates(stacks), y) && ToRelease(cfg, x, t, u, c)
    requires !TakesSlot(cfg, x, Creates(stacks), t)
    ensures ToRelease(cfg, y, t, u, c)
  {
    AllocFindsUser(cfg, x);
  }

  lemma WaitElsewhere(cfg: Config, x: Sched, op: Op, y: Sched, t: int, u: int, c: int)
    requires Inv(cfg, x) && Follows(cfg, x, op, y) && ToRelease(cfg, x, t, u, c)
    requires !By(op, c) && (op.Exits? || op.Sleeps? || op.Arms?)
    ensures ToRelease(cfg, y, t, u, c)
  {
    if !op.Arms? {
      CurrIsActive(cfg, x, op.c);
    }
  }

  lemma StepElsewhere(cfg: Config, x: Sched, op: Op, y: Sched, t: int, u: int, c: int)
    requires Inv(cfg, x) && Follows(cfg, x, op, y) && ToRelease(cfg, x, t, u, c)
    requires !By(op, c) && !TakesSlot(cfg, x, op, t)
    ensures ToRelease(cfg, y, t, u, c) || IsFree(cfg, y, t)
  {
    match op
    case Creates(stacks) => CreateElsewhere(cfg, x, stacks, y, t, u, c);
    case Yields(d) =>
      if d == 0 {
        MasterStays(cfg, x);
      } else {
        YieldCaller(cfg, x, d);
        YieldMeets(cfg, x, d);
        YieldElsewhere(cfg, x, d, y, t, u, c);
      }
    case Reaps(d) => ReapElsewhere(cfg, x, d, y, t, u, c);
    case _ => WaitElsewhere(cfg, x, op, y, t, u, c);
  }

  lemma YieldLeavesFree(cfg: Config, s: Sched, c: int, y: Sched, t: int)
    requires Inv(cfg, s) && 1 <= c < cfg.cores && Scheduler.Yields(cfg, s, c)
    requires 0 <= NextThread(s, c) < cfg.Slots() && Yielded(cfg, s, c, y) && IsFree(cfg, s, t)
    ensures IsFree(cfg, y, t)
  {
    YieldCaller(cfg, s, c);
    assert s.queue != [] ==> s.queue[0] in s.queue;
  }

  lemma StepLeavesFree(cfg: Config, x: Sched, op: Op, y: Sched, t: int)
    requires Inv(cfg, x) && Follows(cfg, x, op, y) && IsFree(cfg, x, t) && !TakesSlot(cfg, x, op, t)
    ensures IsFree(cfg, y, t)
  {
    match op
    case Yields(c) =>
      if c == 0 {
        MasterStays(cfg, x);
      } else {
        YieldCaller(cfg, x, c);
        YieldMeets(cfg, x, c);
        YieldLeavesFree(cfg, x, c, y, t);
      }
    case Exits(c) => CurrIsActive(cfg, x, c);
    case _ =>
  }

  lemma {:induction false} ReleaseStaysDue(
    cfg: Config, xs: seq<Sched>, ops: seq<Op>, k: nat, m: nat, t: int, u: int, c: int)
    requires IsRun(cfg, xs, ops) && Inv(cfg, xs[0]) && k <= m < |xs| && ToRelease(cfg, xs[k], t, u, c)
    requires forall i :: k <= i < m ==> !By(ops[i], c) && !TakesSlot(cfg, xs[i], ops[i], t)
    ensures ToRelease(cfg, xs[m], t, u, c) || IsFree(cfg, xs[m], t)
  {
    if k < m {
      ReleaseStaysDue(cfg, xs, ops, k, m - 1, t, u, c);
      RunKeeps(cfg, xs, ops, m - 1);
      if IsFree(cfg, xs[m - 1], t) {
        StepLeavesFree(cfg, xs[m - 1], ops[m - 1], xs[m], t);
      } else {
        StepElsewhere(cfg, xs[m - 1], ops[m - 1], xs[m], t, u, c);
      }
    }
  }

  /**
   * In every run, when the core's next step is to release the zombie, the slot of the thread that
   * exited is free afterwards, unless a creation has taken it before.
   */
  lemma ExitedIsReleased(cfg: Config, xs: seq<Sched>, ops: seq<Op>, j: nat, k: nat, m: nat, t: int, c: int)
    requires ExitsAndYields(cfg, xs, ops, j, k, t, c) && k < m < |ops| && ops[m] == Reaps(c)
    requires forall i :: k < i < m ==> !By(ops[i], c) && !TakesSlot(cfg, xs[i], ops[i], t)
    ensures IsFree(cfg, xs[m + 1], t)
  {
    ExitedBecomesZombie(cfg, xs, ops, j, k, t, c);
    var u := Curr(xs[k + 1], c);
    CurrIsActive(cfg, xs[k + 1], c);
    ReleaseStaysDue(cfg, xs, ops, k + 1, m, t, u, c);
    RunKeeps(cfg, xs, ops, m);
    CurrIsActive(cfg, xs[m], c);
    if IsFree(cfg, xs[m], t) {
      StepLeavesFree(cfg, xs[m], ops[m], xs[m + 1], t);
    } else {
      ReapKeeps(cfg, xs[m], Curr(xs[m], c));
    }
  }

  // ------------------------------------------------------------------------
  // Slots that creation forgets
  // ------------------------------------------------------------------------

  /** Every user thread that is ready to run is in the queue. */
  ghost predicate NoneForgotten(cfg: Config, s: Sched)
    requires HasShape(cfg, s)
  {
    forall t :: cfg.IsUser(t) && (s.state[t].Started? || s.state[t].Stopped?) ==> t in s.queue
  }

  /** thread_create() forgets its slot exactly when it finds one and then lacks a stack page. */
  lemma CreateForgetsIff(cfg: Config, s: Sched, stacks: bool)
    requires Inv(cfg, s) && NoneForgotten(cfg, s)
    ensures HasShape(cfg, Create(cfg, s, stacks).0)
    ensures NoneForgotten(cfg, Create(cfg, s, stacks).0) <==> stacks || Alloc(cfg, s).1.None?
  {
    AllocFindsUser(cfg, s);
  }

  /** A thread slot that is taken and not queued: nobody has a thread in it. */
  predicate Forgotten(cfg: Config, s: Sched, t: int) {
    HasShape(cfg, s) && cfg.IsUser(t) && s.state[t].Started? && t !in s.queue
  }

  lemma YieldLeavesForgotten(cfg: Config, s: Sched, c: int, y: Sched, t: int)
    requires Inv(cfg, s) && 1 <= c < cfg.cores && Scheduler.Yields(cfg, s, c)
    requires 0 <= NextThread(s, c) < cfg.Slots() && Yielded(cfg, s, c, y) && Forgotten(cfg, s, t)
    ensures Forgotten(cfg, y, t)
  {
    YieldCaller(cfg, s, c);
    YieldQueueMembers(cfg, s, c, y);
  }

  lemma StepLeavesForgotten(cfg: Config, x: Sched, op: Op, y: Sched, t: int)
    requires Inv(cfg, x) && Follows(cfg, x, op, y) && Forgotten(cfg, x, t)
    ensures Forgotten(cfg, y, t)
  {
    if op.Creates? {
      AllocFindsUser(cfg, x);
    } else if op.Yields? {
      if op.c == 0 {
        MasterIsCurr(cfg, x);
      } else {
        YieldCaller(cfg, x, op.c);
        YieldMeets(cfg, x, op.c);
        YieldLeavesForgotten(cfg, x, op.c, y, t);
      }
    } else if op.Exits? {
      CurrIsActive(cfg, x, op.c);
    }
  }

  lemma ForgottenIsLost(cfg: Config, s: Sched, t: int)
    requires Inv(cfg, s) && Forgotten(cfg, s, t)
    ensures forall c :: 0 <= c < cfg.cores ==> Curr(s, c) != t
    ensures Alloc(cfg, s).1 != Some(t)
  {
    forall c | 0 <= c < cfg.cores
      ensures Curr(s, c) != t
    {
      CurrIsActive(cfg, s, c);
    }
  }

  lemma {:induction false} RunLeavesForgotten(cfg: Config, xs: seq<Sched>, ops: seq<Op>, j: nat, k: nat, t: int)
    requires IsRun(cfg, xs, ops) && Inv(cfg, xs[0]) && j <= k < |xs| && Forgotten(cfg, xs[j], t)
    ensures Forgotten(cfg, xs[k], t)
  {
    if j < k {
      RunLeavesForgotten(cfg, xs, ops, j, k - 1, t);
      RunKeeps(cfg, xs, ops, k - 1);
      StepLeavesForgotten(cfg, xs[k - 1], ops[k - 1], xs[k], t);
    }
  }

  /** A forgotten slot is neither run nor freed nor given to another thread, in any run. */
  lemma ForgottenForever(cfg: Config, xs: seq<Sched>, ops: seq<Op>, j: nat, k: nat, t: int)
    requires IsRun(cfg, xs, ops) && Inv(cfg, xs[0]) && j <= k < |xs| && Forgotten(cfg, xs[j], t)
    ensures Forgotten(cfg, xs[k], t)
    ensures forall c :: 0 <= c < cfg.cores ==> Curr(xs[k], c) != t
    ensures Alloc(cfg, xs[k]).1 != Some(t)
  {
    RunLeavesForgotten(cfg, xs, ops, j, k, t);
    RunKeeps(cfg, xs, ops, k);
    ForgottenIsLost(cfg, xs[k], t);
  }

  /** The slot that a creation without stack pages leaves is forgotten. */
  lemma CreateLeavesForgotten(cfg: Config, s: Sched)
    requires Inv(cfg, s) && Alloc(cfg, s).1.Some?
    ensures Forgotten(cfg, Create(cfg, s, false).0, Alloc(cfg, s).1.value)
  {
    AllocFindsUser(cfg, s);
  }

  /** From boot on: the first creation forgets the first user slot when it lacks a stack page. */
  lemma CreateForgetsAtBoot(cfg: Config, s: Sched)
    requires Boot(cfg, s) && 0 < cfg.users
    ensures Forgotten(cfg, Create(cfg, s, false).0, cfg.cores)
  {
    assert IsReusable(s.state[cfg.cores]);
    assert FirstIndex(s.state, IsReusable, 1) == cfg.cores;
    BootIsSound(cfg, s);
    CreateLeavesForgotten(cfg, s);
  }

  /** When no creation lacks a stack page, no run forgets a thread. */
  lemma {:induction false} RunForgetsNone(cfg: Config, xs: seq<Sched>, ops: seq<Op>, i: nat)
    requires IsRun(cfg, xs, ops) && Boot(cfg, xs[0]) && i < |xs|
    requires forall k :: 0 <= k < |ops| && ops[k].Creates? ==> ops[k].stacks
    ensures Inv(cfg, xs[i]) && NoneForgotten(cfg, xs[i])
  {
    if i == 0 {
      BootIsSound(cfg, xs[0]);
    } else {
      RunForgetsNone(cfg, xs, ops, i - 1);
      StepKeeps(cfg, xs[i - 1], ops[i - 1], xs[i]);
      StepForgetsNone(cfg, xs[i - 1], ops[i - 1], xs[i]);
    }
  }

  lemma YieldForgetsNone(cfg: Config, s: Sched, c: int, y: Sched)
    requires Inv(cfg, s) && NoneForgotten(cfg, s) && 1 <= c < cfg.cores && Scheduler.Yields(cfg, s, c) &&
        Yielded(cfg, s, c, y)
    ensures NoneForgotten(cfg, y)
  {
    YieldCaller(cfg, s, c);
    YieldQueueMembers(cfg, s, c, y);
  }

  lemma StepForgetsNone(cfg: Config, x: Sched, op: Op, y: Sched)
    requires Inv(cfg, x) && NoneForgotten(cfg, x) && Follows(cfg, x, op, y) && Inv(cfg, y)
    requires op.Creates? ==> op.stacks
    ensures NoneForgotten(cfg, y)
  {
    match op
    case Creates(stacks) => CreateForgetsIff(cfg, x, stacks);
    case Yields(c) =>
      if c == 0 {
        MasterIsCurr(cfg, x);
      } else {
        YieldCaller(cfg, x, c);
        YieldMeets(cfg, x, c);
        YieldForgetsNone(cfg, x, c, y);
      }
    case Exits(c) =>
    case Reaps(c) =>
    case Arms(c) =>
    case Sleeps(c, t) =>
  }
}
