/**
 * The thread scheduler on values: the thread table, the run queue that all cores share, the
 * semaphore that wakes idle cores, and the zombie that a terminated thread leaves to the thread
 * that runs after it. Each function is one region of multithread.c under the lock of the thread
 * manager, and so one atomic step; cores interleave freely.
 */
module Scheduler {
  import opened Kernel
  import opened Sequences

  datatype ThreadState = NotStarted | Started | Running | Stopped | Terminated | Zombie

  /**
   * Slot 0 of the table is the master thread, on core 0. Slots 1 to `cores - 1` are the idle
   * threads, each on the core of its number. The other `users` slots are user threads.
   */
  datatype Config = Config(cores: nat, users: nat) {
    predicate Valid() { 1 <= cores }
    function Slots(): nat { cores + users }
    predicate IsUser(t: int) { cores <= t < cores + users }
    predicate IsIdle(t: int) { 1 <= t < cores }
  }

  /**
   * `queue` is the run queue. `link` is what the next field of a thread outside the queue refers
   * to, -1 for nothing. `sem` counts the semaphore of the queue, and `armed` are the cores whose
   * idle thread has come out of semaphore_down() and has not yielded yet.
   */
  datatype Sched = Sched(
    state: seq<ThreadState>, core: seq<int>, queue: seq<int>, link: seq<int>, sem: nat, armed: set<int>)

  predicate HasShape(cfg: Config, s: Sched) {
    cfg.Valid() && |s.state| == |s.core| == |s.link| == cfg.Slots()
  }

  /** Thread `t` occupies core `c`: it runs there, or has terminated and not yet left it. */
  predicate Active(s: Sched, t: int, c: int) {
    0 <= t < |s.state| == |s.core| && (s.state[t].Running? || s.state[t].Terminated?) && s.core[t] == c
  }

  // ------------------------------------------------------------------------
  // Steps
  // ------------------------------------------------------------------------

  /** The search of thread_get_curr() through the first `n` slots. */
  function CurrAmong(s: Sched, c: int, n: nat): (t: int)
    requires n <= |s.state| == |s.core|
    ensures -1 <= t < n
    ensures t >= 0 ==> Active(s, t, c)
  {
    if n == 0 then -1 else
    var t := CurrAmong(s, c, n - 1);
    if t >= 0 && s.state[t].Running? then t
    else if Active(s, n - 1, c) then n - 1 else t
  }

  /** thread_get_curr(): the running thread of a core, or else the last terminated one. */
  function Curr(s: Sched, c: int): int
    requires |s.state| == |s.core|
  {
    CurrAmong(s, c, |s.state|)
  }

  /** thread_schedule() */
  function Schedule(s: Sched, t: int): Sched
    requires 0 <= t < |s.core| == |s.link|
  {
    s.(queue := s.queue + [t], link := s.link[t := -1], core := s.core[t := -1], sem := s.sem + 1)
  }

  /** thread_free() */
  function Free(s: Sched, t: int): Sched
    requires 0 <= t < |s.core| == |s.state|
  {
    s.(core := s.core[t := -1], state := s.state[t := NotStarted])
  }

  predicate IsReusable(x: ThreadState) { x.NotStarted? || x.Zombie? }

  /** thread_alloc(): the first slot that is free or holds a zombie, which is released first. */
  function Alloc(cfg: Config, s: Sched): (Sched, Option<int>)
    requires HasShape(cfg, s)
  {
    var t := FirstIndex(s.state, IsReusable, 1);
    if t == |s.state| then (s, None) else
    var s1 := if s.state[t].Zombie? then Free(s, t) else s;
    (s1.(state := s1.state[t := Started]), Some(t))
  }

  /**
   * thread_create(). When no kernel page is left for a stack the call fails, and the slot stays
   * taken although no thread uses it.
   */
  function Create(cfg: Config, s: Sched, stacks: bool): (Sched, Result<int>)
    requires HasShape(cfg, s)
  {
    var (s1, t) := Alloc(cfg, s);
    if t.None? then (s, Err(EAGAIN)) else
    if !stacks then (s1, Err(EAGAIN)) else
    (Schedule(s1, t.value), Ok(t.value))
  }

  /** thread_exit(), up to its call of thread_yield(). */
  function Exit(s: Sched, c: int): Sched
    requires |s.state| == |s.core| && Curr(s, c) >= 0
  {
    s.(state := s.state[Curr(s, c) := Terminated])
  }

  /** The thread that thread_yield() turns the core over to. */
  function NextThread(s: Sched, c: int): int
    requires |s.state| == |s.core| && Curr(s, c) >= 0
  {
    if s.queue != [] then s.queue[0]
    else if !s.state[Curr(s, c)].Terminated? then Curr(s, c)
    else c
  }

  /** The first part of thread_yield(): take the next thread and put the caller back. */
  function Dispatch(s: Sched, c: int): Sched
    requires |s.state| == |s.core| == |s.link| && Curr(s, c) >= 0
    requires s.queue != [] ==> 0 <= s.queue[0] < |s.state|
  {
    if s.queue == [] then s else
    var curr, next := Curr(s, c), s.queue[0];
    var s1 := s.(queue := s.queue[1..], link := s.link[next := -1], core := s.core[next := c]);
    if s.state[curr].Terminated? then s1 else
    var s2 := s1.(state := s1.state[curr := Stopped]);
    if curr != c then Schedule(s2, curr) else s2
  }

  /** The second part: a terminated caller becomes a zombie, left to the next thread. */
  function HandOver(s: Sched, curr: int, next: int): Sched
    requires 0 <= curr < |s.state| == |s.link| && 0 <= next < |s.state|
  {
    var s1 :=
      if s.state[curr].Terminated? then s.(state := s.state[curr := Zombie], link := s.link[next := curr]) else s;
    s1.(state := s1.state[next := Running])
  }

  /** thread_yield(), up to the context switch. The master does not yield. */
  function Yield(cfg: Config, s: Sched, c: int): (Sched, Status)
    requires HasShape(cfg, s) && 0 <= c < cfg.cores && Curr(s, c) >= 0
    requires s.queue != [] ==> 0 <= s.queue[0] < |s.state|
  {
    var curr := Curr(s, c);
    if curr == 0 then (s, Fail(EINVAL)) else
    var s1 := HandOver(Dispatch(s, c), curr, NextThread(s, c));
    (if curr == c then s1.(armed := s1.armed - {c}) else s1, Done)
  }

  /** The end of thread_yield() and the start of thread_start(): release the zombie left to `t`. */
  function Reap(s: Sched, t: int): Sched
    requires 0 <= t < |s.state| == |s.core| == |s.link|
  {
    var z := s.link[t];
    if 0 <= z < |s.state| && s.state[z].Zombie? then
      var s1 := Free(s, z);
      s1.(link := s1.link[t := -1])
    else s
  }

  /** semaphore_down() of an idle thread, once the count is positive. */
  function Arm(s: Sched, c: int): Sched
    requires s.sem > 0
  {
    s.(sem := s.sem - 1, armed := s.armed + {c})
  }

  /**
   * cond_wait() by the thread on core `c`, in semaphore_down() or elsewhere: its next field is
   * overwritten with the thread `t` that waits already, and keeps it afterwards.
   */
  function Sleep(s: Sched, c: int, t: int): Sched
    requires |s.state| == |s.core| == |s.link| && Curr(s, c) >= 0
  {
    s.(link := s.link[Curr(s, c) := t])
  }

  // ------------------------------------------------------------------------
  // The invariant
  // ------------------------------------------------------------------------

  /** The queue holds user threads that are ready to run, each once, and no stopped one is missing. */
  ghost predicate QueueInv(cfg: Config, s: Sched)
    requires HasShape(cfg, s)
  {
    && Distinct(s.queue)
    && (forall t :: t in s.queue ==>
          cfg.IsUser(t) && (s.state[t].Started? || s.state[t].Stopped?) && s.core[t] == -1 && s.link[t] == -1)
    && (forall t :: cfg.IsUser(t) && s.state[t].Stopped? ==> t in s.queue)
  }

  /** Master and idle threads stay on their cores, and never terminate. */
  ghost predicate SystemInv(cfg: Config, s: Sched)
    requires HasShape(cfg, s)
  {
    && s.state[0].Running? && s.core[0] == 0
    && (forall t :: cfg.IsIdle(t) ==> s.core[t] == t && (s.state[t].Running? || s.state[t].Stopped?))
  }

  ghost predicate Occupied(s: Sched, c: int) { exists t :: Active(s, t, c) }

  /** Each core is occupied by exactly one thread. */
  ghost predicate CoreInv(cfg: Config, s: Sched)
    requires HasShape(cfg, s)
  {
    && (forall c :: 0 <= c < cfg.cores ==> Occupied(s, c))
    && (forall t, u, c :: Active(s, t, c) && Active(s, u, c) ==> t == u)
    && (forall t, c :: Active(s, t, c) ==> 0 <= c < cfg.cores)
  }

  /** A thread's next field refers to nothing, or to a thread of the table. */
  ghost predicate LinkInv(cfg: Config, s: Sched)
    requires HasShape(cfg, s)
  {
    forall t :: 0 <= t < cfg.Slots() ==> -1 <= s.link[t] < cfg.Slots()
  }

  /** Every queued thread is matched by a unit of the semaphore or by an idle core about to yield. */
  ghost predicate WakeInv(cfg: Config, s: Sched)
    requires HasShape(cfg, s)
  {
    && (forall c :: c in s.armed ==> cfg.IsIdle(c) && s.state[c].Running?)
    && s.sem + |s.armed| >= |s.queue|
  }

  ghost predicate Inv(cfg: Config, s: Sched) {
    HasShape(cfg, s) && QueueInv(cfg, s) && SystemInv(cfg, s) && CoreInv(cfg, s) && LinkInv(cfg, s) && WakeInv(cfg, s)
  }

  // ------------------------------------------------------------------------
  // One step
  // ------------------------------------------------------------------------

  lemma {:induction false} CurrFinds(s: Sched, c: int, t: int, n: nat)
    requires t < n <= |s.state| == |s.core| && Active(s, t, c)
    requires forall u :: Active(s, u, c) ==> u == t
    ensures CurrAmong(s, c, n) == t
  {
    if n - 1 == t {
      var u := CurrAmong(s, c, n - 1);
      assert u >= 0 ==> Active(s, u, c);
    } else {
      CurrFinds(s, c, t, n - 1);
    }
  }

  /** thread_get_curr() finds the one thread that occupies the core, and never fails. */
  lemma CurrIsActive(cfg: Config, s: Sched, c: int)
    requires HasShape(cfg, s) && CoreInv(cfg, s) && 0 <= c < cfg.cores
    ensures Active(s, Curr(s, c), c)
    ensures forall t :: Active(s, t, c) ==> t == Curr(s, c)
  {
    assert Occupied(s, c);
    var t :| Active(s, t, c);
    CurrFinds(s, c, t, |s.state|);
  }

  lemma SameActive(cfg: Config, s: Sched, y: Sched)
    requires HasShape(cfg, s) && CoreInv(cfg, s) && HasShape(cfg, y)
    requires forall t, c :: Active(y, t, c) <==> Active(s, t, c)
    ensures CoreInv(cfg, y)
  {
    forall c | 0 <= c < cfg.cores
      ensures Occupied(y, c)
    {
      assert Occupied(s, c);
      var t :| Active(s, t, c);
      assert Active(y, t, c);
    }
  }

  /** The slot that thread_alloc() finds is a user slot, outside the queue and on no core. */
  lemma AllocFindsUser(cfg: Config, s: Sched)
    requires Inv(cfg, s)
    ensures var (s1, t) := Alloc(cfg, s);
            && Inv(cfg, s1) && s1.queue == s.queue && s1.sem == s.sem && s1.armed == s.armed
            && (t.None? ==> s1 == s)
            && (t.Some? ==> cfg.IsUser(t.value) && t.value !in s.queue && s1.state[t.value].Started?)
            && (t.Some? ==> s1.core[t.value] == if s.state[t.value].Zombie? then -1 else s.core[t.value])
  {
    var (s1, t) := Alloc(cfg, s);
    if t.Some? {
      SameActive(cfg, s, s1);
    }
  }

  /** `y` differs from `s` in thread `t` at most. */
  ghost predicate SameButFor(cfg: Config, s: Sched, y: Sched, t: int) {
    && HasShape(cfg, s) && HasShape(cfg, y)
    && forall u :: 0 <= u < cfg.Slots() && u != t ==>
         y.state[u] == s.state[u] && y.core[u] == s.core[u] && y.link[u] == s.link[u]
  }

  /** Slot `t` is the first one that a new thread can have. */
  ghost predicate FirstReusable(cfg: Config, s: Sched, t: int)
    requires HasShape(cfg, s)
  {
    && cfg.IsUser(t) && IsReusable(s.state[t])
    && forall u :: cfg.IsUser(u) && u < t ==> !IsReusable(s.state[u])
  }

  /**
   * thread_create() succeeds if and only if there are stack pages and a free slot or a zombie's.
   * The new thread gets the first such slot and is appended to the queue with one unit for it;
   * otherwise the queue is left alone. No other thread changes.
   */
  lemma CreateKeeps(cfg: Config, s: Sched, stacks: bool)
    requires Inv(cfg, s)
    ensures var (y, r) := Create(cfg, s, stacks);
            && Inv(cfg, y)
            && (r.Ok? <==> stacks && exists t :: cfg.IsUser(t) && IsReusable(s.state[t]))
            && (r.Ok? ==> FirstReusable(cfg, s, r.value) && r.value !in s.queue && y.queue == s.queue + [r.value])
            && (r.Ok? ==> y.state[r.value].Started? && y.sem == s.sem + 1 && SameButFor(cfg, s, y, r.value))
            && (r.Err? ==> r.error == EAGAIN && y.queue == s.queue && y.sem == s.sem)
            && y.armed == s.armed
  {
    AllocFindsUser(cfg, s);
    var (s1, t) := Alloc(cfg, s);
    if t.Some? && stacks {
      var y := Schedule(s1, t.value);
      SameActive(cfg, s1, y);
    }
  }

  /** thread_exit() terminates the caller, on its core, and does nothing else. */
  lemma ExitKeeps(cfg: Config, s: Sched, c: int)
    requires Inv(cfg, s) && 0 <= c < cfg.cores && cfg.IsUser(Curr(s, c))
    ensures var t, y := Curr(s, c), Exit(s, c);
            && Inv(cfg, y) && y.state[t].Terminated? && Active(y, t, c) && Curr(y, c) == t
            && SameButFor(cfg, s, y, t) && y.link == s.link
            && y.queue == s.queue && y.sem == s.sem && y.armed == s.armed
  {
    CurrIsActive(cfg, s, c);
    var y := Exit(s, c);
    SameActive(cfg, s, y);
    CurrIsActive(cfg, y, c);
    assert Active(y, Curr(s, c), c);
  }

  /** A zombie that the next field of `t` refers to is freed; without one nothing changes. */
  lemma ReapKeeps(cfg: Config, s: Sched, t: int)
    requires Inv(cfg, s) && 0 <= t < cfg.Slots()
    ensures var y, z := Reap(s, t), s.link[t];
            && Inv(cfg, y) && y.queue == s.queue && y.sem == s.sem && y.armed == s.armed
            && (z >= 0 && s.state[z].Zombie? ==>
                  y.state[z].NotStarted? && y.core[z] == -1 && y.link[t] == -1
                  && y.link == s.link[t := -1] && SameButFor(cfg, s, y.(link := s.link), z))
            && (!(z >= 0 && s.state[z].Zombie?) ==> y == s)
  {
    var y := Reap(s, t);
    SameActive(cfg, s, y);
  }

  /** An idle thread that comes out of semaphore_down() has taken a unit and is about to yield. */
  lemma ArmKeeps(cfg: Config, s: Sched, c: int)
    requires Inv(cfg, s) && s.sem > 0 && cfg.IsIdle(c) && s.state[c].Running? && c !in s.armed
    ensures var y := Arm(s, c);
            && Inv(cfg, y) && y.queue == s.queue && c in y.armed && y.armed - {c} == s.armed
            && y.sem + |y.armed| == s.sem + |s.armed| && y.sem < s.sem
            && SameButFor(cfg, s, y, -1)
  {
    var y := Arm(s, c);
    SameActive(cfg, s, y);
  }

  /** A waiting thread is on its core and not in the run queue, whose links it does not touch. */
  lemma SleepKeeps(cfg: Config, s: Sched, c: int, t: int)
    requires Inv(cfg, s) && 0 <= c < cfg.cores && Curr(s, c) >= 0 && -1 <= t < cfg.Slots()
    ensures var y := Sleep(s, c, t);
            && Inv(cfg, y) && y.queue == s.queue && Curr(s, c) !in s.queue && y.sem == s.sem && y.armed == s.armed
            && y.link[Curr(s, c)] == t && SameButFor(cfg, s, y, Curr(s, c)) && y.state == s.state && y.core == s.core
  {
    CurrIsActive(cfg, s, c);
    SameActive(cfg, s, Sleep(s, c, t));
  }

  /** What thread_yield() relies on. */
  predicate Yields(cfg: Config, s: Sched, c: int) {
    && HasShape(cfg, s) && 0 <= c < cfg.cores && Curr(s, c) >= 0
    && (s.queue != [] ==> 0 <= s.queue[0] < |s.state|)
  }

  /**
   * In a sound state thread_yield() finds a caller on each core but the first, the core's idle
   * thread or a user thread; a terminated caller is neither the idle thread nor the next one.
   */
  lemma YieldCaller(cfg: Config, s: Sched, c: int)
    requires Inv(cfg, s) && 1 <= c < cfg.cores
    ensures Yields(cfg, s, c)
    ensures Active(s, Curr(s, c), c) && (Curr(s, c) == c || cfg.IsUser(Curr(s, c)))
    ensures s.state[Curr(s, c)].Terminated? ==> Curr(s, c) != c && Curr(s, c) != NextThread(s, c)
    ensures s.queue != [] ==> cfg.IsUser(s.queue[0]) && s.queue[0] != Curr(s, c) && Curr(s, c) !in s.queue
    ensures Curr(s, c) != c ==> s.state[c].Stopped?
    ensures 0 <= NextThread(s, c) < cfg.Slots()
  {
    CurrIsActive(cfg, s, c);
    if s.queue != [] {
      assert s.queue[0] in s.queue;
    }
    if Curr(s, c) != c {
      assert !Active(s, c, c);
    }
  }

  /** The queue that thread_yield() leaves: the head is gone, and a live user caller is at the end. */
  function QueueAfter(s: Sched, c: int): seq<int>
    requires |s.state| == |s.core| && Curr(s, c) >= 0
  {
    if s.queue == [] then [] else
    s.queue[1..] + if Curr(s, c) != c && !s.state[Curr(s, c)].Terminated? then [Curr(s, c)] else []
  }

  /** What thread_yield() does, thread by thread. */
  ghost predicate Yielded(cfg: Config, s: Sched, c: int, y: Sched)
    requires Yields(cfg, s, c) && 0 <= NextThread(s, c) < cfg.Slots()
  {
    var curr, next := Curr(s, c), NextThread(s, c);
    var dead := s.state[curr].Terminated?;
    var back := s.queue != [] && curr != c && !dead;
    && HasShape(cfg, y) && y.queue == QueueAfter(s, c)
    && (forall t :: 0 <= t < cfg.Slots() && t != curr && t != next ==>
          y.state[t] == s.state[t] && y.core[t] == s.core[t] && y.link[t] == s.link[t])
    && y.state[next].Running? && y.core[next] == c
    && (curr != next ==>
          && y.state[curr] == (if dead then Zombie else Stopped)
          && y.core[curr] == (if back then -1 else c)
          && y.link[curr] == (if back then -1 else s.link[curr]))
    && y.link[next] == (if dead then curr else if s.queue != [] then -1 else s.link[next])
    && y.sem == (if back then s.sem + 1 else s.sem)
    && y.armed == (if curr == c then s.armed - {c} else s.armed)
  }

  lemma YieldMeets(cfg: Config, s: Sched, c: int)
    requires Inv(cfg, s) && 1 <= c < cfg.cores && Yields(cfg, s, c) && 0 <= NextThread(s, c) < cfg.Slots()
    ensures Yielded(cfg, s, c, Yield(cfg, s, c).0)
  {
    YieldCaller(cfg, s, c);
  }

  lemma YieldQueueMembers(cfg: Config, s: Sched, c: int, y: Sched)
    requires Inv(cfg, s) && 1 <= c < cfg.cores && Yields(cfg, s, c)
    requires 0 <= NextThread(s, c) < cfg.Slots() && Yielded(cfg, s, c, y)
    ensures Distinct(y.queue)
    ensures forall t :: t in y.queue <==>
              ((t in s.queue && t != s.queue[0]) ||
               (t == Curr(s, c) && s.queue != [] && t != c && !s.state[t].Terminated?))
  {
    YieldCaller(cfg, s, c);
    if s.queue != [] {
      Rotate(s.queue, if Curr(s, c) != c && !s.state[Curr(s, c)].Terminated? then [Curr(s, c)] else []);
    }
  }

  lemma YieldQueueInv(cfg: Config, s: Sched, c: int, y: Sched)
    requires Inv(cfg, s) && 1 <= c < cfg.cores && Yields(cfg, s, c)
    requires 0 <= NextThread(s, c) < cfg.Slots() && Yielded(cfg, s, c, y)
    ensures QueueInv(cfg, y)
  {
    YieldCaller(cfg, s, c);
    YieldQueueMembers(cfg, s, c, y);
  }

  /** After thread_yield() the core is occupied by the thread it was turned over to, alone. */
  lemma YieldCores(cfg: Config, s: Sched, c: int, y: Sched)
    requires Inv(cfg, s) && 1 <= c < cfg.cores && Yields(cfg, s, c)
    requires 0 <= NextThread(s, c) < cfg.Slots() && Yielded(cfg, s, c, y)
    ensures CoreInv(cfg, y) && SystemInv(cfg, y) && LinkInv(cfg, y)
    ensures Curr(y, c) == NextThread(s, c)
  {
    YieldCaller(cfg, s, c);
    CurrIsActive(cfg, s, c);
    var curr, next := Curr(s, c), NextThread(s, c);
    assert s.queue != [] ==> s.queue[0] in s.queue;
    forall t, d
      ensures Active(y, t, d) <==> if d == c then t == next else Active(s, t, d)
    {
      if t != next && t != curr {
        assert Active(y, t, d) == Active(s, t, d);
      }
    }
    forall d | 0 <= d < cfg.cores
      ensures Occupied(y, d)
    {
      assert Occupied(s, d);
      var u :| Active(s, u, d);
      assert Active(y, if d == c then next else u, d);
    }
    CurrIsActive(cfg, y, c);
  }

  lemma YieldWakes(cfg: Config, s: Sched, c: int, y: Sched)
    requires Inv(cfg, s) && 1 <= c < cfg.cores && Yields(cfg, s, c)
    requires 0 <= NextThread(s, c) < cfg.Slots() && Yielded(cfg, s, c, y)
    ensures WakeInv(cfg, y)
  {
    YieldCaller(cfg, s, c);
    CurrIsActive(cfg, s, c);
    assert c in s.armed ==> Active(s, c, c);
  }

  /** The master does not yield: the call is refused and changes nothing. */
  lemma MasterStays(cfg: Config, s: Sched)
    requires Inv(cfg, s)
    ensures Yields(cfg, s, 0) && Yield(cfg, s, 0) == (s, Fail(EINVAL))
  {
    CurrIsActive(cfg, s, 0);
    assert Active(s, 0, 0);
    assert s.queue != [] ==> s.queue[0] in s.queue;
  }

  /**
   * thread_yield() keeps the invariant. The queue loses its head and gains a live user caller,
   * and the core goes to the old head; with an empty queue it stays with a live caller and goes
   * to the idle thread otherwise. A terminated caller is left as a zombie to the next thread.
   */
  lemma YieldKeeps(cfg: Config, s: Sched, c: int)
    requires Inv(cfg, s) && 1 <= c < cfg.cores
    ensures Yields(cfg, s, c) && Yield(cfg, s, c).1.Done?
    ensures var y, t := Yield(cfg, s, c).0, Curr(s, c);
            && Inv(cfg, y) && y.queue == QueueAfter(s, c) && Curr(y, c) == NextThread(s, c)
            && Curr(y, c) == (if s.queue != [] then s.queue[0] else if s.state[t].Terminated? then c else t)
            && (s.state[t].Terminated? ==> y.state[t].Zombie? && y.link[Curr(y, c)] == t)
  {
    YieldCaller(cfg, s, c);
    YieldMeets(cfg, s, c);
    var y := Yield(cfg, s, c).0;
    YieldQueueInv(cfg, s, c, y);
    YieldCores(cfg, s, c, y);
    YieldWakes(cfg, s, c, y);
  }
}
