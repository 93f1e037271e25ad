/** The thread manager as the kernel runs it: an intrusive linked run queue over the thread table. */
module ThreadManager {
  import opened Kernel
  import opened Scheduler
  import opened Sequences
  import SchedulerRuns

  const NULL := -1

  /**
   * Head, tail, size and next fields represent the sequence `queue`; `link` is what the next
   * fields of the other threads hold.
   */
  ghost predicate Represents(next: seq<int>, head: int, tail: int, size: nat, queue: seq<int>, link: seq<int>) {
    && size == |queue|
    && Distinct(queue)
    && (forall i :: 0 <= i < |queue| ==> 0 <= queue[i] < |next|)
    && (0 < size ==> head == queue[0] && tail == queue[size - 1])
    && (forall i :: 0 <= i < |queue| - 1 ==> next[queue[i]] == queue[i + 1])
    && |link| == |next|
    && (forall t :: 0 <= t < |next| ==> link[t] == if t in queue then NULL else next[t])
  }

  /** Linking a thread behind the tail appends it. */
  lemma LinkAppends(next: seq<int>, head: int, tail: int, size: nat, queue: seq<int>, link: seq<int>, t: int,
      after: seq<int>)
    requires Represents(next, head, tail, size, queue, link) && 0 <= t < |next| && t !in queue
    requires after == (if size == 0 then next else next[tail := t])[t := NULL]
    ensures Represents(after, if size == 0 then t else head, t, size + 1, queue + [t], link[t := NULL])
  {
    var q := queue + [t];
    forall i | 0 <= i < |q| - 1
      ensures after[q[i]] == q[i + 1]
    {
      if i < |queue| - 1 {
        assert queue[i] != queue[size - 1] && queue[i] in queue;
      }
    }
    forall u | 0 <= u < |next|
      ensures u in q <==> u in queue || u == t
    {
    }
  }

  /** Following the next field of the head drops it. */
  lemma UnlinkDrops(next: seq<int>, head: int, tail: int, size: nat, queue: seq<int>, link: seq<int>)
    requires Represents(next, head, tail, size, queue, link) && 0 < size
    ensures Represents(next[head := NULL], next[head], tail, size - 1, queue[1..], link[head := NULL])
  {
    var q := queue[1..];
    assert forall i :: 0 <= i < |q| ==> q[i] == queue[i + 1];
    assert forall u :: u in queue && u != head ==> u in q;
    assert head !in q;
  }

  class Threads {
    const cfg: Config
    const state: array<ThreadState>
    const coreid: array<int>
    const next: array<int>
    var head: int
    var tail: int
    var size: nat
    var sem: nat
    var armed: set<int>

    /** The threads that the linked queue holds, in order, and the next fields outside it. */
    ghost var queue: seq<int>
    ghost var link: seq<int>

    ghost function View(): Sched
      reads this, state, coreid, next
    {
      Sched(state[..], coreid[..], queue, link, sem, armed)
    }

    ghost predicate Valid()
      reads this, state, coreid, next
    {
      && HasShape(cfg, View()) && next.Length == cfg.Slots() && coreid != next
      && Represents(next[..], head, tail, size, queue, link)
    }

    /** The table after thread_init(). */
    constructor (cfg: Config)
      requires cfg.Valid()
      ensures this.cfg == cfg && Valid() && fresh(state) && fresh(coreid) && fresh(next)
      ensures SchedulerRuns.Boot(cfg, View())
    {
      this.cfg := cfg;
      state := new ThreadState[cfg.Slots()](t => if t < cfg.cores then Running else NotStarted);
      coreid := new int[cfg.Slots()](t => if t < cfg.cores then t else 0);
      next := new int[cfg.Slots()](t => NULL);
      head, tail, size, sem, armed := NULL, NULL, 0, 0, {};
      queue, link := [], seq(cfg.Slots(), t => NULL);
    }

    /** thread_get_curr() */
    method ThreadGetCurr(c: int) returns (curr: int)
      requires state.Length == coreid.Length
      ensures curr == Curr(View(), c)
    {
      curr := NULL;
      var i := 0;
      while i < state.Length
        invariant 0 <= i <= state.Length
        invariant curr == CurrAmong(View(), c, i)
        invariant curr >= 0 ==> state[curr].Terminated?
      {
        if coreid[i] == c {
          if state[i].Running? {
            CurrStays(View(), c, i, i + 1);
            return i;
          }
          if state[i].Terminated? {
            curr := i;
          }
        }
        i := i + 1;
      }
    }

    /** thread_free() */
    method ThreadFree(t: int)
      requires Valid() && 0 <= t < cfg.Slots() && state[t].Zombie?
      modifies state, coreid
      ensures Valid() && View() == Free(old(View()), t)
    {
      coreid[t] := -1;
      state[t] := NotStarted;
    }

    /** thread_alloc() */
    method ThreadAlloc() returns (t: Option<int>)
      requires Valid()
      modifies state, coreid
      ensures Valid() && (View(), t) == Alloc(cfg, old(View()))
    {
      var i := 1;
      while i < state.Length && !IsReusable(state[i])
        invariant 1 <= i <= state.Length
        invariant forall k :: 1 <= k < i ==> !IsReusable(state[k])
      {
        i := i + 1;
      }
      assert FirstIndex(state[..], IsReusable, 1) == i;
      if i == state.Length { return None; }
      if state[i].Zombie? {
        ThreadFree(i);
      }
      state[i] := Started;
      return Some(i);
    }

    /** thread_schedule() */
    method ThreadSchedule(t: int)
      requires Valid() && cfg.IsUser(t) && t !in queue
      modifies this, coreid, next
      ensures Valid() && View() == Schedule(old(View()), t)
    {
      LinkAppends(next[..], head, tail, size, queue, link, t,
        (if size == 0 then next[..] else next[..][tail := t])[t := NULL]);
      if size == 0 {
        head := t;
      } else {
        next[tail] := t;
      }
      tail := t;
      next[t] := NULL;
      coreid[t] := -1;
      size := size + 1;
      sem := sem + 1;
      queue, link := queue + [t], link[t := NULL];
    }

    /** thread_create(): `kernelStack` and `userStack` say whether the page pool had a page for each. */
    method ThreadCreate(kernelStack: bool, userStack: bool) returns (r: Result<int>)
      requires Valid() && Inv(cfg, View())
      modifies this, state, coreid, next
      ensures Valid() && (View(), r) == Create(cfg, old(View()), kernelStack && userStack)
      ensures Inv(cfg, View())
    {
      CreateKeeps(cfg, View(), kernelStack && userStack);
      AllocFindsUser(cfg, View());
      var t := ThreadAlloc();
      if t.None? { return Err(EAGAIN); }
      if !kernelStack { return Err(EAGAIN); }
      if !userStack { return Err(EAGAIN); }
      ThreadSchedule(t.value);
      return Ok(t.value);
    }

    /** thread_exit(), up to its call of thread_yield(); only user threads exit. */
    method ThreadExit(c: int)
      requires Valid() && Inv(cfg, View()) && 0 <= c < cfg.cores && cfg.IsUser(Curr(View(), c))
      modifies state
      ensures Valid() && View() == Exit(old(View()), c) && Inv(cfg, View())
      ensures state[..] == old(state[..][Curr(View(), c) := Terminated])
    {
      ExitKeeps(cfg, View(), c);
      var curr := ThreadGetCurr(c);
      state[curr] := Terminated;
    }

    /** The removal of the head of the queue in thread_yield(). */
    method TakeHead(c: int) returns (t: int)
      requires Valid() && 0 < size
      modifies this, coreid, next
      ensures Valid() && t == old(queue)[0]
      ensures View() ==
          old(View()).(queue := old(queue)[1..], link := old(link)[t := NULL], core := old(coreid[..])[t := c])
    {
      UnlinkDrops(next[..], head, tail, size, queue, link);
      t := head;
      head := next[t];
      size := size - 1;
      next[t] := NULL;
      coreid[t] := c;
      queue, link := queue[1..], link[t := NULL];
    }

    /** The choice of the next thread in thread_yield(), with the caller put back into the queue. */
    method DispatchNext(c: int, curr: int, idle: int) returns (after: int)
      requires Valid() && Yields(cfg, View(), c) && idle == c && curr == Curr(View(), c)
      requires (curr == c || cfg.IsUser(curr)) && curr !in queue
      modifies this, state, coreid, next
      ensures Valid() && View() == Dispatch(old(View()), c) && after == NextThread(old(View()), c)
    {
      if 0 < size {
        after := TakeHead(c);
        if !state[curr].Terminated? {
          state[curr] := Stopped;
          if curr != idle {
            ThreadSchedule(curr);
          }
        }
      } else if !state[curr].Terminated? {
        after := curr;
      } else {
        after := idle;
      }
    }

    /** The change of thread states in thread_yield(), with the zombie left to the next thread. */
    method HandOverTo(curr: int, after: int)
      requires Valid() && 0 <= curr < cfg.Slots() && 0 <= after < cfg.Slots()
      requires state[curr].Terminated? ==> after !in queue && curr != after
      modifies this`link, state, next
      ensures Valid() && View() == HandOver(old(View()), curr, after)
    {
      if state[curr].Terminated? {
        state[curr] := Zombie;
        next[after] := curr;
        link := link[after := curr];
      }
      state[after] := Running;
    }

    /** The region of thread_yield() under the lock. */
    method YieldLocked(c: int) returns (status: Status)
      requires Valid() && MayYield(cfg, View(), c)
      modifies this, state, coreid, next
      ensures Valid() && (View(), status) == Yield(cfg, old(View()), c)
    {
      var curr := ThreadGetCurr(c);
      if curr == 0 { return Fail(EINVAL); }
      var idle := coreid[curr];
      var after := DispatchNext(c, curr, idle);
      HandOverTo(curr, after);
      if curr == idle {
        armed := armed - {c};
      }
      return Done;
    }

    /** thread_yield(), up to the context switch. */
    method ThreadYield(c: int) returns (status: Status)
      requires Valid() && Inv(cfg, View()) && 0 <= c < cfg.cores
      modifies this, state, coreid, next
      ensures Yields(cfg, old(View()), c)
      ensures Valid() && (View(), status) == Yield(cfg, old(View()), c) && Inv(cfg, View())
    {
      SoundMayYield(cfg, View(), c);
      status := YieldLocked(c);
    }

    /** The end of thread_yield() and the start of thread_start(), by the thread that now runs. */
    method ReapZombie(t: int)
      requires Valid() && Inv(cfg, View()) && 0 <= t < cfg.Slots() && t !in queue
      modifies this, state, coreid, next
      ensures Valid() && View() == Reap(old(View()), t) && Inv(cfg, View())
    {
      ReapKeeps(cfg, View(), t);
      if next[t] != NULL && state[next[t]].Zombie? {
        ThreadFree(next[t]);
        next[t] := NULL;
        link := link[t := NULL];
      }
    }

    /** cond_wait() by the thread on core `c`, with thread `first` at the head of the condition's queue. */
    method CondWait(c: int, first: int)
      requires Valid() && Inv(cfg, View()) && 0 <= c < cfg.cores && NULL <= first < cfg.Slots()
      modifies this`link, next
      ensures Curr(old(View()), c) >= 0
      ensures Valid() && View() == Sleep(old(View()), c, first) && Inv(cfg, View())
    {
      CurrIsActive(cfg, View(), c);
      SleepKeeps(cfg, View(), c, first);
      var curr := ThreadGetCurr(c);
      next[curr] := first;
      link := link[curr := first];
    }

    /** semaphore_down() of the idle thread of core `c`, at the point where the count is positive. */
    method SemaphoreDown(c: int)
      requires Valid() && Inv(cfg, View()) && cfg.IsIdle(c) && state[c].Running? && c !in armed && 0 < sem
      modifies this
      ensures Valid() && View() == Arm(old(View()), c) && Inv(cfg, View())
    {
      ArmKeeps(cfg, View(), c);
      sem := sem - 1;
      armed := armed + {c};
    }
  }

  /** The sanity checks of thread_yield() and of the functions it calls. */
  predicate MayYield(cfg: Config, s: Sched, c: int) {
    && Yields(cfg, s, c) && s.core[Curr(s, c)] == c
    && (Curr(s, c) != 0 ==>
          && (Curr(s, c) == c || cfg.IsUser(Curr(s, c))) && Curr(s, c) !in s.queue
          && 0 <= NextThread(s, c) < cfg.Slots()
          && (Dispatch(s, c).state[Curr(s, c)].Terminated? ==>
                NextThread(s, c) !in Dispatch(s, c).queue && Curr(s, c) != NextThread(s, c)))
  }

  /** They hold in every sound state, on every core, and the region leaves a sound state. */
  lemma SoundMayYield(cfg: Config, s: Sched, c: int)
    requires Inv(cfg, s) && 0 <= c < cfg.cores
    ensures MayYield(cfg, s, c)
    ensures Inv(cfg, Yield(cfg, s, c).0)
  {
    CurrIsActive(cfg, s, c);
    if c == 0 {
      assert Active(s, 0, 0);
      assert s.queue != [] ==> s.queue[0] in s.queue;
    } else {
      YieldCaller(cfg, s, c);
      YieldKeeps(cfg, s, c);
    }
  }

  lemma {:induction false} CurrStays(s: Sched, c: int, t: int, n: nat)
    requires 0 <= t < n <= |s.state| == |s.core| && CurrAmong(s, c, n) == t && s.state[t].Running?
    ensures CurrAmong(s, c, |s.state|) == t
    decreases |s.state| - n
  {
    if n < |s.state| {
      CurrStays(s, c, t, n + 1);
    }
  }
}
