/**
 * The system-call board as the kernel runs it. Each method is the sequence of the steps of one
 * core, uninterrupted.
 */
module Dispatcher {
  import opened Kernel
  import opened SysBoard

  /** The core that a sweep of `n` positions from `from` finds, if any, and where it leaves sys_next_coreid. */
  function SweepFrom(cfg: Config, boards: seq<Board>, from: nat, n: nat): (r: (Option<nat>, nat))
    requires |boards| == cfg.cores && from < cfg.cores
    ensures r.1 < cfg.cores
    decreases n
  {
    if n == 0 then (None, from)
    else if boards[from].pending then (Some(from), After(cfg, from))
    else SweepFrom(cfg, boards, After(cfg, from), n - 1)
  }

  /** A sweep finds the nearest pending board in circular order, and stops just behind it. */
  lemma {:induction false} SweepFindsNearest(cfg: Config, boards: seq<Board>, from: nat, n: nat)
    requires |boards| == cfg.cores && from < cfg.cores && n <= cfg.cores
    decreases n
    ensures var (core, next) := SweepFrom(cfg, boards, from, n);
            && (core.Some? ==>
                  && core.value < cfg.cores && boards[core.value].pending && next == After(cfg, core.value)
                  && Distance(cfg, from, core.value) < n
                  && forall d :: 0 <= d < cfg.cores && boards[d].pending ==>
                       Distance(cfg, from, core.value) <= Distance(cfg, from, d))
            && (core.None? ==> forall d :: 0 <= d < cfg.cores && Distance(cfg, from, d) < n ==> !boards[d].pending)
  {
    if n > 0 && !boards[from].pending {
      var next := After(cfg, from);
      SweepFindsNearest(cfg, boards, next, n - 1);
      forall d: nat | d < cfg.cores
        ensures d != from ==> Distance(cfg, next, d) == Distance(cfg, from, d) - 1
      {
        DistanceStep(cfg, from, d);
      }
      var core := SweepFrom(cfg, boards, from, n).0;
      if core.Some? {
        DistanceStep(cfg, from, core.value);
        assert core.value != from;
      }
    } else if n > 0 {
      forall d: nat | d < cfg.cores
        ensures 0 <= Distance(cfg, from, d)
      {
        DistanceStep(cfg, from, d);
      }
    }
  }

  /** The loop of do_kcall2() is the sequence of the dispatcher's steps, when no board changes meanwhile. */
  lemma {:induction false} SweepIsLooks(cfg: Config, s: System, n: nat)
    requires HasShape(cfg, s) && s.master.Sweeping? && s.master.i + n == cfg.cores
    requires SweepFrom(cfg, s.boards, s.next, n).0.Some?
    decreases n
    ensures var (core, next) := SweepFrom(cfg, s.boards, s.next, n);
            exists y, k: nat :: Looks(cfg, s, k, y) && y.master == Serving(core.value) && y.next == next &&
              y.boards == s.boards
  {
    var y := LookAt(cfg, s);
    if s.boards[s.next].pending {
      assert Looks(cfg, s, 1, y) by { assert Looks(cfg, y, 0, y); }
    } else {
      SweepIsLooks(cfg, y, n - 1);
      var z, k: nat :| Looks(cfg, y, k, z) && z.master == Serving(SweepFrom(cfg, s.boards, s.next, n).0.value)
                       && z.next == SweepFrom(cfg, s.boards, s.next, n).1 && z.boards == s.boards;
      assert Looks(cfg, s, k + 1, z);
    }
  }

  /** `y` is `s` after `k` positions of a sweep. */
  predicate Looks(cfg: Config, s: System, k: nat, y: System)
    decreases k
  {
    if k == 0 then y == s else HasShape(cfg, s) && s.master.Sweeping? && Looks(cfg, LookAt(cfg, s), k - 1, y)
  }

  /** The steps lead from `s` to `y`, with no other step in between. */
  predicate Runs(cfg: Config, s: System, steps: seq<Step>, y: System)
    decreases |steps|
  {
    if steps == [] then y == s
    else Enabled(cfg, s, steps[0]) && Runs(cfg, Apply(cfg, s, steps[0]), steps[1..], y)
  }

  lemma {:induction false} RunsCompose(cfg: Config, s: System, a: seq<Step>, y: System, b: seq<Step>, z: System)
    requires Runs(cfg, s, a, y) && Runs(cfg, y, b, z)
    ensures Runs(cfg, s, a + b, z)
    decreases |a|
  {
    if a == [] {
      assert a + b == b;
    } else {
      RunsCompose(cfg, Apply(cfg, s, a[0]), a[1..], y, b, z);
      assert (a + b)[1..] == a[1..] + b;
    }
  }

  lemma OneStep(cfg: Config, s: System, step: Step)
    requires Enabled(cfg, s, step)
    ensures Runs(cfg, s, [step], Apply(cfg, s, step))
  {
    assert [step][1..] == [];
  }

  /** `k` looks of the sweep. */
  function LookSteps(k: nat): seq<Step> { if k == 0 then [] else [Look] + LookSteps(k - 1) }

  lemma {:induction false} LooksAreRun(cfg: Config, s: System, k: nat, y: System)
    requires Looks(cfg, s, k, y)
    ensures Runs(cfg, s, LookSteps(k), y)
    decreases k
  {
    if k > 0 {
      LooksAreRun(cfg, LookAt(cfg, s), k - 1, y);
      assert LookSteps(k)[1..] == LookSteps(k - 1);
    }
  }

  /** The steps of do_kcall() that post a request, and those that collect its reply. */
  function PostSteps(c: nat, request: Request): seq<Step> { [Fill(c, request), Mark(c), Raise(c)] }

  function CollectSteps(c: nat): seq<Step> { [Wake(c), Return(c)] }

  /** The steps of do_kcall2() with a sweep of `k` looks. */
  function ServeSteps(handler: Option<int>, k: nat): seq<Step> {
    [Take] + (LookSteps(k) + [Serve(handler), Clear, Store, Notify])
  }

  lemma PostRuns(cfg: Config, s: System, c: nat, request: Request)
    requires HasShape(cfg, s) && c < cfg.cores && s.client[c].Away?
    ensures var a := Apply(cfg, s, Fill(c, request));
            && Enabled(cfg, a, Mark(c))
            && var b := Apply(cfg, a, Mark(c));
               && Enabled(cfg, b, Raise(c)) && Runs(cfg, s, PostSteps(c, request), Apply(cfg, b, Raise(c)))
  {
    var a := Apply(cfg, s, Fill(c, request));
    var b := Apply(cfg, a, Mark(c));
    OneStep(cfg, b, Raise(c));
    assert [Mark(c), Raise(c)][1..] == [Raise(c)];
    assert PostSteps(c, request)[1..] == [Mark(c), Raise(c)];
  }

  lemma CollectRuns(cfg: Config, s: System, c: nat)
    requires HasShape(cfg, s) && c < cfg.cores && s.client[c].Blocked? && s.boards[c].sem > 0
    ensures var a := Apply(cfg, s, Wake(c));
            Enabled(cfg, a, Return(c)) && Runs(cfg, s, CollectSteps(c), Apply(cfg, a, Return(c)))
  {
    OneStep(cfg, Apply(cfg, s, Wake(c)), Return(c));
    assert CollectSteps(c)[1..] == [Return(c)];
  }

  /** Once a board is picked, the rest of do_kcall2() answers it. */
  lemma AnswerRuns(cfg: Config, s: System, handler: Option<int>) returns (y: System)
    requires HasShape(cfg, s) && s.master.Serving? && s.master.core < cfg.cores
    ensures Runs(cfg, s, [Serve(handler), Clear, Store, Notify], y) && HasShape(cfg, y)
    ensures y.master == Idle && y.syssem == s.syssem && y.next == s.next && y.client == s.client
    ensures var c, b := s.master.core, s.boards[s.master.core];
            y.boards == s.boards[c := b.(pending := false, ret := ReplyTo(cfg, b.request, handler), sem := b.sem + 1)]
  {
    var s1 := Apply(cfg, s, Serve(handler));
    var s2 := Apply(cfg, s1, Clear);
    var s3 := Apply(cfg, s2, Store);
    y := Apply(cfg, s3, Notify);
    OneStep(cfg, s3, Notify);
    assert [Store, Notify][1..] == [Notify];
    assert [Clear, Store, Notify][1..] == [Store, Notify];
    assert [Serve(handler), Clear, Store, Notify][1..] == [Clear, Store, Notify];
  }

  /** do_kcall2() from the semaphore to the notification, in a sound system: it finds a pending board and answers it. */
  lemma ServeRuns(cfg: Config, s: System, handler: Option<int>) returns (y: System, k: nat)
    requires Inv(cfg, s) && s.master.Idle? && 0 < s.syssem
    ensures Runs(cfg, s, ServeSteps(handler, k), y) && HasShape(cfg, y) && y.master == Idle && y.client == s.client
    ensures var (core, next) := SweepFrom(cfg, s.boards, s.next, cfg.cores);
            && core.Some? && core.value < cfg.cores && s.boards[core.value].pending
            && y.syssem == s.syssem - 1 && y.next == next
            && Answers(cfg, s.boards[core.value].request, handler, y.boards[core.value].ret)
            && var b := s.boards[core.value];
               y.boards ==
                 s.boards[core.value := b.(pending := false, ret := ReplyTo(cfg, b.request, handler), sem := b.sem + 1)]
  {
    var s1 := Apply(cfg, s, Take);
    TakeKeeps(cfg, s);
    SweepFindsNearest(cfg, s.boards, s.next, cfg.cores);
    assert SweepFrom(cfg, s.boards, s.next, cfg.cores).0.Some? by { SweepFinds(cfg, s1); }
    SweepIsLooks(cfg, s1, cfg.cores);
    var (core, next) := SweepFrom(cfg, s.boards, s.next, cfg.cores);
    var z, n: nat :| Looks(cfg, s1, n, z) && z.master == Serving(core.value) && z.next == next && z.boards == s1.boards;
    LooksKeep(cfg, s1, n, z);
    k := n;
    y := AnswerRuns(cfg, z, handler);
    ReplyAnswers(cfg, s.boards[core.value].request, handler);
    LooksAreRun(cfg, s1, n, z);
    RunsCompose(cfg, s1, LookSteps(n), z, [Serve(handler), Clear, Store, Notify], y);
    OneStep(cfg, s, Take);
    RunsCompose(cfg, s, [Take], s1, LookSteps(n) + [Serve(handler), Clear, Store, Notify], y);
  }

  lemma SweepFinds(cfg: Config, s: System)
    requires Inv(cfg, s) && s.master.Sweeping?
    ensures SweepFrom(cfg, s.boards, s.next, cfg.cores).0.Some?
  {
    SweepFindsNearest(cfg, s.boards, s.next, cfg.cores);
    var c :| 0 <= c < cfg.cores && s.boards[c].pending && Distance(cfg, s.next, c) < cfg.cores - s.master.i;
  }

  lemma {:induction false} LooksKeep(cfg: Config, s: System, k: nat, y: System)
    requires Looks(cfg, s, k, y) && HasShape(cfg, s)
    ensures HasShape(cfg, y) && y.syssem == s.syssem && y.client == s.client
    decreases k
  {
    if k > 0 {
      LooksKeep(cfg, LookAt(cfg, s), k - 1, y);
    }
  }

  class Boards {
    const cfg: Config
    const boards: array<Board>
    var syssem: nat
    var next: nat
    /** The system of which these are the shared variables. */
    ghost var sys: System

    ghost predicate Valid()
      reads this, boards
    {
      && boards.Length == cfg.cores && next < cfg.cores
      && HasShape(cfg, sys) && sys.boards == boards[..] && sys.syssem == syssem && sys.next == next
    }

    /** syscall_init() */
    constructor (cfg: Config)
      requires 0 < cfg.cores
      ensures this.cfg == cfg && Valid() && fresh(boards) && syssem == 0 && next == 0
      ensures Boot(cfg, sys)
    {
      this.cfg := cfg;
      var b := Board(Request(cfg.limit, []), false, Value(0), 0);
      boards := new Board[cfg.cores](i => b);
      syssem, next := 0, 0;
      sys := System(seq(cfg.cores, i => b), 0, 0, seq(cfg.cores, i => Away), Idle,
                    seq(cfg.cores, i => []), seq(cfg.cores, i => []), seq(cfg.cores, i => []), seq(cfg.cores, i => 0));
    }

    /** The posting part of do_kcall(), up to the wait. */
    method Post(c: nat, request: Request)
      requires Valid() && c < cfg.cores && sys.client[c].Away?
      modifies this`syssem, this`sys, boards
      ensures Valid() && Runs(cfg, old(sys), PostSteps(c, request), sys)
      ensures syssem == old(syssem) + 1
      ensures boards[..] == old(boards[..])[c := old(boards[c]).(request := request, pending := true)]
    {
      boards[c] := boards[c].(request := request);
      boards[c] := boards[c].(pending := true);
      syssem := syssem + 1;
      PostRuns(cfg, sys, c, request);
      sys := Apply(cfg, Apply(cfg, Apply(cfg, sys, Fill(c, request)), Mark(c)), Raise(c));
      assert sys.boards == boards[..];
    }

    /** The sweep of do_kcall2(): the core to serve, core 0 if no board is pending. */
    method Sweep() returns (coreid: nat)
      requires boards.Length == cfg.cores && next < cfg.cores
      modifies this`next
      ensures next < cfg.cores
      ensures var (core, after) := SweepFrom(cfg, boards[..], old(next), cfg.cores);
              next == after && coreid == if core.Some? then core.value else 0
    {
      coreid := 0;
      for i := 0 to cfg.cores
        invariant next < cfg.cores
        invariant SweepFrom(cfg, boards[..], old(next), cfg.cores) == SweepFrom(cfg, boards[..], next, cfg.cores - i)
      {
        if boards[next].pending {
          coreid := next;
          next := (next + 1) % cfg.cores;
          return;
        }
        next := (next + 1) % cfg.cores;
      }
    }

    /** do_kcall2(), once it has taken a unit of the semaphore. */
    method Serve(handler: Option<int>) returns (coreid: nat)
      requires Valid() && Inv(cfg, sys) && sys.master.Idle? && 0 < syssem
      modifies this, boards
      ensures Valid() && syssem == old(syssem) - 1
      ensures exists k: nat :: Runs(cfg, old(sys), ServeSteps(handler, k), sys)
      ensures coreid < cfg.cores && old(boards[..])[coreid].pending
      ensures SweepFrom(cfg, old(boards[..]), old(next), cfg.cores) == (Some(coreid), next)
      ensures var b := old(boards[..])[coreid];
              boards[..] == old(boards[..])[
                coreid := b.(pending := false, ret := ReplyTo(cfg, b.request, handler), sem := b.sem + 1)]
      ensures Answers(cfg, old(boards[..])[coreid].request, handler, boards[coreid].ret)
    {
      ghost var y, k := ServeRuns(cfg, sys, handler);
      syssem := syssem - 1;
      coreid := Sweep();
      var ret := ReplyTo(cfg, boards[coreid].request, handler);
      boards[coreid] := boards[coreid].(pending := false);
      boards[coreid] := boards[coreid].(ret := ret);
      ReplyAnswers(cfg, boards[coreid].request, handler);
      boards[coreid] := boards[coreid].(sem := boards[coreid].sem + 1);
      assert boards[..] == y.boards;
      sys := y;
    }

    /** The end of do_kcall(), once the core's own semaphore is up. */
    method Collect(c: nat) returns (ret: Reply)
      requires Valid() && c < cfg.cores && sys.client[c].Blocked? && 0 < boards[c].sem
      modifies this`sys, boards
      ensures Valid() && Runs(cfg, old(sys), CollectSteps(c), sys)
      ensures ret == old(boards[c].ret) && sys.returned[c] == old(sys.returned[c]) + [ret]
      ensures boards[..] == old(boards[..])[c := old(boards[c]).(sem := old(boards[c].sem) - 1)]
    {
      boards[c] := boards[c].(sem := boards[c].sem - 1);
      ret := boards[c].ret;
      CollectRuns(cfg, sys, c);
      sys := Apply(cfg, Apply(cfg, sys, Wake(c)), Return(c));
      assert sys.boards == boards[..];
    }
  }
}
