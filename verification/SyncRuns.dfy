/** Runs of the virtual syncs: every interleaving of allocations, releases and operations. */
module SyncRuns {
  import opened Kernel
  import opened Sequences
  import opened Syncs

  datatype Step =
    | Ask(key: Key, made: Result<int>)
    | Give(id: nat, dir: Direction, released: Status)
    | Begin(id: nat, dir: Direction)
    | End(id: nat)

  predicate Enabled(t: Table, s: Step) {
    && |t.handles| == |t.syncs|
    && match s
       case Ask(key, made) => true
       case Give(id, dir, released) => id < |t.syncs|
       case Begin(id, dir) => id < |t.syncs|
       case End(id) => id < |t.syncs| && t.syncs[id].busy
  }

  function Apply(t: Table, s: Step): (u: Table)
    requires Enabled(t, s)
    ensures |u.handles| == |u.syncs| == |t.syncs|
  {
    match s
    case Ask(key, made) => Alloc(t, key, made).0
    case Give(id, dir, released) => Release(t, id, dir, released).0
    case Begin(id, dir) => OperateBegin(t, id, dir).0
    case End(id) => OperateEnd(t, id)
  }

  predicate CanRun(t: Table, steps: seq<Step>)
    decreases |steps|
  {
    steps == [] || (Enabled(t, steps[0]) && CanRun(Apply(t, steps[0]), steps[1..]))
  }

  function After(t: Table, steps: seq<Step>): Table
    requires CanRun(t, steps)
    decreases |steps|
  {
    if steps == [] then t else After(Apply(t, steps[0]), steps[1..])
  }

  predicate IsInput(s: Sync) { s.used && s.key.dir == Input }

  predicate IsOutput(s: Sync) { s.used && s.key.dir == Output }

  /** Creations less unlinks, and opens less closes, are the entries in use. */
  ghost predicate Conserved(t: Table) {
    && t.counters.ncreates == t.counters.nunlinks + Count(t.syncs, IsInput)
    && t.counters.nopens == t.counters.ncloses + Count(t.syncs, IsOutput)
  }

  ghost predicate Boot(t: Table) {
    && |t.handles| == |t.syncs|
    && t.counters == Counters(0, 0, 0, 0)
    && forall i :: 0 <= i < |t.syncs| ==> !t.syncs[i].used && !t.syncs[i].busy && t.handles[i] == 0
  }

  /** The hardware refuses the last release of an entry. */
  predicate RefusesLast(t: Table, s: Step) {
    s.Give? && s.id < |t.syncs| && ReleasesLast(t.syncs[s.id], s.dir) && s.released.Fail?
  }

  /** It does so in no step of the run. */
  predicate NeverRefuses(t: Table, steps: seq<Step>)
    requires CanRun(t, steps)
    decreases |steps|
  {
    steps == [] || (!RefusesLast(t, steps[0]) && NeverRefuses(Apply(t, steps[0]), steps[1..]))
  }

  /** Reference counts are the handles held in every state of the run. */
  ghost predicate AccountedAlong(t: Table, steps: seq<Step>)
    requires CanRun(t, steps)
    decreases |steps|
  {
    Accounted(t) && (steps == [] || AccountedAlong(Apply(t, steps[0]), steps[1..]))
  }

  /** One entry changes, and with it the counts. */
  lemma CountsOf(t: Table, i: nat, s: Sync)
    requires i < |t.syncs|
    ensures Count(t.syncs[i := s], IsInput) ==
            Count(t.syncs, IsInput) - (if IsInput(t.syncs[i]) then 1 else 0) + if IsInput(s) then 1 else 0
    ensures Count(t.syncs[i := s], IsOutput) ==
            Count(t.syncs, IsOutput) - (if IsOutput(t.syncs[i]) then 1 else 0) + if IsOutput(s) then 1 else 0
  {
    CountUpdate(t.syncs, IsInput, i, s);
    CountUpdate(t.syncs, IsOutput, i, s);
  }

  lemma AllocConserves(t: Table, key: Key, made: Result<int>)
    requires Interned(t) && Conserved(t)
    ensures Conserved(Alloc(t, key, made).0)
  {
    var (u, r) := Alloc(t, key, made);
    if r.Ok? { CountsOf(t, r.value, u.syncs[r.value]); }
  }

  lemma ReleaseConserves(t: Table, id: nat, dir: Direction, released: Status)
    requires Interned(t) && Conserved(t) && id < |t.syncs|
    ensures Conserved(Release(t, id, dir, released).0)
  {
    var s := t.syncs[id];
    CountsOf(t, id, s.(refcount := s.refcount - 1));
    CountsOf(t, id, Freed(s.(refcount := s.refcount - 1)));
  }

  lemma StepConserves(t: Table, s: Step)
    requires Interned(t) && Conserved(t) && Enabled(t, s)
    ensures Conserved(Apply(t, s))
  {
    match s
    case Ask(key, made) => AllocConserves(t, key, made);
    case Give(id, dir, released) => ReleaseConserves(t, id, dir, released);
    case Begin(id, dir) => CountsOf(t, id, t.syncs[id].(busy := true));
    case End(id) => CountsOf(t, id, t.syncs[id].(busy := false));
  }

  lemma StepInterned(t: Table, s: Step)
    requires Interned(t) && Enabled(t, s)
    ensures Interned(Apply(t, s))
  {
    if s.Ask? {
      AllocFinds(t, s.key, s.made);
    } else if s.Give? {
      ReleaseInterned(t, s.id, s.dir, s.released);
    }
  }

  lemma StepAccountedIff(t: Table, s: Step)
    requires Interned(t) && Accounted(t) && Enabled(t, s)
    ensures Accounted(Apply(t, s)) <==> !RefusesLast(t, s)
  {
    if s.Ask? {
      AllocKeeps(t, s.key, s.made);
    } else if s.Give? {
      ReleaseKeepsIff(t, s.id, s.dir, s.released);
    } else {
      var u := Apply(t, s);
      forall i | 0 <= i < |u.syncs|
        ensures Balanced(u.syncs[i], u.handles[i])
      {
        assert Balanced(t.syncs[i], t.handles[i]);
      }
    }
  }

  lemma {:induction false} RunKeeps(t: Table, steps: seq<Step>)
    requires Interned(t) && Conserved(t) && CanRun(t, steps)
    ensures Interned(After(t, steps)) && Conserved(After(t, steps))
    decreases |steps|
  {
    if steps != [] {
      StepInterned(t, steps[0]);
      StepConserves(t, steps[0]);
      RunKeeps(Apply(t, steps[0]), steps[1..]);
    }
  }

  lemma {:induction false} RunAccountedIff(t: Table, steps: seq<Step>)
    requires Interned(t) && Accounted(t) && CanRun(t, steps)
    ensures AccountedAlong(t, steps) <==> NeverRefuses(t, steps)
    decreases |steps|
  {
    if steps != [] {
      StepInterned(t, steps[0]);
      StepAccountedIff(t, steps[0]);
      if !RefusesLast(t, steps[0]) {
        RunAccountedIff(Apply(t, steps[0]), steps[1..]);
      }
    }
  }

  /**
   * From boot on, whatever the hardware answers, no two entries in use have the same direction,
   * mode, master and set of nodes, an entry under operation is in use, and the counters agree
   * with the table. Reference counts are the handles held all along the run if and only if the
   * hardware refuses no last release.
   */
  lemma EveryRunIsInterned(t: Table, steps: seq<Step>)
    requires Boot(t) && CanRun(t, steps)
    ensures Interned(After(t, steps)) && Conserved(After(t, steps))
    ensures AccountedAlong(t, steps) <==> NeverRefuses(t, steps)
  {
    assert Conserved(t) by {
      CountNone(t.syncs, IsInput);
      CountNone(t.syncs, IsOutput);
    }
    RunKeeps(t, steps);
    RunAccountedIff(t, steps);
  }

  lemma AskAtBoot(t: Table, key: Key, fd: int)
    requires Boot(t) && 0 < |t.syncs|
    ensures var u := Apply(t, Ask(key, Ok(fd)));
            Interned(u) && Accounted(u) && u.syncs[0] == Sync(true, false, key, fd, 1)
  {
    assert IsUnused(t.syncs[0]);
    assert FirstIndex(t.syncs, IsUnused, 0) == 0 && Search(t, key) == |t.syncs|;
    AllocFinds(t, key, Ok(fd));
    AllocKeeps(t, key, Ok(fd));
  }

  lemma TwoSteps(t: Table, a: Step, u: Table, b: Step)
    requires Enabled(t, a) && u == Apply(t, a) && Enabled(u, b)
    ensures CanRun(t, [a, b]) && After(t, [a, b]) == Apply(u, b)
    ensures NeverRefuses(t, [a, b]) <==> !RefusesLast(t, a) && !RefusesLast(u, b)
  {
    assert [b][1..] == [] && CanRun(Apply(u, b), []) && CanRun(u, [b]);
    assert After(u, [b]) == Apply(u, b) && (NeverRefuses(u, [b]) <==> !RefusesLast(u, b));
    assert [a, b][1..] == [b];
  }

  /** It can refuse one: the first sync made after boot, given back. */
  lemma RefusalFromBoot(t: Table, key: Key, fd: int, error: Errno)
    requires Boot(t) && 0 < |t.syncs|
    ensures var steps := [Ask(key, Ok(fd)), Give(0, key.dir, Fail(error))];
            CanRun(t, steps) && !NeverRefuses(t, steps) && !Accounted(After(t, steps))
  {
    var u, give := Apply(t, Ask(key, Ok(fd))), Give(0, key.dir, Fail(error));
    AskAtBoot(t, key, fd);
    StepAccountedIff(u, give);
    TwoSteps(t, Ask(key, Ok(fd)), u, give);
  }

  // ---- What a handle stands for ----

  /** Somebody holds a handle of entry `i` all along the run. */
  predicate HeldAlong(t: Table, steps: seq<Step>, i: nat)
    requires CanRun(t, steps) && i < |t.syncs| == |t.handles|
    decreases |steps|
  {
    t.handles[i] > 0 && (steps == [] || HeldAlong(Apply(t, steps[0]), steps[1..], i))
  }

  lemma StepKeepsMeaning(t: Table, s: Step, i: nat)
    requires Interned(t) && Accounted(t) && Enabled(t, s)
    requires i < |t.syncs| && t.handles[i] > 0 && Apply(t, s).handles[i] > 0
    ensures var u := Apply(t, s);
            u.syncs[i].used && u.syncs[i].key == t.syncs[i].key && u.syncs[i].hwfd == t.syncs[i].hwfd
  {
    assert Balanced(t.syncs[i], t.handles[i]);
    if s.Ask? {
      AllocKeepsUsed(t, s.key, s.made, i);
    }
  }

  // ------------------------------------------------------------------------
  // One operation at a time
  // ------------------------------------------------------------------------

  /** An operation is under way on entry `i`. */
  predicate Underway(t: Table, i: nat) { i < |t.syncs| && t.syncs[i].used && t.syncs[i].busy }

  lemma StepKeepsUnderway(t: Table, s: Step, i: nat)
    requires Interned(t) && Enabled(t, s) && Underway(t, i) && s != End(i)
    ensures var u := Apply(t, s);
            Underway(u, i) && u.syncs[i].key == t.syncs[i].key && u.syncs[i].hwfd == t.syncs[i].hwfd
  {
    if s.Ask? { AllocKeepsUsed(t, s.key, s.made, i); }
  }

  lemma {:induction false} RunKeepsUnderway(t: Table, steps: seq<Step>, i: nat)
    requires Interned(t) && CanRun(t, steps) && Underway(t, i) && End(i) !in steps
    ensures var u := After(t, steps);
            && Interned(u) && Underway(u, i)
            && u.syncs[i].key == t.syncs[i].key && u.syncs[i].hwfd == t.syncs[i].hwfd
    decreases |steps|
  {
    if steps != [] {
      assert steps[0] in steps;
      StepInterned(t, steps[0]);
      StepKeepsUnderway(t, steps[0], i);
      RunKeepsUnderway(Apply(t, steps[0]), steps[1..], i);
    }
  }

  /**
   * From an operation that is admitted until it ends, in every run, no other operation is admitted
   * on the entry and no release of it succeeds; it stands for the same nodes and hardware sync.
   * When it has ended the entry is idle, and admits the next operation.
   */
  lemma OneOperationAtATime(t: Table, i: nat, dir: Direction, steps: seq<Step>)
    requires Interned(t) && i < |t.syncs| && OperateBegin(t, i, dir).1.Done?
    requires CanRun(OperateBegin(t, i, dir).0, steps) && End(i) !in steps
    ensures var u := After(OperateBegin(t, i, dir).0, steps);
            && Underway(u, i) && |u.handles| == |u.syncs|
            && u.syncs[i].key == t.syncs[i].key && u.syncs[i].hwfd == t.syncs[i].hwfd
            && (forall d :: OperateBegin(u, i, d).1.Fail?)
            && (forall d, hardware :: Release(u, i, d, hardware).1.Fail? && Release(u, i, d, hardware).0 == u)
            && OperateBegin(OperateEnd(u, i), i, dir).1.Done?
  {
    BeginIff(t, i, dir);
    StepInterned(t, Begin(i, dir));
    RunKeepsUnderway(OperateBegin(t, i, dir).0, steps, i);
    var u := After(OperateBegin(t, i, dir).0, steps);
    forall d
      ensures OperateBegin(u, i, d).1.Fail?
    {
      BeginIff(u, i, d);
    }
    BeginIff(OperateEnd(u, i), i, dir);
  }

  /** As long as somebody holds a handle, it stands for the same nodes and hardware sync. */
  lemma {:induction false} HandleKeepsMeaning(t: Table, steps: seq<Step>, i: nat)
    requires Interned(t) && Accounted(t) && CanRun(t, steps) && NeverRefuses(t, steps)
    requires i < |t.syncs| && HeldAlong(t, steps, i)
    ensures var u := After(t, steps);
            i < |u.syncs| && u.syncs[i].used && u.syncs[i].key == t.syncs[i].key && u.syncs[i].hwfd == t.syncs[i].hwfd
    decreases |steps|
  {
    if steps == [] {
      assert Balanced(t.syncs[i], t.handles[i]);
    } else {
      StepInterned(t, steps[0]);
      StepAccountedIff(t, steps[0]);
      StepKeepsMeaning(t, steps[0], i);
      HandleKeepsMeaning(Apply(t, steps[0]), steps[1..], i);
    }
  }

  /** A last release that the hardware refuses, tried again, and what two new callers then do. */
  function Refused(key: Key, i: nat, error: Errno, fd: Result<int>): seq<Step> {
    [Give(i, key.dir, Fail(error)), Give(i, key.dir, Done), Ask(key, fd), Ask(key, fd), Give(i, key.dir, Done)]
  }

  /**
   * After a refused release the count is one too low for good: the caller's second attempt
   * succeeds without the hardware, and the first of two later handles that is given back frees
   * the entry under the other.
   */
  lemma RefusedReleaseStrandsHandle(t: Table, i: nat, error: Errno, fd: Result<int>)
    requires Interned(t) && Accounted(t) && i < |t.syncs|
    requires t.syncs[i].used && !t.syncs[i].busy && t.syncs[i].refcount == 1
    ensures var steps := Refused(t.syncs[i].key, i, error, fd);
            && CanRun(t, steps)
            && i < |After(t, steps).syncs| == |After(t, steps).handles|
            && !After(t, steps).syncs[i].used
            && After(t, steps).handles[i] == 1
  {
    assert Balanced(t.syncs[i], t.handles[i]);
    var key := t.syncs[i].key;
    var s := t.syncs[i];
    var a := With(t, i, s.(refcount := 0), 1);
    var b := With(t, i, s.(refcount := -1), 0);
    var c := With(t, i, s.(refcount := 0), 1);
    var d := With(t, i, s.(refcount := 1), 2);
    AskAgain(t, i, s.(refcount := -1), 0, fd);
    AskAgain(t, i, s.(refcount := 0), 1, fd);
    var e := Apply(d, Give(i, key.dir, Done));
    FiveSteps(t, Refused(key, i, error, fd), a, b, c, d, e);
  }

  function With(t: Table, i: nat, s: Sync, handles: nat): (u: Table)
    requires i < |t.syncs| == |t.handles|
    ensures |u.handles| == |u.syncs| == |t.syncs|
  {
    t.(syncs := t.syncs[i := s], handles := t.handles[i := handles])
  }

  /** Asking again for the key of an entry in use adds to its count. */
  lemma AskAgain(t: Table, i: nat, s: Sync, handles: nat, made: Result<int>)
    requires Interned(t) && i < |t.syncs| && Matches(t.syncs[i], s.key) && s.used
    ensures Apply(With(t, i, s, handles), Ask(s.key, made)) ==
            With(t, i, s.(refcount := s.refcount + 1), handles + 1)
  {
    var u := With(t, i, s, handles);
    assert Matches(u.syncs[i], s.key);
    assert forall j :: 0 <= j < |t.syncs| && j != i ==> u.syncs[j] == t.syncs[j] && !Matches(t.syncs[j], s.key);
    assert Search(u, s.key) == i;
  }

  lemma FiveSteps(t: Table, s: seq<Step>, a: Table, b: Table, c: Table, d: Table, e: Table)
    requires |s| == 5
    requires Enabled(t, s[0]) && a == Apply(t, s[0])
    requires Enabled(a, s[1]) && b == Apply(a, s[1])
    requires Enabled(b, s[2]) && c == Apply(b, s[2])
    requires Enabled(c, s[3]) && d == Apply(c, s[3])
    requires Enabled(d, s[4]) && e == Apply(d, s[4])
    ensures CanRun(t, s) && After(t, s) == e
  {
    assert s[4..][1..] == [] && CanRun(d, s[4..]) && After(d, s[4..]) == e;
    assert s[3..][1..] == s[4..] && CanRun(c, s[3..]) && After(c, s[3..]) == e;
    assert s[2..][1..] == s[3..] && CanRun(b, s[2..]) && After(b, s[2..]) == e;
    assert s[1..][1..] == s[2..] && CanRun(a, s[1..]) && After(a, s[1..]) == e;
  }
}
