/** The user page allocator over whole runs, beside the other clients of the kernel page pool. */
module UserPageRuns {
  import opened Kernel
  import opened MemoryLayout
  import opened PageTables
  import opened UserPages
  import opened UserPageProofs

  /** The machine, and the kernel pages that clients other than the page tables hold. */
  datatype Sys = Sys(vm: Vm, held: set<int>)

  /**
   * One atomic step. Hold, Release and Scribble are another kernel client that takes a page,
   * gives back a page it holds, or writes into one; Evict is the hardware dropping a TLB entry.
   */
  datatype Op =
    | Map(v: int, frame: int) | Unmap(v: int) | Alloc(v: int) | Free(v: int)
    | Link(v1: int, v2: int, stray: Entry) | Inval(v: int)
    | Fault(addr: int, data: bool, stray: Entry) | Evict(page: Page, data: bool)
    | TakeFrame | GiveFrame(frame: int)
    | Hold | Release(k: int) | Scribble(k: int, contents: seq<Entry>)

  function Apply(lay: Layout, x: Sys, op: Op): Sys
    requires Good(lay, x.vm, x.held)
  {
    var s, g := x.vm, Geo(lay);
    match op
    case Map(v, frame) => x.(vm := UpageMap(lay, s, v, frame).0)
    case Unmap(v) => x.(vm := UpageUnmap(lay, s, v).0)
    case Alloc(v) => x.(vm := UpageAlloc(lay, s, v).0)
    case Free(v) => x.(vm := UpageFree(lay, s, v).0)
    case Link(v1, v2, stray) => if lay.IsAddress(v1) then x.(vm := UpageLink(lay, s, v1, v2, stray).0) else x
    case Inval(v) => x.(vm := UpageInval(lay, s, v).0)
    case Fault(addr, data, stray) =>
      if lay.IsAddress(addr) then x.(vm := TlbFault(g, s, PageOf(lay, addr), data, stray)) else x
    case Evict(page, data) => x.(vm := if data then s.(dtlb := s.dtlb - {page}) else s.(itlb := s.itlb - {page}))
    case TakeFrame => x.(vm := s.(frames := FrameAlloc(g, s.frames).0))
    case GiveFrame(frame) => x.(vm := s.(frames := FrameFree(g, s.frames, frame).0))
    case Hold =>
      var (kpages, k) := KpageGet(s.kpages);
      if k.Some? then Sys(s.(kpages := kpages), x.held + {k.value}) else x
    case Release(k) =>
      if k in x.held then Sys(s.(kpages := KpagePut(s.kpages, k).0), x.held - {k}) else x
    case Scribble(k, contents) =>
      if k in x.held && |contents| == lay.entries then x.(vm := s.(kmem := s.kmem[k := contents])) else x
  }

  // ------------------------------------------------------------------------
  // One step
  // ------------------------------------------------------------------------

  lemma FewerCached(g: Geometry, s: Vm, held: set<int>, t: Vm)
    requires Inv(g, s, held)
    requires t == s.(itlb := t.itlb, dtlb := t.dtlb) && Coherent(g, t)
    ensures Inv(g, t, held)
    ensures forall q :: IsUser(g, q) ==> Walk(g, t, q) == Walk(g, s, q)
  {
    SameTablesSameWalk(g, s, t);
  }

  /** A fault caches what the tables say; for a user page, memory outside the pool is never read. */
  lemma FaultCachesWalk(g: Geometry, s: Vm, p: Page, data: bool, stray: Entry)
    requires TablesInPool(g, s) && Coherent(g, s) && InSpace(g, p)
    ensures Coherent(g, TlbFault(g, s, p, data, stray))
  {
    var t := TlbFault(g, s, p, data, stray);
    if IsUser(g, p) && s.pgdir[p.dir].present {
      assert UserTable(g, s, p.dir);
    }
    assert forall q :: IsUser(g, q) ==> Walk(g, t, q) == Walk(g, s, q);
  }

  /**
   * What a fault at a user address does: the frame of the page goes into the TLB that faulted,
   * and the other one stays; for a page that is not mapped both stay.
   */
  ghost predicate Cached(lay: Layout, s: Vm, addr: int, data: bool, t: Vm)
    requires lay.Valid() && HasShape(Geo(lay), s)
  {
    var v := addr - addr % lay.pageSize;
    && (v in Mapping(lay, s) && data ==>
          t.dtlb == s.dtlb[PageOf(lay, v) := Mapping(lay, s)[v]] && t.itlb == s.itlb)
    && (v in Mapping(lay, s) && !data ==>
          t.itlb == s.itlb[PageOf(lay, v) := Mapping(lay, s)[v]] && t.dtlb == s.dtlb)
    && (v !in Mapping(lay, s) ==> t.itlb == s.itlb && t.dtlb == s.dtlb)
    && t.(itlb := s.itlb, dtlb := s.dtlb) == s
  }

  lemma FaultCachesMapping(lay: Layout, s: Vm, addr: int, data: bool, stray: Entry)
    requires lay.Valid() && TablesInPool(Geo(lay), s) && lay.IsUaddr(addr)
    ensures lay.IsAddress(addr) && Cached(lay, s, addr, data, TlbFault(Geo(lay), s, PageOf(lay, addr), data, stray))
  {
    PageBaseIsUpage(lay, addr);
    PageBaseIsAddress(lay, addr);
    var p, v := PageOf(lay, addr), addr - addr % lay.pageSize;
    assert PageOf(lay, v) == p;
    WalkIsLookup(Geo(lay), s, p, stray);
  }

  /** For a user page, memory outside the pool is never read. */
  lemma WalkIsLookup(g: Geometry, s: Vm, p: Page, stray: Entry)
    requires TablesInPool(g, s) && IsUser(g, p)
    ensures Lookup(g, s, p, stray) == Walk(g, s, p)
  {
    assert s.pgdir[p.dir].present ==> UserTable(g, s, p.dir);
  }

  /** Another client's page changes hands or contents: user tables do not notice. */
  lemma ForeignPage(g: Geometry, s: Vm, held: set<int>, t: Vm, held': set<int>, k: int)
    requires Inv(g, s, held) && 0 <= k < g.numKpages
    requires |t.kpages| == |t.kmem| == g.numKpages
    requires t == s.(kpages := s.kpages[k := t.kpages[k]], kmem := s.kmem[k := t.kmem[k]])
    requires |t.kmem[k]| == g.entries
    requires forall d :: UserTable(g, s, d) ==> Tab(g, s, d) != k
    requires held' - {k} == held - {k}
    requires t.kpages[k] == if k in held' then 1 else 0
    ensures Inv(g, t, held')
    ensures forall q :: IsUser(g, q) ==> Walk(g, t, q) == Walk(g, s, q)
  {
    SameTablesSameWalk(g, s, t);
    forall m | m != k
      ensures m in held' <==> m in held
    {
      assert m in held' - {k} <==> m in held - {k};
    }
  }

  /** What the map from addresses to frames becomes in one step. */
  function MappingAfter(lay: Layout, x: Sys, op: Op): map<int, int>
    requires Good(lay, x.vm, x.held)
  {
    var s, m := x.vm, Mapping(lay, x.vm);
    match op
    case Map(v, frame) => if CanMap(lay, s, v) then m[v := frame] else m
    case Unmap(v) => m - {v}
    case Free(v) => m - {v}
    case Alloc(v) =>
      if CanMap(lay, s, v) && false in s.frames then m[v := FrameAlloc(Geo(lay), s.frames).1.value] else m
    case Link(v1, v2, stray) =>
      if !lay.IsAddress(v1) || !CanMap(lay, s, v2) then m else
      var frame := Lookup(Geo(lay), s, PageOf(lay, v1), stray);
      if frame.Some? then m[v2 := frame.value] else m
    case _ => m
  }

  lemma StepOther(lay: Layout, x: Sys, op: Op)
    requires Good(lay, x.vm, x.held)
    requires op.Hold? || op.Release? || op.Scribble?
    ensures var y := Apply(lay, x, op); Good(lay, y.vm, y.held) && Mapping(lay, y.vm) == Mapping(lay, x.vm)
  {
    var y, g := Apply(lay, x, op), Geo(lay);
    if y != x {
      var k :=
        match op case Hold => KpageGet(x.vm.kpages).1.value case Release(k) => k case Scribble(k, _) => k case _ => 0;
      ForeignPage(g, x.vm, x.held, y.vm, y.held, k);
      SameWalkSameMapping(lay, x.vm, y.vm);
    }
  }

  lemma StepFault(lay: Layout, x: Sys, op: Op)
    requires Good(lay, x.vm, x.held) && op.Fault?
    ensures var y := Apply(lay, x, op); Good(lay, y.vm, y.held) && Mapping(lay, y.vm) == Mapping(lay, x.vm)
  {
    if lay.IsAddress(op.addr) {
      var t := TlbFault(Geo(lay), x.vm, PageOf(lay, op.addr), op.data, op.stray);
      FaultCachesWalk(Geo(lay), x.vm, PageOf(lay, op.addr), op.data, op.stray);
      FewerCached(Geo(lay), x.vm, x.held, t);
      SameWalkSameMapping(lay, x.vm, t);
    }
  }

  lemma StepDrop(lay: Layout, x: Sys, t: Vm, ps: set<Page>, qs: set<Page>)
    requires Good(lay, x.vm, x.held)
    requires t == x.vm.(itlb := x.vm.itlb - ps, dtlb := x.vm.dtlb - qs)
    ensures Good(lay, t, x.held) && Mapping(lay, t) == Mapping(lay, x.vm)
  {
    var g := Geo(lay);
    assert forall q :: IsUser(g, q) ==> Walk(g, t, q) == Walk(g, x.vm, q);
    FewerCached(g, x.vm, x.held, t);
    SameWalkSameMapping(lay, x.vm, t);
  }

  lemma StepFrames(lay: Layout, x: Sys, op: Op)
    requires Good(lay, x.vm, x.held)
    requires op.TakeFrame? || op.GiveFrame?
    ensures var y := Apply(lay, x, op); Good(lay, y.vm, y.held) && Mapping(lay, y.vm) == Mapping(lay, x.vm)
  {
    var y := Apply(lay, x, op);
    WithFramesKeeps(Geo(lay), x.vm, x.held, y.vm.frames);
    assert y.vm == x.vm.(frames := y.vm.frames);
    SameWalkSameMapping(lay, x.vm, y.vm);
  }

  lemma StepLink(lay: Layout, x: Sys, v1: int, v2: int, stray: Entry)
    requires Good(lay, x.vm, x.held)
    ensures var y := Apply(lay, x, Link(v1, v2, stray));
            Good(lay, y.vm, y.held) && Mapping(lay, y.vm) == MappingAfter(lay, x, Link(v1, v2, stray))
  {
    if lay.IsAddress(v1) {
      UpageLinkRefines(lay, x.vm, x.held, v1, v2, stray);
      var frame := Lookup(Geo(lay), x.vm, PageOf(lay, v1), stray);
      if frame.Some? {
        UpageMapRefines(lay, x.vm, x.held, v2, frame.value);
      }
    }
  }

  lemma StepEvict(lay: Layout, x: Sys, page: Page, data: bool)
    requires Good(lay, x.vm, x.held)
    ensures var y := Apply(lay, x, Evict(page, data));
            Good(lay, y.vm, y.held) && Mapping(lay, y.vm) == MappingAfter(lay, x, Evict(page, data))
  {
    var ps, qs := if data then {} else {page}, if data then {page} else {};
    assert x.vm.itlb - {} == x.vm.itlb && x.vm.dtlb - {} == x.vm.dtlb;
    StepDrop(lay, x, Apply(lay, x, Evict(page, data)).vm, ps, qs);
  }

  lemma StepUpage(lay: Layout, x: Sys, op: Op)
    requires Good(lay, x.vm, x.held)
    requires op.Map? || op.Unmap? || op.Alloc? || op.Free?
    ensures var y := Apply(lay, x, op); Good(lay, y.vm, y.held) && Mapping(lay, y.vm) == MappingAfter(lay, x, op)
  {
    if op.Map? {
      UpageMapRefines(lay, x.vm, x.held, op.v, op.frame);
    } else if op.Unmap? {
      UpageUnmapRefines(lay, x.vm, x.held, op.v);
    } else if op.Alloc? {
      UpageAllocRefines(lay, x.vm, x.held, op.v);
    } else {
      UpageFreeRefines(lay, x.vm, x.held, op.v);
    }
  }

  /** upage_inval() drops one page from the buffers, or none. */
  lemma InvalDrops(lay: Layout, s: Vm, v: int) returns (ps: set<Page>)
    requires lay.Valid()
    ensures UpageInval(lay, s, v).0 == s.(itlb := s.itlb - ps, dtlb := s.dtlb - ps)
  {
    var page := v - v % lay.pageSize;
    ps := if lay.IsUaddr(page) then {PageOf(lay, page)} else {};
    assert s.itlb - {} == s.itlb && s.dtlb - {} == s.dtlb;
  }

  /** Every step keeps the invariant and does to the map exactly what its operation says. */
  lemma StepRefines(lay: Layout, x: Sys, op: Op)
    requires Good(lay, x.vm, x.held)
    ensures var y := Apply(lay, x, op); Good(lay, y.vm, y.held) && Mapping(lay, y.vm) == MappingAfter(lay, x, op)
  {
    if op.Map? || op.Unmap? || op.Alloc? || op.Free? {
      StepUpage(lay, x, op);
    } else if op.Link? {
      StepLink(lay, x, op.v1, op.v2, op.stray);
    } else if op.Inval? {
      var ps := InvalDrops(lay, x.vm, op.v);
      StepDrop(lay, x, Apply(lay, x, op).vm, ps, ps);
    } else if op.Fault? {
      StepFault(lay, x, op);
    } else if op.Evict? {
      StepEvict(lay, x, op.page, op.data);
    } else if op.TakeFrame? || op.GiveFrame? {
      StepFrames(lay, x, op);
    } else {
      StepOther(lay, x, op);
    }
  }

  // ------------------------------------------------------------------------
  // Whole runs
  // ------------------------------------------------------------------------

  /** `y` follows from `x` by `op`; the operations are defined on states with sound tables. */
  ghost predicate Follows(lay: Layout, x: Sys, op: Op, y: Sys) {
    Good(lay, x.vm, x.held) ==> y == Apply(lay, x, op)
  }

  /** The states of a run, from its first to its last. */
  ghost predicate IsRun(lay: Layout, xs: seq<Sys>, ops: seq<Op>) {
    |xs| == |ops| + 1 && forall i :: 0 <= i < |ops| ==> Follows(lay, xs[i], ops[i], xs[i + 1])
  }

  lemma StepKeepsGood(lay: Layout, x: Sys, op: Op, y: Sys)
    requires Good(lay, x.vm, x.held) && Follows(lay, x, op, y)
    ensures Good(lay, y.vm, y.held)
  {
    StepRefines(lay, x, op);
  }

  lemma {:induction false} RunKeepsGood(lay: Layout, xs: seq<Sys>, ops: seq<Op>, i: nat)
    requires IsRun(lay, xs, ops) && i < |xs| && Good(lay, xs[0].vm, xs[0].held)
    ensures Good(lay, xs[i].vm, xs[i].held)
  {
    if i > 0 {
      RunKeepsGood(lay, xs, ops, i - 1);
      StepKeepsGood(lay, xs[i - 1], ops[i - 1], xs[i]);
    }
  }

  /** The state at system start: no user table, no kernel page, no frame and no cached page in use. */
  ghost predicate Boot(lay: Layout, s: Vm) {
    && lay.Valid() && HasShape(Geo(lay), s)
    && (forall d :: !UserTable(Geo(lay), s, d))
    && (forall k :: 0 <= k < |s.kpages| ==> s.kpages[k] == 0)
    && (forall f :: 0 <= f < |s.frames| ==> !s.frames[f])
    && s.itlb == map[] && s.dtlb == map[]
  }

  /** The guarantees about tables, kernel pages and cached translations, spelled out. */
  ghost predicate Sound(lay: Layout, y: Sys)
    requires lay.Valid() && HasShape(Geo(lay), y.vm)
  {
    var g, s := Geo(lay), y.vm;
    // Each user table is a pool page with one reference, shared with no one.
    && (forall d :: UserTable(g, s, d) ==>
          0 <= Tab(g, s, d) < lay.numKpages && s.kpages[Tab(g, s, d)] == 1 && Tab(g, s, d) !in y.held)
    && (forall d, e :: UserTable(g, s, d) && UserTable(g, s, e) && d != e ==> Tab(g, s, d) != Tab(g, s, e))
    // Unless tables are kept on purpose, each has an entry in use: an empty table has been reclaimed.
    && (!lay.fastMemory ==> forall d :: UserTable(g, s, d) ==>
          exists j :: 0 <= j < lay.pgtabLength && s.kmem[Tab(g, s, d)][j].present)
    // No kernel page leaks: a referenced page is a user table or held by another client.
    && (forall k :: 0 <= k < lay.numKpages && s.kpages[k] != 0 ==> k in y.held || exists d :: Names(g, s, d, k))
    // A cached translation of a user page is the one the tables give now.
    && (forall v :: lay.IsUpage(v) && PageOf(lay, v) in s.itlb ==>
          v in Mapping(lay, s) && s.itlb[PageOf(lay, v)] == Mapping(lay, s)[v])
    && (forall v :: lay.IsUpage(v) && PageOf(lay, v) in s.dtlb ==>
          v in Mapping(lay, s) && s.dtlb[PageOf(lay, v)] == Mapping(lay, s)[v])
  }

  lemma BootIsGood(lay: Layout, s: Vm)
    requires Boot(lay, s)
    ensures Good(lay, s, {}) && Mapping(lay, s) == map[] && Allocated(lay, s) == {}
  {
    var g := Geo(lay);
    forall q | IsUser(g, q)
      ensures Walk(g, s, q).None?
    {
      assert !UserTable(g, s, q.dir);
    }
  }

  /** Every state of every run from system start is sound. */
  lemma ReachableIsSound(lay: Layout, s: Vm, xs: seq<Sys>, ops: seq<Op>, i: nat)
    requires Boot(lay, s) && IsRun(lay, xs, ops) && xs[0] == Sys(s, {}) && i < |xs|
    ensures HasShape(Geo(lay), xs[i].vm) && Sound(lay, xs[i])
  {
    BootIsGood(lay, s);
    RunKeepsGood(lay, xs, ops, i);
    GoodIsSound(lay, xs[i]);
  }

  lemma GoodIsSound(lay: Layout, y: Sys)
    requires Good(lay, y.vm, y.held)
    ensures Sound(lay, y)
  {
  }

  // ------------------------------------------------------------------------
  // Frame ownership
  // ------------------------------------------------------------------------

  /** No two pages of `m` share a frame, and the frames of `m` are exactly those in `a`. */
  ghost predicate Owns(m: map<int, int>, a: set<int>) {
    && (forall v, w :: v in m && w in m && v != w ==> m[v] != m[w])
    && (forall v :: v in m ==> m[v] in a)
    && (forall f :: f in a ==> exists v :: v in m && m[v] == f)
  }

  lemma InsertOwns(m: map<int, int>, a: set<int>, v: int, f: int)
    requires Owns(m, a) && v !in m && f !in a
    ensures Owns(m[v := f], a + {f})
  {
    var n := m[v := f];
    forall g | g in a + {f}
      ensures exists w :: w in n && n[w] == g
    {
      if g == f {
        assert v in n && n[v] == g;
      } else {
        var w :| w in m && m[w] == g;
        assert w in n && n[w] == g;
      }
    }
  }

  lemma RemoveOwns(m: map<int, int>, a: set<int>, v: int)
    requires Owns(m, a) && v in m
    ensures Owns(m - {v}, a - {m[v]})
  {
    var n := m - {v};
    forall g | g in a - {m[v]}
      ensures exists w :: w in n && n[w] == g
    {
      var w :| w in m && m[w] == g;
      assert w in n && n[w] == g;
    }
  }

  /** No two pages share a frame, and the mapped frames are exactly the allocated ones. */
  ghost predicate Exclusive(lay: Layout, s: Vm)
    requires lay.Valid() && HasShape(Geo(lay), s)
  {
    Owns(Mapping(lay, s), Allocated(lay, s))
  }

  /** Steps that touch frames only through upage_alloc() and upage_free(). */
  predicate AllocatesOnly(op: Op) { !op.Map? && !op.Unmap? && !op.Link? && !op.TakeFrame? && !op.GiveFrame? }

  lemma AllocKeepsExclusive(lay: Layout, s: Vm, held: set<int>, v: int)
    requires Good(lay, s, held) && Exclusive(lay, s)
    ensures Good(lay, UpageAlloc(lay, s, v).0, held) && Exclusive(lay, UpageAlloc(lay, s, v).0)
  {
    UpageAllocRefines(lay, s, held, v);
    var (t, status) := UpageAlloc(lay, s, v);
    if status.Done? {
      InsertOwns(Mapping(lay, s), Allocated(lay, s), v, Mapping(lay, t)[v]);
    }
  }

  lemma FreeKeepsExclusive(lay: Layout, s: Vm, held: set<int>, v: int)
    requires Good(lay, s, held) && Exclusive(lay, s)
    ensures Good(lay, UpageFree(lay, s, v).0, held) && Exclusive(lay, UpageFree(lay, s, v).0)
    ensures UpageFree(lay, s, v).1 != Fail(EIO)
  {
    UpageFreeRefines(lay, s, held, v);
    if v in Mapping(lay, s) {
      RemoveOwns(Mapping(lay, s), Allocated(lay, s), v);
    } else {
      assert Mapping(lay, s) - {v} == Mapping(lay, s);
    }
  }

  lemma StepKeepsExclusive(lay: Layout, x: Sys, op: Op, y: Sys)
    requires Good(lay, x.vm, x.held) && Exclusive(lay, x.vm) && AllocatesOnly(op) && Follows(lay, x, op, y)
    ensures Good(lay, y.vm, y.held) && Exclusive(lay, y.vm)
  {
    if op.Alloc? {
      AllocKeepsExclusive(lay, x.vm, x.held, op.v);
    } else if op.Free? {
      FreeKeepsExclusive(lay, x.vm, x.held, op.v);
    } else {
      StepRefines(lay, x, op);
      assert Allocated(lay, y.vm) == Allocated(lay, x.vm);
    }
  }

  /**
   * In a run that allocates and frees only, frames are owned by one page each, no frame leaks,
   * and upage_free() never reports an I/O error.
   */
  lemma {:induction false} AllocatingRunIsExclusive(lay: Layout, s: Vm, xs: seq<Sys>, ops: seq<Op>, i: nat, v: int)
    requires Boot(lay, s) && IsRun(lay, xs, ops) && xs[0] == Sys(s, {}) && i < |xs|
    requires forall k :: 0 <= k < |ops| ==> AllocatesOnly(ops[k])
    ensures Good(lay, xs[i].vm, xs[i].held) && Exclusive(lay, xs[i].vm)
    ensures UpageFree(lay, xs[i].vm, v).1 != Fail(EIO)
  {
    if i == 0 {
      BootIsGood(lay, s);
    } else {
      AllocatingRunIsExclusive(lay, s, xs, ops, i - 1, v);
      StepKeepsExclusive(lay, xs[i - 1], ops[i - 1], xs[i]);
    }
    FreeKeepsExclusive(lay, xs[i].vm, xs[i].held, v);
  }

  /** Every frame of `m` is in `a`. */
  ghost predicate Within(m: map<int, int>, a: set<int>) { forall v :: v in m ==> m[v] in a }

  /** Page `v` has its frame for itself. */
  ghost predicate Sole(m: map<int, int>, v: int)
    requires v in m
  {
    forall w :: w in m && w != v ==> m[w] != m[v]
  }

  lemma RemoveWithinIff(m: map<int, int>, a: set<int>, v: int)
    requires Within(m, a) && v in m
    ensures Within(m - {v}, a - {m[v]}) <==> Sole(m, v)
  {
    var n := m - {v};
    if !Sole(m, v) {
      var w :| w in m && w != v && m[w] == m[v];
      assert w in n && n[w] !in a - {m[v]};
    }
  }

  /** Every mapped frame is allocated. */
  ghost predicate Backed(lay: Layout, s: Vm)
    requires lay.Valid() && HasShape(Geo(lay), s)
  {
    Within(Mapping(lay, s), Allocated(lay, s))
  }

  /**
   * upage_free() leaves no page on a free frame exactly when no other page shares the frame,
   * which after upage_link() is not so.
   */
  lemma FreeKeepsBackedIff(lay: Layout, s: Vm, held: set<int>, v: int)
    requires Good(lay, s, held) && Backed(lay, s) && v in Mapping(lay, s)
    ensures HasShape(Geo(lay), UpageFree(lay, s, v).0)
    ensures Backed(lay, UpageFree(lay, s, v).0) <==> Sole(Mapping(lay, s), v)
  {
    UpageFreeRefines(lay, s, held, v);
    RemoveWithinIff(Mapping(lay, s), Allocated(lay, s), v);
  }

  /** A link gives two pages one frame. */
  lemma LinkShares(lay: Layout, s: Vm, held: set<int>, v: int, w: int, stray: Entry)
    requires Good(lay, s, held) && Backed(lay, s) && lay.IsUpage(v) && lay.IsAddress(v)
    requires UpageLink(lay, s, v, w, stray).1.Done?
    ensures var t := UpageLink(lay, s, v, w, stray).0;
            && Good(lay, t, held) && Backed(lay, t) && v != w
            && v in Mapping(lay, t) && w in Mapping(lay, t) && Mapping(lay, t)[v] == Mapping(lay, t)[w]
  {
    UpageLinkRefines(lay, s, held, v, w, stray);
    UpageMapRefines(lay, s, held, w, Mapping(lay, s)[v]);
    var t := UpageLink(lay, s, v, w, stray).0;
    assert Allocated(lay, t) == Allocated(lay, s);
  }

  /** Of two pages that share a frame only the first free succeeds; the second reports an I/O error. */
  lemma SharedFrameFreesOnce(lay: Layout, s: Vm, held: set<int>, v: int, w: int)
    requires Good(lay, s, held) && Backed(lay, s) && v != w
    requires v in Mapping(lay, s) && w in Mapping(lay, s) && Mapping(lay, s)[v] == Mapping(lay, s)[w]
    ensures UpageFree(lay, s, v).1 == Done
    ensures TablesInPool(Geo(lay), UpageFree(lay, s, v).0)
    ensures UpageFree(lay, UpageFree(lay, s, v).0, w).1 == Fail(EIO)
  {
    UpageFreeRefines(lay, s, held, v);
    UpageFreeRefines(lay, UpageFree(lay, s, v).0, held, w);
  }

  // ------------------------------------------------------------------------
  // When every page stays on an allocated frame
  // ------------------------------------------------------------------------

  lemma InsertWithinIff(m: map<int, int>, a: set<int>, v: int, f: int)
    requires Within(m, a) && v !in m
    ensures Within(m[v := f], a) <==> f in a
  {
    assert m[v := f][v] == f;
  }

  lemma GiveWithinIff(m: map<int, int>, a: set<int>, f: int)
    requires Within(m, a)
    ensures Within(m, a - {f}) <==> !Maps(m, f)
  {
  }

  /** Some page is on frame `f`. */
  ghost predicate Maps(m: map<int, int>, f: int) { exists v :: v in m && m[v] == f }

  /**
   * The step leaves a page on a frame that is not allocated: it maps a page to such a frame,
   * frees a page whose frame another one shares, or frees a frame that a page is on.
   */
  ghost predicate Unbacks(lay: Layout, x: Sys, op: Op)
    requires Good(lay, x.vm, x.held)
  {
    var s, m, a := x.vm, Mapping(lay, x.vm), Allocated(lay, x.vm);
    match op
    case Map(v, frame) => CanMap(lay, s, v) && frame !in a
    case Free(v) => v in m && !Sole(m, v)
    case GiveFrame(frame) => Maps(m, frame)
    case Link(v1, v2, stray) =>
      && lay.IsAddress(v1) && CanMap(lay, s, v2)
      && var frame := Lookup(Geo(lay), s, PageOf(lay, v1), stray); frame.Some? && frame.value !in a
    case _ => false
  }

  lemma MapBackedIff(lay: Layout, x: Sys, op: Op)
    requires Good(lay, x.vm, x.held) && Backed(lay, x.vm) && op.Map?
    ensures Good(lay, Apply(lay, x, op).vm, x.held) && (Backed(lay, Apply(lay, x, op).vm) <==> !Unbacks(lay, x, op))
  {
    UpageMapRefines(lay, x.vm, x.held, op.v, op.frame);
    assert Allocated(lay, Apply(lay, x, op).vm) == Allocated(lay, x.vm);
    if CanMap(lay, x.vm, op.v) { InsertWithinIff(Mapping(lay, x.vm), Allocated(lay, x.vm), op.v, op.frame); }
  }

  lemma LinkBackedIff(lay: Layout, x: Sys, op: Op)
    requires Good(lay, x.vm, x.held) && Backed(lay, x.vm) && op.Link?
    ensures Good(lay, Apply(lay, x, op).vm, x.held) && (Backed(lay, Apply(lay, x, op).vm) <==> !Unbacks(lay, x, op))
  {
    StepLink(lay, x, op.v1, op.v2, op.stray);
    if lay.IsAddress(op.v1) { UpageLinkRefines(lay, x.vm, x.held, op.v1, op.v2, op.stray); }
    assert Allocated(lay, Apply(lay, x, op).vm) == Allocated(lay, x.vm);
    if lay.IsAddress(op.v1) && CanMap(lay, x.vm, op.v2) {
      var frame := Lookup(Geo(lay), x.vm, PageOf(lay, op.v1), op.stray);
      if frame.Some? { InsertWithinIff(Mapping(lay, x.vm), Allocated(lay, x.vm), op.v2, frame.value); }
    }
  }

  lemma FreeBackedIff(lay: Layout, x: Sys, op: Op)
    requires Good(lay, x.vm, x.held) && Backed(lay, x.vm) && op.Free?
    ensures Good(lay, Apply(lay, x, op).vm, x.held) && (Backed(lay, Apply(lay, x, op).vm) <==> !Unbacks(lay, x, op))
  {
    UpageFreeRefines(lay, x.vm, x.held, op.v);
    if op.v in Mapping(lay, x.vm) { FreeKeepsBackedIff(lay, x.vm, x.held, op.v); }
  }

  lemma AllocBacked(lay: Layout, x: Sys, op: Op)
    requires Good(lay, x.vm, x.held) && Backed(lay, x.vm) && op.Alloc?
    ensures Good(lay, Apply(lay, x, op).vm, x.held) && Backed(lay, Apply(lay, x, op).vm)
  {
    UpageAllocRefines(lay, x.vm, x.held, op.v);
  }

  lemma FrameBackedIff(lay: Layout, x: Sys, op: Op)
    requires Good(lay, x.vm, x.held) && Backed(lay, x.vm) && (op.TakeFrame? || op.GiveFrame?)
    ensures Good(lay, Apply(lay, x, op).vm, x.held) && (Backed(lay, Apply(lay, x, op).vm) <==> !Unbacks(lay, x, op))
  {
    StepFrames(lay, x, op);
    FrameAllocAllocated(lay, x.vm);
    if op.GiveFrame? {
      FrameFreeAllocated(lay, x.vm, op.frame);
      GiveWithinIff(Mapping(lay, x.vm), Allocated(lay, x.vm), op.frame);
    }
  }

  lemma OtherBacked(lay: Layout, x: Sys, op: Op)
    requires Good(lay, x.vm, x.held) && Backed(lay, x.vm)
    requires !op.Map? && !op.Link? && !op.Free? && !op.Alloc? && !op.TakeFrame? && !op.GiveFrame?
    ensures Good(lay, Apply(lay, x, op).vm, Apply(lay, x, op).held) && Backed(lay, Apply(lay, x, op).vm)
  {
    StepRefines(lay, x, op);
    assert Allocated(lay, Apply(lay, x, op).vm) == Allocated(lay, x.vm);
  }

  lemma StepBackedIff(lay: Layout, x: Sys, op: Op, y: Sys)
    requires Good(lay, x.vm, x.held) && Backed(lay, x.vm) && Follows(lay, x, op, y)
    ensures Good(lay, y.vm, y.held) && (Backed(lay, y.vm) <==> !Unbacks(lay, x, op))
  {
    if op.Map? {
      MapBackedIff(lay, x, op);
    } else if op.Link? {
      LinkBackedIff(lay, x, op);
    } else if op.Free? {
      FreeBackedIff(lay, x, op);
    } else if op.Alloc? {
      AllocBacked(lay, x, op);
    } else if op.TakeFrame? || op.GiveFrame? {
      FrameBackedIff(lay, x, op);
    } else {
      OtherBacked(lay, x, op);
    }
  }

  ghost predicate IsBacked(lay: Layout, x: Sys) { Good(lay, x.vm, x.held) && Backed(lay, x.vm) }

  ghost predicate UnbacksAt(lay: Layout, x: Sys, op: Op) { Good(lay, x.vm, x.held) && Unbacks(lay, x, op) }

  ghost predicate BackedAlong(lay: Layout, xs: seq<Sys>, n: nat)
    requires n < |xs|
  {
    forall i :: 0 <= i <= n ==> IsBacked(lay, xs[i])
  }

  ghost predicate NeverUnbacks(lay: Layout, xs: seq<Sys>, ops: seq<Op>, n: nat)
    requires n < |xs| && n <= |ops|
  {
    forall k :: 0 <= k < n ==> !UnbacksAt(lay, xs[k], ops[k])
  }

  /**
   * All along a run from system start every page is on an allocated frame if and only if no step
   * maps a page to a free frame, frees a page that shares its frame, or frees a frame in use.
   */
  lemma {:induction false} RunIsBackedIff(lay: Layout, s: Vm, xs: seq<Sys>, ops: seq<Op>, n: nat)
    requires Boot(lay, s) && IsRun(lay, xs, ops) && xs[0] == Sys(s, {}) && n < |xs|
    ensures BackedAlong(lay, xs, n) <==> NeverUnbacks(lay, xs, ops, n)
  {
    BootIsGood(lay, s);
    if n > 0 {
      RunIsBackedIff(lay, s, xs, ops, n - 1);
      assert BackedAlong(lay, xs, n) <==> BackedAlong(lay, xs, n - 1) && IsBacked(lay, xs[n]);
      assert NeverUnbacks(lay, xs, ops, n) <==>
        NeverUnbacks(lay, xs, ops, n - 1) && !UnbacksAt(lay, xs[n - 1], ops[n - 1]);
      if BackedAlong(lay, xs, n - 1) {
        assert IsBacked(lay, xs[n - 1]);
        StepBackedIff(lay, xs[n - 1], ops[n - 1], xs[n]);
      }
    }
  }

  /** The first page allocated brings the table that a second one of the same directory entry needs. */
  lemma BootAllocs(lay: Layout, s: Vm, v: int, w: int) returns (y: Sys)
    requires Boot(lay, s) && 0 < lay.numKpages && 0 < lay.NumUframes()
    requires lay.IsUpage(v) && lay.IsUpage(w) && v != w && PageOf(lay, v).dir == PageOf(lay, w).dir
    ensures Follows(lay, Sys(s, {}), Alloc(v), y) && IsBacked(lay, y)
    ensures v in Mapping(lay, y.vm) && CanMap(lay, y.vm, w)
  {
    BootIsGood(lay, s);
    assert s.kpages[0] == 0 && !s.frames[0];
    UpageAllocRefines(lay, s, {}, v);
    y := Apply(lay, Sys(s, {}), Alloc(v));
    assert v in Mapping(lay, y.vm);
    assert Walk(Geo(lay), y.vm, PageOf(lay, v)).Some?;
  }

  ghost predicate Shares(lay: Layout, x: Sys, v: int, w: int) {
    && IsBacked(lay, x) && v != w
    && v in Mapping(lay, x.vm) && w in Mapping(lay, x.vm) && Mapping(lay, x.vm)[v] == Mapping(lay, x.vm)[w]
  }

  lemma LinkLeadsToSharing(lay: Layout, y: Sys, v: int, w: int, stray: Entry) returns (z: Sys)
    requires IsBacked(lay, y) && lay.IsUpage(v) && lay.IsAddress(v) && v in Mapping(lay, y.vm) && CanMap(lay, y.vm, w)
    ensures Follows(lay, y, Link(v, w, stray), z) && Shares(lay, z, v, w)
  {
    UpageLinkRefines(lay, y.vm, y.held, v, w, stray);
    LinkShares(lay, y.vm, y.held, v, w, stray);
    z := Apply(lay, y, Link(v, w, stray));
  }

  lemma SharedFreeUnbacks(lay: Layout, z: Sys, v: int, w: int) returns (u: Sys)
    requires Shares(lay, z, v, w)
    ensures Follows(lay, z, Free(v), u) && !IsBacked(lay, u)
  {
    assert !Sole(Mapping(lay, z.vm), v);
    FreeBackedIff(lay, z, Free(v));
    u := Apply(lay, z, Free(v));
  }

  /** From system start: a page allocated, linked to another one, and freed leaves the other on a free frame. */
  lemma LinkedPageUnbacked(lay: Layout, s: Vm, v: int, w: int, stray: Entry) returns (xs: seq<Sys>)
    requires Boot(lay, s) && 0 < lay.numKpages && 0 < lay.NumUframes()
    requires lay.IsUpage(v) && lay.IsUpage(w) && lay.IsAddress(v) && v != w && PageOf(lay, v).dir == PageOf(lay, w).dir
    ensures IsRun(lay, xs, [Alloc(v), Link(v, w, stray), Free(v)]) && xs[0] == Sys(s, {})
    ensures !IsBacked(lay, xs[3])
  {
    var y := BootAllocs(lay, s, v, w);
    var z := LinkLeadsToSharing(lay, y, v, w, stray);
    var u := SharedFreeUnbacks(lay, z, v, w);
    xs := [Sys(s, {}), y, z, u];
    ThreeSteps(lay, xs, [Alloc(v), Link(v, w, stray), Free(v)]);
  }

  lemma ThreeSteps(lay: Layout, xs: seq<Sys>, ops: seq<Op>)
    requires |xs| == 4 && |ops| == 3
    requires Follows(lay, xs[0], ops[0], xs[1]) && Follows(lay, xs[1], ops[1], xs[2]) &&
        Follows(lay, xs[2], ops[2], xs[3])
    ensures IsRun(lay, xs, ops)
  {
  }
}
