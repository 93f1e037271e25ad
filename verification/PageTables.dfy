/**
 * The two-level page tables on values: a page directory, page tables that live in pages of the
 * kernel page pool, the frame bitmap and two software-filled TLBs. The functions follow page.c,
 * kpool.c and frame.c branch by branch. Pages are given by their two table indices here; the
 * address checks of the entry points are in UserPages.
 */
module PageTables {
  import opened Kernel

  /**
   * Table geometry. `entries` is PAGE_SIZE/PDE_SIZE, what a kernel page holds; the table length
   * proper may be smaller. `kframe` and `uframe` are the first frames of the kernel page pool and
   * of user memory. `firstDir..lastDir` are the directory entries that user addresses go through.
   * With `fastMemory` (NANVIX_FAST_MEMORY) an unmap never releases the underlying table.
   */
  datatype Geometry = Geometry(
    pgdirLength: nat, pgtabLength: nat, entries: nat, firstDir: nat, lastDir: int,
    kframe: nat, numKpages: nat, uframe: nat, numUframes: nat, fastMemory: bool)
  {
    predicate Valid() { 0 < pgtabLength <= entries && lastDir < pgdirLength }

    predicate IsUserDir(d: int) { firstDir <= d <= lastDir }
  }

  /** A virtual page, by its indices into the directory and into the table. */
  datatype Page = Page(dir: int, idx: int)

  predicate InSpace(g: Geometry, p: Page) { 0 <= p.dir < g.pgdirLength && 0 <= p.idx < g.pgtabLength }

  predicate IsUser(g: Geometry, p: Page) { InSpace(g, p) && g.IsUserDir(p.dir) }

  /** A directory or table entry. Clearing the present bit keeps the frame number. */
  datatype Entry = Entry(present: bool, frame: int)

  const ABSENT := Entry(false, 0)

  /**
   * `kpages` counts references to kernel pages, `kmem` is what those pages hold when they are
   * read as page tables, `frames` is the bitmap of user frames. A TLB maps a page to a frame.
   */
  datatype Vm = Vm(
    pgdir: seq<Entry>, kpages: seq<int>, kmem: seq<seq<Entry>>, frames: seq<bool>,
    itlb: map<Page, int>, dtlb: map<Page, int>)

  predicate HasShape(g: Geometry, s: Vm) {
    && g.Valid()
    && |s.pgdir| == g.pgdirLength
    && |s.kpages| == |s.kmem| == g.numKpages
    && |s.frames| == g.numUframes
    && (forall k :: 0 <= k < |s.kmem| ==> |s.kmem[k]| == g.entries)
  }

  /** Directory entry `d` serves user addresses and has a table. */
  predicate UserTable(g: Geometry, s: Vm, d: int) {
    0 <= d < |s.pgdir| && g.IsUserDir(d) && s.pgdir[d].present
  }

  /** The kernel page that directory entry `d` names. */
  function Tab(g: Geometry, s: Vm, d: int): int
    requires 0 <= d < |s.pgdir|
  {
    s.pgdir[d].frame - g.kframe
  }

  /** User tables lie in the kernel page pool, one referenced page each, empty past their length. */
  ghost predicate TablesInPool(g: Geometry, s: Vm) {
    && HasShape(g, s)
    && (forall d :: UserTable(g, s, d) ==> 0 <= Tab(g, s, d) < g.numKpages && s.kpages[Tab(g, s, d)] == 1)
    && (forall d, j :: UserTable(g, s, d) && g.pgtabLength <= j < g.entries ==> !s.kmem[Tab(g, s, d)][j].present)
    && (forall d, e :: UserTable(g, s, d) && UserTable(g, s, e) && d != e ==> Tab(g, s, d) != Tab(g, s, e))
  }

  /**
   * The two-level walk of any page. A directory entry that does not lead into the kernel page
   * pool makes the code read memory outside it: `stray` is the entry found there.
   */
  function Lookup(g: Geometry, s: Vm, p: Page, stray: Entry): Option<int>
    requires HasShape(g, s) && InSpace(g, p)
  {
    if !s.pgdir[p.dir].present then None else
    var k := Tab(g, s, p.dir);
    var e := if 0 <= k < g.numKpages then s.kmem[k][p.idx] else stray;
    if e.present then Some(e.frame) else None
  }

  /** The walk of a user page: what the tables translate it to. */
  function Walk(g: Geometry, s: Vm, p: Page): Option<int>
    requires HasShape(g, s) && InSpace(g, p)
  {
    Lookup(g, s, p, ABSENT)
  }

  // ------------------------------------------------------------------------
  // Kernel page pool and frame bitmap
  // ------------------------------------------------------------------------

  predicate IsZero(n: int) { n == 0 }

  predicate IsClear(b: bool) { !b }

  /** kpage_get(): takes the first kernel page without references. */
  function KpageGet(kpages: seq<int>): (seq<int>, Option<nat>) {
    var k := FirstIndex(kpages, IsZero, 0);
    if k < |kpages| then (kpages[k := kpages[k] + 1], Some(k)) else (kpages, None)
  }

  /** kpage_put(): drops a reference to a page. */
  function KpagePut(kpages: seq<int>, k: int): (r: (seq<int>, Status))
    ensures |r.0| == |kpages|
  {
    if !(0 <= k < |kpages|) then (kpages, Fail(EINVAL)) else
    if kpages[k] == 0 then (kpages, Fail(EFAULT)) else (kpages[k := kpages[k] - 1], Done)
  }

  /** frame_alloc(): takes the first clear bit of the bitmap. */
  function FrameAlloc(g: Geometry, frames: seq<bool>): (seq<bool>, Option<int>) {
    var b := FirstIndex(frames, IsClear, 0);
    if b < |frames| then (frames[b := true], Some(g.uframe + b)) else (frames, None)
  }

  /** frame_free(): clears the bit of an allocated user frame. */
  function FrameFree(g: Geometry, frames: seq<bool>, frame: int): (r: (seq<bool>, Status))
    ensures |r.0| == |frames|
  {
    var b := frame - g.uframe;
    if !(0 <= b < |frames|) then (frames, Fail(EINVAL)) else
    if !frames[b] then (frames, Fail(EFAULT)) else (frames[b := false], Done)
  }

  /** frame_is_allocated() */
  predicate FrameIsAllocated(g: Geometry, frames: seq<bool>, frame: int) {
    g.uframe <= frame < g.uframe + |frames| && frames[frame - g.uframe]
  }

  // ------------------------------------------------------------------------
  // Page tables
  // ------------------------------------------------------------------------

  function EmptyTable(g: Geometry): seq<Entry> { seq(g.entries, i => ABSENT) }

  /** pgtab_map(): a cleared table for directory entry `d`; None when it cannot be had. */
  function PgtabMap(g: Geometry, s: Vm, d: int): Option<Vm>
    requires HasShape(g, s) && 0 <= d < g.pgdirLength
  {
    if s.pgdir[d].present then None else
    var (kpages, page) := KpageGet(s.kpages);
    if page.None? then None else
    Some(s.(kpages := kpages,
            pgdir := s.pgdir[d := Entry(true, g.kframe + page.value)],
            kmem := s.kmem[page.value := EmptyTable(g)]))
  }

  /** pgtab_unmap(): releases the table of a directory entry once none of its entries is present. */
  function PgtabUnmap(g: Geometry, s: Vm, d: int): (Vm, Status)
    requires HasShape(g, s) && 0 <= d < g.pgdirLength
    requires s.pgdir[d].present ==> 0 <= Tab(g, s, d) < g.numKpages
  {
    if !s.pgdir[d].present then (s, Done) else
    var k := Tab(g, s, d);
    if exists i :: 0 <= i < g.entries && s.kmem[k][i].present then (s, Fail(EBUSY)) else
    var (kpages, status) := KpagePut(s.kpages, k);
    (s.(pgdir := s.pgdir[d := s.pgdir[d].(present := false)], kpages := kpages),
     if status.Done? then Done else Fail(EIO))
  }

  /** One entry of the table of `p` is rewritten: mmu_page_map(), or a change of the present bit. */
  function SetEntry(g: Geometry, s: Vm, p: Page, e: Entry): Vm
    requires HasShape(g, s) && InSpace(g, p) && 0 <= Tab(g, s, p.dir) < g.numKpages
  {
    var k := Tab(g, s, p.dir);
    s.(kmem := s.kmem[k := s.kmem[k][p.idx := e]])
  }

  /** upage_inval(): forgets a page in both TLBs. */
  function Inval(s: Vm, p: Page): Vm {
    s.(itlb := s.itlb - {p}, dtlb := s.dtlb - {p})
  }

  /** upage_map(), past its address checks. */
  function MapPage(g: Geometry, s: Vm, p: Page, frame: int): (Vm, Status)
    requires TablesInPool(g, s) && IsUser(g, p)
  {
    var t := if s.pgdir[p.dir].present then Some(s) else PgtabMap(g, s, p.dir);
    if t.None? then (s, Fail(EAGAIN)) else
    assert UserTable(g, t.value, p.dir);
    if Walk(g, t.value, p).Some? then (t.value, Fail(EADDRINUSE)) else
    (SetEntry(g, t.value, p, Entry(true, frame)), Done)
  }

  /** upage_unmap(), past its address checks: returns the frame that was mapped. */
  function UnmapPage(g: Geometry, s: Vm, p: Page): (Vm, Option<int>)
    requires TablesInPool(g, s) && IsUser(g, p)
  {
    if Walk(g, s, p).None? then (s, None) else
    assert UserTable(g, s, p.dir);
    var frame := Walk(g, s, p).value;
    var cleared := Inval(SetEntry(g, s, p, Entry(false, frame)), p);
    (if g.fastMemory then cleared else PgtabUnmap(g, cleared, p.dir).0, Some(frame))
  }

  /** do_tlb_fault(): caches the translation of the faulting page, if the tables have one. */
  function TlbFault(g: Geometry, s: Vm, p: Page, data: bool, stray: Entry): Vm
    requires HasShape(g, s) && InSpace(g, p)
  {
    var frame := Lookup(g, s, p, stray);
    if frame.None? then s
    else if data then s.(dtlb := s.dtlb[p := frame.value])
    else s.(itlb := s.itlb[p := frame.value])
  }

  // ------------------------------------------------------------------------
  // What mapping and unmapping mean
  // ------------------------------------------------------------------------

  predicate Names(g: Geometry, s: Vm, d: int, k: int) { UserTable(g, s, d) && Tab(g, s, d) == k }

  /**
   * Each referenced kernel page belongs to one user table or is in `held`, the pages that other
   * kernel clients took from the pool: no table leaks and none is shared.
   */
  ghost predicate Accounted(g: Geometry, s: Vm, held: set<int>)
    requires TablesInPool(g, s)
  {
    && (forall k :: k in held ==> 0 <= k < g.numKpages && s.kpages[k] == 1)
    && (forall k :: 0 <= k < g.numKpages ==> s.kpages[k] == 0 || k in held || exists d :: Names(g, s, d, k))
    && (forall d :: UserTable(g, s, d) ==> Tab(g, s, d) !in held)
  }

  /** Every user table has an entry in use; tables that are not reclaimed may be empty. */
  ghost predicate TablesInUse(g: Geometry, s: Vm)
    requires TablesInPool(g, s)
  {
    g.fastMemory || forall d :: UserTable(g, s, d) ==>
      exists j :: 0 <= j < g.pgtabLength && s.kmem[Tab(g, s, d)][j].present
  }

  /** Every cached translation of a user page is the one the tables give now. */
  ghost predicate Coherent(g: Geometry, s: Vm)
    requires HasShape(g, s)
  {
    && (forall p :: p in s.itlb && IsUser(g, p) ==> Walk(g, s, p) == Some(s.itlb[p]))
    && (forall p :: p in s.dtlb && IsUser(g, p) ==> Walk(g, s, p) == Some(s.dtlb[p]))
  }

  /** The invariant of the allocator, with `held` the kernel pages of other kernel clients. */
  ghost predicate Inv(g: Geometry, s: Vm, held: set<int>) {
    TablesInPool(g, s) && Accounted(g, s, held) && TablesInUse(g, s) && Coherent(g, s)
  }

  /** The user tables are the same pages with the same entries in both states. */
  ghost predicate SameTables(g: Geometry, s: Vm, t: Vm)
    requires TablesInPool(g, s)
  {
    && HasShape(g, t) && t.pgdir == s.pgdir
    && (forall d :: UserTable(g, s, d) ==>
          t.kmem[Tab(g, s, d)] == s.kmem[Tab(g, s, d)] && t.kpages[Tab(g, s, d)] == s.kpages[Tab(g, s, d)])
  }

  lemma SameTablesSameWalk(g: Geometry, s: Vm, t: Vm)
    requires TablesInPool(g, s) && SameTables(g, s, t)
    ensures TablesInPool(g, t)
    ensures TablesInUse(g, s) ==> TablesInUse(g, t)
    ensures forall q :: IsUser(g, q) ==> Walk(g, t, q) == Walk(g, s, q)
    ensures forall d :: UserTable(g, t, d) == UserTable(g, s, d)
    ensures forall d, k :: Names(g, s, d, k) == Names(g, t, d, k)
  {
    assert forall d :: UserTable(g, t, d) == UserTable(g, s, d);
    forall q | IsUser(g, q)
      ensures Walk(g, t, q) == Walk(g, s, q)
    {
      if s.pgdir[q.dir].present { assert UserTable(g, s, q.dir); }
    }
  }

  lemma SetEntryOwns(g: Geometry, s: Vm, held: set<int>, p: Page, e: Entry)
    requires TablesInPool(g, s) && Accounted(g, s, held) && IsUser(g, p) && UserTable(g, s, p.dir)
    ensures TablesInPool(g, SetEntry(g, s, p, e)) && Accounted(g, SetEntry(g, s, p, e), held)
  {
    var t := SetEntry(g, s, p, e);
    assert forall d :: UserTable(g, t, d) == UserTable(g, s, d);
    assert forall d, k :: Names(g, s, d, k) ==> Names(g, t, d, k);
  }

  lemma SetEntryWalk(g: Geometry, s: Vm, p: Page, e: Entry)
    requires TablesInPool(g, s) && IsUser(g, p) && UserTable(g, s, p.dir)
    ensures HasShape(g, SetEntry(g, s, p, e))
    ensures forall q :: IsUser(g, q) ==>
              Walk(g, SetEntry(g, s, p, e), q) ==
                if q != p then Walk(g, s, q) else if e.present then Some(e.frame) else None
  {
    var t := SetEntry(g, s, p, e);
    forall q | IsUser(g, q)
      ensures Walk(g, t, q) == if q != p then Walk(g, s, q) else if e.present then Some(e.frame) else None
    {
      if q.dir != p.dir && s.pgdir[q.dir].present {
        assert UserTable(g, s, q.dir);
      }
    }
  }

  lemma PgtabMapOwns(g: Geometry, s: Vm, held: set<int>, d: int)
    requires TablesInPool(g, s) && Accounted(g, s, held) && 0 <= d < g.pgdirLength && g.IsUserDir(d)
    requires PgtabMap(g, s, d).Some?
    ensures var t := PgtabMap(g, s, d).value;
            TablesInPool(g, t) && Accounted(g, t, held) && UserTable(g, t, d)
  {
    var t := PgtabMap(g, s, d).value;
    var k := KpageGet(s.kpages).1.value;
    forall c | UserTable(g, t, c)
      ensures c != d ==> UserTable(g, s, c) && Tab(g, t, c) == Tab(g, s, c) != k
      ensures c == d ==> Tab(g, t, c) == k
    {
    }
    forall m | 0 <= m < g.numKpages && s.kpages[m] != 0 && m !in held
      ensures exists c :: Names(g, t, c, m)
    {
      var c :| Names(g, s, c, m);
      assert Names(g, t, c, m);
    }
    assert Names(g, t, d, k);
  }

  lemma PgtabMapWalk(g: Geometry, s: Vm, d: int)
    requires TablesInPool(g, s) && 0 <= d < g.pgdirLength && g.IsUserDir(d)
    requires PgtabMap(g, s, d).Some? && HasShape(g, PgtabMap(g, s, d).value)
    ensures forall q :: IsUser(g, q) ==> Walk(g, PgtabMap(g, s, d).value, q) == Walk(g, s, q)
  {
    var t := PgtabMap(g, s, d).value;
    var k := KpageGet(s.kpages).1.value;
    forall q | IsUser(g, q)
      ensures Walk(g, t, q) == Walk(g, s, q)
    {
      if q.dir != d && s.pgdir[q.dir].present {
        assert UserTable(g, s, q.dir);
      }
    }
  }

  /** Whether the table of directory entry `d` has an entry in use. */
  predicate InUse(g: Geometry, s: Vm, d: int)
    requires HasShape(g, s) && 0 <= d < g.pgdirLength && 0 <= Tab(g, s, d) < g.numKpages
  {
    exists j :: 0 <= j < g.pgtabLength && s.kmem[Tab(g, s, d)][j].present
  }

  /** An empty table goes back to the pool, a table in use stays, and no translation changes. */
  lemma PgtabUnmapOwns(g: Geometry, s: Vm, held: set<int>, d: int)
    requires TablesInPool(g, s) && Accounted(g, s, held) && UserTable(g, s, d)
    ensures var (t, status) := PgtabUnmap(g, s, d);
            && TablesInPool(g, t) && Accounted(g, t, held)
            && status == (if InUse(g, s, d) then Fail(EBUSY) else Done)
            && (InUse(g, s, d) ==> t == s)
            && (forall c :: c != d ==> UserTable(g, t, c) == UserTable(g, s, c))
            && (!InUse(g, s, d) ==> !UserTable(g, t, d) && t.kpages == s.kpages[Tab(g, s, d) := 0])
            && t.kmem == s.kmem && (forall c :: 0 <= c < g.pgdirLength && c != d ==> t.pgdir[c] == s.pgdir[c])
  {
    var k := Tab(g, s, d);
    if InUse(g, s, d) {
    } else {
      var t := PgtabUnmap(g, s, d).0;
      forall c | UserTable(g, t, c)
        ensures c != d && UserTable(g, s, c) && Tab(g, t, c) == Tab(g, s, c) != k
      {
      }
      forall m | 0 <= m < g.numKpages && m != k && s.kpages[m] != 0 && m !in held
        ensures exists c :: Names(g, t, c, m)
      {
        var c :| Names(g, s, c, m);
        assert Names(g, t, c, m);
      }
    }
  }

  lemma PgtabUnmapWalk(g: Geometry, s: Vm, d: int)
    requires TablesInPool(g, s) && UserTable(g, s, d)
    ensures HasShape(g, PgtabUnmap(g, s, d).0)
    ensures forall q :: IsUser(g, q) ==> Walk(g, PgtabUnmap(g, s, d).0, q) == Walk(g, s, q)
  {
  }

  /**
   * upage_map() adds exactly one binding and changes no other translation; every failure leaves
   * the state untouched, so there is nothing to roll back.
   */
  lemma MapPageRefines(g: Geometry, s: Vm, held: set<int>, p: Page, frame: int)
    requires Inv(g, s, held) && IsUser(g, p)
    ensures var (t, status) := MapPage(g, s, p, frame);
            && Inv(g, t, held)
            && (status == Fail(EADDRINUSE) <==> Walk(g, s, p).Some?)
            && (status == Done <==> Walk(g, s, p).None? && (s.pgdir[p.dir].present || 0 in s.kpages))
            && (status.Fail? ==> t == s)
            && (status.Done? ==> forall q :: IsUser(g, q) ==>
                  Walk(g, t, q) == if q == p then Some(frame) else Walk(g, s, q))
            && t.frames == s.frames && t.itlb == s.itlb && t.dtlb == s.dtlb
            && (forall d :: 0 <= d < g.pgdirLength && d != p.dir ==> t.pgdir[d] == s.pgdir[d])
  {
    var t := if s.pgdir[p.dir].present then Some(s) else PgtabMap(g, s, p.dir);
    if t.Some? {
      if !s.pgdir[p.dir].present {
        PgtabMapOwns(g, s, held, p.dir);
        PgtabMapWalk(g, s, p.dir);
      }
      SetEntryOwns(g, t.value, held, p, Entry(true, frame));
      SetEntryWalk(g, t.value, p, Entry(true, frame));
      var u := MapPage(g, s, p, frame).0;
      if Walk(g, s, p).None? {
        MapPageInUse(g, s, t.value, p, frame);
      }
    }
  }

  lemma MapPageInUse(g: Geometry, s: Vm, t: Vm, p: Page, frame: int)
    requires TablesInPool(g, s) && TablesInUse(g, s) && TablesInPool(g, t) && IsUser(g, p) && UserTable(g, t, p.dir)
    requires t == s || PgtabMap(g, s, p.dir) == Some(t)
    requires TablesInPool(g, SetEntry(g, t, p, Entry(true, frame)))
    ensures TablesInUse(g, SetEntry(g, t, p, Entry(true, frame)))
  {
    var u := SetEntry(g, t, p, Entry(true, frame));
    if !g.fastMemory {
      forall d | UserTable(g, u, d)
        ensures InUse(g, u, d)
      {
        if d == p.dir {
          assert u.kmem[Tab(g, u, d)][p.idx].present;
        } else {
          assert UserTable(g, s, d) && UserTable(g, t, d);
          var j :| 0 <= j < g.pgtabLength && s.kmem[Tab(g, s, d)][j].present;
          assert u.kmem[Tab(g, u, d)][j].present;
        }
      }
    }
  }

  lemma UnmapPageOwns(g: Geometry, s: Vm, held: set<int>, p: Page)
    requires TablesInPool(g, s) && Accounted(g, s, held) && TablesInUse(g, s) && IsUser(g, p) && Walk(g, s, p).Some?
    ensures var t := UnmapPage(g, s, p).0;
            && TablesInPool(g, t) && Accounted(g, t, held) && TablesInUse(g, t)
            && (forall q :: IsUser(g, q) ==> Walk(g, t, q) == if q == p then None else Walk(g, s, q))
  {
    var frame := Walk(g, s, p).value;
    SetEntryOwns(g, s, held, p, Entry(false, frame));
    SetEntryWalk(g, s, p, Entry(false, frame));
    var c := SetEntry(g, s, p, Entry(false, frame));
    InvalKeeps(g, c, held, p);
    if !g.fastMemory {
      PgtabUnmapOwns(g, Inval(c, p), held, p.dir);
      PgtabUnmapWalk(g, Inval(c, p), p.dir);
      UnmapPageInUse(g, s, p);
    }
  }

  /**
   * upage_unmap() returns the frame that the page had, removes that binding and no other, forgets
   * the page in both TLBs, and gives the table back once its last entry is gone.
   */
  lemma UnmapPageRefines(g: Geometry, s: Vm, held: set<int>, p: Page)
    requires Inv(g, s, held) && IsUser(g, p)
    ensures var (t, frame) := UnmapPage(g, s, p);
            && Inv(g, t, held)
            && frame == Walk(g, s, p)
            && (frame.None? ==> t == s)
            && (forall q :: IsUser(g, q) ==> Walk(g, t, q) == if q == p then None else Walk(g, s, q))
            && (frame.Some? ==> t.itlb == s.itlb - {p} && t.dtlb == s.dtlb - {p})
            && t.frames == s.frames
            && (forall d :: 0 <= d < g.pgdirLength && d != p.dir ==> t.pgdir[d] == s.pgdir[d])
  {
    if Walk(g, s, p).Some? {
      UnmapPageOwns(g, s, held, p);
    }
  }

  lemma InvalKeeps(g: Geometry, s: Vm, held: set<int>, p: Page)
    requires TablesInPool(g, s) && Accounted(g, s, held)
    ensures TablesInPool(g, Inval(s, p)) && Accounted(g, Inval(s, p), held)
    ensures forall q :: IsUser(g, q) ==> Walk(g, Inval(s, p), q) == Walk(g, s, q)
    ensures forall d :: UserTable(g, Inval(s, p), d) == UserTable(g, s, d)
  {
    SameTablesSameWalk(g, s, Inval(s, p));
  }

  lemma UnmapPageInUse(g: Geometry, s: Vm, p: Page)
    requires TablesInPool(g, s) && TablesInUse(g, s) && !g.fastMemory && IsUser(g, p) && Walk(g, s, p).Some?
    requires TablesInPool(g, UnmapPage(g, s, p).0)
    ensures TablesInUse(g, UnmapPage(g, s, p).0)
  {
    var t := UnmapPage(g, s, p).0;
    forall d | UserTable(g, t, d)
      ensures InUse(g, t, d)
    {
      assert UserTable(g, s, d) && UserTable(g, s, p.dir);
      if d != p.dir {
        var j :| 0 <= j < g.pgtabLength && s.kmem[Tab(g, s, d)][j].present;
        assert t.kmem[Tab(g, t, d)][j].present;
      }
    }
  }

  /** With the table there before, unmapping finds another entry in it and leaves it alone. */
  lemma UndoInTable(g: Geometry, s: Vm, held: set<int>, p: Page, frame: int)
    requires Inv(g, s, held) && !g.fastMemory && IsUser(g, p) && MapPage(g, s, p, frame).1.Done?
    requires s.pgdir[p.dir].present
    ensures Undone(g, s, MapPage(g, s, p, frame).0, p)
  {
    MapPageRefines(g, s, held, p, frame);
    var t := MapPage(g, s, p, frame).0;
    var c := Inval(SetEntry(g, t, p, Entry(false, frame)), p);
    assert UserTable(g, t, p.dir) && Walk(g, t, p) == Some(frame);
    var k := Tab(g, t, p.dir);
    assert UserTable(g, s, p.dir);
    var j :| 0 <= j < g.pgtabLength && s.kmem[k][j].present;
    assert c.kmem[k][j].present;
  }

  /** With a table of its own, unmapping leaves it empty and gives its page back. */
  lemma UndoNewTable(g: Geometry, s: Vm, held: set<int>, p: Page, frame: int)
    requires Inv(g, s, held) && !g.fastMemory && IsUser(g, p) && MapPage(g, s, p, frame).1.Done?
    requires !s.pgdir[p.dir].present
    ensures Undone(g, s, MapPage(g, s, p, frame).0, p)
  {
    MapPageRefines(g, s, held, p, frame);
    var t := MapPage(g, s, p, frame).0;
    var c := Inval(SetEntry(g, t, p, Entry(false, frame)), p);
    assert UserTable(g, t, p.dir) && Walk(g, t, p) == Some(frame);
    var k := Tab(g, t, p.dir);
    assert forall i :: 0 <= i < g.entries ==> !c.kmem[k][i].present;
    assert s.kpages[k] == 0 && t.kpages == s.kpages[k := 1];
    assert t.kpages[k := 0] == s.kpages;
  }

  /** Unmapping `p` in `t` leads back to the pages, buffers and tables of `s`. */
  ghost predicate Undone(g: Geometry, s: Vm, t: Vm, p: Page)
    requires IsUser(g, p)
  {
    && TablesInPool(g, t)
    && var u := UnmapPage(g, t, p).0;
       && u.kpages == s.kpages
       && u.itlb == s.itlb && u.dtlb == s.dtlb
       && |u.pgdir| == |s.pgdir|
       && forall d :: 0 <= d < |s.pgdir| ==> u.pgdir[d].present == s.pgdir[d].present
  }

  /** An unmap right after a map gives the kernel page back if and only if the map had taken one. */
  lemma UnmapUndoesMap(g: Geometry, s: Vm, held: set<int>, p: Page, frame: int)
    requires Inv(g, s, held) && !g.fastMemory && IsUser(g, p) && MapPage(g, s, p, frame).1.Done?
    ensures Undone(g, s, MapPage(g, s, p, frame).0, p)
  {
    if s.pgdir[p.dir].present {
      UndoInTable(g, s, held, p, frame);
    } else {
      UndoNewTable(g, s, held, p, frame);
    }
  }
}
