/** The memory manager as the kernel runs it: tables, counters and bitmap updated in place. */
module MemoryManager {
  import opened Kernel
  import opened MemoryLayout
  import opened PageTables
  import opened UserPages
  import opened UserPageProofs
  import UserPageRuns

  class Memory {
    const lay: Layout
    const pgdir: array<Entry>
    const kpages: array<int>
    const kmem: array<seq<Entry>>
    const frames: array<bool>
    var itlb: map<Page, int>
    var dtlb: map<Page, int>
    /** The kernel pages that other clients of the pool hold. */
    ghost var held: set<int>

    /** The state as a value. */
    ghost function View(): Vm
      reads this, pgdir, kpages, kmem, frames
    {
      Vm(pgdir[..], kpages[..], kmem[..], frames[..], itlb, dtlb)
    }

    /** What the walks rely on: every user table is a page of the pool. */
    ghost predicate Walkable()
      reads this, pgdir, kpages, kmem, frames
    {
      lay.Valid() && TablesInPool(Geo(lay), View())
    }

    /** Every user table is a page of the pool, of its own. */
    ghost predicate Owned()
      reads this, pgdir, kpages, kmem, frames
    {
      lay.Valid() && TablesInPool(Geo(lay), View()) && Accounted(Geo(lay), View(), held)
    }

    ghost predicate Valid()
      reads this, pgdir, kpages, kmem, frames
    {
      Good(lay, View(), held)
    }

    /** frame_init(), kpool_init() and upool_init() over a directory that has no user table yet. */
    constructor (lay: Layout, directory: seq<Entry>)
      requires lay.Valid() && |directory| == lay.pgdirLength
      requires forall d :: 0 <= d < |directory| && lay.IsUserPde(d) ==> !directory[d].present
      ensures this.lay == lay && Valid() && View().pgdir == directory
      ensures fresh(pgdir) && fresh(kpages) && fresh(kmem) && fresh(frames)
      ensures held == {} && Mapping(lay, View()) == map[]
    {
      this.lay := lay;
      pgdir := new Entry[|directory|](i requires 0 <= i < |directory| => directory[i]);
      kpages := new int[lay.numKpages](i => 0);
      kmem := new seq<Entry>[lay.numKpages](i => EmptyTable(Geo(lay)));
      frames := new bool[lay.NumUframes()](i => false);
      itlb, dtlb, held := map[], map[], {};
      new;
      assert forall d :: !UserTable(Geo(lay), View(), d);
      forall q | IsUser(Geo(lay), q)
        ensures Walk(Geo(lay), View(), q).None?
      {
        assert !UserTable(Geo(lay), View(), q.dir);
      }
    }

    /** kpage_get(): returns the address of the page taken. */
    method KpageGet() returns (addr: Option<int>)
      modifies kpages
      ensures var (after, k) := PageTables.KpageGet(old(kpages[..]));
              kpages[..] == after && addr == if k.Some? then Some(lay.KpoolIdToAddr(k.value)) else None
    {
      var i := 0;
      while i < kpages.Length && kpages[i] != 0
        invariant 0 <= i <= kpages.Length
        invariant forall k :: 0 <= k < i ==> kpages[k] != 0
      {
        i := i + 1;
      }
      assert FirstIndex(kpages[..], IsZero, 0) == i;
      if i == kpages.Length { return None; }
      kpages[i] := kpages[i] + 1;
      return Some(lay.KpoolIdToAddr(i));
    }

    /** kpage_put(): the address of a pool page, or anything else. */
    method KpagePut(addr: int) returns (status: Status)
      requires lay.Valid() && kpages.Length == lay.numKpages
      modifies kpages
      ensures lay.KpoolIsKpage(addr) ==>
          (kpages[..], status) == PageTables.KpagePut(old(kpages[..]), lay.KpoolAddrToId(addr))
      ensures !lay.KpoolIsKpage(addr) ==> kpages[..] == old(kpages[..]) && status == Fail(EINVAL)
    {
      if !lay.KpoolIsKpage(addr) { return Fail(EINVAL); }
      KpoolAddrInRange(lay, addr);
      var i := lay.KpoolAddrToId(addr);
      if kpages[i] == 0 { return Fail(EFAULT); }
      kpages[i] := kpages[i] - 1;
      return Done;
    }

    /** frame_alloc() */
    method FrameAlloc() returns (frame: Option<int>)
      requires lay.Valid() && frames.Length == lay.NumUframes()
      modifies frames
      ensures (frames[..], frame) == PageTables.FrameAlloc(Geo(lay), old(frames[..]))
    {
      var bit := 0;
      while bit < frames.Length && frames[bit]
        invariant 0 <= bit <= frames.Length
        invariant forall k :: 0 <= k < bit ==> frames[k]
      {
        bit := bit + 1;
      }
      assert FirstIndex(frames[..], IsClear, 0) == bit;
      if bit == frames.Length { return None; }
      frames[bit] := true;
      return Some(lay.FrameIdToNum(bit));
    }

    /** frame_free() */
    method FrameFree(frame: int) returns (status: Status)
      requires lay.Valid() && frames.Length == lay.NumUframes()
      modifies frames
      ensures (frames[..], status) == PageTables.FrameFree(Geo(lay), old(frames[..]), frame)
    {
      if !lay.FrameIsValidNum(frame) { return Fail(EINVAL); }
      var bit := lay.FrameNumToId(frame);
      if !frames[bit] { return Fail(EFAULT); }
      frames[bit] := false;
      return Done;
    }

    /** pgtab_map(): whether a cleared table now serves the directory entry of `v`. */
    method PgtabMap(v: int) returns (mapped: bool)
      requires Owned() && lay.IsUaddr(v)
      modifies pgdir, kpages, kmem
      ensures Owned()
      ensures mapped == PageTables.PgtabMap(Geo(lay), old(View()), PageOf(lay, v).dir).Some?
      ensures mapped ==> View() == PageTables.PgtabMap(Geo(lay), old(View()), PageOf(lay, v).dir).value
      ensures !mapped ==> View() == old(View())
    {
      UserWalk(lay, v);
      ghost var d := PageOf(lay, v).dir;
      if PageTables.PgtabMap(Geo(lay), View(), d).Some? { PgtabMapOwns(Geo(lay), View(), held, d); }
      mapped := PgtabMapInPlace(v);
    }

    method PgtabMapInPlace(v: int) returns (mapped: bool)
      requires Walkable() && lay.IsAddress(v)
      modifies pgdir, kpages, kmem
      ensures mapped == PageTables.PgtabMap(Geo(lay), old(View()), PageOf(lay, v).dir).Some?
      ensures mapped ==> View() == PageTables.PgtabMap(Geo(lay), old(View()), PageOf(lay, v).dir).value
      ensures !mapped ==> View() == old(View())
    {
      var d := PageOf(lay, v).dir;
      if pgdir[d].present { return false; }
      var addr := KpageGet();
      if addr.None? { return false; }
      ghost var k := PageTables.KpageGet(old(kpages[..])).1.value;
      KpoolConversions(lay, k);
      pgdir[d] := Entry(true, lay.KpoolAddrToFrame(addr.value));
      var id := lay.KpoolAddrToId(addr.value);
      var i := 0;
      while i < lay.entries
        invariant 0 <= i <= lay.entries
        invariant |kmem[id]| == lay.entries
        invariant forall j :: 0 <= j < i ==> kmem[id][j] == ABSENT
        invariant forall j :: 0 <= j < kmem.Length && j != id ==> kmem[j] == old(kmem[j])
        modifies kmem
      {
        kmem[id] := kmem[id][i := ABSENT];
        i := i + 1;
      }
      assert kmem[id] == EmptyTable(Geo(lay));
      assert kmem[..] == old(kmem[..])[id := EmptyTable(Geo(lay))];
      assert pgdir[..] == old(pgdir[..])[d := Entry(true, Geo(lay).kframe + k)];
      return true;
    }

    /** pgtab_unmap() */
    method PgtabUnmap(v: int) returns (status: Status)
      requires Owned() && lay.IsUaddr(v)
      modifies pgdir, kpages
      ensures Owned()
      ensures (View(), status) == PageTables.PgtabUnmap(Geo(lay), old(View()), PageOf(lay, v).dir)
    {
      UserWalk(lay, v);
      ghost var d := PageOf(lay, v).dir;
      if UserTable(Geo(lay), View(), d) { PgtabUnmapOwns(Geo(lay), View(), held, d); }
      status := PgtabUnmapInPlace(v);
    }

    method PgtabUnmapInPlace(v: int) returns (status: Status)
      requires lay.Valid() && HasShape(Geo(lay), View()) && lay.IsAddress(v)
      requires pgdir[PageOf(lay, v).dir].present ==> 0 <= Tab(Geo(lay), View(), PageOf(lay, v).dir) < lay.numKpages
      modifies pgdir, kpages
      ensures (View(), status) == PageTables.PgtabUnmap(Geo(lay), old(View()), PageOf(lay, v).dir)
    {
      var d := PageOf(lay, v).dir;
      if !pgdir[d].present { return Done; }
      var pgtab := lay.KpoolFrameToAddr(pgdir[d].frame);
      TableIdIsOffset(lay, pgdir[d].frame);
      var id := lay.KpoolAddrToId(pgtab);
      var i := 0;
      while i < lay.entries
        invariant 0 <= i <= lay.entries
        invariant forall j :: 0 <= j < i ==> !kmem[id][j].present
      {
        if kmem[id][i].present { return Fail(EBUSY); }
        i := i + 1;
      }
      pgdir[d] := pgdir[d].(present := false);
      KpoolConversions(lay, id);
      var put := KpagePut(pgtab);
      return if put.Done? then Done else Fail(EIO);
    }

    /** upage_inval() */
    method UpageInval(v: int) returns (status: Status)
      requires Valid()
      modifies this`itlb, this`dtlb
      ensures (View(), status) == UserPages.UpageInval(lay, old(View()), v)
      ensures Valid() && Mapping(lay, View()) == old(Mapping(lay, View()))
    {
      UserPageRuns.StepRefines(lay, UserPageRuns.Sys(View(), held), UserPageRuns.Inval(v));
      status := InvalInPlace(v);
    }

    method InvalInPlace(v: int) returns (status: Status)
      requires lay.Valid()
      modifies this`itlb, this`dtlb
      ensures (View(), status) == UserPages.UpageInval(lay, old(View()), v)
    {
      var page := v - v % lay.pageSize;
      if !lay.IsUaddr(page) { return Fail(EINVAL); }
      itlb := itlb - {PageOf(lay, page)};
      dtlb := dtlb - {PageOf(lay, page)};
      return Done;
    }

    /** upage_map() */
    method UpageMap(v: int, frame: int) returns (status: Status)
      requires Valid()
      modifies pgdir, kpages, kmem
      ensures (View(), status) == UserPages.UpageMap(lay, old(View()), v, frame)
      ensures Valid() && (status.Done? <==> old(CanMap(lay, View(), v)))
      ensures Mapping(lay, View()) ==
              if status.Done? then old(Mapping(lay, View()))[v := frame] else old(Mapping(lay, View()))
    {
      UpageMapRefines(lay, View(), held, v, frame);
      status := UpageMapInPlace(v, frame);
    }

    method UpageMapInPlace(v: int, frame: int) returns (status: Status)
      requires Walkable()
      modifies pgdir, kpages, kmem
      ensures (View(), status) == UserPages.UpageMap(lay, old(View()), v, frame)
    {
      if !lay.IsUaddr(v) { return Fail(EFAULT); }
      if !lay.IsAligned(v) { return Fail(EINVAL); }
      UserWalk(lay, v);
      var p := PageOf(lay, v);
      if !pgdir[p.dir].present {
        var mapped := PgtabMapInPlace(v);
        if !mapped { return Fail(EAGAIN); }
      }
      assert pgdir[p.dir].present;
      assert UserTable(Geo(lay), View(), p.dir);
      TableIdIsOffset(lay, pgdir[p.dir].frame);
      var id := lay.KpoolAddrToId(lay.KpoolFrameToAddr(pgdir[p.dir].frame));
      if kmem[id][p.idx].present { return Fail(EADDRINUSE); }
      kmem[id] := kmem[id][p.idx := Entry(true, frame)];
      return Done;
    }

    /** upage_unmap() */
    method UpageUnmap(v: int) returns (frame: Option<int>)
      requires Valid()
      modifies this`itlb, this`dtlb, pgdir, kpages, kmem
      ensures (View(), frame) == UserPages.UpageUnmap(lay, old(View()), v)
      ensures Valid() && Mapping(lay, View()) == old(Mapping(lay, View())) - {v}
      ensures frame == old(if v in Mapping(lay, View()) then Some(Mapping(lay, View())[v]) else None)
    {
      UpageUnmapRefines(lay, View(), held, v);
      frame := UpageUnmapInPlace(v);
    }

    method UpageUnmapInPlace(v: int) returns (frame: Option<int>)
      requires Walkable()
      modifies this`itlb, this`dtlb, pgdir, kpages, kmem
      ensures (View(), frame) == UserPages.UpageUnmap(lay, old(View()), v)
    {
      if !lay.IsUaddr(v) { return None; }
      if !lay.IsAligned(v) { return None; }
      UserWalk(lay, v);
      var p := PageOf(lay, v);
      if !pgdir[p.dir].present { return None; }
      assert UserTable(Geo(lay), View(), p.dir);
      TableIdIsOffset(lay, pgdir[p.dir].frame);
      var id := lay.KpoolAddrToId(lay.KpoolFrameToAddr(pgdir[p.dir].frame));
      if !kmem[id][p.idx].present { return None; }
      frame := Some(kmem[id][p.idx].frame);
      kmem[id] := kmem[id][p.idx := kmem[id][p.idx].(present := false)];
      assert View() == SetEntry(Geo(lay), old(View()), p, Entry(false, frame.value));
      var _ := InvalInPlace(v);
      assert View() == Inval(SetEntry(Geo(lay), old(View()), p, Entry(false, frame.value)), p);
      if !lay.fastMemory {
        var _ := PgtabUnmapInPlace(v);
      }
    }

    /** upage_alloc() */
    method UpageAlloc(v: int) returns (status: Status)
      requires Valid()
      modifies pgdir, kpages, kmem, frames
      ensures (View(), status) == UserPages.UpageAlloc(lay, old(View()), v)
      ensures Valid() && (status.Done? <==> old(CanMap(lay, View(), v) && false in View().frames))
      ensures status.Fail? ==> View() == old(View())
      ensures status.Done? ==> v in Mapping(lay, View()) && Mapping(lay, View())[v] !in old(Allocated(lay, View()))
      ensures status.Done? ==> Mapping(lay, View()) == old(Mapping(lay, View()))[v := Mapping(lay, View())[v]]
    {
      UpageAllocRefines(lay, View(), held, v);
      status := UpageAllocInPlace(v);
    }

    method UpageAllocInPlace(v: int) returns (status: Status)
      requires Walkable()
      modifies pgdir, kpages, kmem, frames
      ensures (View(), status) == UserPages.UpageAlloc(lay, old(View()), v)
    {
      var frame := FrameAlloc();
      if frame.None? { return Fail(EAGAIN); }
      assert View() == WithFrames(Geo(lay), old(View()), frames[..]);
      status := UpageMapInPlace(v, frame.value);
      if status.Fail? {
        var _ := FrameFree(frame.value);
      }
    }

    /** upage_free() */
    method UpageFree(v: int) returns (status: Status)
      requires Valid()
      modifies this`itlb, this`dtlb, pgdir, kpages, kmem, frames
      ensures (View(), status) == UserPages.UpageFree(lay, old(View()), v)
      ensures Valid() && Mapping(lay, View()) == old(Mapping(lay, View())) - {v}
      ensures status.Done? <==> old(v in Mapping(lay, View()) && Mapping(lay, View())[v] in Allocated(lay, View()))
    {
      UpageFreeRefines(lay, View(), held, v);
      var frame := UpageUnmap(v);
      if frame.None? { return Fail(EFAULT); }
      var freed := FrameFree(frame.value);
      return if freed.Done? then Done else Fail(EIO);
    }

    /** upage_link() */
    method UpageLink(v1: int, v2: int, stray: Entry) returns (status: Status)
      requires Valid() && lay.IsAddress(v1)
      modifies pgdir, kpages, kmem
      ensures (View(), status) == UserPages.UpageLink(lay, old(View()), v1, v2, stray)
      ensures Valid() && (status.Fail? ==> View() == old(View()))
      ensures lay.IsUpage(v1) ==> (status.Done? <==> old(v1 in Mapping(lay, View()) && CanMap(lay, View(), v2)))
      ensures lay.IsUpage(v1) && status.Done? ==>
          Mapping(lay, View()) == old(Mapping(lay, View())[v2 := Mapping(lay, View())[v1]])
    {
      UpageLinkRefines(lay, View(), held, v1, v2, stray);
      if !lay.IsUaddr(v2) { return Fail(EFAULT); }
      if !lay.IsAligned(v2) { return Fail(EINVAL); }
      var frame := ReadEntry(v1, stray);
      if frame.None? { return Fail(EFAULT); }
      status := UpageMap(v2, frame.value);
    }

    /** The two table reads of upage_link() and do_tlb_fault(). */
    method ReadEntry(v: int, stray: Entry) returns (frame: Option<int>)
      requires Walkable() && lay.IsAddress(v)
      ensures frame == Lookup(Geo(lay), View(), PageOf(lay, v), stray)
    {
      var p := PageOf(lay, v);
      if !pgdir[p.dir].present { return None; }
      TableIdIsOffset(lay, pgdir[p.dir].frame);
      var id := lay.TableId(pgdir[p.dir].frame);
      var pte := if 0 <= id < lay.numKpages then kmem[id][p.idx] else stray;
      return if pte.present then Some(pte.frame) else None;
    }

    /** do_tlb_fault() */
    method DoTlbFault(addr: int, data: bool, stray: Entry)
      requires Valid() && lay.IsAddress(addr)
      modifies this`itlb, this`dtlb
      ensures View() == TlbFault(Geo(lay), old(View()), PageOf(lay, addr), data, stray)
      ensures Valid() && Mapping(lay, View()) == old(Mapping(lay, View()))
      ensures lay.IsUaddr(addr) ==> UserPageRuns.Cached(lay, old(View()), addr, data, View())
    {
      UserPageRuns.StepRefines(lay, UserPageRuns.Sys(View(), held), UserPageRuns.Fault(addr, data, stray));
      if lay.IsUaddr(addr) { UserPageRuns.FaultCachesMapping(lay, View(), addr, data, stray); }
      var v := addr - addr % lay.pageSize;
      PageBaseIsAddress(lay, addr);
      var frame := ReadEntry(v, stray);
      if frame.None? { return; }
      if data {
        dtlb := dtlb[PageOf(lay, v) := frame.value];
      } else {
        itlb := itlb[PageOf(lay, v) := frame.value];
      }
    }
  }
}
