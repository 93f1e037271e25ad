/**
 * The user page allocator at its entry points: integer addresses, their checks, the frame
 * allocator behind upage_alloc() and upage_free(), and what every operation does to the map
 * from user addresses to frames.
 */
module UserPages {
  import opened Arithmetic
  import opened Kernel
  import opened MemoryLayout
  import opened PageTables

  function Geo(lay: Layout): (g: Geometry)
    requires lay.Valid()
    ensures g.Valid()
    ensures forall d :: g.IsUserDir(d) <==> lay.IsUserPde(d)
  {
    DivideMonotone(0, lay.ubaseVirt, lay.pageSize);
    DivideMonotone(0, lay.ubaseVirt / lay.pageSize, lay.pgtabLength);
    var last := if 0 < lay.umemSize then lay.PdeIndex(lay.ubaseVirt + lay.umemSize - 1) else -1;
    Geometry(lay.pgdirLength, lay.pgtabLength, lay.entries, lay.PdeIndex(lay.ubaseVirt), last,
             lay.kpoolPhys / lay.pageSize, lay.numKpages, lay.ubasePhys / lay.pageSize, lay.NumUframes(),
               lay.fastMemory)
  }

  function PageOf(lay: Layout, v: int): (p: Page)
    requires lay.Valid()
    ensures lay.IsUaddr(v) ==> IsUser(Geo(lay), p)
    ensures lay.IsAddress(v) ==> InSpace(Geo(lay), p)
  {
    assert lay.IsUaddr(v) ==> IsUser(Geo(lay), Page(lay.PdeIndex(v), lay.PteIndex(v))) by {
      if lay.IsUaddr(v) { UserWalk(lay, v); }
    }
    assert lay.IsAddress(v) ==> InSpace(Geo(lay), Page(lay.PdeIndex(v), lay.PteIndex(v))) by {
      if lay.IsAddress(v) { AddressWalk(lay, v); }
    }
    Page(lay.PdeIndex(v), lay.PteIndex(v))
  }

  /** What the tables mean: the partial map from user pages to frames. */
  function Mapping(lay: Layout, s: Vm): map<int, int>
    requires lay.Valid() && HasShape(Geo(lay), s)
  {
    map v: int | lay.ubaseVirt <= v < lay.ubaseVirt + lay.umemSize && lay.IsAligned(v) &&
      Walk(Geo(lay), s, PageOf(lay, v)).Some?
      :: Walk(Geo(lay), s, PageOf(lay, v)).value
  }

  /** upage_inval() */
  function UpageInval(lay: Layout, s: Vm, v: int): (Vm, Status)
    requires lay.Valid()
  {
    var page := v - v % lay.pageSize;
    if !lay.IsUaddr(page) then (s, Fail(EINVAL)) else (Inval(s, PageOf(lay, page)), Done)
  }

  /** upage_map() */
  function UpageMap(lay: Layout, s: Vm, v: int, frame: int): (Vm, Status)
    requires lay.Valid() && TablesInPool(Geo(lay), s)
  {
    if !lay.IsUaddr(v) then (s, Fail(EFAULT)) else
    if !lay.IsAligned(v) then (s, Fail(EINVAL)) else
    MapPage(Geo(lay), s, PageOf(lay, v), frame)
  }

  /** upage_unmap() */
  function UpageUnmap(lay: Layout, s: Vm, v: int): (Vm, Option<int>)
    requires lay.Valid() && TablesInPool(Geo(lay), s)
  {
    if !lay.IsUaddr(v) then (s, None) else
    if !lay.IsAligned(v) then (s, None) else
    UnmapPage(Geo(lay), s, PageOf(lay, v))
  }

  /** upage_alloc() */
  function UpageAlloc(lay: Layout, s: Vm, v: int): (Vm, Status)
    requires lay.Valid() && TablesInPool(Geo(lay), s)
  {
    var (frames, frame) := FrameAlloc(Geo(lay), s.frames);
    if frame.None? then (s, Fail(EAGAIN)) else
    var (t, status) := UpageMap(lay, WithFrames(Geo(lay), s, frames), v, frame.value);
    if status.Done? then (t, Done) else (t.(frames := FrameFree(Geo(lay), t.frames, frame.value).0), status)
  }

  /** upage_free() */
  function UpageFree(lay: Layout, s: Vm, v: int): (Vm, Status)
    requires lay.Valid() && TablesInPool(Geo(lay), s)
  {
    var (t, frame) := UpageUnmap(lay, s, v);
    if frame.None? then (t, Fail(EFAULT)) else
    var (frames, status) := FrameFree(Geo(lay), t.frames, frame.value);
    (t.(frames := frames), if status.Done? then Done else Fail(EIO))
  }

  /** upage_link(): maps at `v2` the frame found at `v1`, whatever address `v1` is. */
  function UpageLink(lay: Layout, s: Vm, v1: int, v2: int, stray: Entry): (Vm, Status)
    requires lay.Valid() && TablesInPool(Geo(lay), s) && lay.IsAddress(v1)
  {
    if !lay.IsUaddr(v2) then (s, Fail(EFAULT)) else
    if !lay.IsAligned(v2) then (s, Fail(EINVAL)) else
    var frame := Lookup(Geo(lay), s, PageOf(lay, v1), stray);
    if frame.None? then (s, Fail(EFAULT)) else UpageMap(lay, s, v2, frame.value)
  }

  /** The state with another frame bitmap: the tables do not depend on it. */
  function WithFrames(g: Geometry, s: Vm, frames: seq<bool>): (t: Vm)
    requires |frames| == |s.frames|
    ensures TablesInPool(g, s) ==> TablesInPool(g, t)
  {
    var t := s.(frames := frames);
    assert TablesInPool(g, s) ==> TablesInPool(g, t) by {
      assert forall d :: UserTable(g, t, d) == UserTable(g, s, d);
    }
    t
  }

  lemma AddressWalk(lay: Layout, v: int)
    requires lay.Valid() && lay.IsAddress(v)
    ensures 0 <= lay.PdeIndex(v) < lay.pgdirLength && 0 <= lay.PteIndex(v) < lay.pgtabLength
  {
    DivideMonotone(0, v, lay.pageSize);
    DivideMonotone(0, v / lay.pageSize, lay.pgtabLength);
  }
}
