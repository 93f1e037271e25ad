/** Address-space geometry: the conversions of mm.h, for any platform's constants. */
module MemoryLayout {
  import opened Arithmetic

  /**
   * The platform constants. `entries` is PAGE_SIZE/PDE_SIZE, the number of entries a kernel
   * page holds; the table length proper may be smaller. With `fastMemory` (the build option
   * NANVIX_FAST_MEMORY) an unmap never releases the underlying table.
   */
  datatype Layout = Layout(
    pageSize: nat, pgdirLength: nat, pgtabLength: nat, entries: nat,
    ubaseVirt: nat, umemSize: nat, ubasePhys: nat,
    kpoolVirt: nat, kpoolPhys: nat, numKpages: nat, fastMemory: bool)
  {
    predicate Valid() {
      && 0 < pageSize && 0 < pgtabLength <= entries
      && ubaseVirt % pageSize == 0 && umemSize % pageSize == 0 && ubasePhys % pageSize == 0
      && kpoolVirt % pageSize == 0 && kpoolPhys % pageSize == 0
      && (0 < umemSize ==> IsAddress(ubaseVirt + umemSize - 1))
    }

    /** Whether `v` is an address that the page directory covers. */
    predicate IsAddress(v: int)
      requires 0 < pageSize && 0 < pgtabLength
    {
      0 <= v && PdeIndex(v) < pgdirLength
    }

    predicate IsUaddr(v: int) { ubaseVirt <= v < ubaseVirt + umemSize }

    predicate IsAligned(v: int)
      requires 0 < pageSize
    {
      v % pageSize == 0
    }

    /** A user page: an address that the user page allocator accepts. */
    predicate IsUpage(v: int)
      requires 0 < pageSize
    {
      IsUaddr(v) && IsAligned(v)
    }

    function PdeIndex(v: int): int
      requires 0 < pageSize && 0 < pgtabLength
    {
      v / pageSize / pgtabLength
    }

    function PteIndex(v: int): int
      requires 0 < pageSize && 0 < pgtabLength
    {
      v / pageSize % pgtabLength
    }

    /** The directory entries that user addresses go through. */
    predicate IsUserPde(d: int)
      requires 0 < pageSize && 0 < pgtabLength
    {
      0 < umemSize && PdeIndex(ubaseVirt) <= d <= PdeIndex(ubaseVirt + umemSize - 1)
    }

    function NumUframes(): nat
      requires 0 < pageSize
    {
      umemSize / pageSize
    }

    predicate FrameIsValidNum(frame: int)
      requires 0 < pageSize
    {
      ubasePhys / pageSize <= frame < ubasePhys / pageSize + NumUframes()
    }

    function FrameIdToNum(id: nat): int
      requires 0 < pageSize
    {
      if id < NumUframes() then ubasePhys / pageSize + id else -1
    }

    function FrameNumToId(frame: int): int
      requires 0 < pageSize
    {
      if FrameIsValidNum(frame) then frame - ubasePhys / pageSize else -1
    }

    predicate KpoolIsKpage(v: int)
      requires 0 < pageSize
    {
      kpoolVirt <= v < kpoolVirt + numKpages * pageSize
    }

    function KpoolIdToAddr(id: int): int { kpoolVirt + id * pageSize }

    function KpoolAddrToId(v: int): int
      requires 0 < pageSize
    {
      (v - kpoolVirt) / pageSize
    }

    function KpoolAddrToFrame(v: int): int
      requires 0 < pageSize
    {
      KpoolAddrToId(v) + kpoolPhys / pageSize
    }

    function KpoolFrameToAddr(frame: int): int
      requires 0 < pageSize
    {
      KpoolIdToAddr(frame - kpoolPhys / pageSize)
    }

    /** The kernel page that a directory entry's frame names: addr_to_id(frame_to_addr(frame)). */
    function TableId(frame: int): int
      requires 0 < pageSize
    {
      KpoolAddrToId(KpoolFrameToAddr(frame))
    }
  }

  /** mm.h: a kernel page's id, address and frame convert into each other without loss. */
  lemma KpoolConversions(lay: Layout, id: int)
    requires lay.Valid()
    ensures lay.KpoolAddrToId(lay.KpoolIdToAddr(id)) == id
    ensures lay.TableId(lay.KpoolAddrToFrame(lay.KpoolIdToAddr(id))) == id
    ensures lay.KpoolIsKpage(lay.KpoolIdToAddr(id)) <==> 0 <= id < lay.numKpages
  {
    DivideProduct(id, lay.pageSize);
    TimesAtLeast(id, lay.pageSize);
    TimesAtLeast(lay.numKpages - id, lay.pageSize);
    TimesAtLeast(id - lay.numKpages, lay.pageSize);
    assert (id - lay.numKpages) * lay.pageSize == id * lay.pageSize - lay.numKpages * lay.pageSize;
  }

  lemma KpoolAddrInRange(lay: Layout, addr: int)
    requires lay.Valid() && lay.KpoolIsKpage(addr)
    ensures 0 <= lay.KpoolAddrToId(addr) < lay.numKpages
  {
    DivideMonotone(0, addr - lay.kpoolVirt, lay.pageSize);
    var q := lay.KpoolAddrToId(addr);
    assert (q - lay.numKpages) * lay.pageSize == q * lay.pageSize - lay.numKpages * lay.pageSize;
    TimesAtLeast(q - lay.numKpages, lay.pageSize);
  }

  lemma TableIdIsOffset(lay: Layout, frame: int)
    requires lay.Valid()
    ensures lay.TableId(frame) == frame - lay.kpoolPhys / lay.pageSize
  {
    DivideProduct(frame - lay.kpoolPhys / lay.pageSize, lay.pageSize);
  }

  /** mm.h: frame ids and frame numbers are inverse on the user frames, and nothing else converts. */
  lemma FrameConversions(lay: Layout, id: nat, frame: int)
    requires lay.Valid()
    ensures id < lay.NumUframes() ==>
        lay.FrameIsValidNum(lay.FrameIdToNum(id)) && lay.FrameNumToId(lay.FrameIdToNum(id)) == id
    ensures lay.FrameIsValidNum(frame) <==> 0 <= lay.FrameNumToId(frame)
    ensures lay.FrameIsValidNum(frame) ==>
        lay.FrameNumToId(frame) < lay.NumUframes() && lay.FrameIdToNum(lay.FrameNumToId(frame)) == frame
  {
  }

  /** The two-level walk tells every two pages apart: table index and entry index determine the page. */
  lemma WalkIsInjective(lay: Layout, v: int, w: int)
    requires lay.Valid()
    requires lay.IsAligned(v) && lay.IsAligned(w)
    requires lay.PdeIndex(v) == lay.PdeIndex(w) && lay.PteIndex(v) == lay.PteIndex(w)
    ensures v == w
  {
    var p, q, l := v / lay.pageSize, w / lay.pageSize, lay.pgtabLength;
    assert p == l * (p / l) + p % l && q == l * (q / l) + q % l;
    assert v == lay.pageSize * p && w == lay.pageSize * q;
  }

  lemma UserWalk(lay: Layout, v: int)
    requires lay.Valid() && lay.IsUaddr(v)
    ensures lay.IsUserPde(lay.PdeIndex(v))
    ensures 0 <= lay.PdeIndex(v) < lay.pgdirLength
    ensures 0 <= lay.PteIndex(v) < lay.pgtabLength
  {
    DivideMonotone(lay.ubaseVirt, v, lay.pageSize);
    DivideMonotone(lay.ubaseVirt / lay.pageSize, v / lay.pageSize, lay.pgtabLength);
    DivideMonotone(v, lay.ubaseVirt + lay.umemSize - 1, lay.pageSize);
    DivideMonotone(v / lay.pageSize, (lay.ubaseVirt + lay.umemSize - 1) / lay.pageSize, lay.pgtabLength);
    DivideMonotone(0, v, lay.pageSize);
    DivideMonotone(0, v / lay.pageSize, lay.pgtabLength);
  }

  lemma PageBaseIsUpage(lay: Layout, addr: int)
    requires lay.Valid() && lay.IsUaddr(addr)
    ensures lay.IsAddress(addr) && lay.IsUpage(addr - addr % lay.pageSize)
  {
    UserWalk(lay, addr);
    RoundDown(lay.ubaseVirt, addr, lay.pageSize);
  }

  lemma PageBaseIsAddress(lay: Layout, addr: int)
    requires lay.Valid() && lay.IsAddress(addr)
    ensures lay.IsAddress(addr - addr % lay.pageSize)
    ensures lay.PdeIndex(addr - addr % lay.pageSize) == lay.PdeIndex(addr)
    ensures lay.PteIndex(addr - addr % lay.pageSize) == lay.PteIndex(addr)
  {
    var n := lay.pageSize;
    assert addr - addr % n == (addr / n) * n;
    DivideProduct(addr / n, n);
    DivideMonotone(0, addr, n);
    TimesAtLeast(addr / n, n);
  }
}
