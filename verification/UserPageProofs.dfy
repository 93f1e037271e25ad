/** What the user page allocator promises, address by address and over whole runs. */
module UserPageProofs {
  import opened Kernel
  import opened MemoryLayout
  import opened PageTables
  import opened UserPages

  /** The invariant, on the layout's own geometry. */
  ghost predicate Good(lay: Layout, s: Vm, held: set<int>) { lay.Valid() && Inv(Geo(lay), s, held) }

  lemma WithFramesKeeps(g: Geometry, s: Vm, held: set<int>, frames: seq<bool>)
    requires Inv(g, s, held) && |frames| == |s.frames|
    ensures Inv(g, s.(frames := frames), held)
    ensures forall p :: IsUser(g, p) ==> Walk(g, s.(frames := frames), p) == Walk(g, s, p)
  {
    SameTablesSameWalk(g, s, s.(frames := frames));
  }

  /** Pages that differ walk to different places, so one changed walk is one changed binding. */
  lemma MappingFollowsWalk(lay: Layout, s: Vm, t: Vm, v: int, r: Option<int>)
    requires lay.Valid() && HasShape(Geo(lay), s) && HasShape(Geo(lay), t)
    requires lay.IsUpage(v)
    requires forall q :: IsUser(Geo(lay), q) ==>
        Walk(Geo(lay), t, q) == if q == PageOf(lay, v) then r else Walk(Geo(lay), s, q)
    ensures r.Some? ==> Mapping(lay, t) == Mapping(lay, s)[v := r.value]
    ensures r.None? ==> Mapping(lay, t) == Mapping(lay, s) - {v}
  {
    forall w | lay.IsUpage(w)
      ensures Walk(Geo(lay), t, PageOf(lay, w)) == if w == v then r else Walk(Geo(lay), s, PageOf(lay, w))
    {
      if PageOf(lay, w) == PageOf(lay, v) {
        WalkIsInjective(lay, v, w);
      }
    }
  }

  lemma SameWalkSameMapping(lay: Layout, s: Vm, t: Vm)
    requires lay.Valid() && HasShape(Geo(lay), s) && HasShape(Geo(lay), t)
    requires forall q :: IsUser(Geo(lay), q) ==> Walk(Geo(lay), t, q) == Walk(Geo(lay), s, q)
    ensures Mapping(lay, t) == Mapping(lay, s)
  {
  }

  /** A free user page, with a table at hand or a kernel page for one. */
  predicate CanMap(lay: Layout, s: Vm, v: int)
    requires lay.Valid() && HasShape(Geo(lay), s)
  {
    lay.IsUpage(v) && v !in Mapping(lay, s) && (s.pgdir[PageOf(lay, v).dir].present || 0 in s.kpages)
  }

  /**
   * upage_map() refines insertion into the map: it succeeds exactly when the page is a free user
   * page and a table is there or can be had, and a failure changes nothing at all.
   */
  lemma UpageMapRefines(lay: Layout, s: Vm, held: set<int>, v: int, frame: int)
    requires Good(lay, s, held)
    ensures var (t, status) := UpageMap(lay, s, v, frame);
            && Good(lay, t, held)
            && (status == Fail(EFAULT) <==> !lay.IsUaddr(v))
            && (status == Fail(EINVAL) <==> lay.IsUaddr(v) && !lay.IsAligned(v))
            && (status == Fail(EADDRINUSE) <==> v in Mapping(lay, s))
            && (status == Done <==> CanMap(lay, s, v))
            && (status.Fail? ==> t == s)
            && (status.Done? ==> Mapping(lay, t) == Mapping(lay, s)[v := frame])
            && t.frames == s.frames && t.itlb == s.itlb && t.dtlb == s.dtlb
            && (forall d :: 0 <= d < lay.pgdirLength && !lay.IsUserPde(d) ==> t.pgdir[d] == s.pgdir[d])
  {
    if lay.IsUpage(v) {
      var p := PageOf(lay, v);
      MapPageRefines(Geo(lay), s, held, p, frame);
      var (t, status) := MapPage(Geo(lay), s, p, frame);
      if status.Done? {
        MappingFollowsWalk(lay, s, t, v, Some(frame));
      }
    }
  }

  /** upage_unmap() refines deletion from the map and returns what was there. */
  lemma UpageUnmapRefines(lay: Layout, s: Vm, held: set<int>, v: int)
    requires Good(lay, s, held)
    ensures var (t, frame) := UpageUnmap(lay, s, v);
            && Good(lay, t, held)
            && frame == (if v in Mapping(lay, s) then Some(Mapping(lay, s)[v]) else None)
            && Mapping(lay, t) == Mapping(lay, s) - {v}
            && (frame.None? ==> t == s)
            && (frame.Some? ==> t.itlb == s.itlb - {PageOf(lay, v)} && t.dtlb == s.dtlb - {PageOf(lay, v)})
            && t.frames == s.frames
            && (forall d :: 0 <= d < lay.pgdirLength && !lay.IsUserPde(d) ==> t.pgdir[d] == s.pgdir[d])
  {
    if lay.IsUpage(v) {
      var p := PageOf(lay, v);
      UnmapPageRefines(Geo(lay), s, held, p);
      MappingFollowsWalk(lay, s, UnmapPage(Geo(lay), s, p).0, v, None);
    }
  }

  /** The frames that are marked in the bitmap. */
  function Allocated(lay: Layout, s: Vm): set<int>
    requires lay.Valid()
  {
    set f | Geo(lay).uframe <= f < Geo(lay).uframe + |s.frames| && FrameIsAllocated(Geo(lay), s.frames, f)
  }

  /** frame_alloc() fails only when every frame is taken, and otherwise takes one that was free. */
  lemma FrameAllocAllocated(lay: Layout, s: Vm)
    requires lay.Valid()
    ensures var (frames, frame) := FrameAlloc(Geo(lay), s.frames);
            && (frame.Some? <==> false in s.frames)
            && (frame.None? ==> frames == s.frames)
            && (frame.Some? ==>
                  && frame.value !in Allocated(lay, s)
                  && Allocated(lay, s.(frames := frames)) == Allocated(lay, s) + {frame.value}
                  && FrameFree(Geo(lay), frames, frame.value).0 == s.frames)
  {
    var (frames, frame) := FrameAlloc(Geo(lay), s.frames);
    if frame.Some? {
      var b := frame.value - Geo(lay).uframe;
      assert frames[b := false] == s.frames;
      assert s.frames[b] == false;
    }
  }

  /**
   * upage_alloc() binds a frame that was free until then, and only that one; a failure leaves
   * bitmap, tables and kernel page pool exactly as they were.
   */
  lemma UpageAllocRefines(lay: Layout, s: Vm, held: set<int>, v: int)
    requires Good(lay, s, held)
    ensures var (t, status) := UpageAlloc(lay, s, v);
            && Good(lay, t, held)
            && (status.Fail? ==> t == s)
            && (status.Done? <==> CanMap(lay, s, v) && false in s.frames)
            && (status.Done? ==>
                  var frame := FrameAlloc(Geo(lay), s.frames).1.value;
                  && frame !in Allocated(lay, s)
                  && Allocated(lay, t) == Allocated(lay, s) + {frame}
                  && Mapping(lay, t) == Mapping(lay, s)[v := frame])
            && t.itlb == s.itlb && t.dtlb == s.dtlb
  {
    var (frames, frame) := FrameAlloc(Geo(lay), s.frames);
    FrameAllocAllocated(lay, s);
    if frame.Some? {
      var s1 := WithFrames(Geo(lay), s, frames);
      WithFramesKeeps(Geo(lay), s, held, frames);
      SameWalkSameMapping(lay, s, s1);
      UpageMapRefines(lay, s1, held, v, frame.value);
      var (t, status) := UpageMap(lay, s1, v, frame.value);
      assert Allocated(lay, t) == Allocated(lay, s1);
    }
  }

  lemma FrameFreeAllocated(lay: Layout, s: Vm, frame: int)
    requires lay.Valid()
    ensures var (frames, status) := FrameFree(Geo(lay), s.frames, frame);
            && (status.Done? <==> frame in Allocated(lay, s))
            && Allocated(lay, s.(frames := frames)) == Allocated(lay, s) - {frame}
  {
  }

  /**
   * upage_free() unbinds the page and releases its frame. It reports an I/O error exactly when
   * the page was mapped to a frame that is not allocated; even then the page is unmapped.
   */
  lemma UpageFreeRefines(lay: Layout, s: Vm, held: set<int>, v: int)
    requires Good(lay, s, held)
    ensures var (t, status) := UpageFree(lay, s, v);
            && Good(lay, t, held)
            && (status == Fail(EFAULT) <==> v !in Mapping(lay, s))
            && (status == Fail(EIO) <==> v in Mapping(lay, s) && Mapping(lay, s)[v] !in Allocated(lay, s))
            && (status == Done <==> v in Mapping(lay, s) && Mapping(lay, s)[v] in Allocated(lay, s))
            && Mapping(lay, t) == Mapping(lay, s) - {v}
            && Allocated(lay, t) ==
                 (if v in Mapping(lay, s) then Allocated(lay, s) - {Mapping(lay, s)[v]} else Allocated(lay, s))
  {
    UpageUnmapRefines(lay, s, held, v);
    var (t, frame) := UpageUnmap(lay, s, v);
    if frame.Some? {
      var frames := FrameFree(Geo(lay), t.frames, frame.value).0;
      FrameFreeAllocated(lay, t, frame.value);
      WithFramesKeeps(Geo(lay), t, held, frames);
      SameWalkSameMapping(lay, t, t.(frames := frames));
      assert Allocated(lay, t) == Allocated(lay, s);
    }
  }

  /** upage_link() gives a second page the frame of the first. */
  lemma UpageLinkRefines(lay: Layout, s: Vm, held: set<int>, v1: int, v2: int, stray: Entry)
    requires Good(lay, s, held) && lay.IsAddress(v1)
    ensures var (t, status) := UpageLink(lay, s, v1, v2, stray);
            && Good(lay, t, held)
            && (status.Fail? ==> t == s)
            && (lay.IsUpage(v1) ==> (status.Done? <==> v1 in Mapping(lay, s) && CanMap(lay, s, v2)))
            && (status.Done? && lay.IsUpage(v1) ==>
                  v1 in Mapping(lay, s) && Mapping(lay, t) == Mapping(lay, s)[v2 := Mapping(lay, s)[v1]])
            && t.frames == s.frames && t.itlb == s.itlb && t.dtlb == s.dtlb
  {
    var frame := Lookup(Geo(lay), s, PageOf(lay, v1), stray);
    if frame.Some? {
      UpageMapRefines(lay, s, held, v2, frame.value);
      if lay.IsUpage(v1) && s.pgdir[PageOf(lay, v1).dir].present {
        assert UserTable(Geo(lay), s, PageOf(lay, v1).dir);
      }
    }
  }

  /**
   * upage_free() undoes upage_alloc(): mapping, bitmap, kernel page pool, table presence and
   * both TLBs are back to what they were.
   */
  lemma FreeUndoesAlloc(lay: Layout, s: Vm, held: set<int>, v: int)
    requires Good(lay, s, held) && !lay.fastMemory && UpageAlloc(lay, s, v).1.Done?
    ensures var t := UpageAlloc(lay, s, v).0;
            && Good(lay, t, held)
            && var (u, status) := UpageFree(lay, t, v);
               && status == Done && Good(lay, u, held)
               && Mapping(lay, u) == Mapping(lay, s)
               && u.frames == s.frames && u.kpages == s.kpages
               && u.itlb == s.itlb && u.dtlb == s.dtlb
               && forall d :: 0 <= d < |s.pgdir| ==> u.pgdir[d].present == s.pgdir[d].present
  {
    UpageAllocRefines(lay, s, held, v);
    var t := UpageAlloc(lay, s, v).0;
    UpageFreeRefines(lay, t, held, v);
    FreeUndoesAllocState(lay, s, held, v);
    assert Mapping(lay, s)[v := Mapping(lay, t)[v]] - {v} == Mapping(lay, s);
  }

  lemma FreeUndoesAllocState(lay: Layout, s: Vm, held: set<int>, v: int)
    requires Good(lay, s, held) && !lay.fastMemory && UpageAlloc(lay, s, v).1.Done?
    requires TablesInPool(Geo(lay), UpageAlloc(lay, s, v).0)
    ensures var u := UpageFree(lay, UpageAlloc(lay, s, v).0, v).0;
            && u.frames == s.frames && u.kpages == s.kpages
            && u.itlb == s.itlb && u.dtlb == s.dtlb
            && |u.pgdir| == |s.pgdir|
            && forall d :: 0 <= d < |s.pgdir| ==> u.pgdir[d].present == s.pgdir[d].present
  {
    var (frames, frame) := FrameAlloc(Geo(lay), s.frames);
    FrameAllocAllocated(lay, s);
    var s1 := WithFrames(Geo(lay), s, frames);
    WithFramesKeeps(Geo(lay), s, held, frames);
    var p := PageOf(lay, v);
    UnmapUndoesMap(Geo(lay), s1, held, p, frame.value);
    MapPageRefines(Geo(lay), s1, held, p, frame.value);
    UnmapPageRefines(Geo(lay), MapPage(Geo(lay), s1, p, frame.value).0, held, p);
  }
}
