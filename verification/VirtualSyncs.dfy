/** Virtual syncs as the kernel runs them: `vsynctab` and its counters, updated in place. */
module VirtualSyncs {
  import opened Kernel
  import opened NodeMasks
  import opened Syncs

  class Vsynctab {
    const syncs: array<Sync>
    var counters: Counters
    /** How many handles of each entry callers hold. */
    ghost var handles: seq<nat>

    ghost function View(): Table
      reads this, syncs
    {
      Table(syncs[..], counters, handles)
    }

    ghost predicate Valid()
      reads this, syncs
    {
      |handles| == syncs.Length
    }

    /** do_sync_search() */
    method SyncSearch(master: int, nodes: Word, mode: Mode, dir: Direction) returns (r: nat)
      ensures r == Search(View(), Key(dir, mode, master, nodes))
    {
      var key := Key(dir, mode, master, nodes);
      r := 0;
      while r < syncs.Length
        invariant 0 <= r <= syncs.Length
        invariant forall i :: 0 <= i < r ==> !Matches(syncs[i], key)
      {
        var s := syncs[r];
        if s.used && s.key.dir == dir && s.key.mode == mode && s.key.master == master &&
          s.key.nodes == nodes { return; }
        r := r + 1;
      }
    }

    /** resource_alloc(): the first entry that is not in use. */
    method ResourceAlloc() returns (r: nat)
      ensures r == FirstIndex(syncs[..], IsUnused, 0)
    {
      r := 0;
      while r < syncs.Length && !IsUnused(syncs[r])
        invariant 0 <= r <= syncs.Length
        invariant forall i :: 0 <= i < r ==> !IsUnused(syncs[i])
      {
        r := r + 1;
      }
    }

    /** _do_sync_alloc() */
    method SyncAlloc(nodes: seq<int>, mode: Mode, dir: Direction, hardware: Result<int>) returns (r: Result<nat>)
      requires Valid() && IsList(nodes)
      modifies this, syncs
      ensures Valid()
      ensures (View(), r) == Alloc(old(View()), KeyOf(dir, mode, nodes), hardware)
    {
      var mask := BuildNodeslist(nodes);
      var i := SyncSearch(nodes[0], mask, mode, dir);
      if i < syncs.Length {
        syncs[i] := syncs[i].(refcount := syncs[i].refcount + 1);
        handles := handles[i := handles[i] + 1];
        return Ok(i);
      }
      var j := ResourceAlloc();
      if j == syncs.Length { return Err(EAGAIN); }
      if hardware.Err? { return Err(hardware.error); }
      syncs[j] := Sync(true, syncs[j].busy, Key(dir, mode, nodes[0], mask), hardware.value, 1);
      handles := handles[j := handles[j] + 1];
      if dir == Input {
        counters := counters.(ncreates := counters.ncreates + 1);
      } else {
        counters := counters.(nopens := counters.nopens + 1);
      }
      return Ok(j);
    }

    /** _do_sync_release() */
    method SyncRelease(i: nat, dir: Direction, hardware: Status) returns (r: Status)
      requires Valid() && i < syncs.Length
      modifies this, syncs
      ensures Valid()
      ensures (View(), r) == Release(old(View()), i, dir, hardware)
    {
      if !syncs[i].used || syncs[i].key.dir != dir { return Fail(EBADF); }
      if syncs[i].busy { return Fail(EBUSY); }
      syncs[i] := syncs[i].(refcount := syncs[i].refcount - 1);
      ghost var less := syncs[i];
      if syncs[i].refcount == 0 {
        if hardware.Fail? { return Fail(hardware.error); }
        syncs[i] := syncs[i].(hwfd := -1);
        syncs[i] := syncs[i].(key := syncs[i].key.(master := -1, nodes := Clear(64)));
        if dir == Input {
          counters := counters.(nunlinks := counters.nunlinks + 1);
        } else {
          counters := counters.(ncloses := counters.ncloses + 1);
        }
        syncs[i] := syncs[i].(used := false);
        assert syncs[i] == Freed(less);
      }
      assert syncs[..] == old(syncs[..])[i := syncs[i]];
      handles := handles[i := if handles[i] == 0 then 0 else handles[i] - 1];
      return Done;
    }

    /** _do_sync_operate() up to the hardware's operation, */
    method SyncOperateBegin(i: nat, dir: Direction) returns (r: Status)
      requires Valid() && i < syncs.Length
      modifies syncs
      ensures (View(), r) == OperateBegin(old(View()), i, dir)
    {
      if !syncs[i].used || syncs[i].key.dir != dir { return Fail(EBADF); }
      if syncs[i].busy { return Fail(EBUSY); }
      syncs[i] := syncs[i].(busy := true);
      return Done;
    }

    /** and after it. */
    method SyncOperateEnd(i: nat)
      requires Valid() && i < syncs.Length
      modifies syncs
      ensures View() == OperateEnd(old(View()), i)
    {
      syncs[i] := syncs[i].(busy := false);
    }
  }
}
