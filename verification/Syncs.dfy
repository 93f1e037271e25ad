/**
 * The table of virtual synchronization points: an entry for each direction, mode, master and set
 * of nodes in use, shared by reference counting. Each function is a region of sync.c under the
 * table's lock; an operation has two of them, around the hardware's wait or signal.
 */
module Syncs {
  import opened Kernel
  import opened Sequences
  import opened NodeMasks

  datatype Direction = Input | Output

  datatype Mode = OneToAll | AllToOne

  /** What a synchronization point is looked up by. */
  datatype Key = Key(dir: Direction, mode: Mode, master: int, nodes: Word)

  datatype Sync = Sync(used: bool, busy: bool, key: Key, hwfd: int, refcount: int)

  datatype Counters = Counters(ncreates: nat, nunlinks: nat, nopens: nat, ncloses: nat)

  /** The table, its counters, and how many handles of each entry callers hold. */
  datatype Table = Table(syncs: seq<Sync>, counters: Counters, handles: seq<nat>)

  predicate IsUnused(s: Sync) { !s.used }

  predicate Matches(s: Sync, key: Key) { s.used && s.key == key }

  /** do_sync_search() */
  function Search(t: Table, key: Key): (r: nat)
    ensures r <= |t.syncs|
    ensures r < |t.syncs| ==> Matches(t.syncs[r], key)
    ensures forall i :: 0 <= i < r ==> !Matches(t.syncs[i], key)
  {
    FirstIndex(t.syncs, s => Matches(s, key), 0)
  }

  function Counted(c: Counters, dir: Direction): Counters {
    if dir == Input then c.(ncreates := c.ncreates + 1) else c.(nopens := c.nopens + 1)
  }

  function Discounted(c: Counters, dir: Direction): Counters {
    if dir == Input then c.(nunlinks := c.nunlinks + 1) else c.(ncloses := c.ncloses + 1)
  }

  /** _do_sync_alloc() with the mask of the nodes built. `hardware` is what the HAL would answer. */
  function Alloc(t: Table, key: Key, hardware: Result<int>): (Table, Result<nat>)
    requires |t.handles| == |t.syncs|
  {
    var i := Search(t, key);
    if i < |t.syncs| then
      (t.(syncs := t.syncs[i := t.syncs[i].(refcount := t.syncs[i].refcount + 1)],
          handles := t.handles[i := t.handles[i] + 1]), Ok(i))
    else
      var j := FirstIndex(t.syncs, IsUnused, 0);
      if j == |t.syncs| then (t, Err(EAGAIN))
      else if hardware.Err? then (t, Err(hardware.error))
      else (Table(t.syncs[j := Sync(true, t.syncs[j].busy, key, hardware.value, 1)],
                  Counted(t.counters, key.dir), t.handles[j := t.handles[j] + 1]), Ok(j))
  }

  function Freed(s: Sync): Sync {
    s.(used := false, hwfd := -1, key := s.key.(master := -1, nodes := Clear(64)))
  }

  /** _do_sync_release(). A handle is given back when the call succeeds. */
  function Release(t: Table, i: nat, dir: Direction, hardware: Status): (Table, Status)
    requires i < |t.syncs| == |t.handles|
  {
    var s := t.syncs[i];
    if !s.used || s.key.dir != dir then (t, Fail(EBADF))
    else if s.busy then (t, Fail(EBUSY))
    else
      var less := s.(refcount := s.refcount - 1);
      var back := t.handles[i := if t.handles[i] == 0 then 0 else t.handles[i] - 1];
      if less.refcount != 0 then (t.(syncs := t.syncs[i := less], handles := back), Done)
      else if hardware.Fail? then (t.(syncs := t.syncs[i := less]), Fail(hardware.error))
      else (Table(t.syncs[i := Freed(less)], Discounted(t.counters, dir), back), Done)
  }

  /** _do_sync_operate() up to the hardware's operation. */
  function OperateBegin(t: Table, i: nat, dir: Direction): (Table, Status)
    requires i < |t.syncs|
  {
    var s := t.syncs[i];
    if !s.used || s.key.dir != dir then (t, Fail(EBADF))
    else if s.busy then (t, Fail(EBUSY))
    else (t.(syncs := t.syncs[i := s.(busy := true)]), Done)
  }

  /** _do_sync_operate() after it. */
  function OperateEnd(t: Table, i: nat): Table
    requires i < |t.syncs|
  {
    t.(syncs := t.syncs[i := t.syncs[i].(busy := false)])
  }

  // ---- What every step keeps ----

  /** No two entries in use are for the same key, and entries under operation are in use. */
  ghost predicate Interned(t: Table) {
    && |t.handles| == |t.syncs|
    && (forall i, j :: 0 <= i < j < |t.syncs| && t.syncs[i].used && t.syncs[j].used ==>
         t.syncs[i].key != t.syncs[j].key)
    && (forall i :: 0 <= i < |t.syncs| && t.syncs[i].busy ==> t.syncs[i].used)
  }

  predicate Balanced(s: Sync, handles: nat) {
    if s.used then s.refcount == handles && handles > 0 else handles == 0
  }

  /** The reference count of an entry in use is the number of its handles, and not zero. */
  ghost predicate Accounted(t: Table) {
    |t.handles| == |t.syncs| && forall i :: 0 <= i < |t.syncs| ==> Balanced(t.syncs[i], t.handles[i])
  }

  /** Entry `i` is the first one that is not in use. */
  ghost predicate FirstUnused(t: Table, i: int) {
    0 <= i < |t.syncs| && !t.syncs[i].used && forall j :: 0 <= j < i ==> t.syncs[j].used
  }

  ghost predicate NoneUnused(t: Table) { forall i :: 0 <= i < |t.syncs| ==> t.syncs[i].used }

  /**
   * An allocation answers the entry of its key, whoever made it, with one reference more. Without
   * such an entry it makes one, in the first entry not in use and with the hardware's sync, or
   * fails: with EAGAIN if all entries are in use, and with the hardware's error otherwise.
   */
  lemma AllocFinds(t: Table, key: Key, hardware: Result<int>)
    requires Interned(t)
    ensures var (u, r) := Alloc(t, key, hardware);
            && Interned(u)
            && (r.Ok? ==>
                 r.value < |u.syncs| && Matches(u.syncs[r.value], key) && u.handles[r.value] == t.handles[r.value] + 1)
            && (r.Err? ==> u == t && forall i :: 0 <= i < |t.syncs| ==> !Matches(t.syncs[i], key))
            && (r.Ok? ==>
                 forall i :: 0 <= i < |t.syncs| && i != r.value ==>
                   u.syncs[i] == t.syncs[i] && u.handles[i] == t.handles[i])
            && (r.Ok? && t.syncs[r.value].used ==>
                 && Matches(t.syncs[r.value], key) && u.counters == t.counters
                 && u.syncs[r.value] == t.syncs[r.value].(refcount := t.syncs[r.value].refcount + 1))
            && (r.Ok? && !t.syncs[r.value].used ==>
                 && FirstUnused(t, r.value) && (forall i :: 0 <= i < |t.syncs| ==> !Matches(t.syncs[i], key))
                 && u.syncs[r.value].refcount == 1 && hardware == Ok(u.syncs[r.value].hwfd))
            && (r.Err? ==> if NoneUnused(t) then r.error == EAGAIN else hardware == Err(r.error))
  {
    var j := FirstIndex(t.syncs, IsUnused, 0);
    assert forall i :: 0 <= i < j ==> !IsUnused(t.syncs[i]);
    assert j < |t.syncs| ==> IsUnused(t.syncs[j]);
  }

  /** Of an entry in use an allocation changes the reference count alone. */
  lemma AllocKeepsUsed(t: Table, key: Key, hardware: Result<int>, i: nat)
    requires Interned(t) && i < |t.syncs| && t.syncs[i].used
    ensures var u := Alloc(t, key, hardware).0;
            u.syncs[i] == t.syncs[i].(refcount := u.syncs[i].refcount)
  {
  }

  lemma AllocKeeps(t: Table, key: Key, hardware: Result<int>)
    requires Interned(t) && Accounted(t)
    ensures Accounted(Alloc(t, key, hardware).0)
  {
  }

  lemma ReleaseInterned(t: Table, i: nat, dir: Direction, hardware: Status)
    requires Interned(t) && i < |t.syncs|
    ensures Interned(Release(t, i, dir, hardware).0)
  {
  }

  /** The release that only the hardware can refuse: of the last handle of an idle entry. */
  predicate ReleasesLast(s: Sync, dir: Direction) {
    s.used && s.key.dir == dir && !s.busy && s.refcount == 1
  }

  /**
   * What a release does. It is refused for a wrong entry and a busy one. A release that is not
   * the last drops a reference. The last one gives the hardware's sync back and clears the entry,
   * or is refused by the hardware, and then the reference is dropped all the same.
   */
  lemma ReleaseDoes(t: Table, i: nat, dir: Direction, hardware: Status)
    requires Interned(t) && i < |t.syncs|
    ensures var (u, status) := Release(t, i, dir, hardware); var s := t.syncs[i];
            && Interned(u) && |u.syncs| == |t.syncs|
            && (forall j :: 0 <= j < |t.syncs| && j != i ==> u.syncs[j] == t.syncs[j] && u.handles[j] == t.handles[j])
            && (!s.used || s.key.dir != dir ==> u == t && status == Fail(EBADF))
            && (s.used && s.key.dir == dir && s.busy ==> u == t && status == Fail(EBUSY))
            && (s.used && s.key.dir == dir && !s.busy && s.refcount != 1 ==>
                  status == Done && u.counters == t.counters && u.syncs[i] == s.(refcount := s.refcount - 1))
            && (ReleasesLast(s, dir) ==> status == hardware)
            && (ReleasesLast(s, dir) && hardware.Fail? ==>
                  u.syncs[i] == s.(refcount := 0) && u.counters == t.counters && u.handles == t.handles)
            && (ReleasesLast(s, dir) && hardware.Done? ==>
                  && !u.syncs[i].used && u.syncs[i].hwfd == -1 && u.syncs[i].refcount == 0
                  && u.syncs[i].key.master == -1 && Ones(u.syncs[i].key.nodes) == 0
                  && u.counters.nunlinks == t.counters.nunlinks + (if dir == Input then 1 else 0)
                  && u.counters.ncloses == t.counters.ncloses + (if dir == Output then 1 else 0))
  {
    ReleaseInterned(t, i, dir, hardware);
    OnesZero(Clear(64));
  }

  /**
   * A release keeps the accounts if and only if it is not the last one of its entry with a
   * hardware that refuses: such an entry stays in use with its count at zero.
   */
  lemma ReleaseKeepsIff(t: Table, i: nat, dir: Direction, hardware: Status)
    requires Interned(t) && Accounted(t) && i < |t.syncs|
    ensures Accounted(Release(t, i, dir, hardware).0) <==> !(ReleasesLast(t.syncs[i], dir) && hardware.Fail?)
  {
    assert Balanced(t.syncs[i], t.handles[i]);
    var u := Release(t, i, dir, hardware).0;
    if ReleasesLast(t.syncs[i], dir) && hardware.Fail? {
      assert !Balanced(u.syncs[i], u.handles[i]);
    } else {
      forall j | 0 <= j < |u.syncs|
        ensures Balanced(u.syncs[j], u.handles[j])
      {
        assert Balanced(t.syncs[j], t.handles[j]);
      }
    }
  }

  /** An operation is admitted on an idle entry of the right direction alone, which it makes busy. */
  lemma BeginIff(t: Table, i: nat, dir: Direction)
    requires i < |t.syncs|
    ensures var (u, status) := OperateBegin(t, i, dir);
            && (status == Fail(EBADF) <==> !(t.syncs[i].used && t.syncs[i].key.dir == dir))
            && (status == Fail(EBUSY) <==> t.syncs[i].used && t.syncs[i].key.dir == dir && t.syncs[i].busy)
            && (status.Done? <==> t.syncs[i].used && t.syncs[i].key.dir == dir && !t.syncs[i].busy)
            && (status.Fail? ==> u == t)
            && (status.Done? ==> u.syncs[i].busy && OperateEnd(u, i) == t)
  {
    var (u, status) := OperateBegin(t, i, dir);
    if status.Done? {
      assert u.syncs[i].(busy := false) == t.syncs[i];
      assert u.syncs[i := t.syncs[i]] == t.syncs;
    }
  }

  // ---- Lists of nodes ----

  predicate IsList(nodes: seq<int>) { nodes != [] && InWord(nodes) }

  /** What do_vsync_create() and do_vsync_open() look for, given a list of nodes. */
  function KeyOf(dir: Direction, mode: Mode, nodes: seq<int>): Key
    requires IsList(nodes)
  {
    Key(dir, mode, nodes[0], Mask(nodes))
  }

  lemma KeysEqualIff(a: seq<int>, b: seq<int>, dir: Direction, mode: Mode, dir': Direction, mode': Mode)
    requires IsList(a) && IsList(b)
    ensures KeyOf(dir, mode, a) == KeyOf(dir', mode', b) <==>
        (dir == dir' && mode == mode' && a[0] == b[0] && Members(a) == Members(b))
  {
    MasksEqualIff(a, b);
    ValueIsInjective(Mask(a), Mask(b));
  }

  /**
   * While an entry is in use, asking for a list of nodes answers that entry if and only if the
   * list has the direction, mode, first node and set of nodes that the entry was made for; the
   * order of the other nodes does not matter.
   */
  lemma SharedIff(t: Table, i: nat, a: seq<int>, b: seq<int>, dir: Direction, mode: Mode, dir': Direction, mode': Mode,
      hardware: Result<int>)
    requires Interned(t) && IsList(a) && IsList(b)
    requires i < |t.syncs| && Matches(t.syncs[i], KeyOf(dir, mode, a))
    ensures Alloc(t, KeyOf(dir', mode', b), hardware).1 == Ok(i) <==>
        (dir == dir' && mode == mode' && a[0] == b[0] && Members(a) == Members(b))
  {
    KeysEqualIff(a, b, dir, mode, dir', mode');
    AllocFinds(t, KeyOf(dir', mode', b), hardware);
    AllocKeepsUsed(t, KeyOf(dir', mode', b), hardware, i);
  }
}
