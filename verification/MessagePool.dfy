/**
 * The message buffers of the NoC layer: one array, seen through a main pool that covers it and
 * an auxiliary pool that covers its end. Stored messages carry the age at which they were stored.
 */
module MessagePool {
  import opened Arithmetic
  import opened Kernel

  /** ~(0ULL) */
  const AGE_MAX: nat := 0xFFFF_FFFF_FFFF_FFFF

  /** Mailbox and portal addressing: `ports` per node, and the wild cards of a source mask. */
  datatype Addressing = Addressing(ports: nat, anySource: int, anyPort: int) {

    /** ACTIVE_LADDRESS_COMPOSE() */
    function Compose(fd: int, port: int): int { fd * (ports + 1) + port }

    /** mailbox_get_actid() */
    function ActId(id: int): int { if id < 0 then id else id / (ports + 1) }

    /** mailbox_get_portid() */
    function PortId(id: int): int { if id < 0 then id else id % (ports + 1) }

    /** mailbox_source_check() */
    predicate SourceCheck(src: int, mask: int) {
      || mask == -1
      || (&& (ActId(mask) == anySource || ActId(mask) == ActId(src))
          && (PortId(mask) == anyPort || PortId(mask) == PortId(src)))
    }
  }

  datatype Message = Message(dest: int, src: int, data: seq<int>)

  const NO_MESSAGE := Message(-1, -1, [])

  /** `busy` marks a stored message; `actid` and `portid` name the local sender of one. */
  datatype Mbuffer = Mbuffer(used: bool, busy: bool, age: nat, actid: int, portid: int, message: Message)

  const FREE := Mbuffer(false, false, AGE_MAX, -1, -1, NO_MESSAGE)

  /** A pool: `count` buffers of the array from `base` on. */
  datatype Pool = Pool(base: nat, count: nat) {
    predicate Fits(bufs: seq<Mbuffer>) { base + count <= |bufs| }

    /** Whether the pool covers buffer `k` of the array. */
    predicate Covers(k: int) { base <= k < base + count }
  }

  // ------------------------------------------------------------------------
  // Operations
  // ------------------------------------------------------------------------

  /** The first unused buffer of a pool at or after `from`, `count` if there is none. */
  function FirstUnused(bufs: seq<Mbuffer>, pool: Pool, from: nat): (i: nat)
    requires pool.Fits(bufs) && from <= pool.count
    ensures from <= i <= pool.count
    ensures i < pool.count ==> !bufs[pool.base + i].used
    ensures forall k :: pool.base + from <= k < pool.base + i ==> bufs[k].used
    decreases pool.count - from
  {
    if from == pool.count || !bufs[pool.base + from].used then from else FirstUnused(bufs, pool, from + 1)
  }

  /** mbuffer_alloc() */
  function Alloc(bufs: seq<Mbuffer>, pool: Pool): (seq<Mbuffer>, Option<nat>)
    requires pool.Fits(bufs)
  {
    var i := FirstUnused(bufs, pool, 0);
    if i == pool.count then (bufs, None) else (bufs[pool.base + i := FREE.(used := true)], Some(i))
  }

  /** mbuffer_release() */
  function Release(bufs: seq<Mbuffer>, counter: nat, pool: Pool, id: nat, keep: bool): (seq<Mbuffer>, nat, Status)
    requires pool.Fits(bufs) && id < pool.count
  {
    var b := bufs[pool.base + id];
    if !b.used then (bufs, counter, Fail(EINVAL))
    else if keep then (bufs[pool.base + id := b.(age := counter, busy := true)], (counter + 1) % (AGE_MAX + 1), Done)
    else (bufs[pool.base + id := FREE], counter, Done)
  }

  /** A stored message for `dest` whose source the mask admits. */
  predicate Matches(a: Addressing, b: Mbuffer, dest: int, mask: int) {
    b.used && b.busy && b.message.dest == dest && a.SourceCheck(b.message.src, mask)
  }

  /** The search of mbuffer_search() through the first `n` buffers: what it has found, and its age. */
  function SearchAmong(a: Addressing, bufs: seq<Mbuffer>, pool: Pool, dest: int, mask: int, n: nat)
    : (r: (Option<nat>, nat))
    requires pool.Fits(bufs) && n <= pool.count
    ensures r.0.Some? ==> r.0.value < n && Matches(a, bufs[pool.base + r.0.value], dest, mask)
                          && r.1 == bufs[pool.base + r.0.value].age
    ensures r.0.None? ==> r.1 == AGE_MAX
  {
    if n == 0 then (None, AGE_MAX) else
    var (found, age) := SearchAmong(a, bufs, pool, dest, mask, n - 1);
    var b := bufs[pool.base + n - 1];
    if !Matches(a, b, dest, mask) || b.age > age then (found, age) else (Some(n - 1), b.age)
  }

  /** mbuffer_search() */
  function Search(a: Addressing, bufs: seq<Mbuffer>, pool: Pool, dest: int, mask: int): Option<nat>
    requires pool.Fits(bufs)
  {
    SearchAmong(a, bufs, pool, dest, mask, pool.count).0
  }

  // ------------------------------------------------------------------------
  // What they promise
  // ------------------------------------------------------------------------

  /** Ages fit the 64 bits they are kept in. */
  ghost predicate AgesFit(bufs: seq<Mbuffer>) { forall i :: 0 <= i < |bufs| ==> bufs[i].age <= AGE_MAX }

  lemma {:induction false} SearchAmongOldest(a: Addressing, bufs: seq<Mbuffer>, pool: Pool, dest: int, mask: int,
      n: nat)
    requires pool.Fits(bufs) && n <= pool.count && AgesFit(bufs)
    ensures var (found, age) := SearchAmong(a, bufs, pool, dest, mask, n);
            && age <= AGE_MAX
            && (forall k :: pool.base <= k < pool.base + n && Matches(a, bufs[k], dest, mask) ==>
                 found.Some? && age <= bufs[k].age)
  {
    if n > 0 {
      SearchAmongOldest(a, bufs, pool, dest, mask, n - 1);
    }
  }

  /** mbuffer_search() fails only if no message matches, and otherwise finds the oldest that does. */
  lemma SearchFindsOldest(a: Addressing, bufs: seq<Mbuffer>, pool: Pool, dest: int, mask: int)
    requires pool.Fits(bufs) && AgesFit(bufs)
    ensures var r := Search(a, bufs, pool, dest, mask);
            && (r.None? <==> forall k :: pool.Covers(k) ==> !Matches(a, bufs[k], dest, mask))
            && (r.Some? ==>
                  && r.value < pool.count && Matches(a, bufs[pool.base + r.value], dest, mask)
                  && forall k :: pool.Covers(k) && Matches(a, bufs[k], dest, mask) ==>
                       bufs[pool.base + r.value].age <= bufs[k].age)
  {
    SearchAmongOldest(a, bufs, pool, dest, mask, pool.count);
  }

  /**
   * Overlapping views: a buffer that one pool hands out was unused, is used from then on in every
   * pool that covers it, and nothing else changes.
   */
  lemma AllocTakesUnused(bufs: seq<Mbuffer>, pool: Pool, other: Pool)
    requires pool.Fits(bufs) && other.Fits(bufs)
    ensures var (after, r) := Alloc(bufs, pool);
            && (r.None? ==> after == bufs && forall k :: pool.Covers(k) ==> bufs[k].used)
            && (r.Some? ==>
                  && r.value < pool.count && !bufs[pool.base + r.value].used && |after| == |bufs|
                  && (forall k :: 0 <= k < |bufs| && k != pool.base + r.value ==> after[k] == bufs[k])
                  && other.Fits(after)
                  && (Alloc(after, other).1.Some? ==> other.base + Alloc(after, other).1.value != pool.base + r.value))
  {
  }

  /** A node's number and a port's number can be read back from the address composed of them. */
  lemma ComposeRoundTrip(a: Addressing, fd: nat, port: nat)
    requires port <= a.ports
    ensures a.Compose(fd, port) >= 0
    ensures a.ActId(a.Compose(fd, port)) == fd && a.PortId(a.Compose(fd, port)) == port
  {
    var n := a.ports + 1;
    assert fd * n >= 0;
    var id := fd * n + port;
    assert (id / n - fd) * n == port - id % n by {
      assert id == n * (id / n) + id % n;
      assert (id / n - fd) * n == (id / n) * n - fd * n;
    }
    var k := id / n - fd;
    assert k * n == port - id % n;
    if k >= 1 { TimesAtLeast(k, n); }
    if k <= -1 { TimesAtLeast(-k, n); }
  }

  /** A mask composed of a node and a port admits that source alone; each wild card admits any. */
  lemma SourceCheckMeans(a: Addressing, node: nat, port: nat, srcNode: nat, srcPort: nat)
    requires port <= a.ports && srcPort <= a.ports
    ensures a.SourceCheck(a.Compose(srcNode, srcPort), a.Compose(node, port)) <==>
              (node == a.anySource || node == srcNode) && (port == a.anyPort || port == srcPort)
    ensures a.SourceCheck(a.Compose(srcNode, srcPort), -1)
  {
    ComposeRoundTrip(a, node, port);
    ComposeRoundTrip(a, srcNode, srcPort);
  }

  // ------------------------------------------------------------------------
  // The pools in place
  // ------------------------------------------------------------------------

  class Mbuffers {
    const bufs: array<Mbuffer>
    var counter: nat

    /** mbuffer_alloc() */
    method AllocBuffer(pool: Pool) returns (id: Option<nat>)
      requires pool.Fits(bufs[..])
      modifies bufs
      ensures (bufs[..], id) == Alloc(old(bufs[..]), pool)
    {
      var i := 0;
      while i < pool.count && bufs[pool.base + i].used
        invariant 0 <= i <= pool.count
        invariant forall k :: pool.base <= k < pool.base + i ==> bufs[k].used
      {
        i := i + 1;
      }
      assert FirstUnused(bufs[..], pool, 0) == i;
      if i == pool.count { return None; }
      bufs[pool.base + i] := FREE;
      bufs[pool.base + i] := bufs[pool.base + i].(used := true);
      assert bufs[..] == old(bufs[..])[pool.base + i := FREE.(used := true)];
      return Some(i);
    }

    /** mbuffer_release() */
    method ReleaseBuffer(pool: Pool, id: nat, keep: bool) returns (status: Status)
      requires pool.Fits(bufs[..]) && id < pool.count
      modifies this, bufs
      ensures (bufs[..], counter, status) == Release(old(bufs[..]), old(counter), pool, id, keep)
    {
      if !bufs[pool.base + id].used { return Fail(EINVAL); }
      if keep {
        bufs[pool.base + id] := bufs[pool.base + id].(age := counter);
        counter := (counter + 1) % (AGE_MAX + 1);
        bufs[pool.base + id] := bufs[pool.base + id].(busy := true);
        assert bufs[..] ==
          old(bufs[..])[pool.base + id := old(bufs[pool.base + id]).(age := old(counter), busy := true)];
      } else {
        bufs[pool.base + id] := FREE;
      }
      return Done;
    }

    /** mbuffer_search(): a running minimum over the pool. */
    method SearchBuffer(a: Addressing, pool: Pool, dest: int, mask: int) returns (found: Option<nat>)
      requires pool.Fits(bufs[..])
      ensures found == Search(a, bufs[..], pool, dest, mask)
      ensures AgesFit(bufs[..]) && found.Some? ==>
                forall k :: pool.Covers(k) && Matches(a, bufs[k], dest, mask) ==>
                  bufs[pool.base + found.value].age <= bufs[k].age
    {
      var age := AGE_MAX;
      found := None;
      for i := 0 to pool.count
        invariant (found, age) == SearchAmong(a, bufs[..], pool, dest, mask, i)
      {
        var b := bufs[pool.base + i];
        if Matches(a, b, dest, mask) && !(b.age > age) {
          found, age := Some(i), b.age;
        }
      }
      if AgesFit(bufs[..]) {
        SearchFindsOldest(a, bufs[..], pool, dest, mask);
      }
    }
  }
}
