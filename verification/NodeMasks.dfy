/**
 * The 64-bit masks that stand for sets of NoC nodes in the virtual syncs, with the two loops that
 * build one. A `uint64_t` is the sequence of its bits, bit 0 first.
 */
module NodeMasks {
  import opened Sequences

  function Clear(n: nat): (bits: seq<bool>)
    ensures |bits| == n && forall i :: 0 <= i < n ==> !bits[i]
  {
    if n == 0 then [] else Clear(n - 1) + [false]
  }

  type Word = w: seq<bool> | |w| == 64 witness Clear(64)

  /** The number that the bits stand for. */
  function Value(bits: seq<bool>): nat {
    if bits == [] then 0 else (if bits[0] then 1 else 0) + 2 * Value(bits[1..])
  }

  /** Comparing the numbers is comparing the bits. */
  lemma {:induction false} ValueIsInjective(a: seq<bool>, b: seq<bool>)
    requires |a| == |b|
    ensures Value(a) == Value(b) <==> a == b
  {
    if a != [] {
      ValueIsInjective(a[1..], b[1..]);
      assert a == [a[0]] + a[1..] && b == [b[0]] + b[1..];
    }
  }

  /** `w | (1ULL << n)` */
  function WithBit(w: Word, n: nat): Word
    requires n < 64
  {
    w[n := true]
  }

  /** The mask that sync_build_nodeslist() builds. */
  function Mask(nodes: seq<int>): Word
    requires InWord(nodes)
  {
    if nodes == [] then Clear(64) else WithBit(Mask(nodes[..|nodes| - 1]), nodes[|nodes| - 1])
  }

  predicate InWord(nodes: seq<int>) { forall i :: 0 <= i < |nodes| ==> 0 <= nodes[i] < 64 }

  function Ones(bits: seq<bool>): nat {
    if bits == [] then 0 else (if bits[0] then 1 else 0) + Ones(bits[1..])
  }

  lemma {:induction false} MaskMembers(nodes: seq<int>)
    requires InWord(nodes)
    ensures forall n :: 0 <= n < 64 ==> (Mask(nodes)[n] <==> n in nodes)
  {
    if nodes != [] {
      var rest := nodes[..|nodes| - 1];
      MaskMembers(rest);
      assert nodes == rest + [nodes[|nodes| - 1]];
    }
  }

  /** Two lists have the same mask if and only if they name the same set of nodes. */
  lemma MasksEqualIff(a: seq<int>, b: seq<int>)
    requires InWord(a) && InWord(b)
    ensures Value(Mask(a)) == Value(Mask(b)) <==> Members(a) == Members(b)
  {
    MaskMembers(a);
    MaskMembers(b);
    ValueIsInjective(Mask(a), Mask(b));
    if Members(a) == Members(b) {
      assert forall n :: 0 <= n < 64 ==> (n in a <==> n in Members(a)) && (n in b <==> n in Members(b));
      assert Mask(a) == Mask(b);
    }
    if Mask(a) == Mask(b) {
      assert forall n :: n in Members(a) <==> n in Members(b);
    }
  }

  lemma {:induction false} OnesZero(bits: seq<bool>)
    requires forall i :: 0 <= i < |bits| ==> !bits[i]
    ensures Ones(bits) == 0
  {
    if bits != [] { OnesZero(bits[1..]); }
  }

  lemma {:induction false} OnesSet(bits: seq<bool>, n: nat)
    requires n < |bits| && !bits[n]
    ensures Ones(bits[n := true]) == Ones(bits) + 1
  {
    if n > 0 {
      OnesSet(bits[1..], n - 1);
      assert bits[n := true][1..] == bits[1..][n - 1 := true];
    } else {
      assert bits[n := true][1..] == bits[1..];
    }
  }

  /** A list without repetitions has as many bits in its mask as nodes. */
  lemma {:induction false} DistinctMaskOnes(nodes: seq<int>)
    requires InWord(nodes) && Distinct(nodes)
    ensures Ones(Mask(nodes)) == |nodes|
  {
    if nodes == [] {
      OnesZero(Clear(64));
    } else {
      var rest := nodes[..|nodes| - 1];
      DistinctMaskOnes(rest);
      MaskMembers(rest);
      OnesSet(Mask(rest), nodes[|nodes| - 1]);
    }
  }

  /** sync_build_nodeslist() */
  method BuildNodeslist(nodes: seq<int>) returns (mask: Word)
    requires InWord(nodes)
    ensures mask == Mask(nodes)
  {
    mask := Clear(64);
    for j := 0 to |nodes|
      invariant mask == Mask(nodes[..j])
    {
      mask := WithBit(mask, nodes[j]);
      assert nodes[..j + 1][..j] == nodes[..j];
    }
    assert nodes[..|nodes|] == nodes;
  }

  /** What sync_nodelist_is_valid() is documented to check. */
  ghost predicate IsNodeList(nodes: seq<int>, local: nat, isTheOne: bool, nodesNum: nat)
    requires nodes != []
  {
    && (isTheOne <==> nodes[0] == local)
    && (forall i :: 0 <= i < |nodes| ==> 0 <= nodes[i] < nodesNum)
    && Distinct(nodes)
    && local in nodes
  }

  /** Each node from 32 on has such lists. */
  lemma HighNodesHaveLists(local: nat, nodesNum: nat)
    requires 32 <= local < nodesNum
    ensures IsNodeList([local, 0], local, true, nodesNum)
  {
    assert [local, 0][0] == local;
  }

  /**
   * sync_nodelist_is_valid(). The 64-bit result is returned as an `int`, which drops the upper 32
   * bits, so that a valid list is turned down on the nodes from 32 on.
   */
  method NodelistIsValid(nodes: seq<int>, local: nat, isTheOne: bool, nodesNum: nat) returns (valid: bool)
    requires nodes != [] && local < nodesNum <= 64
    ensures valid <==> IsNodeList(nodes, local, isTheOne, nodesNum) && local < 32
    ensures valid ==> InWord(nodes) && Ones(Mask(nodes)) == |nodes|
  {
    if isTheOne && nodes[0] != local { return false; }
    if !isTheOne && nodes[0] == local { return false; }
    var checks := Clear(64);
    for i := 0 to |nodes|
      invariant forall k :: 0 <= k < i ==> 0 <= nodes[k] < nodesNum
      invariant Distinct(nodes[..i])
      invariant checks == Mask(nodes[..i])
    {
      MaskMembers(nodes[..i]);
      if !(0 <= nodes[i] < nodesNum) { return false; }
      if checks[nodes[i]] {
        assert nodes[i] in nodes[..i];
        return false;
      }
      checks := WithBit(checks, nodes[i]);
      assert nodes[..i + 1][..i] == nodes[..i];
      assert nodes[..i + 1] == nodes[..i] + [nodes[i]];
    }
    assert nodes[..|nodes|] == nodes;
    MaskMembers(nodes);
    DistinctMaskOnes(nodes);
    var found := Clear(64)[local := checks[local]];
    valid := found[..32] != Clear(64)[..32];
    assert valid <==> checks[local] && local < 32 by {
      if checks[local] && local < 32 { assert found[..32][local]; }
    }
  }
}
