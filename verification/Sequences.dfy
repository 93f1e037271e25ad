/** Facts about sequences: queues of threads and ports, and counts over tables. */
module Sequences {

  ghost predicate Distinct(q: seq<int>) { forall i, j :: 0 <= i < j < |q| ==> q[i] != q[j] }

  function Range(n: nat): (r: set<int>)
    ensures |r| == n && forall i :: i in r <==> 0 <= i < n
  {
    if n == 0 then {} else Range(n - 1) + {n - 1}
  }

  function Members(q: seq<int>): (r: set<int>)
    ensures forall x :: x in r <==> x in q
  {
    if q == [] then {} else {q[0]} + Members(q[1..])
  }

  lemma DistinctTail(q: seq<int>)
    requires Distinct(q) && q != []
    ensures Distinct(q[1..]) && q[0] !in q[1..]
    ensures forall x :: x in q[1..] <==> x in q && x != q[0]
  {
    var r := q[1..];
    assert forall i :: 0 <= i < |r| ==> r[i] == q[i + 1];
    assert forall x :: x in q && x != q[0] ==> x in r;
  }

  lemma {:induction false} DistinctSize(q: seq<int>)
    requires Distinct(q)
    ensures |Members(q)| == |q|
  {
    if q != [] {
      DistinctTail(q);
      DistinctSize(q[1..]);
    }
  }

  lemma SubsetSize(a: set<int>, b: set<int>)
    requires a <= b
    ensures |a| <= |b|
  {
    assert |b| == |a| + |b - a| by { assert b == a + (b - a); }
  }

  /** Distinct numbers below `n` that leave one out are fewer than `n`. */
  lemma Pigeonhole(q: seq<int>, n: nat, p: nat)
    requires Distinct(q) && (forall x :: x in q ==> 0 <= x < n) && p < n && p !in q
    ensures |q| < n
  {
    DistinctSize(q);
    var m, r := Members(q), Range(n);
    assert m <= r - {p};
    SubsetSize(m, r - {p});
  }

  /** Dropping the head and appending a number that is not there keeps the members, each once. */
  lemma Rotate(q: seq<int>, r: seq<int>)
    requires Distinct(q) && q != [] && (r == [] || (|r| == 1 && r[0] !in q))
    ensures Distinct(q[1..] + r)
    ensures forall t :: t in q[1..] + r <==> (t in q && t != q[0]) || t in r
  {
    DistinctTail(q);
  }

  /** `q` without the first occurrence of `p`. */
  function Remove(q: seq<int>, p: int): (r: seq<int>)
    ensures p !in q ==> r == q
    ensures p in q ==> |r| == |q| - 1
  {
    if q == [] then []
    else if q[0] == p then q[1..]
    else [q[0]] + Remove(q[1..], p)
  }

  /** Where the first occurrence of `p` is, `|q|` if there is none. */
  function IndexOf(q: seq<int>, p: int): (k: nat)
    ensures k <= |q|
    ensures k < |q| ==> q[k] == p
    ensures forall i :: 0 <= i < k ==> q[i] != p
  {
    if q == [] || q[0] == p then 0 else 1 + IndexOf(q[1..], p)
  }

  /** Removal keeps the order of everything else. */
  lemma {:induction false} RemoveSplits(q: seq<int>, p: int)
    ensures var k := IndexOf(q, p);
            Remove(q, p) == if k < |q| then q[..k] + q[k + 1..] else q
  {
    if q != [] && q[0] != p {
      RemoveSplits(q[1..], p);
      var k := IndexOf(q, p);
      if k < |q| {
        assert q[..k] == [q[0]] + q[1..][..k - 1];
        assert q[k + 1..] == q[1..][k..];
      }
    }
  }

  lemma {:induction false} RemoveDistinct(q: seq<int>, p: int)
    requires Distinct(q)
    ensures Distinct(Remove(q, p))
    ensures forall x :: x in Remove(q, p) <==> x in q && x != p
  {
    if q != [] {
      DistinctTail(q);
      if q[0] != p {
        RemoveDistinct(q[1..], p);
      }
    }
  }

  /** How many entries `p` accepts. */
  function Count<T>(s: seq<T>, p: T -> bool): nat {
    if s == [] then 0 else (if p(s[0]) then 1 else 0) + Count(s[1..], p)
  }

  lemma {:induction false} CountUpdate<T>(s: seq<T>, p: T -> bool, i: nat, x: T)
    requires i < |s|
    ensures Count(s[i := x], p) == Count(s, p) - (if p(s[i]) then 1 else 0) + if p(x) then 1 else 0
  {
    if i == 0 {
      assert s[0 := x] == [x] + s[1..];
    } else {
      CountUpdate(s[1..], p, i - 1, x);
      assert s[i := x] == [s[0]] + s[1..][i - 1 := x];
    }
  }

  lemma {:induction false} CountNone<T>(s: seq<T>, p: T -> bool)
    requires forall i :: 0 <= i < |s| ==> !p(s[i])
    ensures Count(s, p) == 0
  {
    if s != [] {
      CountNone(s[1..], p);
    }
  }

  lemma {:induction false} CountPositive<T>(s: seq<T>, p: T -> bool, i: nat)
    requires i < |s| && p(s[i])
    ensures Count(s, p) > 0
  {
    if i > 0 { CountPositive(s[1..], p, i - 1); }
  }

  /** Each entry is counted by one of two opposite tests. */
  lemma {:induction false} CountOpposites<T>(s: seq<T>, p: T -> bool, q: T -> bool)
    requires forall i :: 0 <= i < |s| ==> p(s[i]) != q(s[i])
    ensures Count(s, p) + Count(s, q) == |s|
  {
    if s != [] {
      CountOpposites(s[1..], p, q);
    }
  }

  /** Each step leads from one state to the next. */
  ghost predicate IsChain<S, O>(step: (S, O, S) -> bool, xs: seq<S>, ops: seq<O>) {
    |xs| == |ops| + 1 && forall i :: 0 <= i < |ops| ==> step(xs[i], ops[i], xs[i + 1])
  }

  lemma ChainsCompose<S, O>(step: (S, O, S) -> bool, xs: seq<S>, a: seq<O>, ys: seq<S>, b: seq<O>)
    requires IsChain(step, xs, a) && IsChain(step, ys, b) && xs[|a|] == ys[0]
    ensures IsChain(step, xs + ys[1..], a + b)
  {
    var zs := xs + ys[1..];
    forall i | 0 <= i < |a + b|
      ensures step(zs[i], (a + b)[i], zs[i + 1])
    {
      if i >= |a| {
        assert zs[i] == ys[i - |a|] && zs[i + 1] == ys[i - |a| + 1] && (a + b)[i] == b[i - |a|];
      }
    }
  }
}
