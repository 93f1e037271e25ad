/**
 * A TCP netconn in a vector write: the message that lwip_netconn_do_writemore() advances in place,
 * and the summing loop of netconn_write_vectors_partly().
 */
module Netconn {
  import opened VectorWrite
  import opened VectorWriteCalls
  import opened VectorWriteLimits

  /** The sizes of the vectors, added up. */
  function Sum(v: seq<Vector>, i: nat): nat
    requires i <= |v|
  {
    if i == 0 then 0 else Sum(v, i - 1) + |v[i - 1]|
  }

  lemma {:induction false} SumIsLength(v: seq<Vector>, i: nat)
    requires i <= |v|
    ensures Sum(v, i) == |Flat(v, i)|
  {
    if i > 0 { SumIsLength(v, i - 1); }
  }

  lemma {:induction false} SumGrows(v: seq<Vector>, i: nat, j: nat)
    requires i <= j <= |v|
    ensures Sum(v, i) <= Sum(v, j)
    decreases j
  {
    if i < j { SumGrows(v, i, j - 1); }
  }

  /**
   * The total of the vectors in a `size_t` with the largest value `sizeMax`, or nothing. A sum
   * that wraps around is seen as one that is less than what was added last.
   */
  method TotalSize(v: seq<Vector>, sizeMax: nat) returns (fits: bool, size: nat)
    requires forall i :: 0 <= i < |v| ==> |v[i]| <= sizeMax
    ensures fits <==> |Concat(v)| <= sizeMax
    ensures fits ==> size == |Concat(v)|
  {
    size := 0;
    for i := 0 to |v|
      invariant size == Sum(v, i) <= sizeMax
    {
      var sum := size + |v[i]|;
      size := if sum > sizeMax then sum - (sizeMax + 1) else sum;
      if size < |v[i]| {
        assert Sum(v, i + 1) > sizeMax;
        SumGrows(v, i + 1, |v|);
        SumIsLength(v, |v|);
        return false, size;
      }
    }
    SumIsLength(v, |v|);
    fits := true;
  }

  /** netconn_write_vectors_partly() up to the message: an answer, or the write to hand over. */
  datatype Prepared = Answer(err: Err) | Message(write: Write)

  method WriteVectorsPartly(v: seq<Vector>, dontblock: bool, timed: bool, counts: bool,
                            sizeMax: nat, ssizeMax: nat) returns (r: Prepared)
    requires 0 < ssizeMax < sizeMax
    requires forall i :: 0 <= i < |v| ==> |v[i]| <= sizeMax
    ensures r == Answer(ERR_VAL) <==>
        (|Concat(v)| > sizeMax || (!counts && (dontblock || timed || |Concat(v)| > ssizeMax)))
    ensures r == Answer(ERR_OK) <==> Concat(v) == [] && (counts || (!dontblock && !timed))
    ensures r.Answer? ==> r.err == ERR_VAL || r.err == ERR_OK
    ensures r.Message? ==> (
      && Placed(r.write)
      && r.write == Begin(v, r.write.len, dontblock, timed)
      && 0 < r.write.len <= ssizeMax
      && (CanAbort(r.write) <==> (!dontblock && |Concat(v)| > ssizeMax)))
  {
    if (dontblock || timed) && !counts { return Answer(ERR_VAL); }
    var fits, size := TotalSize(v, sizeMax);
    if !fits { return Answer(ERR_VAL); }
    if size == 0 { return Answer(ERR_OK); }
    if size > ssizeMax {
      if !counts { return Answer(ERR_VAL); }
      size := ssizeMax;
    }
    r := Message(Begin(v, size, dontblock, timed));
    assert |v| > 0;
    assert Flat(v, 0) + v[0][..0] == [];
    AbortsIff(v, size, dontblock, timed);
  }

  /** A round in the terms of the loop: the error it sets and whether it is the last. */
  lemma RoundByParts(w: Write, result: Err, output: Err, x: Write, err: Err, last: bool)
    requires InLoop(w)
    requires x == if !GivesUp(w) && result == ERR_OK then Accept(w) else w
    requires err == if GivesUp(w) then Partial(w) else result
    requires last <==> GivesUp(w) || result != ERR_OK || !More(w)
    ensures Round(w, result, output) == if last then x.(phase := Tail(x, err, output)) else x
    ensures !last ==> x.phase.Looping?
    ensures !Tail(x, err, output).Looping?
  {
  }

  /** A call past its loop stays as it is. */
  lemma {:induction false} RoundsStay(w: Write, results: nat -> Err, output: Err, k: nat, n: nat)
    requires k <= n && !Rounds(w, results, output, k).phase.Looping?
    ensures Rounds(w, results, output, n) == Rounds(w, results, output, k)
  {
    if k < n { RoundsStay(w, results, output, k, n - 1); }
  }

  /** `x` is a state of the call that started in `w` and whose loop ends, after `k` rounds. */
  ghost predicate LoopFrom(w: Write, results: nat -> Err, output: Err, x: Write, k: nat) {
    && InEndingLoop(w)
    && (!x.phase.Looping? ==> RunLoop(w, results, output, 0) == x)
    && (x.phase.Looping? ==> InEndingLoop(x) && RunLoop(w, results, output, 0) == RunLoop(x, results, output, k))
  }

  lemma LoopStep(w: Write, results: nat -> Err, output: Err, k: nat)
    requires InEndingLoop(w)
    ensures var x := Round(w, results(k), output);
            if x.phase.Looping?
            then InEndingLoop(x) && RunLoop(w, results, output, k) == RunLoop(x, results, output, k + 1)
            else RunLoop(w, results, output, k) == x
  {
    RoundKeepsGoal(w, results(k), output);
  }

  lemma LoopFromNext(w: Write, results: nat -> Err, output: Err, x: Write, k: nat)
    requires LoopFrom(w, results, output, x, k)
    ensures LoopFrom(w, results, output, Next(x, results(k), output), k + 1)
  {
    if x.phase.Looping? { LoopStep(x, results, output, k); }
  }

  lemma {:induction false} LoopByRounds(w: Write, results: nat -> Err, output: Err, k: nat)
    requires InEndingLoop(w)
    ensures LoopFrom(w, results, output, Rounds(w, results, output, k), k)
  {
    if k > 0 {
      LoopByRounds(w, results, output, k - 1);
      LoopFromNext(w, results, output, Rounds(w, results, output, k - 1), k - 1);
    }
  }

  /** It has ended after as many rounds as there are bytes and vectors left. */
  lemma EnoughRounds(w: Write, results: nat -> Err, output: Err, n: nat)
    requires InEndingLoop(w) && Measure(w) < n
    ensures Rounds(w, results, output, n) == RunLoop(w, results, output, 0)
    ensures !Rounds(w, results, output, n).phase.Looping?
  {
    RoundsKeepGoal(w, results, output, n);
    AcceptedIsPrefix(Rounds(w, results, output, n));
    if Rounds(w, results, output, n).phase.Looping? {
      RoundsProgress(w, results, output, n);
    }
    LoopByRounds(w, results, output, n);
  }

  /** The call that started in `start` is in `w` after `k` rounds, or past its loop with `err`. */
  ghost predicate OnWay(start: Write, results: nat -> Err, output: Err, w: Write, k: nat, err: Err, last: bool) {
    && Rounds(start, results, output, k) == (if last then w.(phase := Tail(w, err, output)) else w)
    && (!last ==> InLoop(w))
    && (last ==> !Tail(w, err, output).Looping?)
  }

  lemma HasVector(start: Write, results: nat -> Err, output: Err, w: Write, k: nat, err: Err)
    requires OnWay(start, results, output, w, k, err, false)
    ensures w.done < |w.vectors| && w.off <= |w.vectors[w.done]|
  {
  }

  lemma WayStarts(start: Write, results: nat -> Err, output: Err)
    requires InLoop(start)
    ensures OnWay(start, results, output, start, 0, ERR_OK, false)
  {
  }

  lemma WayEnds(start: Write, results: nat -> Err, output: Err, w: Write, k: nat, err: Err, last: bool, rounds: nat)
    requires OnWay(start, results, output, w, k, err, last) && k <= rounds && (last || k == rounds)
    ensures Rounds(start, results, output, rounds) == if last then w.(phase := Tail(w, err, output)) else w
  {
    if last { RoundsStay(start, results, output, k, rounds); }
  }

  lemma OneRoundOn(
    start: Write, results: nat -> Err, output: Err, w: Write, k: nat, e: Err, x: Write, err: Err, last: bool)
    requires OnWay(start, results, output, w, k, e, false)
    requires x == if !GivesUp(w) && results(k) == ERR_OK then Accept(w) else w
    requires err == if GivesUp(w) then Partial(w) else results(k)
    requires last <==> GivesUp(w) || results(k) != ERR_OK || !More(w)
    ensures OnWay(start, results, output, x, k + 1, err, last)
    ensures x.done <= |x.vectors|
  {
    RoundKeepsGoal(w, results(k), output);
    RoundByParts(w, results(k), output, x, err, last);
  }

  class Conn {
    const vectors: seq<Vector>
    const len: nat
    const dontblock: bool
    const timed: bool
    var vector: nat
    var vectorCnt: nat
    var vectorOff: nat
    var offset: nat
    var sndbuf: nat
    var accepted: seq<Byte>
    var phase: Phase

    ghost predicate Valid()
      reads this
    {
      && vectorCnt <= |vectors|
      && (vectorCnt > 0 ==> vector == |vectors| - vectorCnt)
    }

    ghost function View(): Write
      reads this
      requires Valid()
    {
      Write(vectors, |vectors| - vectorCnt, vectorOff, offset, len, dontblock, timed, sndbuf, accepted, phase)
    }

    constructor (write: Write)
      requires write.done <= |write.vectors|
      ensures Valid() && View() == write
    {
      vectors, len, dontblock, timed := write.vectors, write.len, write.dontblock, write.timed;
      vector, vectorCnt := write.done, |write.vectors| - write.done;
      vectorOff, offset, sndbuf := write.off, write.offset, write.room;
      accepted, phase := write.accepted, write.phase;
    }

    /** tcp_write() took `length` bytes of the current vector. */
    method Advance(length: nat)
      requires Valid() && vectorCnt > 0 && vectorOff <= |vectors[vector]|
      requires length == Length(View())
      modifies this
      ensures Valid() && View() == old(Accept(View()))
    {
      accepted := accepted + vectors[vector][vectorOff..vectorOff + length];
      sndbuf := sndbuf - length;
      offset := offset + length;
      vectorOff := vectorOff + length;
      if vectorOff == |vectors[vector]| {
        vectorCnt := vectorCnt - 1;
        if vectorCnt > 0 {
          vector := vector + 1;
          vectorOff := 0;
        }
      }
    }

    /** The body of the loop. `last` says that the loop is left with the error `err`. */
    method WriteRound(result: Err) returns (err: Err, last: bool)
      requires Valid() && vectorCnt > 0 && vectorOff <= |vectors[vector]|
      modifies this
      ensures Valid()
      ensures View() == old(if !GivesUp(View()) && result == ERR_OK then Accept(View()) else View())
      ensures err == old(if GivesUp(View()) then Partial(View()) else result)
      ensures last <==> old(GivesUp(View()) || result != ERR_OK || !More(View()))
      ensures var full := old(FindsFull(View()));
              && err == (if full then if old(offset) == 0 then ERR_WOULDBLOCK else ERR_OK else result)
              && (full ==> last && View() == old(View()))
    {
      var diff := |vectors[vector]| - vectorOff;
      var length := if diff > 0xffff then 0xffff else diff;
      var available := sndbuf;
      if available < length {
        length := available;
        if dontblock && length == 0 {
          err := if offset == 0 then ERR_WOULDBLOCK else ERR_OK;
          last := true;
          return;
        }
      }
      assert length == Length(View());
      var more := (length == 0xffff && diff > 0xffff) || (length == diff % 0x10000 && vectorCnt > 1);
      err := result;
      last := !more || err != ERR_OK;
      if err == ERR_OK {
        Advance(length);
      }
    }

    /** What follows the loop: whether the write is finished, and with what error. */
    method WriteTail(error: Err, output: Err)
      requires Valid()
      modifies this`phase
      ensures Valid() && View() == old(View()).(phase := Tail(old(View()), error, output))
      ensures error == ERR_MEM && output != ERR_RTE && dontblock ==>
              phase == Finished(if offset == 0 then ERR_WOULDBLOCK else ERR_OK)
    {
      var finished := false;
      var err := error;
      if err == ERR_OK {
        if offset == len || dontblock { finished := true; }
        if output == ERR_RTE {
          err := output;
          finished := true;
        }
      } else if err == ERR_MEM {
        if output == ERR_RTE {
          err := output;
          finished := true;
        } else if dontblock {
          err := if offset == 0 then ERR_WOULDBLOCK else ERR_OK;
          finished := true;
        }
      } else {
        finished := true;
      }
      phase := if finished then Finished(err) else Waiting;
    }

    /** Round `k` of the call that started in `start`. */
    method OneRound(ghost start: Write, results: nat -> Err, ghost output: Err, k: nat, ghost before: Err)
      returns (err: Err, last: bool)
      requires Valid() && OnWay(start, results, output, View(), k, before, false)
      modifies this
      ensures Valid() && OnWay(start, results, output, View(), k + 1, err, last)
    {
      ghost var w := View();
      HasVector(start, results, output, w, k, before);
      err, last := WriteRound(results(k));
      OneRoundOn(start, results, output, w, k, before, View(), err, last);
    }

    /** The loop: rounds until one is the last, which leaves its error, and not more than `rounds`. */
    method WriteLoop(results: nat -> Err, ghost output: Err, rounds: nat) returns (err: Err, last: bool)
      requires Valid() && InLoop(View())
      modifies this
      ensures Valid()
      ensures old(Rounds(View(), results, output, rounds)) ==
              if last then View().(phase := Tail(View(), err, output)) else View()
    {
      ghost var start := View();
      var k := 0;
      last := false;
      err := ERR_OK;
      WayStarts(start, results, output);
      while !last && k < rounds
        invariant Valid() && k <= rounds
        invariant OnWay(start, results, output, View(), k, err, last)
      {
        err, last := OneRound(start, results, output, k, err);
        k := k + 1;
      }
      WayEnds(start, results, output, View(), k, err, last, rounds);
    }

    /** The rest of the call when no timeout has expired: the loop, and what follows it once it has ended. */
    method Transmit(results: nat -> Err, output: Err, rounds: nat)
      requires Valid() && InLoop(View())
      modifies this
      ensures Valid() && View() == old(Rounds(View(), results, output, rounds))
    {
      var err, last := WriteLoop(results, output, rounds);
      if last {
        WriteTail(err, output);
      }
    }

    /**
     * lwip_netconn_do_writemore(), whose assertions are the conditions on the call, as far as it
     * gets in `rounds` rounds of its loop. `results` is what tcp_write() answers round after
     * round, `output` what tcp_output() answers.
     */
    method WriteMore(expired: bool, results: nat -> Err, output: Err, rounds: nat)
      requires Valid() && Placed(View()) && phase == Waiting
      requires offset < len && vectorCnt > 0
      modifies this
      ensures Valid()
      ensures expired ==> View() == old(Call(View(), sndbuf, true))
      ensures expired ==> phase == Finished(if old(offset) == 0 then ERR_WOULDBLOCK else ERR_OK)
      ensures !expired ==> View() == old(Rounds(Call(View(), sndbuf, false), results, output, rounds))
      ensures old((dontblock || !Lands(vectors, offset + sndbuf)) && Measure(View()) < rounds) ==> phase != Looping
    {
      if expired {
        phase := Finished(if offset == 0 then ERR_WOULDBLOCK else ERR_OK);
        return;
      }
      phase := Looping;
      ghost var start := View();
      assert start == old(Call(View(), sndbuf, false));
      if dontblock || !Lands(vectors, offset + sndbuf) {
        if Measure(start) < rounds { EnoughRounds(start, results, output, rounds); }
      }
      Transmit(results, output, rounds);
    }
  }
}
