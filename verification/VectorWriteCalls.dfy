/**
 * One call of lwip_netconn_do_writemore(): when its loop ends, how far it gets, and when a
 * resumption meets the function's own assertions. Within a call `offset + room` does not change,
 * and everything here depends on where that position lies in the vectors.
 */
module VectorWriteCalls {
  import opened VectorWrite

  /** The position that a call reaches when TCP takes all that fits. */
  function Goal(w: Write): nat { w.offset + w.room }

  /**
   * Position `q` lies inside a vector that is not the last one, a multiple of 65536 bytes before
   * its end.
   */
  ghost predicate Lands(v: seq<Vector>, q: int) {
    exists i :: LandsIn(v, q, i)
  }

  predicate LandsIn(v: seq<Vector>, q: int, i: int) {
    && 0 <= i < |v| - 1
    && Start(v, i) <= q < Start(v, i + 1)
    && (Start(v, i + 1) - q) % 0x10000 == 0
  }

  /** Only vectors of at least 65536 bytes have such positions. */
  lemma ShortVectorsNeverLand(v: seq<Vector>, q: int)
    requires forall i :: 0 <= i < |v| - 1 ==> |v[i]| <= 0xffff
    ensures !Lands(v, q)
  {
    if i :| LandsIn(v, q, i) {
      assert Start(v, i + 1) == Start(v, i) + |v[i]|;
    }
  }

  lemma TooClose(a: int, b: int)
    requires a % 0x10000 == 0 && 0 < a - b < 0x10000
    ensures b % 0x10000 != 0
  {
  }

  lemma Truncates(m: int, r: int)
    requires m % 0x10000 == 0 && 0 <= r < 0x10000
    ensures (m + r) % 0x10000 == r
  {
  }

  /** The vector that holds a position is the only one. */
  lemma OneVector(v: seq<Vector>, q: int, i: nat, j: nat)
    requires i < |v| && j < |v|
    requires Start(v, i) <= q < Start(v, i + 1) && Start(v, j) <= q < Start(v, j + 1)
    ensures i == j
  {
    if i < j { FlatPrefix(v, i + 1, j); }
    if j < i { FlatPrefix(v, j + 1, i); }
  }

  lemma LandingsAreApart(v: seq<Vector>, p: int, q: int)
    requires Lands(v, p) && p < q < p + 0x10000
    ensures !Lands(v, q)
  {
    var i :| LandsIn(v, p, i);
    forall j
      ensures !LandsIn(v, q, j)
    {
      NotTogether(v, p, i, q, j);
    }
  }

  lemma NotTogether(v: seq<Vector>, p: int, i: int, q: int, j: int)
    requires LandsIn(v, p, i) && p < q < p + 0x10000
    ensures !LandsIn(v, q, j)
  {
    TooClose(Start(v, i + 1) - p, Start(v, i + 1) - q);
    if LandsIn(v, q, j) { OneVector(v, q, i, j); }
  }

  /** Of three positions in a row one is not `avoid` and does not land. */
  lemma SomeRoomIsSafe(v: seq<Vector>, q: int, avoid: int) returns (r: nat)
    ensures 1 <= r <= 3
    ensures q + r != avoid && !Lands(v, q + r)
  {
    r := if q + 1 == avoid || Lands(v, q + 1) then (if q + 2 == avoid || Lands(v, q + 2) then 3 else 2) else 1;
    if Lands(v, q + 1) { LandingsAreApart(v, q + 1, q + 2); LandingsAreApart(v, q + 1, q + 3); }
    if Lands(v, q + 2) { LandingsAreApart(v, q + 2, q + 3); }
  }

  // ---- The loop ----

  predicate InLoop(w: Write) { Placed(w) && w.phase.Looping? }

  /** Rounds that loop get closer to the end. */
  function Measure(w: Write): int { |Concat(w.vectors)| - w.offset + |w.vectors| - w.done }

  /** The next round of a call that is still in the loop, and nothing for one that is not. */
  function Next(w: Write, result: Err, output: Err): Write {
    if InLoop(w) then Round(w, result, output) else w
  }

  /** The call after `k` rounds. `results` is what tcp_write() answers in each. */
  function Rounds(w: Write, results: nat -> Err, output: Err, k: nat): Write {
    if k == 0 then w else Next(Rounds(w, results, output, k - 1), results(k - 1), output)
  }

  ghost predicate EndsBy(w: Write, results: nat -> Err, output: Err) {
    exists k: nat :: !Rounds(w, results, output, k).phase.Looping?
  }

  /** The loop ends whatever TCP answers. */
  ghost predicate AlwaysEnds(w: Write, output: Err) {
    forall results: nat -> Err :: EndsBy(w, results, output)
  }

  lemma AcceptKeepsGoal(w: Write)
    requires w.done < |w.vectors| && w.off <= |w.vectors[w.done]|
    ensures var x := Accept(w);
            && x.vectors == w.vectors && x.len == w.len
            && x.dontblock == w.dontblock && x.timed == w.timed
            && Goal(x) == Goal(w)
  {
  }

  /** A round keeps the goal. */
  lemma RoundKeepsGoal(w: Write, result: Err, output: Err)
    requires InLoop(w)
    ensures var x := Round(w, result, output);
            && Placed(x)
            && x.vectors == w.vectors && x.len == w.len
            && x.dontblock == w.dontblock && x.timed == w.timed
            && Goal(x) == Goal(w)
  {
    RoundPlaced(w, result, output);
    AcceptKeepsGoal(w);
  }

  /** In the loop, the end of the current vector in terms of the offset. */
  lemma CurrentVector(w: Write)
    requires InLoop(w)
    ensures Start(w.vectors, w.done) <= w.offset
    ensures Start(w.vectors, w.done + 1) == w.offset + Diff(w)
  {
  }

  /** A round that loops without taking a byte of its vector has its goal at a landing position. */
  lemma StalledLands(w: Write)
    requires InLoop(w) && !GivesUp(w) && More(w) && Length(w) == 0 && Diff(w) > 0
    ensures !w.dontblock && Lands(w.vectors, Goal(w))
  {
    CurrentVector(w);
    assert LandsIn(w.vectors, Goal(w), w.done);
  }

  /** Any other round that loops makes progress. */
  lemma RoundProgresses(w: Write, result: Err, output: Err)
    requires InLoop(w) && Round(w, result, output).phase.Looping?
    requires w.dontblock || !Lands(w.vectors, Goal(w))
    ensures Measure(Round(w, result, output)) < Measure(w)
  {
    if Length(w) == 0 && Diff(w) > 0 {
      StalledLands(w);
    }
  }

  lemma LandingAhead(w: Write, i: int)
    requires InLoop(w) && LandsIn(w.vectors, Goal(w), i)
    ensures w.done <= i
    ensures w.done < i ==> Diff(w) <= w.room
    ensures w.done == i ==> Diff(w) > w.room && (Diff(w) - w.room) % 0x10000 == 0
  {
    CurrentVector(w);
    if i < w.done {
      FlatPrefix(w.vectors, i + 1, w.done);
    } else if w.done < i {
      FlatPrefix(w.vectors, w.done + 1, i);
    }
  }

  lemma LandingMore(w: Write, i: int)
    requires InLoop(w) && LandsIn(w.vectors, Goal(w), i)
    ensures More(w)
  {
    LandingAhead(w, i);
    if w.done == i { Truncates(Diff(w) - w.room, w.room); }
  }

  /** On the way to a landing position the loop goes on. */
  lemma LandingLoops(w: Write, output: Err)
    requires InLoop(w) && !w.dontblock && Lands(w.vectors, Goal(w))
    ensures Round(w, ERR_OK, output).phase.Looping?
  {
    var i :| LandsIn(w.vectors, Goal(w), i);
    LandingMore(w, i);
  }

  lemma {:induction false} RoundsKeepGoal(w: Write, results: nat -> Err, output: Err, k: nat)
    requires InLoop(w)
    ensures var x := Rounds(w, results, output, k);
            && Placed(x)
            && x.vectors == w.vectors && x.dontblock == w.dontblock && Goal(x) == Goal(w)
  {
    if k > 0 {
      RoundsKeepGoal(w, results, output, k - 1);
      var x := Rounds(w, results, output, k - 1);
      if x.phase.Looping? { RoundKeepsGoal(x, results(k - 1), output); }
    }
  }

  /** Each round that loops costs one of the measure. */
  lemma {:induction false} RoundsProgress(w: Write, results: nat -> Err, output: Err, k: nat)
    requires InLoop(w)
    requires w.dontblock || !Lands(w.vectors, Goal(w))
    requires Rounds(w, results, output, k).phase.Looping?
    ensures Measure(Rounds(w, results, output, k)) + k <= Measure(w)
  {
    if k > 0 {
      RoundsProgress(w, results, output, k - 1);
      RoundsKeepGoal(w, results, output, k - 1);
      RoundProgresses(Rounds(w, results, output, k - 1), results(k - 1), output);
    }
  }

  lemma {:induction false} LandingNeverEnds(w: Write, results: nat -> Err, output: Err, k: nat)
    requires InLoop(w) && !w.dontblock && Lands(w.vectors, Goal(w))
    requires forall j: nat :: results(j) == ERR_OK
    ensures Rounds(w, results, output, k).phase.Looping?
  {
    if k > 0 {
      LandingNeverEnds(w, results, output, k - 1);
      RoundsKeepGoal(w, results, output, k - 1);
      LandingLoops(Rounds(w, results, output, k - 1), output);
    }
  }

  /**
   * The loop of a call ends, whatever TCP answers, if and only if the write does not block or the
   * send buffer does not reach to a landing position.
   */
  lemma EndsIff(w: Write, output: Err)
    requires InLoop(w)
    ensures AlwaysEnds(w, output) <==> (w.dontblock || !Lands(w.vectors, Goal(w)))
  {
    if w.dontblock || !Lands(w.vectors, Goal(w)) {
      forall results: nat -> Err
        ensures EndsBy(w, results, output)
      {
        AcceptedIsPrefix(w);
        var k := Measure(w) + 1;
        RoundsKeepGoal(w, results, output, k);
        AcceptedIsPrefix(Rounds(w, results, output, k));
        if Rounds(w, results, output, k).phase.Looping? {
          RoundsProgress(w, results, output, k);
        }
      }
    } else {
      var taken: nat -> Err := _ => ERR_OK;
      forall k: nat
        ensures Rounds(w, taken, output, k).phase.Looping?
      {
        LandingNeverEnds(w, taken, output, k);
      }
      assert !EndsBy(w, taken, output);
    }
  }
}
