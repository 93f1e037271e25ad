/**
 * How far a call of lwip_netconn_do_writemore() gets, and what happens to a write whose length was
 * cut down to SSIZE_MAX by netconn_write_vectors_partly() while its vectors were not.
 */
module VectorWriteLimits {
  import opened VectorWrite
  import opened VectorWriteCalls

  predicate Taken(results: nat -> Err, k: nat) { results(k) == ERR_OK }

  ghost predicate AllTaken(results: nat -> Err) { forall k: nat :: Taken(results, k) }

  /** A call in its loop whose loop ends. */
  ghost predicate InEndingLoop(w: Write) {
    InLoop(w) && (w.dontblock || !Lands(w.vectors, Goal(w)))
  }

  /** The rest of the call from round `k` on. */
  ghost function RunLoop(w: Write, results: nat -> Err, output: Err, k: nat): Write
    requires InEndingLoop(w)
    decreases Measure(w)
  {
    AcceptedIsPrefix(w);
    RoundKeepsGoal(w, results(k), output);
    var x := Round(w, results(k), output);
    if !x.phase.Looping? then x
    else
      RoundProgresses(w, results(k), output);
      RunLoop(x, results, output, k + 1)
  }

  /** Where the last round of a call leaves the offset when TCP takes all that fits. */
  lemma LastRoundReaches(w: Write, output: Err)
    requires InLoop(w) && !Round(w, ERR_OK, output).phase.Looping?
    ensures var end := |Concat(w.vectors)|;
            Round(w, ERR_OK, output).offset == if Goal(w) < end then Goal(w) else end
  {
    AcceptedIsPrefix(w);
    CurrentVector(w);
    FlatPrefix(w.vectors, w.done + 1, |w.vectors|);
    if !GivesUp(w) && Length(w) < w.room {
      assert Length(w) == Diff(w) == Diff(w) % 0x10000;
      assert w.done + 1 == |w.vectors|;
    }
  }

  /** A call takes all that fits: min(offset + room, total) bytes are out when it ends. */
  lemma {:induction false} TakesAllThatFits(w: Write, results: nat -> Err, output: Err, k: nat)
    requires InEndingLoop(w) && AllTaken(results)
    ensures var end := |Concat(w.vectors)|;
            var x := RunLoop(w, results, output, k);
            && Placed(x)
            && x.vectors == w.vectors && x.len == w.len
            && x.dontblock == w.dontblock && x.timed == w.timed
            && x.offset == (if Goal(w) < end then Goal(w) else end)
    decreases Measure(w)
  {
    AcceptedIsPrefix(w);
    assert Taken(results, k);
    RoundKeepsGoal(w, ERR_OK, output);
    var x := Round(w, ERR_OK, output);
    if x.phase.Looping? {
      RoundProgresses(w, ERR_OK, output);
      TakesAllThatFits(x, results, output, k + 1);
    } else {
      LastRoundReaches(w, output);
    }
  }

  /** The phase that such a blocking call ends in. */
  lemma {:induction false} TakenCallEnds(w: Write, results: nat -> Err, k: nat)
    requires InEndingLoop(w) && AllTaken(results) && !w.dontblock
    ensures var x := RunLoop(w, results, ERR_OK, k);
            x.phase == if x.offset == w.len then Finished(ERR_OK) else Waiting
    decreases Measure(w)
  {
    AcceptedIsPrefix(w);
    assert Taken(results, k);
    RoundKeepsGoal(w, ERR_OK, ERR_OK);
    var x := Round(w, ERR_OK, ERR_OK);
    if x.phase.Looping? {
      RoundProgresses(w, ERR_OK, ERR_OK);
      TakenCallEnds(x, results, k + 1);
    }
  }

  /** The call is a run of its rounds. */
  lemma {:induction false} LoopIsRun(w: Write, results: nat -> Err, output: Err, k: nat) returns (steps: seq<Step>)
    requires InEndingLoop(w) && AllTaken(results)
    ensures CanRun(w, steps) && After(w, steps) == RunLoop(w, results, output, k)
    decreases Measure(w)
  {
    AcceptedIsPrefix(w);
    assert Taken(results, k);
    RoundKeepsGoal(w, ERR_OK, output);
    var x := Round(w, ERR_OK, output);
    assert Enabled(w, Loop(ERR_OK, output)) && Apply(w, Loop(ERR_OK, output)) == x;
    if x.phase.Looping? {
      RoundProgresses(w, ERR_OK, output);
      var rest := LoopIsRun(x, results, output, k + 1);
      steps := [Loop(ERR_OK, output)] + rest;
      assert steps[1..] == rest;
    } else {
      steps := [Loop(ERR_OK, output)];
      assert steps[1..] == [];
    }
  }

  lemma {:induction false} RunsCompose(w: Write, a: seq<Step>, b: seq<Step>)
    requires CanRun(w, a) && CanRun(After(w, a), b)
    ensures CanRun(w, a + b) && After(w, a + b) == After(After(w, a), b)
    decreases |a|
  {
    if a == [] {
      assert a + b == b;
    } else {
      RunsCompose(Apply(w, a[0]), a[1..], b);
      assert (a + b)[1..] == a[1..] + b;
    }
  }

  /** A whole call with room for `room` bytes that TCP takes. */
  lemma TakenCall(w: Write, room: nat) returns (steps: seq<Step>)
    requires Placed(w) && w.phase.Waiting? && !w.dontblock && room <= 0xffff
    requires w.offset < w.len && w.done < |w.vectors|
    requires !Lands(w.vectors, w.offset + room)
    ensures CanRun(w, steps)
    ensures var end := |Concat(w.vectors)|;
            var x := After(w, steps);
            && Placed(x)
            && x.vectors == w.vectors && x.len == w.len && !x.dontblock
            && x.offset == (if w.offset + room < end then w.offset + room else end)
            && x.phase == (if x.offset == w.len then Finished(ERR_OK) else Waiting)
  {
    var called := Call(w, room, false);
    var taken: nat -> Err := _ => ERR_OK;
    assert AllTaken(taken);
    TakesAllThatFits(called, taken, ERR_OK, 0);
    TakenCallEnds(called, taken, 0);
    var rest := LoopIsRun(called, taken, ERR_OK, 0);
    steps := [Resume(room, false)] + rest;
    assert steps[1..] == rest;
  }

  /** A blocking write with more bytes than its length can be brought past its length. */
  lemma {:induction false} Overruns(w: Write) returns (steps: seq<Step>)
    requires Placed(w) && w.phase.Waiting? && !w.dontblock
    requires w.offset < w.len < |Concat(w.vectors)|
    ensures CanRun(w, steps) && After(w, steps).phase.Aborted?
    decreases w.len - w.offset
  {
    UnfinishedHasVector(w);
    var room := SomeRoomIsSafe(w.vectors, w.offset, w.len);
    var first := TakenCall(w, room);
    var x := After(w, first);
    var rest: seq<Step>;
    if x.offset < w.len {
      rest := Overruns(x);
    } else {
      rest := [Resume(0, false)];
      assert rest[1..] == [];
    }
    RunsCompose(w, first, rest);
    steps := first + rest;
  }

  /** Some run of the write fails an assertion of lwip_netconn_do_writemore(). */
  ghost predicate CanAbort(w: Write) {
    exists steps :: CanRun(w, steps) && After(w, steps).phase.Aborted?
  }

  /** A write that does not block is done when its first call ends. */
  predicate OneCall(w: Write) {
    && w.dontblock
    && Placed(w)
    && !w.phase.Aborted?
    && (w.phase.Waiting? ==> w.offset == 0 && w.done < |w.vectors| && w.len > 0)
  }

  lemma {:induction false} OneCallRuns(w: Write, steps: seq<Step>)
    requires OneCall(w) && CanRun(w, steps)
    ensures !After(w, steps).phase.Aborted?
    decreases |steps|
  {
    if steps != [] {
      if steps[0].Loop? { RoundPlaced(w, steps[0].result, steps[0].output); }
      OneCallRuns(Apply(w, steps[0]), steps[1..]);
    }
  }

  /**
   * The assertions of lwip_netconn_do_writemore() can fail if and only if the write blocks and
   * its length was cut down below the total of its vectors.
   */
  lemma AbortsIff(v: seq<Vector>, len: nat, dontblock: bool, timed: bool)
    requires 0 < len <= |Concat(v)|
    ensures CanAbort(Begin(v, len, dontblock, timed)) <==> (!dontblock && len < |Concat(v)|)
  {
    var b := Begin(v, len, dontblock, timed);
    BeginIsPlaced(v, len, dontblock, timed);
    if !dontblock && len < |Concat(v)| {
      var steps := Overruns(b);
    } else {
      forall steps | CanRun(b, steps)
        ensures !After(b, steps).phase.Aborted?
      {
        if dontblock {
          OneCallRuns(b, steps);
        } else {
          RunKeeps(b, steps);
        }
      }
    }
  }

  // ---- When a write can hang ----

  /** Some run of the write comes to a call whose loop TCP can keep going for ever. */
  ghost predicate CanHang(w: Write) {
    exists steps :: CanRun(w, steps) && InLoop(After(w, steps)) && !AlwaysEnds(After(w, steps), ERR_OK)
  }

  predicate IsLong(v: seq<Vector>, i: int) { 0 <= i < |v| - 1 && |v[i]| > 0xffff }

  lemma LandingInside(v: seq<Vector>, q: int)
    requires Lands(v, q)
    ensures 0 <= q < |Concat(v)|
  {
    var i :| LandsIn(v, q, i);
    FlatPrefix(v, i + 1, |v|);
  }

  /** A call with just the room up to `q`. */
  lemma CallUpTo(w: Write, q: nat) returns (steps: seq<Step>)
    requires Placed(w) && w.phase.Waiting? && w.offset <= q <= w.offset + 0xffff
    requires w.offset < w.len && w.done < |w.vectors|
    ensures CanRun(w, steps)
    ensures var x := After(w, steps);
            InLoop(x) && Goal(x) == q && x.vectors == w.vectors && x.dontblock == w.dontblock
  {
    steps := [Resume(q - w.offset, false)];
    assert steps[1..] == [];
  }

  /** A blocking write that waits, with a landing position ahead. */
  ghost predicate OnTheWay(w: Write, q: nat) {
    && Placed(w) && w.phase.Waiting? && !w.dontblock && w.len == |Concat(w.vectors)|
    && w.offset <= q && Lands(w.vectors, q)
  }

  lemma NextCall(w: Write, q: nat) returns (steps: seq<Step>)
    requires OnTheWay(w, q) && w.offset + 0xffff < q
    ensures CanRun(w, steps) && OnTheWay(After(w, steps), q)
    ensures After(w, steps).vectors == w.vectors && After(w, steps).offset > w.offset
  {
    LandingInside(w.vectors, q);
    UnfinishedHasVector(w);
    var room := SomeRoomIsSafe(w.vectors, w.offset, -1);
    steps := TakenCall(w, room);
  }

  lemma LastCall(w: Write, q: nat) returns (steps: seq<Step>)
    requires OnTheWay(w, q) && q <= w.offset + 0xffff
    ensures CanRun(w, steps)
    ensures var x := After(w, steps); InLoop(x) && Goal(x) == q && x.vectors == w.vectors && !x.dontblock
  {
    LandingInside(w.vectors, q);
    UnfinishedHasVector(w);
    steps := CallUpTo(w, q);
  }

  /** A landing position can be made the goal of a call, whatever is left of the write. */
  lemma {:induction false} ReachGoal(w: Write, q: nat) returns (steps: seq<Step>)
    requires OnTheWay(w, q)
    ensures CanRun(w, steps)
    ensures var x := After(w, steps); InLoop(x) && Goal(x) == q && x.vectors == w.vectors && !x.dontblock
    decreases q - w.offset
  {
    if q <= w.offset + 0xffff {
      steps := LastCall(w, q);
    } else {
      var first := NextCall(w, q);
      var rest := ReachGoal(After(w, first), q);
      RunsCompose(w, first, rest);
      steps := first + rest;
    }
  }

  /** Bytes of a long vector: the position 65536 bytes before its end is a landing position. */
  lemma LongLands(v: seq<Vector>, i: int)
    requires IsLong(v, i)
    ensures Start(v, i + 1) - 0x10000 >= 0 && Lands(v, Start(v, i + 1) - 0x10000)
  {
    assert LandsIn(v, Start(v, i + 1) - 0x10000, i);
  }

  lemma LandingIsLong(v: seq<Vector>, q: int) returns (i: int)
    requires Lands(v, q)
    ensures IsLong(v, i)
  {
    i :| LandsIn(v, q, i);
    assert Start(v, i + 1) == Start(v, i) + |v[i]|;
  }

  /**
   * A write can come to a call that does not end if and only if it blocks and a vector that is
   * not the last has 65536 bytes or more.
   */
  lemma HangsIff(v: seq<Vector>, dontblock: bool, timed: bool)
    requires Concat(v) != []
    ensures CanHang(Begin(v, |Concat(v)|, dontblock, timed)) <==> (!dontblock && exists i :: IsLong(v, i))
  {
    var b := Begin(v, |Concat(v)|, dontblock, timed);
    BeginIsPlaced(v, |Concat(v)|, dontblock, timed);
    if CanHang(b) {
      var steps :| CanRun(b, steps) && InLoop(After(b, steps)) && !AlwaysEnds(After(b, steps), ERR_OK);
      var x := After(b, steps);
      RunKeeps(b, steps);
      EndsIff(x, ERR_OK);
      var i := LandingIsLong(v, Goal(x));
    } else if !dontblock && exists i :: IsLong(v, i) {
      var i :| IsLong(v, i);
      LongLands(v, i);
      var steps := ReachGoal(b, Start(v, i + 1) - 0x10000);
      EndsIff(After(b, steps), ERR_OK);
    }
  }

  lemma BeginIsPlaced(v: seq<Vector>, len: nat, dontblock: bool, timed: bool)
    requires 0 < len <= |Concat(v)|
    ensures Placed(Begin(v, len, dontblock, timed)) && 0 < |v|
  {
    assert |v| > 0;
    assert Flat(v, 0) + v[0][..0] == [];
  }
}
