/**
 * The resumable vector write of lwIP's netconn layer: lwip_netconn_do_writemore() hands the bytes
 * of a list of vectors to tcp_write(), stops when the send buffer is full and is called again by
 * sent_tcp() and poll_tcp(). A step is one call of the function or one round of its loop, so that
 * runs include calls that do not end. What TCP answers is a parameter of the steps.
 */
module VectorWrite {

  newtype Byte = x: int | 0 <= x < 256

  type Vector = seq<Byte>

  datatype Err = ERR_OK | ERR_MEM | ERR_RTE | ERR_WOULDBLOCK | ERR_VAL | ERR_CONN | ERR_ARG

  /** Where the write is. `Aborted` is an assertion of the function that did not hold. */
  datatype Phase = Waiting | Looping | Finished(err: Err) | Aborted

  /**
   * The message of the write and the part of the connection that it uses. `done` is the number of
   * vectors that are finished, `room` the free space of the send buffer, `accepted` what
   * tcp_write() took, and `timed` says whether the connection has a send timeout.
   */
  datatype Write = Write(vectors: seq<Vector>, done: nat, off: nat, offset: nat, len: nat,
                         dontblock: bool, timed: bool, room: nat, accepted: seq<Byte>, phase: Phase)


  // ---- The bytes to send ----

  /** The first `i` vectors, one after the other. */
  function Flat(v: seq<Vector>, i: nat): seq<Byte>
    requires i <= |v|
  {
    if i == 0 then [] else Flat(v, i - 1) + v[i - 1]
  }

  /** All the bytes of the vectors. */
  function Concat(v: seq<Vector>): seq<Byte> { Flat(v, |v|) }

  /** The position of the first byte of vector `i`. */
  function Start(v: seq<Vector>, i: nat): nat
    requires i <= |v|
  {
    |Flat(v, i)|
  }

  lemma {:induction false} FlatPrefix(v: seq<Vector>, i: nat, j: nat)
    requires i <= j <= |v|
    ensures Start(v, i) <= Start(v, j)
    ensures Flat(v, j)[..Start(v, i)] == Flat(v, i)
    decreases j
  {
    if i < j {
      FlatPrefix(v, i, j - 1);
      assert Flat(v, j)[..Start(v, i)] == Flat(v, j - 1)[..Start(v, i)];
    }
  }

  // ---- The code ----

  /** What is left of the current vector. */
  function Diff(w: Write): int
    requires w.done < |w.vectors|
  {
    |w.vectors[w.done]| - w.off
  }

  function Wanted(w: Write): int
    requires w.done < |w.vectors|
  {
    if Diff(w) > 0xffff then 0xffff else Diff(w)
  }

  /** The length passed to tcp_write(). */
  function Length(w: Write): int
    requires w.done < |w.vectors|
  {
    if w.room < Wanted(w) then w.room else Wanted(w)
  }

  predicate GivesUp(w: Write)
    requires w.done < |w.vectors|
  {
    w.room < Wanted(w) && w.dontblock && w.room == 0
  }

  /** write_more: the comparison with the rest of the vector is between 16-bit numbers. */
  predicate More(w: Write)
    requires w.done < |w.vectors|
  {
    || (Length(w) == 0xffff && Diff(w) > 0xffff)
    || (Length(w) == Diff(w) % 0x10000 && |w.vectors| - w.done > 1)
  }

  /** tcp_write() took the bytes. */
  function Accept(w: Write): Write
    requires w.done < |w.vectors| && w.off <= |w.vectors[w.done]|
  {
    var off := w.off + Length(w);
    var fed := w.(offset := w.offset + Length(w), off := off, room := w.room - Length(w),
                  accepted := w.accepted + w.vectors[w.done][w.off..off]);
    if off < |w.vectors[w.done]| then fed
    else fed.(done := w.done + 1, off := if w.done + 1 < |w.vectors| then 0 else off)
  }

  function Partial(w: Write): Err { if w.offset == 0 then ERR_WOULDBLOCK else ERR_OK }

  /** After the loop. `output` is what tcp_output() answers. */
  function Tail(w: Write, err: Err, output: Err): Phase {
    if err == ERR_OK then
      if output == ERR_RTE then Finished(ERR_RTE)
      else if w.offset == w.len || w.dontblock then Finished(ERR_OK)
      else Waiting
    else if err == ERR_MEM then
      if output == ERR_RTE then Finished(ERR_RTE)
      else if w.dontblock then Finished(Partial(w))
      else Waiting
    else Finished(err)
  }

  /** One round of the loop, with the tail when it is the last. */
  function Round(w: Write, result: Err, output: Err): Write
    requires w.done < |w.vectors| && w.off <= |w.vectors[w.done]|
  {
    if GivesUp(w) then w.(phase := Tail(w, Partial(w), output))
    else if result != ERR_OK then w.(phase := Tail(w, result, output))
    else if More(w) then Accept(w)
    else Accept(w).(phase := Tail(Accept(w), ERR_OK, output))
  }

  /** The function is called with `room` bytes free. */
  function Call(w: Write, room: nat, expired: bool): Write {
    if w.offset >= w.len || w.done == |w.vectors| then w.(phase := Aborted)
    else if expired then w.(phase := Finished(Partial(w)))
    else w.(phase := Looping, room := room)
  }

  /** netconn_write_vectors_partly() hands the message over. */
  function Begin(v: seq<Vector>, len: nat, dontblock: bool, timed: bool): Write {
    Write(v, 0, 0, 0, len, dontblock, timed, 0, [], Waiting)
  }

  // ---- Runs ----

  datatype Step = Resume(room: nat, expired: bool) | Loop(result: Err, output: Err)

  /** tcp_write() has no memory error for an empty length. */
  predicate MayAnswer(w: Write, result: Err)
    requires w.done < |w.vectors|
  {
    || result in {ERR_OK, ERR_CONN, ERR_ARG}
    || (result == ERR_MEM && Length(w) > 0)
  }

  predicate Enabled(w: Write, s: Step) {
    match s
    case Resume(room, expired) => w.phase.Waiting? && room <= 0xffff && (expired ==> w.timed)
    case Loop(result, output) =>
      && w.phase.Looping?
      && w.done < |w.vectors|
      && w.off <= |w.vectors[w.done]|
      && MayAnswer(w, result)
  }

  function Apply(w: Write, s: Step): Write
    requires Enabled(w, s)
  {
    match s
    case Resume(room, expired) => Call(w, room, expired)
    case Loop(result, output) => Round(w, result, output)
  }

  predicate CanRun(w: Write, steps: seq<Step>)
    decreases |steps|
  {
    steps == [] || (Enabled(w, steps[0]) && CanRun(Apply(w, steps[0]), steps[1..]))
  }

  function After(w: Write, steps: seq<Step>): Write
    requires CanRun(w, steps)
    decreases |steps|
  {
    if steps == [] then w else After(Apply(w, steps[0]), steps[1..])
  }

  // ---- What every step keeps ----

  /** The cursor, the offset and the accepted bytes name the same place. */
  predicate Placed(w: Write) {
    && w.done <= |w.vectors|
    && w.room <= 0xffff
    && w.len <= |Concat(w.vectors)|
    && (w.done == |w.vectors| ==> w.accepted == Concat(w.vectors))
    && (w.done < |w.vectors| ==> w.off <= |w.vectors[w.done]|)
    && (w.done < |w.vectors| ==> w.accepted == Flat(w.vectors, w.done) + w.vectors[w.done][..w.off])
    && w.offset == |w.accepted|
    && (w.phase.Looping? ==> w.done < |w.vectors|)
  }

  /** What a phase says about the write when the message asks for all the bytes. */
  predicate Honest(w: Write) {
    match w.phase
    case Waiting => w.offset < w.len
    case Looping => true
    case Aborted => false
    case Finished(err) =>
      && err != ERR_MEM
      && (err == ERR_WOULDBLOCK ==> w.offset == 0)
      && (err == ERR_OK && w.len > 0 ==> w.offset > 0)
      && (err == ERR_OK && !w.dontblock && !w.timed ==> w.offset == w.len)
  }

  predicate Inv(w: Write) {
    && Placed(w)
    && w.len == |Concat(w.vectors)|
    && Honest(w)
  }

  /** The accepted bytes are the first `offset` bytes of the vectors. */
  lemma AcceptedIsPrefix(w: Write)
    requires Placed(w)
    ensures w.offset <= |Concat(w.vectors)|
    ensures w.accepted == Concat(w.vectors)[..w.offset]
  {
    if w.done < |w.vectors| {
      FlatPrefix(w.vectors, w.done, w.done + 1);
      FlatPrefix(w.vectors, w.done + 1, |w.vectors|);
      var all := Concat(w.vectors);
      var next := Flat(w.vectors, w.done + 1);
      assert all[..|next|] == next;
      assert w.accepted == next[..w.offset];
      assert next[..w.offset] == all[..w.offset];
    }
  }

  /** Before the last byte of the vectors there is a vector to go on with. */
  lemma UnfinishedHasVector(w: Write)
    requires Placed(w) && w.offset < |Concat(w.vectors)|
    ensures w.done < |w.vectors|
  {
  }

  lemma AcceptPlaced(w: Write)
    requires Placed(w) && w.done < |w.vectors|
    ensures Placed(Accept(w).(phase := Waiting))
    ensures More(w) ==> Accept(w).done < |w.vectors|
  {
    var v := w.vectors[w.done];
    var off := w.off + Length(w);
    assert v[..off] == v[..w.off] + v[w.off..off];
    assert w.accepted + v[w.off..off] == Flat(w.vectors, w.done) + v[..off];
    if off == |v| {
      assert v[..off] == v;
      assert w.accepted + v[w.off..off] == Flat(w.vectors, w.done + 1);
      if w.done + 1 < |w.vectors| {
        assert Flat(w.vectors, w.done + 1) + w.vectors[w.done + 1][..0] == Flat(w.vectors, w.done + 1);
      }
    }
  }

  lemma RoundPlaced(w: Write, result: Err, output: Err)
    requires Placed(w) && w.phase.Looping?
    ensures Placed(Round(w, result, output))
  {
    AcceptPlaced(w);
  }

  /** A memory error is only answered to bytes, so that there are bytes left. */
  lemma MemoryErrorLeavesBytes(w: Write)
    requires Placed(w) && w.done < |w.vectors| && Length(w) > 0
    ensures w.offset < |Concat(w.vectors)|
  {
    FlatPrefix(w.vectors, w.done + 1, |w.vectors|);
  }

  lemma TailHonest(w: Write, err: Err, output: Err)
    requires Placed(w.(phase := Waiting)) && w.len == |Concat(w.vectors)|
    requires err == ERR_MEM ==> w.offset < w.len
    requires err == ERR_WOULDBLOCK ==> w.offset == 0
    requires err == ERR_OK ==> w.offset <= w.len
    requires err == ERR_OK && w.len > 0 && w.dontblock ==> w.offset > 0
    ensures Honest(w.(phase := Tail(w, err, output)))
  {
  }

  /** A round of a non-blocking write that ends the loop without an error has left some byte accepted. */
  lemma EndAccepts(w: Write)
    requires Placed(w) && w.done < |w.vectors| && !GivesUp(w) && !More(w) && w.dontblock
    ensures Concat(w.vectors) != [] ==> Accept(w).offset > 0
  {
    AcceptPlaced(w);
    if Length(w) == 0 {
      assert Diff(w) == 0;
      assert Accept(w).done == |w.vectors|;
    }
  }

  lemma RoundHonest(w: Write, result: Err, output: Err)
    requires Inv(w) && w.phase.Looping? && MayAnswer(w, result)
    ensures Honest(Round(w, result, output))
  {
    if GivesUp(w) {
      AcceptedIsPrefix(w);
      TailHonest(w, Partial(w), output);
    } else if result != ERR_OK {
      if result == ERR_MEM { MemoryErrorLeavesBytes(w); }
      TailHonest(w, result, output);
    } else if !More(w) {
      var x := Accept(w);
      AcceptPlaced(w);
      AcceptedIsPrefix(x.(phase := Waiting));
      if w.dontblock { EndAccepts(w); }
      TailHonest(x, ERR_OK, output);
    }
  }

  /** A non-blocking write finds the send buffer full with bytes of the vector left. */
  predicate FindsFull(w: Write) {
    w.dontblock && w.room == 0 && w.done < |w.vectors| && w.off < |w.vectors[w.done]|
  }

  /** tcp_output() is called after the round: nothing has failed but for memory. */
  predicate Outputs(w: Write, result: Err) {
    if FindsFull(w) then w.offset > 0 else result in {ERR_OK, ERR_MEM}
  }

  /**
   * Whether the loop goes on with `n` bytes taken: they are all that 16 bits can count of a vector
   * with more bytes left, or agree in 16 bits with what was left of a vector before the last.
   */
  predicate GoesOn(w: Write, n: int) {
    && w.done < |w.vectors|
    && var left := |w.vectors[w.done]| - w.off;
       (n == 0xffff && left > 0xffff) || (n == left % 0x10000 && w.done + 1 < |w.vectors|)
  }

  /**
   * How a round that leads from `w` to `y` ends the call, case by case. A full send buffer and a
   * memory error end a non-blocking write with what was accepted so far: "would block" for
   * nothing, success for something. Other errors are those of tcp_write() and, for a missing
   * route, tcp_output().
   */
  predicate EndsAs(w: Write, result: Err, output: Err, y: Write) {
    var full, routed := FindsFull(w), !y.phase.Looping? && Outputs(w, result) && output != ERR_RTE;
    && (y.phase.Looping? <==> !full && result == ERR_OK && GoesOn(w, y.offset - w.offset))
    && (full ==> y.(phase := w.phase) == w)
    && (y.phase == Finished(ERR_WOULDBLOCK) <==>
          w.offset == 0 && w.dontblock && (full || (result == ERR_MEM && output != ERR_RTE)))
    && (y.phase == Finished(ERR_CONN) <==> !full && result == ERR_CONN)
    && (y.phase == Finished(ERR_ARG) <==> !full && result == ERR_ARG)
    && (y.phase == Finished(ERR_RTE) <==> !y.phase.Looping? && Outputs(w, result) && output == ERR_RTE)
    && (y.phase == Waiting <==> routed && !w.dontblock && (result == ERR_MEM || y.offset < w.len))
    && (y.phase == Finished(ERR_OK) <==>
          routed && y.offset > 0 && (w.dontblock || (result == ERR_OK && y.offset == w.len)))
    && y.phase !in {Finished(ERR_MEM), Finished(ERR_VAL), Aborted}
  }

  lemma FullEnds(w: Write, result: Err, output: Err)
    requires Inv(w) && Enabled(w, Loop(result, output)) && w.len > 0 && FindsFull(w)
    ensures EndsAs(w, result, output, Round(w, result, output))
  {
    assert GivesUp(w);
  }

  lemma FailureEnds(w: Write, result: Err, output: Err)
    requires Inv(w) && Enabled(w, Loop(result, output)) && w.len > 0 && !FindsFull(w) && result != ERR_OK
    ensures EndsAs(w, result, output, Round(w, result, output))
  {
    assert !GivesUp(w);
    if result == ERR_MEM { MemoryErrorLeavesBytes(w); }
  }

  lemma MoreGoesOn(w: Write)
    requires w.done < |w.vectors| && w.off <= |w.vectors[w.done]|
    ensures GoesOn(w, Accept(w).offset - w.offset) <==> More(w)
  {
  }

  /** What the tail makes of a round that ends the loop with `x`. */
  lemma TailEnds(w: Write, x: Write, output: Err)
    requires !FindsFull(w) && !GoesOn(w, x.offset - w.offset)
    requires x.dontblock == w.dontblock && x.len == w.len && x.offset <= w.len && w.len > 0
    requires w.dontblock ==> x.offset > 0
    ensures EndsAs(w, ERR_OK, output, x.(phase := Tail(x, ERR_OK, output)))
  {
  }

  lemma AcceptanceEnds(w: Write, output: Err)
    requires Inv(w) && Enabled(w, Loop(ERR_OK, output)) && w.len > 0 && !FindsFull(w)
    ensures EndsAs(w, ERR_OK, output, Round(w, ERR_OK, output))
  {
    assert !GivesUp(w);
    MoreGoesOn(w);
    if !More(w) {
      var x := Accept(w);
      AcceptPlaced(w);
      AcceptedIsPrefix(x.(phase := Waiting));
      if w.dontblock { EndAccepts(w); }
      TailEnds(w, x, output);
    }
  }

  lemma RoundEnds(w: Write, result: Err, output: Err)
    requires Inv(w) && Enabled(w, Loop(result, output)) && w.len > 0
    ensures EndsAs(w, result, output, Round(w, result, output))
  {
    if FindsFull(w) {
      FullEnds(w, result, output);
    } else if result != ERR_OK {
      FailureEnds(w, result, output);
    } else {
      AcceptanceEnds(w, output);
    }
  }

  /** How a call starts: a timeout that has expired ends the write with what was accepted so far. */
  lemma CallStarts(w: Write, room: nat, expired: bool)
    requires Inv(w) && w.phase.Waiting?
    ensures var y := Call(w, room, expired);
            && (expired ==> y.(phase := w.phase) == w)
            && (expired && w.offset == 0 ==> y.phase == Finished(ERR_WOULDBLOCK))
            && (expired && w.offset > 0 ==> y.phase == Finished(ERR_OK))
            && (!expired ==> y.phase == Looping && y.room == room && y.(phase := w.phase, room := w.room) == w)
  {
    UnfinishedHasVector(w);
  }

  /** TCP gave the error `err` in this step. */
  predicate Gives(s: Step, err: Err) { s.Loop? && (s.result == err || s.output == err) }

  lemma StepKeeps(w: Write, s: Step)
    requires Inv(w) && Enabled(w, s)
    ensures Inv(Apply(w, s))
  {
    if s.Loop? {
      RoundPlaced(w, s.result, s.output);
      RoundHonest(w, s.result, s.output);
    } else {
      UnfinishedHasVector(w);
    }
  }

  lemma {:induction false} RunKeeps(w: Write, steps: seq<Step>)
    requires Inv(w) && CanRun(w, steps)
    ensures Inv(After(w, steps))
    ensures After(w, steps).vectors == w.vectors
    ensures After(w, steps).dontblock == w.dontblock && After(w, steps).timed == w.timed
    decreases |steps|
  {
    if steps != [] {
      StepKeeps(w, steps[0]);
      RunKeeps(Apply(w, steps[0]), steps[1..]);
    }
  }

  /** The error of a write is success, "would block", or what TCP gave in the last step. */
  ghost predicate ErrorIsGiven(w: Write, steps: seq<Step>) {
    w.phase.Finished? && w.phase.err !in {ERR_OK, ERR_WOULDBLOCK} ==>
      steps != [] && Gives(steps[|steps| - 1], w.phase.err)
  }

  lemma StepGivesError(w: Write, s: Step)
    requires Inv(w) && w.len > 0 && Enabled(w, s)
    ensures ErrorIsGiven(Apply(w, s), [s]) && Apply(w, s).len == w.len
  {
    if s.Loop? {
      RoundEnds(w, s.result, s.output);
      var y := Apply(w, s);
      assert y.phase.Finished? ==>
          y.phase.err in {ERR_OK, ERR_WOULDBLOCK} || y.phase.err in {ERR_CONN, ERR_ARG, ERR_RTE};
    } else {
      CallStarts(w, s.room, s.expired);
    }
  }

  lemma {:induction false} RunGivesErrors(w: Write, steps: seq<Step>)
    requires Inv(w) && w.len > 0 && !w.phase.Finished? && CanRun(w, steps)
    ensures ErrorIsGiven(After(w, steps), steps)
    decreases |steps|
  {
    if steps != [] {
      var x := Apply(w, steps[0]);
      StepKeeps(w, steps[0]);
      StepGivesError(w, steps[0]);
      if x.phase.Finished? {
        assert forall s :: !Enabled(x, s);
        assert steps == [steps[0]];
        assert After(w, steps) == x;
      } else {
        RunGivesErrors(x, steps[1..]);
        var y := After(x, steps[1..]);
        assert y.phase.Finished? ==> steps[1..] != [] && steps[1..][|steps| - 2] == steps[|steps| - 1];
      }
    }
  }

  /**
   * Over the first call and every resumption the bytes that tcp_write() accepted are the first
   * `offset` bytes of the vectors. No assertion of the function fails. A blocking write without
   * a send timeout reports success only with every byte accepted. Of a write that ends without
   * an error of TCP, "would block" is reported if and only if nothing was accepted, and success
   * otherwise. Any other error is one that TCP gave in the last step, and never a memory error.
   */
  lemma EveryRunIsExact(v: seq<Vector>, dontblock: bool, timed: bool, steps: seq<Step>)
    requires Concat(v) != []
    requires CanRun(Begin(v, |Concat(v)|, dontblock, timed), steps)
    ensures var w := After(Begin(v, |Concat(v)|, dontblock, timed), steps);
            && w.offset <= |Concat(v)|
            && w.accepted == Concat(v)[..w.offset]
            && w.phase != Aborted
            && w.phase != Finished(ERR_MEM)
            && (w.phase == Finished(ERR_WOULDBLOCK) ==> w.accepted == [])
            && (w.phase == Finished(ERR_OK) ==> w.accepted != [])
            && ErrorIsGiven(w, steps)
            && (w.phase == Finished(ERR_OK) && !dontblock && !timed ==> w.accepted == Concat(v))
            && (w.phase == Waiting ==> w.offset < |Concat(v)| && w.done < |v|)
  {
    var b := Begin(v, |Concat(v)|, dontblock, timed);
    var w := After(b, steps);
    assert Placed(b) by {
      assert Flat(v, 0) + (if |v| > 0 then v[0][..0] else []) == [];
    }
    RunKeeps(b, steps);
    RunGivesErrors(b, steps);
    AcceptedIsPrefix(w);
    assert Concat(v)[..|Concat(v)|] == Concat(v);
  }
}
