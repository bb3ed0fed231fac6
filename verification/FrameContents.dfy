/**
 What the program reads from a frame, a message or a comparison is what was put in: round trips through the readers.
 */
module FrameContents {
  import opened Lists
  import opened Wrappers
  import opened Ownership
  import opened OwnershipSteps
  import opened OwnershipMoves
  import opened OwnershipDiscipline
  import opened OwnershipRuns
  import opened OwnershipFates
  import Q = MessageSequence

  // ---------------------------------------------------------------------------------------------------------
  // Written and read back
  // ---------------------------------------------------------------------------------------------------------

  /** The step returned a new, owning frame object on a new zframe, and from it these bytes are read. */
  ghost predicate ReturnsNewFrame(w: World, step: Step, bytes: Bytes) {
    && step.outcome.Return? && step.outcome.value.FrameRef?
    && var f := step.outcome.value.f;
       && f !in w.frames && HasFrame(step.world, f)
       && step.world.frames[f].owned && step.world.frames[f].frame.Some? && step.world.frames[f].frame.value !in w.data
       && FrameData(step.world, f).outcome == Return(Str(bytes))
       && FrameGone(step.world, f).outcome == Return(Bool(false))
  }

  lemma NewFrameIsRead(w: World, bytes: Bytes)
    requires Inv(w)
    ensures ReturnsNewFrame(w, NewFrame(w, bytes), bytes)
  {
    Fresh(w);
    AtMostOnce(w);
  }

  /** A frame that is received reads as what was received; if nothing was, nil, and if the socket is refused, an
      exception, and nothing changed. */
  lemma RecvFrameIsRead(w: World, open: bool, received: Option<Bytes>)
    requires Inv(w)
    ensures open && received.Some? ==> ReturnsNewFrame(w, RecvFrame(w, open, received), received.value)
    ensures open && received.None? ==> RecvFrame(w, open, received) == Step(w, Return(Nil))
    ensures !open ==> RecvFrame(w, open, received) == Step(w, Raise(ZmqError))
  {
    if received.Some? { NewFrameIsRead(w, received.value); }
  }

  /** A duplicate reads as its original does, which still does so; of a frame that is gone there is none. */
  lemma DupFrameIsRead(w: World, f: nat)
    requires Inv(w) && HasFrame(w, f) && Usable(w, f)
    ensures var (step, read) := (DupFrame(w, f), FrameData(w, f).outcome);
            && f in step.world.frames
            && (read == Return(Nil) <==> FrameGone(w, f).outcome == Return(Bool(true)))
            && (read == Return(Nil) ==> step == Step(w, Raise(ZmqError)))
            && (read != Return(Nil) ==>
                  && read.Return? && read.value.Str? && ReturnsNewFrame(w, step, read.value.s)
                  && FrameData(step.world, f).outcome == read)
  {
    Fresh(w);
    GuardIsStanding(w, f);
    if StandingOf(w, f).There? { NewFrameIsRead(w, w.data[StandingOf(w, f).z]); }
  }

  /** A frame that was reset, owning or attached, reads as what was written; one that is gone refuses. */
  lemma ResetIsRead(w: World, f: nat, bytes: Bytes)
    requires Inv(w) && HasFrame(w, f) && Usable(w, f)
    ensures var step := ResetFrame(w, f, bytes);
            && f in step.world.frames
            && (FrameGone(w, f).outcome == Return(Bool(false)) ==>
                  step.outcome == Return(Nil) && FrameData(step.world, f).outcome == Return(Str(bytes)))
            && (FrameGone(w, f).outcome == Return(Bool(true)) ==> step == Step(w, Raise(ZmqError)))
  {
    GuardIsStanding(w, f);
  }

  // ---------------------------------------------------------------------------------------------------------
  // Along runs
  // ---------------------------------------------------------------------------------------------------------

  /** No call of the run resets a frame that has this zframe. */
  ghost predicate NeverReset(w: World, ops: seq<Op>, z: nat)
    requires GoodRun(w, ops)
    decreases |ops|
  {
    ops != [] ==>
      && !(ops[0].OpResetFrame? && StandingOf(w, ops[0].f) == There(z))
      && NeverReset(Do(w, ops[0]).world, ops[1..], z)
  }

  /** The frame object points to the zframe, or to none any more, or was collected; and this is what it holds. */
  ghost predicate Remembers(w: World, f: nat, z: nat, bytes: Bytes) {
    && f < w.frameCount && z in w.data && w.data[z] == bytes
    && (f in w.frames && w.frames[f].frame.Some? ==> w.frames[f].frame.value == z)
  }

  lemma StepRemembers(w: World, op: Op, f: nat, z: nat, bytes: Bytes)
    requires Inv(w) && Enabled(w, op) && Remembers(w, f, z, bytes)
    requires !(op.OpResetFrame? && StandingOf(w, op.f) == There(z))
    ensures Remembers(Do(w, op).world, f, z, bytes)
  {
    WritesExactly(w, op);
    WrapsExactly(w, op);
    assert f in w.frames ==> Wrapper(w, op, f).frame == w.frames[f].frame || Wrapper(w, op, f).frame.None?;
  }

  lemma {:induction false} RunRemembers(w: World, ops: seq<Op>, f: nat, z: nat, bytes: Bytes)
    requires Inv(w) && GoodRun(w, ops) && Remembers(w, f, z, bytes) && NeverReset(w, ops, z)
    ensures Remembers(Run(w, ops), f, z, bytes)
    decreases |ops|
  {
    if ops != [] {
      StepRemembers(w, ops[0], f, z, bytes);
      DisciplineSuffices(w, ops[0]);
      RunRemembers(Do(w, ops[0]).world, ops[1..], f, z, bytes);
    }
  }

  /** Along any disciplined run that does not reset its zframe, a frame reads the same until it is gone, and then nil,
      whatever happens to it: push, pop, wrap, remove, the collection of everything else. */
  lemma ContentsStay(w: World, ops: seq<Op>, f: nat)
    requires Inv(w) && HasFrame(w, f) && StandingOf(w, f).There? && GoodRun(w, ops)
    requires NeverReset(w, ops, StandingOf(w, f).z)
    requires HasFrame(Run(w, ops), f) && Usable(Run(w, ops), f)
    ensures FrameData(Run(w, ops), f).outcome ==
            if FrameGone(Run(w, ops), f).outcome == Return(Bool(true)) then Return(Nil) else FrameData(w, f).outcome
  {
    var z := StandingOf(w, f).z;
    Fresh(w);
    RunRemembers(w, ops, f, z, w.data[z]);
    RunKeepsInv(w, ops);
    GuardIsStanding(w, f);
    GuardIsStanding(Run(w, ops), f);
  }

  // ---------------------------------------------------------------------------------------------------------
  // popstr, recv_message and the comparison
  // ---------------------------------------------------------------------------------------------------------

  /** popstr answers what stands before the first NUL of the first frame, and the whole of it when there is none. */
  lemma PopStringText(w: World, m: nat) returns (n: nat)
    requires Inv(w) && HasMessage(w, m) && w.messages[m].owned && w.Native(m) != []
    ensures var text := Q.Parts(w, m)[0];
            && n <= |text| && PopString(w, m).outcome == Return(Str(text[..n]))
            && (forall i :: 0 <= i < n ==> text[i] != 0) && (n < |text| ==> text[n] == 0)
  {
    EntryAt(w, m, 0);
    n := Q.FirstNul(Q.Parts(w, m)[0]);
    Q.CStringEndsAtNul(Q.Parts(w, m)[0]);
  }

  /** What is received is what is wrapped, part by part; if nothing was received, nil. */
  lemma RecvMessageShape(w: World, open: bool, received: Option<seq<Bytes>>)
    requires Inv(w)
    ensures open && received.Some? ==>
              && RecvMessage(w, open, received).outcome == Return(MessageRef(w.messageCount))
              && Q.HoldsNewly(w, RecvMessage(w, open, received).world, w.messageCount, received.value)
    ensures open && received.None? ==> RecvMessage(w, open, received) == Step(w, Return(Nil))
    ensures !open ==> RecvMessage(w, open, received) == Step(w, Raise(ZmqError))
  {
    if received.Some? { Q.NewMessageShape(w, received.value); }
  }

  /** Two frames that are there compare as their sizes do: 1 means strictly larger, 0 the same size, and turning the
      comparison round turns the sign round. */
  lemma CompareIsBySize(w: World, f: nat, g: nat)
    requires Inv(w) && HasFrame(w, f) && HasFrame(w, g) && StandingOf(w, f).There? && StandingOf(w, g).There?
    ensures var (a, b) := (Q.DataOf(w, f), Q.DataOf(w, g));
            var (there, back) := (CompareFrames(w, f, g).outcome, CompareFrames(w, g, f).outcome);
            && there.Return? && there.value.Num? && back == Return(Num(-there.value.n))
            && (there == Return(Num(1)) <==> |a| > |b|) && (there == Return(Num(0)) <==> |a| == |b|)
            && (there == Return(Num(-1)) <==> |a| < |b|)
  {
    GuardIsStanding(w, f);
    GuardIsStanding(w, g);
  }
}
