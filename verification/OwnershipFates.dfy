/**
 The whole effect of every call, from every good world and whether or not the caller kept to the discipline, told by
 what becomes of each zframe, each frame object and each message: which zframes are released and which way, what they
 hold, who points to what, what the program comes to hold, and what it is answered.
 */
module OwnershipFates {
  import opened Lists
  import opened Wrappers
  import opened Ownership
  import opened OwnershipSteps
  import opened OwnershipMoves
  import opened OwnershipDiscipline
  import Q = MessageSequence

  // ---------------------------------------------------------------------------------------------------------
  // What there is before the call
  // ---------------------------------------------------------------------------------------------------------

  /** A frame object has its zframe, or has none any more, or points back to a message that was collected. */
  datatype Standing = There(z: nat) | Missing | Stranded

  ghost function StandingOf(w: World, f: nat): Standing
    requires f in w.frames
  {
    var fw := w.frames[f];
    if !fw.owned && fw.message.Some? && fw.message.value !in w.messages then Stranded
    else if fw.frame.Some? && w.Live(fw.frame.value) then There(fw.frame.value)
    else Missing
  }

  lemma GuardIsStanding(w: World, f: nat)
    requires Inv(w) && HasFrame(w, f)
    ensures FrameGuard(w, f) ==
            match StandingOf(w, f) case There(_) => Pass case Missing => Deny case Stranded => Dangling
    ensures StandingOf(w, f).There? ==> Read(w, f) == Return(Str(w.data[StandingOf(w, f).z]))
    ensures w.frames[f].owned ==> StandingOf(w, f).There?
  {
    AccessibleIsLive(w, f);
  }

  predicate MakesFrames(op: Op) {
    op.OpNewFrame? || op.OpRecvFrame? || op.OpDupFrame? || op.OpPushStr? || op.OpAddStr? || op.OpWrap?
  }

  predicate MakesMessage(op: Op) {
    op.OpNewMessage? || op.OpRecvMessage? || op.OpDupMessage?
  }

  predicate Moves(op: Op) {
    op.OpPush? || op.OpAdd? || op.OpPop? || op.OpRemove? || op.OpPopStr? || op.OpUnwrap?
  }

  predicate Releases(op: Op) {
    op.OpDestroyFrame? || op.OpCollectFrame? || op.OpSendFrame? || op.OpSendMessage? || op.OpDestroyMessage?
    || op.OpCollectMessage?
  }

  predicate Asks(op: Op) {
    !MakesFrames(op) && !MakesMessage(op) && !Moves(op) && !Releases(op)
  }

  /** `z` stands at one of the positions from `lo` up to, not including, `hi`. */
  ghost predicate Among(zs: seq<nat>, lo: nat, hi: nat, z: nat) {
    exists i :: lo <= i < hi && i < |zs| && zs[i] == z
  }

  lemma SliceCounts(zs: seq<nat>, lo: nat, hi: nat, z: nat)
    requires NoDup(zs) && lo <= hi <= |zs|
    ensures multiset(zs[lo..hi])[z] == if Among(zs, lo, hi, z) then 1 else 0
  {
    NoDupCounts(zs[lo..hi], z);
    if z in zs[lo..hi] {
      var i :| 0 <= i < hi - lo && zs[lo..hi][i] == z;
      assert zs[lo + i] == z;
    }
    forall i | lo <= i < hi && zs[i] == z ensures z in zs[lo..hi] { assert zs[lo..hi][i - lo] == z; }
  }

  // ---------------------------------------------------------------------------------------------------------
  // Which zframes are released, and which way
  // ---------------------------------------------------------------------------------------------------------

  ghost predicate Frees(w: World, op: Op, z: nat) {
    match op
    case OpDestroyFrame(f) => w.FrameOwns(f, z)
    case OpCollectFrame(f) => w.FrameOwns(f, z)
    case OpPopStr(m) => w.OwnedMessage(m) && Among(w.Native(m), 0, 1, z)
    case OpUnwrap(m) => w.OwnedMessage(m) && Among(w.Native(m), 1, 2, z) && z in w.data && w.data[z] == []
    case OpDestroyMessage(m) => w.MessageOwns(m, z)
    case OpCollectMessage(m) => w.MessageOwns(m, z)
    case OpSendMessage(m, open, taken, left) =>
      open && w.OwnedMessage(m) && Among(w.Native(m), taken + left, |w.Native(m)|, z)
    case _ => false
  }

  ghost predicate Sends(w: World, op: Op, z: nat) {
    match op
    case OpSendFrame(f, open, reuse, verdict) => open && !reuse && verdict.Accepted? && w.FrameOwns(f, z)
    case OpSendMessage(m, open, taken, _) => open && w.OwnedMessage(m) && Among(w.Native(m), 0, taken, z)
    case _ => false
  }

  ghost predicate Released(w: World, op: Op, w': World, z: nat) {
    && w'.freed[z] == w.freed[z] + (if Frees(w, op, z) then 1 else 0)
    && w'.sent[z] == w.sent[z] + (if Sends(w, op, z) then 1 else 0)
  }

  lemma FrameCallReleases(w: World, op: Op, z: nat)
    requires Inv(w) && Enabled(w, op)
    requires op.OpDestroyFrame? || op.OpCollectFrame? || op.OpSendFrame?
    ensures Released(w, op, Do(w, op).world, z)
  {
    if w.frames[op.f].owned { OwningFrame(w, op.f); }
    if !op.OpCollectFrame? { GuardIsStanding(w, op.f); }
  }

  lemma FrontCounts(zs: seq<nat>, taken: nat, z: nat)
    requires NoDup(zs)
    ensures multiset(zs[..Min(taken, |zs|)])[z] == if Among(zs, 0, taken, z) then 1 else 0
  {
    var sent := Min(taken, |zs|);
    SliceCounts(zs, 0, sent, z);
    assert zs[0..sent] == zs[..sent];
    assert Among(zs, 0, sent, z) <==> Among(zs, 0, taken, z);
  }

  lemma BackCounts(zs: seq<nat>, taken: nat, left: nat, z: nat)
    requires NoDup(zs)
    ensures multiset(zs[Min(Min(taken, |zs|) + left, |zs|)..])[z] ==
            if Among(zs, taken + left, |zs|, z) then 1 else 0
  {
    var kept := Min(Min(taken, |zs|) + left, |zs|);
    SliceCounts(zs, kept, |zs|, z);
    assert zs[kept..|zs|] == zs[kept..];
    assert Among(zs, kept, |zs|, z) <==> Among(zs, taken + left, |zs|, z);
  }

  lemma SendMessageReleases(w: World, op: Op, z: nat)
    requires Inv(w) && Enabled(w, op) && op.OpSendMessage?
    ensures Released(w, op, Do(w, op).world, z)
  {
    if op.open && w.messages[op.m].owned {
      OwningMessage(w, op.m);
      FrontCounts(w.Native(op.m), op.taken, z);
      BackCounts(w.Native(op.m), op.taken, op.left, z);
    }
  }

  lemma WholeMessageReleases(w: World, op: Op, z: nat)
    requires Inv(w) && Enabled(w, op) && (op.OpDestroyMessage? || op.OpCollectMessage?)
    ensures Released(w, op, Do(w, op).world, z)
  {
    if w.messages[op.m].owned {
      OwningMessage(w, op.m);
      NoDupCounts(w.Native(op.m), z);
    }
  }

  lemma PopStringReleases(w: World, op: Op, z: nat)
    requires Inv(w) && Enabled(w, op) && op.OpPopStr?
    ensures Released(w, op, Do(w, op).world, z)
  {
    if w.messages[op.m].owned && w.Native(op.m) != [] {
      EntryAt(w, op.m, 0);
      assert Among(w.Native(op.m), 0, 1, z) <==> w.Native(op.m)[0] == z;
    }
  }

  lemma UnwrapReleases(w: World, op: Op, z: nat)
    requires Inv(w) && Enabled(w, op) && op.OpUnwrap?
    ensures Released(w, op, Do(w, op).world, z)
  {
    var m := op.m;
    if w.messages[m].owned {
      OwningMessage(w, m);
      if |w.Native(m)| >= 2 {
        EntryAt(w, m, 0);
        EntryAt(w, m, 1);
        assert Among(w.Native(m), 1, 2, z) <==> w.Native(m)[1] == z;
        OpenReleases(w, m, z);
      }
    }
  }

  lemma OpenReleases(w: World, m: nat, z: nat)
    requires m in w.messages && |w.Native(m)| >= 2 && w.Native(m)[1] in w.data
    ensures var w' := OpenEnvelope(w, m);
            && w'.sent == w.sent && w'.frames == w.frames
            && w'.freed[z] == w.freed[z] + if w.Native(m)[1] == z && w.data[z] == [] then 1 else 0
  {
  }

  lemma MovingReleases(w: World, op: Op, z: nat)
    requires Inv(w) && Enabled(w, op) && Moves(op)
    ensures Released(w, op, Do(w, op).world, z)
  {
    match op
    case OpPopStr(_) => PopStringReleases(w, op, z);
    case OpUnwrap(_) => UnwrapReleases(w, op, z);
    case _ =>
  }

  lemma ReleasingReleases(w: World, op: Op, z: nat)
    requires Inv(w) && Enabled(w, op) && Releases(op)
    ensures Released(w, op, Do(w, op).world, z)
  {
    match op
    case OpSendMessage(_, _, _, _) => SendMessageReleases(w, op, z);
    case OpDestroyMessage(_) => WholeMessageReleases(w, op, z);
    case OpCollectMessage(_) => WholeMessageReleases(w, op, z);
    case _ => FrameCallReleases(w, op, z);
  }

  lemma MakingReleasesNothing(w: World, op: Op, z: nat)
    requires Inv(w) && Enabled(w, op) && (MakesFrames(op) || MakesMessage(op))
    ensures Released(w, op, Do(w, op).world, z)
  {
  }

  lemma AskingReleasesNothing(w: World, op: Op, z: nat)
    requires Inv(w) && Enabled(w, op) && Asks(op)
    ensures Released(w, op, Do(w, op).world, z)
  {
  }

  /** A call frees exactly these zframes and hands exactly those to a socket, each once, whatever the caller did. */
  lemma ReleasesExactly(w: World, op: Op, z: nat)
    requires Inv(w) && Enabled(w, op)
    ensures Released(w, op, Do(w, op).world, z)
  {
    if Moves(op) {
      MovingReleases(w, op, z);
    } else if Releases(op) {
      ReleasingReleases(w, op, z);
    } else if Asks(op) {
      AskingReleasesNothing(w, op, z);
    } else {
      MakingReleasesNothing(w, op, z);
    }
  }

  // ---------------------------------------------------------------------------------------------------------
  // The two sends
  // ---------------------------------------------------------------------------------------------------------

  /** Of a message that is sent, the zframe at position `i` goes to the socket when it is among those taken, stays live
      when it is among those left, and is freed otherwise; no other zframe is touched; and the message is given up. */
  lemma SendMessageFates(w: World, m: nat, open: bool, taken: nat, left: nat)
    requires Inv(w) && HasMessage(w, m)
    ensures var (step, zs) := (SendMessage(w, m, open, taken, left), w.Native(m));
            && (!open ==> step == Step(w, Raise(ZmqError)))
            && (open && !w.messages[m].owned ==> step == Step(w, Raise(TypeError)))
            && (open && w.messages[m].owned ==>
                  && step.outcome == Return(Nil) && !step.world.OwnedMessage(m)
                  && (forall i: nat {:trigger zs[i]} :: i < |zs| ==>
                        && step.world.sent[zs[i]] == w.sent[zs[i]] + (if i < taken then 1 else 0)
                        && step.world.freed[zs[i]] == w.freed[zs[i]] + (if i >= taken + left then 1 else 0)
                        && (step.world.Live(zs[i]) <==> taken <= i < taken + left))
                  && (forall z :: z !in zs ==> step.world.sent[z] == w.sent[z] && step.world.freed[z] == w.freed[z]))
  {
    var op, zs, w' := OpSendMessage(m, open, taken, left), w.Native(m), SendMessage(w, m, open, taken, left).world;
    if open && w.messages[m].owned {
      OwningMessage(w, m);
      forall i: nat | i < |zs|
        ensures w'.sent[zs[i]] == w.sent[zs[i]] + (if i < taken then 1 else 0)
        ensures w'.freed[zs[i]] == w.freed[zs[i]] + (if i >= taken + left then 1 else 0)
        ensures w'.Live(zs[i]) <==> taken <= i < taken + left
      {
        ReleasesExactly(w, op, zs[i]);
        assert w.Live(zs[i]);
        assert Among(zs, 0, taken, zs[i]) <==> i < taken;
        assert Among(zs, taken + left, |zs|, zs[i]) <==> i >= taken + left;
      }
      forall z | z !in zs ensures w'.sent[z] == w.sent[z] && w'.freed[z] == w.freed[z] {
        ReleasesExactly(w, op, z);
      }
    }
  }

  /** A send that is taken whole hands over every zframe of the message, and destroys none. */
  lemma CompleteSend(w: World, m: nat, taken: nat, left: nat)
    requires Inv(w) && HasMessage(w, m) && w.messages[m].owned && taken >= |w.Native(m)|
    ensures var w' := SendMessage(w, m, true, taken, left).world;
            w'.sent == w.sent + multiset(w.Native(m)) && w'.freed == w.freed
  {
    var zs, w' := w.Native(m), SendMessage(w, m, true, taken, left).world;
    SendMessageFates(w, m, true, taken, left);
    OwningMessage(w, m);
    forall z: nat
      ensures w'.sent[z] == w.sent[z] + multiset(zs)[z]
      ensures w'.freed[z] == w.freed[z]
    {
      NoDupCounts(zs, z);
      if z in zs { var i :| 0 <= i < |zs| && zs[i] == z; }
    }
    assert w'.sent == w.sent + multiset(zs) && w'.freed == w.freed;
  }

  /** The frame is consumed exactly when it owns its zframe, the socket admits it, REUSE is not asked for and the
      library accepts; otherwise nothing changes at all; and the answer is decided by the same four. */
  lemma SendFrameIff(w: World, f: nat, open: bool, reuse: bool, verdict: Verdict)
    requires Inv(w) && HasFrame(w, f)
    ensures var (step, owned) := (SendFrame(w, f, open, reuse, verdict), w.frames[f].owned);
            && f in step.world.frames
            && (if open && owned && !reuse && verdict.Accepted? then
                  && w.frames[f].frame.Some?
                  && (forall z :: step.world.sent[z] == w.sent[z] + if w.frames[f].frame == Some(z) then 1 else 0)
                  && step.world.freed == w.freed && !step.world.frames[f].owned
                  && FrameGone(step.world, f).outcome == Return(Bool(true))
                else step.world == w)
            && (step.outcome == Return(Bool(true)) <==> open && owned && verdict.Accepted?)
            && (step.outcome == Return(Bool(false)) <==> open && owned && verdict.TryAgain?)
            && (step.outcome == Raise(SysError) <==> open && owned && verdict.Failed?)
            && (step.outcome == Raise(ZmqError) <==> !open || !owned)
  {
    GuardIsStanding(w, f);
    if w.frames[f].owned {
      OwningFrame(w, f);
      var op := OpSendFrame(f, open, reuse, verdict);
      forall z ensures Released(w, op, Do(w, op).world, z) { ReleasesExactly(w, op, z); }
    }
  }

  // ---------------------------------------------------------------------------------------------------------
  // What the zframes hold
  // ---------------------------------------------------------------------------------------------------------

  /** The contents of the zframes a call makes, in the order in which it makes them. */
  ghost function Created(w: World, op: Op): seq<Bytes>
    requires Enabled(w, op)
  {
    match op
    case OpNewFrame(bytes) => [bytes]
    case OpRecvFrame(open, received) => if open && received.Some? then [received.value] else []
    case OpDupFrame(f) =>
      var standing := StandingOf(w, f);
      if standing.There? then [w.data[standing.z]] else []
    case OpPushStr(m, bytes) => if w.messages[m].owned then [bytes] else []
    case OpAddStr(m, bytes) => if w.messages[m].owned then [bytes] else []
    case OpWrap(m, f) => if w.messages[m].owned && StandingOf(w, f).There? then [[]] else []
    case OpDupMessage(m) => if w.messages[m].owned then Q.Parts(w, m) else []
    case OpRecvMessage(open, received) => if open && received.Some? then received.value else []
    case _ => []
  }

  /** What a zframe that was there holds after the call: only a reset of a frame that has it writes into it. */
  ghost function Holds(w: World, op: Op, z: nat): Bytes
    requires Enabled(w, op) && z in w.data
  {
    if op.OpResetFrame? && StandingOf(w, op.f) == There(z) then op.bytes else w.data[z]
  }

  /** There are this many more zframes, with these contents in order, and no others. */
  ghost predicate Made(w: World, w': World, created: seq<Bytes>) {
    && w'.zframeCount == w.zframeCount + |created|
    && (forall z: nat :: z in w'.data <==> z < w'.zframeCount)
    && (forall i: nat {:trigger created[i]} :: i < |created| ==>
          w.zframeCount + i in w'.data && w'.data[w.zframeCount + i] == created[i])
  }

  ghost predicate Written(w: World, op: Op, w': World)
    requires Enabled(w, op)
  {
    && Made(w, w', Created(w, op))
    && (forall z :: z in w.data ==> z in w'.data && w'.data[z] == Holds(w, op, z))
  }

  lemma FrameCreationWrites(w: World, op: Op)
    requires Inv(w) && Enabled(w, op) && (op.OpNewFrame? || op.OpRecvFrame? || op.OpDupFrame?)
    ensures Written(w, op, Do(w, op).world)
  {
    Fresh(w);
    if op.OpDupFrame? { GuardIsStanding(w, op.f); }
  }

  lemma StringWrites(w: World, op: Op)
    requires Inv(w) && Enabled(w, op) && (op.OpPushStr? || op.OpAddStr?)
    ensures Written(w, op, Do(w, op).world)
  {
    Fresh(w);
  }

  lemma WrapWrites(w: World, op: Op)
    requires Inv(w) && Enabled(w, op) && op.OpWrap?
    ensures Written(w, op, Do(w, op).world)
  {
    Fresh(w);
    GuardIsStanding(w, op.f);
  }

  lemma NewMessageWrites(w: World, parts: seq<Bytes>)
    requires Inv(w)
    ensures var w' := NewMessage(w, parts).world;
            Made(w, w', parts) && (forall z :: z in w.data ==> z in w'.data && w'.data[z] == w.data[z])
  {
    Fresh(w);
  }

  lemma PartsAreRead(w: World, m: nat)
    requires Inv(w) && w.OwnedMessage(m)
    ensures Contents(w, w.Native(m)) == Some(Q.Parts(w, m))
  {
    OwningMessage(w, m);
    ContentsOfLive(w, w.Native(m));
    assert Contents(w, w.Native(m)).value == Q.Parts(w, m);
  }

  ghost predicate AddsMessage(w: World, op: Op)
    requires Enabled(w, op)
  {
    match op
    case OpNewMessage => true
    case OpRecvMessage(open, received) => open && received.Some?
    case OpDupMessage(m) => w.messages[m].owned
    case _ => false
  }

  /** A call that may make a message makes it of these parts, or leaves the world alone. */
  lemma MakesOfParts(w: World, op: Op)
    requires Inv(w) && Enabled(w, op) && MakesMessage(op)
    ensures AddsMessage(w, op) ==> Do(w, op) == NewMessage(w, Created(w, op))
    ensures !AddsMessage(w, op) ==> Do(w, op).world == w && Created(w, op) == []
  {
    if op.OpDupMessage? && w.messages[op.m].owned { PartsAreRead(w, op.m); }
  }

  lemma MadeOf(w: World, step: Step, parts: seq<Bytes>, adds: bool)
    requires Inv(w) && if adds then step == NewMessage(w, parts) else step.world == w && parts == []
    ensures Made(w, step.world, parts)
    ensures forall z :: z in w.data ==> z in step.world.data && step.world.data[z] == w.data[z]
  {
    if adds { NewMessageWrites(w, parts); } else { Fresh(w); }
  }

  lemma MessageCreationWrites(w: World, op: Op)
    requires Inv(w) && Enabled(w, op) && MakesMessage(op)
    ensures Written(w, op, Do(w, op).world)
  {
    MakesOfParts(w, op);
    MadeOf(w, Do(w, op), Created(w, op), AddsMessage(w, op));
  }

  lemma FramesWrite(w: World, op: Op)
    requires Inv(w) && Enabled(w, op) && MakesFrames(op)
    ensures Written(w, op, Do(w, op).world)
  {
    match op
    case OpPushStr(_, _) => StringWrites(w, op);
    case OpAddStr(_, _) => StringWrites(w, op);
    case OpWrap(_, _) => WrapWrites(w, op);
    case _ => FrameCreationWrites(w, op);
  }

  lemma UnwrapKeepsData(w: World, m: nat)
    requires m in w.messages
    ensures Unwrap(w, m).world.data == w.data && Unwrap(w, m).world.zframeCount == w.zframeCount
  {
    if w.messages[m].owned && |w.Native(m)| >= 2 && w.Live(w.Native(m)[1]) { OpenKeepsData(w, m); }
  }

  lemma OpenKeepsData(w: World, m: nat)
    requires m in w.messages && |w.Native(m)| >= 2 && w.Native(m)[1] in w.data
    ensures OpenEnvelope(w, m).data == w.data && OpenEnvelope(w, m).zframeCount == w.zframeCount
  {
  }

  lemma MovingWritesNothing(w: World, op: Op)
    requires Inv(w) && Enabled(w, op) && Moves(op)
    ensures Written(w, op, Do(w, op).world)
  {
    Fresh(w);
    if op.OpUnwrap? { UnwrapKeepsData(w, op.m); }
  }

  lemma ReleasingKeepsData(w: World, op: Op)
    requires Enabled(w, op) && Releases(op)
    ensures Do(w, op).world.data == w.data && Do(w, op).world.zframeCount == w.zframeCount
  {
  }

  lemma ReleasingWritesNothing(w: World, op: Op)
    requires Inv(w) && Enabled(w, op) && Releases(op)
    ensures Written(w, op, Do(w, op).world)
  {
    Fresh(w);
    ReleasingKeepsData(w, op);
  }

  lemma AskingWrites(w: World, op: Op)
    requires Inv(w) && Enabled(w, op) && Asks(op)
    ensures Written(w, op, Do(w, op).world)
  {
    Fresh(w);
    if op.OpResetFrame? { GuardIsStanding(w, op.f); }
  }

  /** A call makes exactly these zframes, with these contents, and writes into no other but the one it resets. */
  lemma WritesExactly(w: World, op: Op)
    requires Inv(w) && Enabled(w, op)
    ensures Written(w, op, Do(w, op).world)
  {
    if MakesFrames(op) {
      FramesWrite(w, op);
    } else if MakesMessage(op) {
      MessageCreationWrites(w, op);
    } else if Moves(op) {
      MovingWritesNothing(w, op);
    } else if Releases(op) {
      ReleasingWritesNothing(w, op);
    } else {
      AskingWrites(w, op);
    }
  }

  // ---------------------------------------------------------------------------------------------------------
  // The frame objects
  // ---------------------------------------------------------------------------------------------------------

  /** What a frame object that was there points to after the call, and whether it owns it. */
  ghost function Wrapper(w: World, op: Op, f: nat): FrameW
    requires Enabled(w, op) && f in w.frames
  {
    var fw := w.frames[f];
    match op
    case OpDestroyFrame(g) => if g == f && StandingOf(w, f).There? then FrameW(None, fw.message, false) else fw
    case OpPush(m, g) => if g == f && w.messages[m].owned && fw.owned then FrameW(fw.frame, Some(m), false) else fw
    case OpAdd(m, g) => if g == f && w.messages[m].owned && fw.owned then FrameW(fw.frame, Some(m), false) else fw
    case OpWrap(m, g) =>
      if g == f && w.messages[m].owned && StandingOf(w, f).There? then FrameW(fw.frame, Some(m), false) else fw
    case OpPop(m) => if w.messages[m].owned && Among(w.Listed(m), 0, 1, f) then FrameW(fw.frame, None, true) else fw
    case OpUnwrap(m) =>
      if w.messages[m].owned && |w.Native(m)| >= 2 && Among(w.Listed(m), 0, 1, f)
      then FrameW(fw.frame, None, true) else fw
    case OpRemove(m, g) => if g == f && w.messages[m].owned then FrameW(fw.frame, None, true) else fw
    case OpSendFrame(g, open, reuse, verdict) =>
      if g == f && open && !reuse && verdict.Accepted? then fw.(owned := false) else fw
    case _ => fw
  }

  /** The message that new zframes belong to; without one their frame objects own them. */
  ghost function Joined(w: World, op: Op): Option<nat> {
    match op
    case OpPushStr(m, _) => Some(m)
    case OpAddStr(m, _) => Some(m)
    case OpWrap(m, _) => Some(m)
    case OpDupMessage(_) => Some(w.messageCount)
    case OpRecvMessage(_, _) => Some(w.messageCount)
    case _ => None
  }

  /** The i-th new frame object has the i-th new zframe. */
  ghost predicate NewWrapper(w: World, w': World, i: nat, joined: Option<nat>) {
    var f := w.frameCount + i;
    f in w'.frames && w'.frames[f] == FrameW(Some(w.zframeCount + i), joined, joined.None?)
  }

  ghost predicate Wrapped(w: World, op: Op, w': World)
    requires Enabled(w, op)
  {
    var (n, joined) := (|Created(w, op)|, Joined(w, op));
    && w'.frameCount == w.frameCount + n
    && (forall f :: f in w'.frames <==>
          (f in w.frames && op != OpCollectFrame(f)) || w.frameCount <= f < w.frameCount + n)
    && (forall f :: f in w.frames && op != OpCollectFrame(f) ==> f in w'.frames && w'.frames[f] == Wrapper(w, op, f))
    && (forall i: nat {:trigger NewWrapper(w, w', i, joined)} :: i < n ==> NewWrapper(w, w', i, joined))
  }

  lemma FrameCreationWraps(w: World, op: Op)
    requires Inv(w) && Enabled(w, op) && (op.OpNewFrame? || op.OpRecvFrame? || op.OpDupFrame?)
    ensures Wrapped(w, op, Do(w, op).world)
  {
    Fresh(w);
    if op.OpDupFrame? { GuardIsStanding(w, op.f); }
  }

  lemma StringWraps(w: World, op: Op)
    requires Inv(w) && Enabled(w, op) && (op.OpPushStr? || op.OpAddStr?)
    ensures Wrapped(w, op, Do(w, op).world)
  {
    Fresh(w);
  }

  lemma WrapWraps(w: World, op: Op)
    requires Inv(w) && Enabled(w, op) && op.OpWrap?
    ensures Wrapped(w, op, Do(w, op).world)
  {
    Fresh(w);
    GuardIsStanding(w, op.f);
  }

  lemma NewMessageWraps(w: World, parts: seq<Bytes>)
    requires Inv(w)
    ensures var (w', n) := (NewMessage(w, parts).world, |parts|);
            && w'.frameCount == w.frameCount + n
            && (forall f :: f in w'.frames <==> f in w.frames || w.frameCount <= f < w.frameCount + n)
            && (forall f :: f in w.frames ==> w'.frames[f] == w.frames[f])
            && (forall i: nat :: i < n ==> NewWrapper(w, w', i, Some(w.messageCount)))
  {
    Fresh(w);
  }

  lemma MakingLeavesWrappers(w: World, op: Op, f: nat)
    requires Enabled(w, op) && MakesMessage(op) && f in w.frames
    ensures Wrapper(w, op, f) == w.frames[f] && op != OpCollectFrame(f)
    ensures AddsMessage(w, op) ==> Created(w, op) == [] || Joined(w, op) == Some(w.messageCount)
  {
  }

  lemma MessageCreationWraps(w: World, op: Op)
    requires Inv(w) && Enabled(w, op) && MakesMessage(op)
    ensures Wrapped(w, op, Do(w, op).world)
  {
    Fresh(w);
    MakesOfParts(w, op);
    var w' := Do(w, op).world;
    if AddsMessage(w, op) {
      NewMessageWraps(w, Created(w, op));
      forall f | f in w.frames ensures w'.frames[f] == Wrapper(w, op, f) { MakingLeavesWrappers(w, op, f); }
    } else {
      forall f | f in w.frames ensures w'.frames[f] == Wrapper(w, op, f) { MakingLeavesWrappers(w, op, f); }
    }
  }

  lemma PopWraps(w: World, op: Op)
    requires Inv(w) && Enabled(w, op) && op.OpPop?
    ensures Wrapped(w, op, Do(w, op).world)
  {
    Fresh(w);
    var m := op.m;
    if w.messages[m].owned && w.Native(m) != [] {
      EntryAt(w, m, 0);
      assert forall f :: Among(w.Listed(m), 0, 1, f) <==> f == w.Listed(m)[0];
    } else if w.messages[m].owned {
      OwningMessage(w, m);
    }
  }

  lemma UnwrapWraps(w: World, op: Op)
    requires Inv(w) && Enabled(w, op) && op.OpUnwrap?
    ensures Wrapped(w, op, Do(w, op).world)
  {
    Fresh(w);
    var m := op.m;
    if w.messages[m].owned && |w.Native(m)| >= 2 {
      EntryAt(w, m, 0);
      EntryAt(w, m, 1);
      assert forall f :: Among(w.Listed(m), 0, 1, f) <==> f == w.Listed(m)[0];
    }
  }

  lemma DestroyWraps(w: World, op: Op)
    requires Inv(w) && Enabled(w, op) && (op.OpDestroyFrame? || op.OpCollectFrame?)
    ensures Wrapped(w, op, Do(w, op).world)
  {
    Fresh(w);
    if op.OpDestroyFrame? { GuardIsStanding(w, op.f); }
    if w.frames[op.f].owned { OwningFrame(w, op.f); }
  }

  lemma SendWraps(w: World, op: Op)
    requires Inv(w) && Enabled(w, op) && op.OpSendFrame?
    ensures Wrapped(w, op, Do(w, op).world)
  {
    Fresh(w);
    if w.frames[op.f].owned { OwningFrame(w, op.f); }
  }

  lemma MoveWraps(w: World, op: Op)
    requires Inv(w) && Enabled(w, op) && (op.OpPush? || op.OpAdd? || op.OpRemove?)
    ensures Wrapped(w, op, Do(w, op).world)
  {
    Fresh(w);
    if w.frames[op.f].owned { OwningFrame(w, op.f); }
  }

  lemma FramesWrap(w: World, op: Op)
    requires Inv(w) && Enabled(w, op) && MakesFrames(op)
    ensures Wrapped(w, op, Do(w, op).world)
  {
    match op
    case OpPushStr(_, _) => StringWraps(w, op);
    case OpAddStr(_, _) => StringWraps(w, op);
    case OpWrap(_, _) => WrapWraps(w, op);
    case _ => FrameCreationWraps(w, op);
  }

  lemma MovingWraps(w: World, op: Op)
    requires Inv(w) && Enabled(w, op) && Moves(op)
    ensures Wrapped(w, op, Do(w, op).world)
  {
    match op
    case OpPop(_) => PopWraps(w, op);
    case OpUnwrap(_) => UnwrapWraps(w, op);
    case OpPopStr(_) => Fresh(w);
    case _ => MoveWraps(w, op);
  }

  lemma ReleasingWraps(w: World, op: Op)
    requires Inv(w) && Enabled(w, op) && Releases(op)
    ensures Wrapped(w, op, Do(w, op).world)
  {
    match op
    case OpDestroyFrame(_) => DestroyWraps(w, op);
    case OpCollectFrame(_) => DestroyWraps(w, op);
    case OpSendFrame(_, _, _, _) => SendWraps(w, op);
    case _ => Fresh(w);
  }

  lemma AskingWrapsNothing(w: World, op: Op)
    requires Inv(w) && Enabled(w, op) && Asks(op)
    ensures Wrapped(w, op, Do(w, op).world)
  {
    Fresh(w);
  }

  /** After a call every frame object points where it should and owns what it should, and no other is there. */
  lemma WrapsExactly(w: World, op: Op)
    requires Inv(w) && Enabled(w, op)
    ensures Wrapped(w, op, Do(w, op).world)
  {
    if MakesFrames(op) {
      FramesWrap(w, op);
    } else if MakesMessage(op) {
      MessageCreationWraps(w, op);
    } else if Moves(op) {
      MovingWraps(w, op);
    } else if Releases(op) {
      ReleasingWraps(w, op);
    } else {
      AskingWrapsNothing(w, op);
    }
  }
}
