/**
 Runs of the program, from the start and in order so far, after which each of the weak guards lets a harmful call
 through.
 */
module OwnershipWitnesses {
  import opened Wrappers
  import opened Ownership
  import opened OwnershipSteps
  import opened OwnershipDiscipline
  import opened OwnershipRuns
  import opened OwnershipHarm

  /** A disciplined run after which the call is possible, and faults or leaves a world that harm comes from. */
  ghost predicate LeadsToHarm(ops: seq<Op>, op: Op) {
    && GoodRun(EMPTY_WORLD, ops)
    && var w := Run(EMPTY_WORLD, ops);
       Enabled(w, op) && (Do(w, op).outcome.Fault? || !Harmless(Do(w, op).world))
  }

  lemma UndisciplinedLeadsToHarm(ops: seq<Op>, op: Op)
    requires GoodRun(EMPTY_WORLD, ops)
    requires Enabled(Run(EMPTY_WORLD, ops), op) && !Disciplined(Run(EMPTY_WORLD, ops), op)
    ensures LeadsToHarm(ops, op)
  {
    EmptyIsGood();
    RunKeepsInv(EMPTY_WORLD, ops);
    HarmlessIffDisciplined(Run(EMPTY_WORLD, ops), op);
  }

  lemma {:induction false} OneMore(w: World, ops: seq<Op>, op: Op)
    requires GoodRun(w, ops) && Enabled(Run(w, ops), op) && Disciplined(Run(w, ops), op)
    ensures GoodRun(w, ops + [op]) && Run(w, ops + [op]) == Do(Run(w, ops), op).world
    decreases |ops|
  {
    if ops == [] {
      assert ops + [op] == [op];
      GoodOne(w, op);
    } else {
      OneMore(Do(w, ops[0]).world, ops[1..], op);
      assert (ops + [op])[1..] == ops[1..] + [op];
    }
  }

  /** An empty frame, pushed onto a message; the program holds both. */
  const ATTACHED: seq<Op> := [OpNewFrame([]), OpNewMessage, OpPush(0, 0)]

  ghost predicate IsAttached(w: World) {
    && HasFrame(w, 0) && HasMessage(w, 0) && w.messages == map[0 := MessageW(Some([0]), Some([0]), true)]
    && w.frames == map[0 := FrameW(Some(0), Some(0), false)] && w.data == map[0 := []]
    && w.heldFrames == {0} && w.heldMessages == {0}
    && w.zframeCount == 1 && w.frameCount == 1 && w.messageCount == 1
  }

  lemma AttachedRun()
    ensures GoodRun(EMPTY_WORLD, ATTACHED) && IsAttached(Run(EMPTY_WORLD, ATTACHED))
  {
    var create, make, push := OpNewFrame([]), OpNewMessage, OpPush(0, 0);
    GoodOne(EMPTY_WORLD, create);
    OneMore(EMPTY_WORLD, [create], make);
    var w := Run(EMPTY_WORLD, [create] + [make]);
    assert HasFrame(w, 0) && HasMessage(w, 0) && w.messages[0] == MessageW(Some([]), Some([]), true);
    OneMore(EMPTY_WORLD, [create] + [make], push);
    assert [create] + [make] + [push] == ATTACHED;
    var w' := Run(EMPTY_WORLD, ATTACHED);
    assert w'.Native(0) == [0] && w'.Listed(0) == [0];
    assert w'.messages[0] == MessageW(Some([0]), Some([0]), true);
  }

  lemma DestroyLeadsToHarm()
    ensures LeadsToHarm(ATTACHED, OpDestroyFrame(0))
  {
    AttachedRun();
    UndisciplinedLeadsToHarm(ATTACHED, OpDestroyFrame(0));
  }

  lemma WrapLeadsToHarm()
    ensures LeadsToHarm(ATTACHED, OpWrap(0, 0))
  {
    AttachedRun();
    UndisciplinedLeadsToHarm(ATTACHED, OpWrap(0, 0));
  }

  lemma PopStringLeadsToHarm()
    ensures LeadsToHarm(ATTACHED, OpPopStr(0))
  {
    AttachedRun();
    UndisciplinedLeadsToHarm(ATTACHED, OpPopStr(0));
  }

  /** A message with one frame has no second to look at. */
  lemma UnwrapShortLeadsToHarm()
    ensures LeadsToHarm(ATTACHED, OpUnwrap(0))
  {
    AttachedRun();
    UndisciplinedLeadsToHarm(ATTACHED, OpUnwrap(0));
  }

  lemma PartialSendLeadsToHarm()
    ensures LeadsToHarm(ATTACHED, OpSendMessage(0, true, 0, 1))
  {
    AttachedRun();
    UndisciplinedLeadsToHarm(ATTACHED, OpSendMessage(0, true, 0, 1));
  }

  /** Removing the frame from a second message. */
  lemma RemoveLeadsToHarm()
    ensures LeadsToHarm(ATTACHED + [OpNewMessage], OpRemove(1, 0))
  {
    AttachedRun();
    OneMore(EMPTY_WORLD, ATTACHED, OpNewMessage);
    UndisciplinedLeadsToHarm(ATTACHED + [OpNewMessage], OpRemove(1, 0));
  }

  /** The empty frame, still held, has come to stand behind another. */
  lemma UnwrapHeldLeadsToHarm()
    ensures LeadsToHarm(ATTACHED + [OpPushStr(0, [1])], OpUnwrap(0))
  {
    AttachedRun();
    var push := OpPushStr(0, [1]);
    OneMore(EMPTY_WORLD, ATTACHED, push);
    var w := Run(EMPTY_WORLD, ATTACHED + [push]);
    assert w.Native(0) == [1, 0] && w.Listed(0) == [1, 0] && w.data[0] == [];
    UndisciplinedLeadsToHarm(ATTACHED + [push], OpUnwrap(0));
  }

  /** The message is collected under a frame that the program holds. */
  lemma DanglingLeadsToHarm()
    ensures LeadsToHarm(ATTACHED + [OpDropMessage(0)] + [OpCollectMessage(0)], OpFrameData(0))
  {
    AttachedRun();
    OneMore(EMPTY_WORLD, ATTACHED, OpDropMessage(0));
    OneMore(EMPTY_WORLD, ATTACHED + [OpDropMessage(0)], OpCollectMessage(0));
    UndisciplinedLeadsToHarm(ATTACHED + [OpDropMessage(0)] + [OpCollectMessage(0)], OpFrameData(0));
  }

  const TWO_FRAMES: seq<Op> := [OpNewFrame([]), OpNewFrame([])]

  lemma TwoFramesRun()
    ensures GoodRun(EMPTY_WORLD, TWO_FRAMES)
    ensures var w := Run(EMPTY_WORLD, TWO_FRAMES);
            && HasFrame(w, 0) && HasFrame(w, 1) && w.Live(1)
            && w.frames == map[0 := FrameW(Some(0), None, true), 1 := FrameW(Some(1), None, true)]
  {
    GoodOne(EMPTY_WORLD, OpNewFrame([]));
    OneMore(EMPTY_WORLD, [OpNewFrame([])], OpNewFrame([]));
    assert [OpNewFrame([])] + [OpNewFrame([])] == TWO_FRAMES;
  }

  /** A frame that was sent is compared with. */
  lemma CompareLeadsToHarm()
    ensures LeadsToHarm(TWO_FRAMES + [OpSendFrame(1, true, false, Accepted)], OpCompareFrames(0, 1))
  {
    var send := OpSendFrame(1, true, false, Accepted);
    TwoFramesRun();
    OneMore(EMPTY_WORLD, TWO_FRAMES, send);
    UndisciplinedLeadsToHarm(TWO_FRAMES + [send], OpCompareFrames(0, 1));
  }
}
