/**
 What a call can change at all: releases are never taken back, at most one message is touched, a message that is
 gone stays gone, and only `reset` writes into an existing zframe.
 */
module OwnershipEffects {
  import opened Wrappers
  import opened Ownership
  import opened OwnershipSteps
  import opened OwnershipMoves

  ghost predicate Grows(w: World, w': World) {
    && w.freed <= w'.freed && w.sent <= w'.sent && w.data.Keys <= w'.data.Keys
    && w.messageCount <= w'.messageCount
  }

  ghost predicate Touches(w: World, w': World, touched: Option<nat>) {
    && (forall m :: m in w'.messages && m != w.messageCount ==>
                  && m in w.messages
                  && (touched != Some(m) ==> w'.messages[m] == w.messages[m])
                  && (w'.messages[m].owned ==> w.messages[m].owned))
    && (forall m :: m in w.messages && m !in w'.messages ==> touched == Some(m))
  }

  ghost predicate KeepsData(w: World, w': World) {
    forall z :: z in w.data ==> z in w'.data && w'.data[z] == w.data[z]
  }

  /** The message a call may change. */
  function Target(op: Op): Option<nat> {
    match op
    case OpPush(m, _) => Some(m)
    case OpAdd(m, _) => Some(m)
    case OpPop(m) => Some(m)
    case OpRemove(m, _) => Some(m)
    case OpPushStr(m, _) => Some(m)
    case OpAddStr(m, _) => Some(m)
    case OpPopStr(m) => Some(m)
    case OpWrap(m, _) => Some(m)
    case OpUnwrap(m) => Some(m)
    case OpDestroyMessage(m) => Some(m)
    case OpSendMessage(m, _, _, _) => Some(m)
    case OpCollectMessage(m) => Some(m)
    case _ => None
  }

  ghost predicate Effect(w: World, op: Op)
    requires Enabled(w, op)
  {
    var w' := Do(w, op).world;
    Grows(w, w') && Touches(w, w', Target(op)) && (!op.OpResetFrame? ==> KeepsData(w, w'))
  }

  /** A new frame, or a new message, changes nothing that was there. */
  lemma NewFrameEffect(w: World, bytes: Bytes)
    requires Inv(w)
    ensures var w' := NewFrame(w, bytes).world; Grows(w, w') && Touches(w, w', None) && KeepsData(w, w')
  {
    Fresh(w);
  }

  lemma NewMessageEffect(w: World, parts: seq<Bytes>)
    requires Inv(w)
    ensures var w' := NewMessage(w, parts).world; Grows(w, w') && Touches(w, w', None) && KeepsData(w, w')
  {
    Fresh(w);
  }

  lemma FrameCreationEffect(w: World, op: Op)
    requires Inv(w) && Enabled(w, op) && (op.OpNewFrame? || op.OpDupFrame? || op.OpRecvFrame?)
    ensures Effect(w, op)
  {
    match op
    case OpNewFrame(bytes) => NewFrameEffect(w, bytes);
    case OpDupFrame(f) => if Read(w, f).Return? && Read(w, f).value.Str? { NewFrameEffect(w, Read(w, f).value.s); }
    case OpRecvFrame(_, received) => if received.Some? { NewFrameEffect(w, received.value); }
  }

  lemma MessageCreationEffect(w: World, op: Op)
    requires Inv(w) && Enabled(w, op) && (op.OpNewMessage? || op.OpDupMessage? || op.OpRecvMessage?)
    ensures Effect(w, op)
  {
    match op
    case OpNewMessage => NewMessageEffect(w, []);
    case OpDupMessage(m) => if Contents(w, w.Native(m)).Some? { NewMessageEffect(w, Contents(w, w.Native(m)).value); }
    case OpRecvMessage(_, received) => if received.Some? { NewMessageEffect(w, received.value); }
  }

  lemma PushStringEffect(w: World, op: Op)
    requires Inv(w) && Enabled(w, op) && (op.OpPushStr? || op.OpAddStr?)
    ensures Effect(w, op)
  {
    Fresh(w);
  }

  lemma PopStringEffect(w: World, op: Op)
    requires Inv(w) && Enabled(w, op) && op.OpPopStr?
    ensures Effect(w, op)
  {
  }

  lemma WrapEffect(w: World, op: Op)
    requires Inv(w) && Enabled(w, op) && op.OpWrap?
    ensures Effect(w, op)
  {
    Fresh(w);
  }

  lemma UnwrapEffect(w: World, op: Op)
    requires Inv(w) && Enabled(w, op) && op.OpUnwrap?
    ensures Effect(w, op)
  {
    var m := op.m;
    if w.messages[m].owned && |w.Native(m)| >= 2 && w.Live(w.Native(m)[1]) {
      OpenTouches(w, m);
      GiveBackTouches(OpenEnvelope(w, m), w.Listed(m));
    }
  }

  lemma OpenTouches(w: World, m: nat)
    requires m in w.messages && |w.Native(m)| >= 2 && w.Native(m)[1] in w.data
    ensures var w' := OpenEnvelope(w, m);
            && w'.data == w.data && w'.messageCount == w.messageCount && w'.sent == w.sent && w.freed <= w'.freed
            && w'.messages.Keys == w.messages.Keys && w'.messages[m].owned == w.messages[m].owned
            && forall n :: n in w.messages && n != m ==> w'.messages[n] == w.messages[n]
  {
  }

  lemma GiveBackTouches(w: World, fs: seq<nat>)
    ensures var w' := GiveBack(w, fs).world;
            w'.data == w.data && w'.messageCount == w.messageCount && w'.sent == w.sent && w.freed == w'.freed
            && w'.messages == w.messages
  {
  }

  lemma HandoffEffect(w: World, op: Op)
    requires Enabled(w, op) && (op.OpSendFrame? || op.OpSendMessage?)
    ensures Effect(w, op)
  {
  }

  lemma DestroyEffect(w: World, op: Op)
    requires Enabled(w, op) && (op.OpDestroyFrame? || op.OpDestroyMessage?)
    ensures Effect(w, op)
  {
  }

  lemma CollectEffect(w: World, op: Op)
    requires Enabled(w, op) && (op.OpCollectFrame? || op.OpCollectMessage?)
    ensures Effect(w, op)
  {
  }

  lemma PushEffect(w: World, op: Op)
    requires Enabled(w, op) && (op.OpPush? || op.OpAdd?)
    ensures Effect(w, op)
  {
  }

  lemma TakeEffect(w: World, op: Op)
    requires Enabled(w, op) && (op.OpPop? || op.OpRemove?)
    ensures Effect(w, op)
  {
  }

  lemma EditEffect(w: World, op: Op)
    requires Inv(w) && Enabled(w, op)
    requires op.OpPush? || op.OpAdd? || op.OpPop? || op.OpRemove? || op.OpPushStr? || op.OpAddStr? || op.OpPopStr?
          || op.OpWrap? || op.OpUnwrap?
    ensures Effect(w, op)
  {
    match op
    case OpPopStr(_) => PopStringEffect(w, op);
    case OpPushStr(_, _) => PushStringEffect(w, op);
    case OpAddStr(_, _) => PushStringEffect(w, op);
    case OpWrap(_, _) => WrapEffect(w, op);
    case OpUnwrap(_) => UnwrapEffect(w, op);
    case OpPush(_, _) => PushEffect(w, op);
    case OpAdd(_, _) => PushEffect(w, op);
    case OpPop(_) => TakeEffect(w, op);
    case OpRemove(_, _) => TakeEffect(w, op);
  }

  lemma ReleaseEffect(w: World, op: Op)
    requires Inv(w) && Enabled(w, op)
    requires op.OpSendFrame? || op.OpSendMessage? || op.OpDestroyFrame? || op.OpDestroyMessage? || op.OpCollectFrame?
          || op.OpCollectMessage?
    ensures Effect(w, op)
  {
    match op
    case OpSendFrame(_, _, _, _) => HandoffEffect(w, op);
    case OpSendMessage(_, _, _, _) => HandoffEffect(w, op);
    case OpDestroyFrame(_) => DestroyEffect(w, op);
    case OpDestroyMessage(_) => DestroyEffect(w, op);
    case OpCollectFrame(_) => CollectEffect(w, op);
    case OpCollectMessage(_) => CollectEffect(w, op);
  }

  lemma QueryEffect(w: World, op: Op)
    requires Enabled(w, op)
    requires op.OpFrameData? || op.OpResetFrame? || op.OpFrameGone? || op.OpCompareFrames? || op.OpSize?
          || op.OpToArray? || op.OpMessageGone? || op.OpDropFrame? || op.OpDropMessage?
    ensures Effect(w, op)
  {
  }

  lemma CallEffect(w: World, op: Op)
    requires Inv(w) && Enabled(w, op)
    ensures Effect(w, op)
  {
    if op.OpNewFrame? || op.OpDupFrame? || op.OpRecvFrame? {
      FrameCreationEffect(w, op);
    } else if op.OpNewMessage? || op.OpDupMessage? || op.OpRecvMessage? {
      MessageCreationEffect(w, op);
    } else if op.OpSendFrame? || op.OpSendMessage? || op.OpDestroyFrame? || op.OpDestroyMessage? || op.OpCollectFrame?
              || op.OpCollectMessage? {
      ReleaseEffect(w, op);
    } else if op.OpFrameData? || op.OpResetFrame? || op.OpFrameGone? || op.OpCompareFrames? || op.OpSize?
              || op.OpToArray? || op.OpMessageGone? || op.OpDropFrame? || op.OpDropMessage? {
      QueryEffect(w, op);
    } else {
      EditEffect(w, op);
    }
  }
}
