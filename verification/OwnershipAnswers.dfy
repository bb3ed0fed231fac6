/**
 The rest of the effect of every call: the two lists of every message, what the program holds, and the answer. Together
 with the fates of the zframes these determine everything: `CallIsExactly`.
 */
module OwnershipAnswers {
  import opened Lists
  import opened Wrappers
  import opened Ownership
  import opened OwnershipSteps
  import opened OwnershipMoves
  import opened OwnershipDiscipline
  import opened OwnershipFates
  import Q = MessageSequence

  // ---------------------------------------------------------------------------------------------------------
  // The messages
  // ---------------------------------------------------------------------------------------------------------

  /** The zframe that a frame object points to, as a list. */
  ghost function Pointer(w: World, f: nat): seq<nat>
    requires f in w.frames
  {
    match w.frames[f].frame case Some(z) => [z] case None => []
  }

  function Both(zs: seq<nat>, fs: seq<nat>): MessageW {
    MessageW(Some(zs), Some(fs), true)
  }

  /** What the call makes of the message that it is about, when that is still owned. */
  ghost function Message(w: World, op: Op, m: nat): MessageW
    requires Enabled(w, op) && m in w.messages && w.messages[m].owned
  {
    var mw, zs, fs := w.messages[m], w.Native(m), w.Listed(m);
    match op
    case OpPush(_, f) => if w.frames[f].owned then Both(Pointer(w, f) + zs, [f] + fs) else mw
    case OpAdd(_, f) => if w.frames[f].owned then Both(zs + Pointer(w, f), fs + [f]) else mw
    case OpPushStr(_, _) => Both([w.zframeCount] + zs, [w.frameCount] + fs)
    case OpAddStr(_, _) => Both(zs + [w.zframeCount], fs + [w.frameCount])
    case OpPop(_) => if zs == [] || fs == [] then mw else Both(zs[1..], fs[1..])
    case OpPopStr(_) => if zs == [] || fs == [] then mw else Both(zs[1..], fs[1..])
    case OpRemove(_, f) => Both(if Pointer(w, f) == [] then zs else Less(zs, Pointer(w, f)[0]), Less(fs, f))
    case OpWrap(_, f) =>
      var standing := StandingOf(w, f);
      if standing.There? then Both([standing.z, w.zframeCount] + zs, [f, w.frameCount] + fs) else mw
    case OpUnwrap(_) =>
      if |zs| < 2 || |fs| < 2 then mw
      else if zs[1] in w.data && w.data[zs[1]] == [] then Both(zs[2..], fs[2..])
      else Both(zs[1..], fs[1..])
    case OpDestroyMessage(_) => MessageW(None, None, false)
    case OpSendMessage(_, open, _, _) => if open then MessageW(None, mw.frames, false) else mw
    case _ => mw
  }

  /** The message a call is about. */
  function About(op: Op): Option<nat> {
    match op
    case OpPush(m, _) => Some(m)
    case OpAdd(m, _) => Some(m)
    case OpPop(m) => Some(m)
    case OpRemove(m, _) => Some(m)
    case OpPushStr(m, _) => Some(m)
    case OpAddStr(m, _) => Some(m)
    case OpPopStr(m) => Some(m)
    case OpWrap(m, _) => Some(m)
    case OpUnwrap(m) => Some(m)
    case OpDestroyMessage(m) => Some(m)
    case OpSendMessage(m, _, _, _) => Some(m)
    case _ => None
  }

  ghost predicate ListedRight(w: World, op: Op, w': World, m: nat)
    requires Enabled(w, op) && m in w.messages
  {
    && m in w'.messages
    && w'.messages[m] == if About(op) == Some(m) && w.messages[m].owned then Message(w, op, m) else w.messages[m]
  }

  ghost predicate Listing(w: World, op: Op, w': World)
    requires Enabled(w, op)
  {
    var (adds, n) := (AddsMessage(w, op), |Created(w, op)|);
    && w'.messageCount == w.messageCount + (if adds then 1 else 0)
    && (forall m :: m in w'.messages <==>
          (m in w.messages && op != OpCollectMessage(m)) || (adds && m == w.messageCount))
    && (forall m {:trigger ListedRight(w, op, w', m)} ::
          m in w.messages && op != OpCollectMessage(m) ==> ListedRight(w, op, w', m))
    && (adds ==> w'.messages[w.messageCount] == Both(From(w.zframeCount, n), From(w.frameCount, n)))
  }

  // ---------------------------------------------------------------------------------------------------------
  // What the program holds
  // ---------------------------------------------------------------------------------------------------------

  /** The frame objects that come back to the program. */
  ghost function Returned(w: World, op: Op): set<nat>
    requires Enabled(w, op)
  {
    match op
    case OpNewFrame(_) => {w.frameCount}
    case OpRecvFrame(open, received) => if open && received.Some? then {w.frameCount} else {}
    case OpDupFrame(f) => if StandingOf(w, f).There? then {w.frameCount} else {}
    case OpPop(m) => if w.messages[m].owned then First(w.Listed(m)) else {}
    case OpUnwrap(m) => if w.messages[m].owned && |w.Native(m)| >= 2 then First(w.Listed(m)) else {}
    case OpToArray(m) => if w.messages[m].owned then (set f | f in w.Listed(m)) else {}
    case _ => {}
  }

  function First(s: seq<nat>): set<nat> {
    if s == [] then {} else {s[0]}
  }

  ghost predicate Handled(w: World, op: Op, w': World)
    requires Enabled(w, op)
  {
    && w'.heldFrames == w.heldFrames + Returned(w, op) - (if op.OpDropFrame? then {op.f} else {})
    && w'.heldMessages == w.heldMessages + (if AddsMessage(w, op) then {w.messageCount} else {})
                          - (if op.OpDropMessage? then {op.m} else {})
  }

  // ---------------------------------------------------------------------------------------------------------
  // The answer
  // ---------------------------------------------------------------------------------------------------------

  /** The sign of the comparison of two sizes. */
  function Sign(a: nat, b: nat): int {
    if a > b then 1 else if a < b then -1 else 0
  }

  /** What is answered of a frame that is there, else: an exception, or a read through the collected message. */
  function Else(standing: Standing, missing: Outcome): Outcome
    requires !standing.There?
  {
    if standing.Stranded? then Fault(UseAfterFree) else missing
  }

  ghost function FrameAnswer(w: World, op: Op): Outcome
    requires Enabled(w, op)
    requires op.OpDupFrame? || op.OpDestroyFrame? || op.OpFrameData? || op.OpResetFrame? || op.OpFrameGone?
  {
    var standing := StandingOf(w, op.f);
    match op
    case OpDupFrame(_) => if standing.There? then Return(FrameRef(w.frameCount)) else Else(standing, Raise(ZmqError))
    case OpDestroyFrame(_) => if standing.There? then Return(Nil) else Else(standing, Raise(ZmqError))
    case OpResetFrame(_, _) => if standing.There? then Return(Nil) else Else(standing, Raise(ZmqError))
    case OpFrameData(_) => if standing.There? then Return(Str(w.data[standing.z])) else Else(standing, Return(Nil))
    case OpFrameGone(_) => if standing.There? then Return(Bool(false)) else Else(standing, Return(Bool(true)))
  }

  /** The argument is never asked whether it may be read. */
  ghost function Comparison(w: World, f: nat, g: nat): Outcome
    requires f in w.frames && g in w.frames
  {
    var (standing, other) := (StandingOf(w, f), w.frames[g].frame);
    if f == g then Return(Num(0))
    else if !standing.There? then Else(standing, Raise(ZmqError))
    else if other.None? then Raise(TypeError)
    else if !w.Live(other.value) then Fault(UseAfterFree)
    else Return(Num(Sign(|w.data[standing.z]|, |w.data[other.value]|)))
  }

  /** Of a message that is still owned. */
  ghost function MessageAnswer(w: World, op: Op, m: nat): Outcome
    requires Enabled(w, op) && m in w.messages && w.messages[m].owned
  {
    var zs, fs := w.Native(m), w.Listed(m);
    match op
    case OpPush(_, f) => if w.frames[f].owned then Return(Bool(true)) else Raise(ZmqError)
    case OpAdd(_, f) => if w.frames[f].owned then Return(Bool(true)) else Raise(ZmqError)
    case OpPushStr(_, _) => Return(Bool(true))
    case OpAddStr(_, _) => Return(Bool(true))
    case OpPop(_) => if zs == [] || fs == [] then Return(Nil) else Return(FrameRef(fs[0]))
    case OpPopStr(_) =>
      if zs == [] then Return(Nil)
      else
        var text := Q.Parts(w, m)[0];
        Return(Str(text[..Q.FirstNul(text)]))
    case OpWrap(_, f) =>
      var standing := StandingOf(w, f);
      if standing.There? then Return(Nil) else Else(standing, Raise(ZmqError))
    case OpUnwrap(_) => if |zs| < 2 || fs == [] then Fault(NullPointer) else Return(FrameRef(fs[0]))
    case OpSize(_) => Return(Num(|zs|))
    case OpToArray(_) => Return(FrameRefs(fs))
    case OpMessageGone(_) => Return(Bool(false))
    case OpDupMessage(_) => Return(MessageRef(w.messageCount))
    case _ => Return(Nil)
  }

  /** Of a message that is gone. */
  function GoneAnswer(op: Op): Outcome {
    match op
    case OpSize(_) => Return(Nil)
    case OpMessageGone(_) => Return(Bool(true))
    case _ => Raise(TypeError)
  }

  ghost function SocketAnswer(w: World, op: Op): Outcome
    requires Enabled(w, op)
    requires op.OpSendFrame? || op.OpSendMessage? || op.OpRecvFrame? || op.OpRecvMessage?
  {
    if !op.open then Raise(ZmqError)
    else match op
      case OpSendFrame(f, _, _, verdict) =>
        if !w.frames[f].owned then Raise(ZmqError)
        else (match verdict
              case Accepted => Return(Bool(true))
              case TryAgain => Return(Bool(false))
              case Failed => Raise(SysError))
      case OpSendMessage(m, _, _, _) => if w.messages[m].owned then Return(Nil) else Raise(TypeError)
      case OpRecvFrame(_, received) => if received.Some? then Return(FrameRef(w.frameCount)) else Return(Nil)
      case OpRecvMessage(_, received) => if received.Some? then Return(MessageRef(w.messageCount)) else Return(Nil)
  }

  ghost function Answer(w: World, op: Op): Outcome
    requires Enabled(w, op)
  {
    match op
    case OpNewFrame(_) => Return(FrameRef(w.frameCount))
    case OpNewMessage => Return(MessageRef(w.messageCount))
    case OpDupFrame(_) => FrameAnswer(w, op)
    case OpDestroyFrame(_) => FrameAnswer(w, op)
    case OpFrameData(_) => FrameAnswer(w, op)
    case OpResetFrame(_, _) => FrameAnswer(w, op)
    case OpFrameGone(_) => FrameAnswer(w, op)
    case OpCompareFrames(f, g) => Comparison(w, f, g)
    case OpSendFrame(_, _, _, _) => SocketAnswer(w, op)
    case OpSendMessage(_, _, _, _) => SocketAnswer(w, op)
    case OpRecvFrame(_, _) => SocketAnswer(w, op)
    case OpRecvMessage(_, _) => SocketAnswer(w, op)
    case OpDropFrame(_) => Return(Nil)
    case OpDropMessage(_) => Return(Nil)
    case OpCollectFrame(_) => Return(Nil)
    case OpCollectMessage(_) => Return(Nil)
    case _ => if w.messages[op.m].owned then MessageAnswer(w, op, op.m) else GoneAnswer(op)
  }

  // ---------------------------------------------------------------------------------------------------------
  // Proofs
  // ---------------------------------------------------------------------------------------------------------

  lemma PushListed(w: World, op: Op, m: nat)
    requires Inv(w) && Enabled(w, op) && (op.OpPush? || op.OpAdd?) && m in w.messages
    ensures ListedRight(w, op, Do(w, op).world, m)
  {
    if w.frames[op.f].owned { OwningFrame(w, op.f); }
  }

  lemma StringListed(w: World, op: Op, m: nat)
    requires Inv(w) && Enabled(w, op) && (op.OpPushStr? || op.OpAddStr?) && m in w.messages
    ensures ListedRight(w, op, Do(w, op).world, m)
  {
  }

  lemma WrapListed(w: World, op: Op, m: nat)
    requires Inv(w) && Enabled(w, op) && op.OpWrap? && m in w.messages
    ensures ListedRight(w, op, Do(w, op).world, m)
  {
    Fresh(w);
    GuardIsStanding(w, op.f);
    if m == op.m && w.messages[m].owned && StandingOf(w, op.f).There? {
      var z, f := StandingOf(w, op.f).z, op.f;
      assert [z] + ([w.zframeCount] + w.Native(m)) == [z, w.zframeCount] + w.Native(m);
      assert [f] + ([w.frameCount] + w.Listed(m)) == [f, w.frameCount] + w.Listed(m);
    }
  }

  lemma TakeListed(w: World, op: Op, m: nat)
    requires Inv(w) && Enabled(w, op) && (op.OpPop? || op.OpPopStr?) && m in w.messages
    ensures ListedRight(w, op, Do(w, op).world, m)
  {
    if w.messages[op.m].owned {
      OwningMessage(w, op.m);
      if w.Native(op.m) != [] { EntryAt(w, op.m, 0); }
    }
  }

  lemma RemoveListed(w: World, op: Op, m: nat)
    requires Inv(w) && Enabled(w, op) && op.OpRemove? && m in w.messages
    ensures ListedRight(w, op, Do(w, op).world, m)
  {
    if w.messages[op.m].owned {
      OwningMessage(w, op.m);
      HeldMessage(w, op.m);
      RemoveFirstIsLess(w.Listed(op.m), op.f);
      if w.frames[op.f].frame.Some? { RemoveFirstIsLess(w.Native(op.m), w.frames[op.f].frame.value); }
    }
  }

  lemma UnwrapListed(w: World, op: Op, m: nat)
    requires Inv(w) && Enabled(w, op) && op.OpUnwrap? && m in w.messages
    ensures ListedRight(w, op, Do(w, op).world, m)
  {
    if w.messages[op.m].owned {
      OwningMessage(w, op.m);
      if |w.Native(op.m)| >= 2 {
        EntryAt(w, op.m, 0);
        EntryAt(w, op.m, 1);
        OpenListed(w, op.m, m);
      }
    }
  }

  lemma OpenListed(w: World, n: nat, m: nat)
    requires m in w.messages && w.OwnedMessage(n)
    requires |w.Native(n)| >= 2 && |w.Listed(n)| >= 2 && w.Native(n)[1] in w.data
    ensures var w' := OpenEnvelope(w, n);
            && w'.messages.Keys == w.messages.Keys && w'.frames == w.frames
            && w'.messages[m] ==
               if m != n then w.messages[m]
               else if w.data[w.Native(n)[1]] == [] then Both(w.Native(n)[2..], w.Listed(n)[2..])
               else Both(w.Native(n)[1..], w.Listed(n)[1..])
  {
    assert w.Native(n)[1..][1..] == w.Native(n)[2..] && w.Listed(n)[1..][1..] == w.Listed(n)[2..];
  }

  lemma MovingListed(w: World, op: Op, m: nat)
    requires Inv(w) && Enabled(w, op) && Moves(op) && m in w.messages
    ensures ListedRight(w, op, Do(w, op).world, m)
  {
    match op
    case OpPush(_, _) => PushListed(w, op, m);
    case OpAdd(_, _) => PushListed(w, op, m);
    case OpRemove(_, _) => RemoveListed(w, op, m);
    case OpUnwrap(_) => UnwrapListed(w, op, m);
    case _ => TakeListed(w, op, m);
  }

  lemma MovingLists(w: World, op: Op)
    requires Inv(w) && Enabled(w, op) && Moves(op)
    ensures Listing(w, op, Do(w, op).world)
  {
    KeepsMessages(w, op);
    forall m | m in w.messages ensures ListedRight(w, op, Do(w, op).world, m) { MovingListed(w, op, m); }
  }

  lemma KeepsMessages(w: World, op: Op)
    requires Inv(w) && Enabled(w, op) && Moves(op)
    ensures Do(w, op).world.messageCount == w.messageCount && Do(w, op).world.messages.Keys == w.messages.Keys
  {
    if op.OpUnwrap? && w.messages[op.m].owned {
      OwningMessage(w, op.m);
      if |w.Native(op.m)| >= 2 {
        EntryAt(w, op.m, 1);
        OpenKeepsMessages(w, op.m);
      }
    }
  }

  lemma OpenKeepsMessages(w: World, m: nat)
    requires m in w.messages && |w.Native(m)| >= 2 && w.Native(m)[1] in w.data
    ensures OpenEnvelope(w, m).messageCount == w.messageCount
    ensures OpenEnvelope(w, m).messages.Keys == w.messages.Keys
  {
  }

  lemma FramesList(w: World, op: Op)
    requires Inv(w) && Enabled(w, op) && MakesFrames(op)
    ensures Listing(w, op, Do(w, op).world)
  {
    var w' := Do(w, op).world;
    assert w'.messageCount == w.messageCount && w'.messages.Keys == w.messages.Keys;
    forall m | m in w.messages ensures ListedRight(w, op, w', m) {
      match op
      case OpPushStr(_, _) => StringListed(w, op, m);
      case OpAddStr(_, _) => StringListed(w, op, m);
      case OpWrap(_, _) => WrapListed(w, op, m);
      case _ =>
    }
  }

  lemma NewMessageLists(w: World, op: Op)
    requires Inv(w) && Enabled(w, op) && MakesMessage(op)
    ensures Listing(w, op, Do(w, op).world)
  {
    Fresh(w);
    MakesOfParts(w, op);
    var w' := Do(w, op).world;
    forall m | m in w.messages ensures ListedRight(w, op, w', m) {}
  }

  lemma ReleasingLists(w: World, op: Op)
    requires Inv(w) && Enabled(w, op) && Releases(op)
    ensures Listing(w, op, Do(w, op).world)
  {
    var w' := Do(w, op).world;
    forall m | m in w.messages && op != OpCollectMessage(m) ensures ListedRight(w, op, w', m) {}
  }

  lemma AskingLists(w: World, op: Op)
    requires Inv(w) && Enabled(w, op) && Asks(op)
    ensures Listing(w, op, Do(w, op).world)
  {
    var w' := Do(w, op).world;
    assert w'.messages == w.messages && w'.messageCount == w.messageCount;
    forall m | m in w.messages ensures ListedRight(w, op, w', m) {}
  }

  /** After a call every message has exactly these two lists, and no other message is there. */
  lemma ListsExactly(w: World, op: Op)
    requires Inv(w) && Enabled(w, op)
    ensures Listing(w, op, Do(w, op).world)
  {
    if MakesFrames(op) {
      FramesList(w, op);
    } else if MakesMessage(op) {
      NewMessageLists(w, op);
    } else if Moves(op) {
      MovingLists(w, op);
    } else if Releases(op) {
      ReleasingLists(w, op);
    } else {
      AskingLists(w, op);
    }
  }

  lemma TakingHandles(w: World, op: Op)
    requires Inv(w) && Enabled(w, op) && (op.OpPop? || op.OpUnwrap?)
    ensures Handled(w, op, Do(w, op).world) && Do(w, op).outcome == Answer(w, op)
  {
    if w.messages[op.m].owned {
      OwningMessage(w, op.m);
      if w.Native(op.m) != [] {
        EntryAt(w, op.m, 0);
        if op.OpUnwrap? && |w.Native(op.m)| >= 2 {
          EntryAt(w, op.m, 1);
          OpenHandles(w, op.m);
        }
      }
    }
  }

  lemma OpenHandles(w: World, m: nat)
    requires m in w.messages && |w.Native(m)| >= 2 && w.Native(m)[1] in w.data
    ensures OpenEnvelope(w, m).heldFrames == w.heldFrames && OpenEnvelope(w, m).frames == w.frames
    ensures OpenEnvelope(w, m).heldMessages == w.heldMessages
  {
  }

  lemma PopStringAnswers(w: World, op: Op)
    requires Inv(w) && Enabled(w, op) && op.OpPopStr?
    ensures Handled(w, op, Do(w, op).world) && Do(w, op).outcome == Answer(w, op)
  {
    if w.messages[op.m].owned && w.Native(op.m) != [] {
      EntryAt(w, op.m, 0);
      Q.CStringEndsAtNul(Q.Parts(w, op.m)[0]);
    }
  }

  lemma MovingAnswers(w: World, op: Op)
    requires Inv(w) && Enabled(w, op) && Moves(op)
    ensures Handled(w, op, Do(w, op).world) && Do(w, op).outcome == Answer(w, op)
  {
    match op
    case OpPop(_) => TakingHandles(w, op);
    case OpUnwrap(_) => TakingHandles(w, op);
    case OpPopStr(_) => PopStringAnswers(w, op);
    case OpRemove(_, _) =>
    case OpPush(_, f) => if w.frames[f].owned { OwningFrame(w, f); }
    case OpAdd(_, f) => if w.frames[f].owned { OwningFrame(w, f); }
  }

  lemma FramesAnswer(w: World, op: Op)
    requires Inv(w) && Enabled(w, op) && MakesFrames(op)
    ensures Handled(w, op, Do(w, op).world) && Do(w, op).outcome == Answer(w, op)
  {
    if op.OpDupFrame? || op.OpWrap? { GuardIsStanding(w, op.f); }
  }

  lemma NewMessageAnswers(w: World, op: Op)
    requires Inv(w) && Enabled(w, op) && MakesMessage(op)
    ensures Handled(w, op, Do(w, op).world) && Do(w, op).outcome == Answer(w, op)
  {
    MakesOfParts(w, op);
  }

  lemma SendingAnswers(w: World, op: Op)
    requires Inv(w) && Enabled(w, op) && (op.OpSendFrame? || op.OpSendMessage?)
    ensures Handled(w, op, Do(w, op).world) && Do(w, op).outcome == Answer(w, op)
  {
    if op.OpSendFrame? { GuardIsStanding(w, op.f); }
  }

  lemma DestroyingAnswers(w: World, op: Op)
    requires Inv(w) && Enabled(w, op) && (op.OpDestroyFrame? || op.OpDestroyMessage?)
    ensures Handled(w, op, Do(w, op).world) && Do(w, op).outcome == Answer(w, op)
  {
    if op.OpDestroyFrame? { GuardIsStanding(w, op.f); }
  }

  lemma CollectingAnswers(w: World, op: Op)
    requires Inv(w) && Enabled(w, op) && (op.OpCollectFrame? || op.OpCollectMessage?)
    ensures Handled(w, op, Do(w, op).world) && Do(w, op).outcome == Answer(w, op)
  {
  }

  lemma ReleasingAnswers(w: World, op: Op)
    requires Inv(w) && Enabled(w, op) && Releases(op)
    ensures Handled(w, op, Do(w, op).world) && Do(w, op).outcome == Answer(w, op)
  {
    if op.OpSendFrame? || op.OpSendMessage? {
      SendingAnswers(w, op);
    } else if op.OpDestroyFrame? || op.OpDestroyMessage? {
      DestroyingAnswers(w, op);
    } else {
      CollectingAnswers(w, op);
    }
  }

  lemma AskingAnswers(w: World, op: Op)
    requires Inv(w) && Enabled(w, op) && Asks(op)
    ensures Handled(w, op, Do(w, op).world) && Do(w, op).outcome == Answer(w, op)
  {
    match op
    case OpCompareFrames(f, g) => GuardIsStanding(w, f);
    case OpFrameData(f) => GuardIsStanding(w, f);
    case OpResetFrame(f, _) => GuardIsStanding(w, f);
    case OpFrameGone(f) => GuardIsStanding(w, f);
    case _ =>
  }

  /** What the program then holds, and what it is answered. */
  lemma AnswersExactly(w: World, op: Op)
    requires Inv(w) && Enabled(w, op)
    ensures Handled(w, op, Do(w, op).world) && Do(w, op).outcome == Answer(w, op)
  {
    if MakesFrames(op) {
      FramesAnswer(w, op);
    } else if MakesMessage(op) {
      NewMessageAnswers(w, op);
    } else if Moves(op) {
      MovingAnswers(w, op);
    } else if Releases(op) {
      ReleasingAnswers(w, op);
    } else {
      AskingAnswers(w, op);
    }
  }

  // ---------------------------------------------------------------------------------------------------------
  // Everything
  // ---------------------------------------------------------------------------------------------------------

  /** World `w'` and this outcome are what the call should come to. */
  ghost predicate ComesTo(w: World, op: Op, w': World, outcome: Outcome)
    requires Enabled(w, op)
  {
    && (forall z: nat {:trigger Released(w, op, w', z)} :: Released(w, op, w', z))
    && Written(w, op, w') && Wrapped(w, op, w') && Listing(w, op, w') && Handled(w, op, w')
    && outcome == Answer(w, op)
  }

  lemma WrittenOnce(w: World, op: Op, a: World, b: World)
    requires Inv(w) && Enabled(w, op) && Written(w, op, a) && Written(w, op, b)
    ensures a.data == b.data && a.zframeCount == b.zframeCount
  {
    Fresh(w);
    forall z | z in a.data ensures z in b.data && b.data[z] == a.data[z] {
      if z !in w.data {
        var i: nat := z - w.zframeCount;
        assert Created(w, op)[i] == a.data[w.zframeCount + i];
      }
    }
    forall z | z in b.data ensures z in a.data {}
    assert a.data.Keys == b.data.Keys;
  }

  lemma WrappedOnce(w: World, op: Op, a: World, b: World)
    requires Inv(w) && Enabled(w, op) && Wrapped(w, op, a) && Wrapped(w, op, b)
    ensures a.frames == b.frames && a.frameCount == b.frameCount
  {
    var joined := Joined(w, op);
    forall f | f in a.frames ensures f in b.frames && b.frames[f] == a.frames[f] {
      if !(f in w.frames && op != OpCollectFrame(f)) {
        var i: nat := f - w.frameCount;
        assert NewWrapper(w, a, i, joined) && NewWrapper(w, b, i, joined);
      }
    }
    assert a.frames.Keys == b.frames.Keys;
  }

  lemma ListedOnce(w: World, op: Op, a: World, b: World)
    requires Inv(w) && Enabled(w, op) && Listing(w, op, a) && Listing(w, op, b)
    ensures a.messages == b.messages && a.messageCount == b.messageCount
  {
    forall m | m in a.messages ensures m in b.messages && b.messages[m] == a.messages[m] {
      if m in w.messages && op != OpCollectMessage(m) {
        assert ListedRight(w, op, a, m) && ListedRight(w, op, b, m);
      }
    }
    assert a.messages.Keys == b.messages.Keys;
  }

  lemma ReleasedOnce(w: World, op: Op, a: World, b: World)
    requires forall z: nat {:trigger Released(w, op, a, z)} :: Released(w, op, a, z)
    requires forall z: nat {:trigger Released(w, op, b, z)} :: Released(w, op, b, z)
    ensures a.freed == b.freed && a.sent == b.sent
  {
    forall z: nat ensures a.freed[z] == b.freed[z] && a.sent[z] == b.sent[z] {
      assert Released(w, op, a, z) && Released(w, op, b, z);
    }
  }

  /** The fates and the answer determine the world: from a good world a call comes to one world and one outcome, and
      these are the ones that the step has. */
  lemma CallIsExactly(w: World, op: Op, w': World, outcome: Outcome)
    requires Inv(w) && Enabled(w, op)
    ensures ComesTo(w, op, w', outcome) <==> Do(w, op) == Step(w', outcome)
  {
    var d := Do(w, op).world;
    forall z: nat ensures Released(w, op, d, z) { ReleasesExactly(w, op, z); }
    WritesExactly(w, op);
    WrapsExactly(w, op);
    ListsExactly(w, op);
    AnswersExactly(w, op);
    assert ComesTo(w, op, d, Do(w, op).outcome);
    if ComesTo(w, op, w', outcome) { SameWorld(w, op, w', d, outcome); }
  }

  lemma SameWorld(w: World, op: Op, a: World, b: World, outcome: Outcome)
    requires Inv(w) && Enabled(w, op) && ComesTo(w, op, a, outcome) && ComesTo(w, op, b, outcome)
    ensures a == b
  {
    ReleasedOnce(w, op, a, b);
    WrittenOnce(w, op, a, b);
    WrappedOnce(w, op, a, b);
    ListedOnce(w, op, a, b);
  }
}
