/**
 What an undisciplined call leads to, said without the invariant: a read through a bad pointer or a second release
 within two further calls that are in order themselves, or a zframe that no orderly run ever releases again.
 */
module OwnershipHarm {
  import opened Lists
  import opened Wrappers
  import opened Ownership
  import opened OwnershipSteps
  import opened OwnershipMoves
  import opened OwnershipDiscipline
  import opened OwnershipEffects
  import opened OwnershipRuns

  /** No call of the run reads through a bad pointer. */
  ghost predicate Clean(w: World, ops: seq<Op>)
    requires GoodRun(w, ops)
    decreases |ops|
  {
    ops != [] ==> !Do(w, ops[0]).outcome.Fault? && Clean(Do(w, ops[0]).world, ops[1..])
  }

  ghost predicate ReleasedTwice(w: World) {
    exists z: nat :: w.freed[z] + w.sent[z] > 1
  }

  /** The zframe stays as it is whatever disciplined calls are still to come. */
  ghost predicate Lost(w: World, z: nat) {
    w.Live(z) && forall ops :: GoodRun(w, ops) ==> Run(w, ops).Live(z)
  }

  /** From here on disciplined calls read no bad pointer and release nothing twice, and whatever is live can still be
      released. */
  ghost predicate Harmless(w: World) {
    && (forall ops :: GoodRun(w, ops) ==> Clean(w, ops) && !ReleasedTwice(Run(w, ops)))
    && (forall z: nat :: !Lost(w, z))
  }

  lemma GoodFirst(w: World, op: Op, rest: seq<Op>)
    requires Enabled(w, op) && Disciplined(w, op) && GoodRun(Do(w, op).world, rest)
    ensures GoodRun(w, [op] + rest) && Run(w, [op] + rest) == Run(Do(w, op).world, rest)
    ensures Clean(w, [op] + rest) <==> !Do(w, op).outcome.Fault? && Clean(Do(w, op).world, rest)
  {
    assert ([op] + rest)[1..] == rest;
  }

  lemma GoodOne(w: World, op: Op)
    requires Enabled(w, op) && Disciplined(w, op)
    ensures GoodRun(w, [op]) && Run(w, [op]) == Do(w, op).world
    ensures Clean(w, [op]) <==> !Do(w, op).outcome.Fault?
  {
    GoodFirst(w, op, []);
    assert [op] + [] == [op];
  }

  // ---------------------------------------------------------------------------------------------------------
  // The invariant keeps harm away
  // ---------------------------------------------------------------------------------------------------------

  lemma {:induction false} GoodIsClean(w: World, ops: seq<Op>)
    requires Inv(w) && GoodRun(w, ops)
    ensures Clean(w, ops)
    decreases |ops|
  {
    if ops != [] {
      DisciplineSuffices(w, ops[0]);
      GoodIsClean(Do(w, ops[0]).world, ops[1..]);
    }
  }

  /** How the zframes of a message are let go: the program destroys it, or the collector takes it. */
  function LetGo(w: World, m: nat): Op {
    if m in w.heldMessages then OpDestroyMessage(m) else OpCollectMessage(m)
  }

  lemma LetGoFrees(w: World, m: nat)
    requires w.OwnedMessage(m)
    ensures Enabled(w, LetGo(w, m)) && Disciplined(w, LetGo(w, m))
    ensures var w' := Do(w, LetGo(w, m)).world;
            && w'.freed == w.freed + multiset(w.Native(m)) && w'.sent == w.sent && w'.heldMessages == w.heldMessages
            && forall n :: n != m && w.OwnedMessage(n) ==> w'.OwnedMessage(n) && w'.Native(n) == w.Native(n)
  {
  }

  /** In a good world everything live can be released: by its owner, if need be after the program has let go of the
      messages that still list the owning frame. */
  lemma {:induction false} CanBeReleased(w: World, z: nat) returns (ops: seq<Op>)
    requires Inv(w) && w.Live(z)
    ensures GoodRun(w, ops) && !Run(w, ops).Live(z)
    decreases |w.heldMessages|
  {
    HasOwner(w, z);
    if m :| w.MessageOwns(m, z) {
      LetGoFrees(w, m);
      GoodOne(w, LetGo(w, m));
      return [LetGo(w, m)];
    }
    var f :| w.FrameOwns(f, z);
    if f in w.heldFrames {
      GoodOne(w, OpDestroyFrame(f));
      return [OpDestroyFrame(f)];
    }
    if !w.Reachable(f) {
      GoodOne(w, OpCollectFrame(f));
      return [OpCollectFrame(f)];
    }
    var m :| m in w.heldMessages && m in w.messages && f in w.Listed(m);
    DisciplineSuffices(w, OpDropMessage(m));
    var rest := CanBeReleased(Do(w, OpDropMessage(m)).world, z);
    GoodFirst(w, OpDropMessage(m), rest);
    return [OpDropMessage(m)] + rest;
  }

  lemma InvIsHarmless(w: World)
    requires Inv(w)
    ensures Harmless(w)
  {
    forall ops | GoodRun(w, ops) ensures Clean(w, ops) && !ReleasedTwice(Run(w, ops)) {
      GoodIsClean(w, ops);
      ReleasedOnce(w, ops);
    }
    forall z: nat ensures !Lost(w, z) {
      if w.Live(z) { var ops := CanBeReleased(w, z); }
    }
  }

  // ---------------------------------------------------------------------------------------------------------
  // Bad reads and second releases
  // ---------------------------------------------------------------------------------------------------------

  /** The guard lets a read through, and the read goes wrong. */
  lemma BadRead(w: World, f: nat)
    requires HasFrame(w, f) && FrameGuard(w, f) == Pass && Read(w, f).Fault?
    ensures GoodRun(w, [OpFrameData(f)]) && !Clean(w, [OpFrameData(f)])
  {
    GoodOne(w, OpFrameData(f));
  }

  lemma DestroyAttachedHarms(w: World, f: nat)
    requires Inv(w) && HasFrame(w, f) && !w.frames[f].owned && FrameGuard(w, f) == Pass
    ensures var w' := DestroyFrame(w, f).world; GoodRun(w', [OpFrameData(f)]) && !Clean(w', [OpFrameData(f)])
  {
    BadRead(DestroyFrame(w, f).world, f);
  }

  /** Letting go of both messages that hold a zframe, or of the one that holds it twice, frees it twice. */
  lemma WrapAttachedHarms(w: World, m: nat, f: nat) returns (ops: seq<Op>)
    requires Inv(w) && HasMessage(w, m) && HasFrame(w, f) && w.messages[m].owned
    requires !w.frames[f].owned && FrameGuard(w, f) == Pass
    ensures |ops| <= 2 && GoodRun(Wrap(w, m, f).world, ops) && ReleasedTwice(Run(Wrap(w, m, f).world, ops))
  {
    var w' := Wrap(w, m, f).world;
    var n, i := Position(w, f);
    var z := w.Native(n)[i];
    Fresh(w);
    assert w'.Native(m) == [z] + ([w.zframeCount] + w.Native(m));
    LetGoFrees(w', m);
    var w1 := Do(w', LetGo(w', m)).world;
    if n == m {
      GoodOne(w', LetGo(w', m));
      TwiceIn(w'.Native(m), z, 0, i + 2);
      assert w1.freed[z] > 1;
      ops := [LetGo(w', m)];
    } else {
      assert w'.Native(n) == w.Native(n) && w'.OwnedMessage(n);
      LetGoFrees(w1, n);
      GoodOne(w1, LetGo(w1, n));
      GoodFirst(w', LetGo(w', m), [LetGo(w1, n)]);
      assert z in multiset(w'.Native(m)) && z in multiset(w.Native(n));
      ops := [LetGo(w', m)] + [LetGo(w1, n)];
      assert Run(w', ops).freed[z] > 1;
    }
  }

  lemma TwiceIn(s: seq<nat>, z: nat, i: nat, j: nat)
    requires i < j < |s| && s[i] == z && s[j] == z
    ensures multiset(s)[z] >= 2
  {
    assert s == s[..j] + ([z] + s[j + 1..]);
    assert s[..j][i] == z && z in multiset(s[..j]);
  }

  /** The frame now owns a NULL or a released zframe, or one that its message goes on to own. */
  lemma RemoveStrangerHarms(w: World, m: nat, f: nat) returns (ops: seq<Op>)
    requires Inv(w) && HasMessage(w, m) && HasFrame(w, f) && w.messages[m].owned
    requires !w.frames[f].owned && w.frames[f].message != Some(m)
    ensures |ops| <= 2 && GoodRun(Remove(w, m, f).world, ops)
    ensures !Clean(Remove(w, m, f).world, ops) || ReleasedTwice(Run(Remove(w, m, f).world, ops))
  {
    var w' := Remove(w, m, f).world;
    if w.frames[f].frame.None? || !w.Live(w.frames[f].frame.value) {
      BadRead(w', f);
      return [OpFrameData(f)];
    }
    AccessibleIsLive(w, f);
    var n, i := Position(w, f);
    var z := w.Native(n)[i];
    assert w'.Native(n) == w.Native(n) && w'.OwnedMessage(n);
    var w1 := Do(w', OpDestroyFrame(f)).world;
    assert w1.Native(n) == w.Native(n) && w1.OwnedMessage(n) && w1.freed == w.freed + multiset{z};
    LetGoFrees(w1, n);
    GoodOne(w1, LetGo(w1, n));
    GoodFirst(w', OpDestroyFrame(f), [LetGo(w1, n)]);
    ops := [OpDestroyFrame(f)] + [LetGo(w1, n)];
    assert z in multiset(w.Native(n));
    assert Run(w', ops).freed[z] > 1;
  }

  /** The frame object that popstr or unwrap drops is held: it passes the guard and points to what was freed. */
  lemma DroppedHeldHarms(w: World, op: Op, f: nat)
    requires Inv(w) && Enabled(w, op) && !Disciplined(w, op) && (op.OpPopStr? || op.OpUnwrap?)
    requires op.OpUnwrap? ==> |w.Native(op.m)| >= 2
    requires |w.Native(op.m)| == |w.Listed(op.m)| > 0
    requires f == w.Listed(op.m)[if op.OpPopStr? || |w.Listed(op.m)| < 2 then 0 else 1]
    ensures var w' := Do(w, op).world; GoodRun(w', [OpFrameData(f)]) && !Clean(w', [OpFrameData(f)])
  {
    var m, i := op.m, if op.OpPopStr? then 0 else 1;
    EntryAt(w, m, i);
    EntryAt(w, m, 0);
    OwningMessage(w, m);
    HeldMessage(w, m);
    var w' := Do(w, op).world;
    assert w.Native(m)[i] != w.Native(m)[0] || i == 0;
    assert w'.freed == w.freed + multiset{w.Native(m)[i]};
    BadRead(w', f);
  }

  // ---------------------------------------------------------------------------------------------------------
  // What a partial send leaves behind
  // ---------------------------------------------------------------------------------------------------------

  /** The same world, but for zframes that the one counts as sent and the other as live. */
  ghost predicate Shadows(w: World, v: World, lost: multiset<nat>) {
    v == w.(sent := w.sent + lost)
  }

  lemma {:induction false} ContentsShadow(w: World, v: World, lost: multiset<nat>, zs: seq<nat>)
    requires Shadows(w, v, lost) && Contents(v, zs).Some?
    ensures Contents(w, zs) == Contents(v, zs)
  {
    if zs != [] { ContentsShadow(w, v, lost, zs[1..]); }
  }

  lemma SameChoices(w: World, v: World, lost: multiset<nat>, op: Op)
    requires Shadows(w, v, lost)
    ensures Enabled(w, op) <==> Enabled(v, op)
    ensures Enabled(w, op) ==> (Disciplined(w, op) <==> Disciplined(v, op))
  {
  }

  lemma ReadShadow(w: World, v: World, lost: multiset<nat>, f: nat)
    requires Shadows(w, v, lost) && f in w.frames && !Read(v, f).Fault?
    ensures Read(w, f) == Read(v, f)
  {
  }

  lemma NewFrameShadow(w: World, v: World, lost: multiset<nat>, bytes: Bytes)
    requires Shadows(w, v, lost)
    ensures Shadows(NewFrame(w, bytes).world, NewFrame(v, bytes).world, lost)
  {
  }

  lemma ReleaseShadow(w: World, v: World, lost: multiset<nat>, op: Op)
    requires Shadows(w, v, lost) && Enabled(w, op) && Enabled(v, op) && !Do(v, op).outcome.Fault?
    requires op.OpDestroyFrame? || op.OpDropFrame? || op.OpCollectFrame?
    ensures Shadows(Do(w, op).world, Do(v, op).world, lost)
  {
  }

  lemma SendFrameShadow(w: World, v: World, lost: multiset<nat>, f: nat, open: bool, reuse: bool, verdict: Verdict)
    requires Shadows(w, v, lost) && f in w.frames && !SendFrame(v, f, open, reuse, verdict).outcome.Fault?
    ensures Shadows(SendFrame(w, f, open, reuse, verdict).world, SendFrame(v, f, open, reuse, verdict).world, lost)
  {
    if w.frames[f].owned && open { ReadShadow(w, v, lost, f); }
  }

  lemma FrameShadow(w: World, v: World, lost: multiset<nat>, op: Op)
    requires Shadows(w, v, lost) && Enabled(w, op) && Enabled(v, op) && !Do(v, op).outcome.Fault?
    requires op.OpNewFrame? || op.OpDupFrame? || op.OpFrameData? || op.OpResetFrame?
          || op.OpFrameGone? || op.OpCompareFrames? || op.OpRecvFrame?
    ensures Shadows(Do(w, op).world, Do(v, op).world, lost)
  {
    match op
    case OpNewFrame(bytes) => NewFrameShadow(w, v, lost, bytes);
    case OpRecvFrame(_, received) => if received.Some? { NewFrameShadow(w, v, lost, received.value); }
    case OpDupFrame(f) =>
      if FrameGuard(v, f) == Pass {
        ReadShadow(w, v, lost, f);
        NewFrameShadow(w, v, lost, Read(v, f).value.s);
      }
    case OpResetFrame(f, _) => if FrameGuard(v, f) == Pass { ReadShadow(w, v, lost, f); }
    case _ =>
  }

  lemma NewMessageShadow(w: World, v: World, lost: multiset<nat>, parts: seq<Bytes>)
    requires Shadows(w, v, lost)
    ensures Shadows(NewMessage(w, parts).world, NewMessage(v, parts).world, lost)
  {
  }

  lemma CopyShadow(w: World, v: World, lost: multiset<nat>, op: Op)
    requires Shadows(w, v, lost) && Enabled(w, op) && Enabled(v, op) && !Do(v, op).outcome.Fault?
    requires op.OpNewMessage? || op.OpDupMessage? || op.OpRecvMessage?
    ensures Shadows(Do(w, op).world, Do(v, op).world, lost)
  {
    match op
    case OpNewMessage => NewMessageShadow(w, v, lost, []);
    case OpRecvMessage(_, received) => if received.Some? { NewMessageShadow(w, v, lost, received.value); }
    case OpDupMessage(m) =>
      if w.messages[m].owned {
        ContentsShadow(w, v, lost, w.Native(m));
        NewMessageShadow(w, v, lost, Contents(v, w.Native(m)).value);
      }
  }

  lemma SendMessageShadow(w: World, v: World, lost: multiset<nat>, m: nat, open: bool, taken: nat, left: nat)
    requires Shadows(w, v, lost) && m in w.messages
    ensures Shadows(SendMessage(w, m, open, taken, left).world, SendMessage(v, m, open, taken, left).world, lost)
  {
  }

  lemma FreeMessageShadow(w: World, v: World, lost: multiset<nat>, m: nat)
    requires Shadows(w, v, lost) && m in w.messages
    ensures Shadows(FreeMessage(w, m), FreeMessage(v, m), lost)
    ensures Shadows(FinalizeMessage(w, m), FinalizeMessage(v, m), lost)
  {
  }

  lemma MessageShadow(w: World, v: World, lost: multiset<nat>, op: Op)
    requires Shadows(w, v, lost) && Enabled(w, op) && Enabled(v, op) && !Do(v, op).outcome.Fault?
    requires op.OpDestroyMessage? || op.OpSize? || op.OpToArray? || op.OpMessageGone? || op.OpSendMessage?
          || op.OpDropMessage? || op.OpCollectMessage?
    ensures Shadows(Do(w, op).world, Do(v, op).world, lost)
  {
    match op
    case OpSendMessage(m, open, taken, left) => SendMessageShadow(w, v, lost, m, open, taken, left);
    case OpDestroyMessage(m) => FreeMessageShadow(w, v, lost, m);
    case OpCollectMessage(m) => FreeMessageShadow(w, v, lost, m);
    case _ =>
  }

  lemma AttachShadow(w: World, v: World, lost: multiset<nat>, m: nat, f: nat, front: bool)
    requires Shadows(w, v, lost) && m in w.messages && f in w.frames && w.frames[f].frame.Some?
    ensures Shadows(Attach(w, m, f, front), Attach(v, m, f, front), lost)
  {
  }

  lemma PushShadow(w: World, v: World, lost: multiset<nat>, m: nat, f: nat, front: bool)
    requires Shadows(w, v, lost) && m in w.messages && f in w.frames
    ensures Shadows(Push(w, m, f, front).world, Push(v, m, f, front).world, lost)
  {
    if w.frames[f].frame.Some? { AttachShadow(w, v, lost, m, f, front); }
  }

  lemma PushStringShadow(w: World, v: World, lost: multiset<nat>, m: nat, bytes: Bytes, front: bool)
    requires Shadows(w, v, lost) && m in w.messages
    ensures Shadows(PushString(w, m, bytes, front).world, PushString(v, m, bytes, front).world, lost)
  {
    if w.messages[m].owned { AttachShadow(AllocFrame(w, bytes), AllocFrame(v, bytes), lost, m, w.frameCount, front); }
  }

  lemma WrapShadow(w: World, v: World, lost: multiset<nat>, m: nat, f: nat)
    requires Shadows(w, v, lost) && m in w.messages && f in w.frames
    ensures Shadows(Wrap(w, m, f).world, Wrap(v, m, f).world, lost)
  {
    if w.frames[f].frame.Some? {
      var a, b := AllocFrame(w, []), AllocFrame(v, []);
      AttachShadow(a, b, lost, m, w.frameCount, true);
      AttachShadow(Attach(a, m, w.frameCount, true), Attach(b, m, w.frameCount, true), lost, m, f, true);
    }
  }

  lemma GiveBackShadow(w: World, v: World, lost: multiset<nat>, fs: seq<nat>)
    requires Shadows(w, v, lost)
    ensures Shadows(GiveBack(w, fs).world, GiveBack(v, fs).world, lost)
  {
  }

  lemma PopShadow(w: World, v: World, lost: multiset<nat>, m: nat)
    requires Shadows(w, v, lost) && m in w.messages
    ensures Shadows(Pop(w, m).world, Pop(v, m).world, lost)
  {
    var zs, fs := Tail(w.Native(m)), Tail(w.Listed(m));
    GiveBackShadow(SetLists(w, m, zs, fs), SetLists(v, m, zs, fs), lost, w.Listed(m));
  }

  lemma RemoveShadow(w: World, v: World, lost: multiset<nat>, m: nat, f: nat)
    requires Shadows(w, v, lost) && m in w.messages && f in w.frames
    ensures Shadows(Remove(w, m, f).world, Remove(v, m, f).world, lost)
  {
  }

  lemma PopStringShadow(w: World, v: World, lost: multiset<nat>, m: nat)
    requires Shadows(w, v, lost) && m in w.messages && !PopString(v, m).outcome.Fault?
    ensures Shadows(PopString(w, m).world, PopString(v, m).world, lost)
  {
  }

  lemma UnwrapShadow(w: World, v: World, lost: multiset<nat>, m: nat)
    requires Shadows(w, v, lost) && m in w.messages && !Unwrap(v, m).outcome.Fault?
    ensures Shadows(Unwrap(w, m).world, Unwrap(v, m).world, lost)
  {
    if w.messages[m].owned {
      OpenShadow(w, v, lost, m);
      GiveBackShadow(OpenEnvelope(w, m), OpenEnvelope(v, m), lost, w.Listed(m));
    }
  }

  lemma OpenShadow(w: World, v: World, lost: multiset<nat>, m: nat)
    requires Shadows(w, v, lost) && m in w.messages && |w.Native(m)| >= 2 && w.Native(m)[1] in w.data
    ensures Shadows(OpenEnvelope(w, m), OpenEnvelope(v, m), lost)
  {
  }

  lemma EditShadow(w: World, v: World, lost: multiset<nat>, op: Op)
    requires Shadows(w, v, lost) && Enabled(w, op) && Enabled(v, op) && !Do(v, op).outcome.Fault?
    requires op.OpPush? || op.OpAdd? || op.OpPop? || op.OpRemove? || op.OpPushStr? || op.OpAddStr? || op.OpPopStr?
          || op.OpWrap? || op.OpUnwrap?
    ensures Shadows(Do(w, op).world, Do(v, op).world, lost)
  {
    match op
    case OpPush(m, f) => PushShadow(w, v, lost, m, f, true);
    case OpAdd(m, f) => PushShadow(w, v, lost, m, f, false);
    case OpPushStr(m, bytes) => PushStringShadow(w, v, lost, m, bytes, true);
    case OpAddStr(m, bytes) => PushStringShadow(w, v, lost, m, bytes, false);
    case OpPop(m) => PopShadow(w, v, lost, m);
    case OpRemove(m, f) => RemoveShadow(w, v, lost, m, f);
    case OpPopStr(m) => PopStringShadow(w, v, lost, m);
    case OpWrap(m, f) => WrapShadow(w, v, lost, m, f);
    case OpUnwrap(m) => UnwrapShadow(w, v, lost, m);
  }

  lemma StepShadow(w: World, v: World, lost: multiset<nat>, op: Op)
    requires Shadows(w, v, lost) && Enabled(w, op) && Enabled(v, op) && !Do(v, op).outcome.Fault?
    ensures Shadows(Do(w, op).world, Do(v, op).world, lost)
  {
    if op.OpNewFrame? || op.OpDupFrame? || op.OpFrameData? || op.OpResetFrame? || op.OpFrameGone? || op.OpCompareFrames?
       || op.OpRecvFrame? {
      FrameShadow(w, v, lost, op);
    } else if op.OpDestroyFrame? || op.OpDropFrame? || op.OpCollectFrame? {
      ReleaseShadow(w, v, lost, op);
    } else if op.OpSendFrame? {
      SendFrameShadow(w, v, lost, op.f, op.open, op.reuse, op.verdict);
    } else if op.OpPush? || op.OpAdd? || op.OpPop? || op.OpRemove? || op.OpPushStr? || op.OpAddStr? || op.OpPopStr?
              || op.OpWrap? || op.OpUnwrap? {
      EditShadow(w, v, lost, op);
    } else if op.OpNewMessage? || op.OpDupMessage? || op.OpRecvMessage? {
      CopyShadow(w, v, lost, op);
    } else {
      MessageShadow(w, v, lost, op);
    }
  }

  lemma {:induction false} RunShadow(w: World, v: World, lost: multiset<nat>, ops: seq<Op>)
    requires Inv(v) && Shadows(w, v, lost) && GoodRun(w, ops)
    ensures GoodRun(v, ops) && Shadows(Run(w, ops), Run(v, ops), lost)
    decreases |ops|
  {
    if ops != [] {
      SameChoices(w, v, lost, ops[0]);
      DisciplineSuffices(v, ops[0]);
      StepShadow(w, v, lost, ops[0]);
      RunShadow(Do(w, ops[0]).world, Do(v, ops[0]).world, lost, ops[1..]);
    }
  }

  lemma NotReleased(w: World, m: nat, taken: nat, l: nat)
    requires Inv(w) && w.OwnedMessage(m) && taken < l <= |w.Native(m)|
    ensures Release(w, m, w.Native(m)[..taken], w.Native(m)[l..]).Live(w.Native(m)[taken])
  {
    OwningMessage(w, m);
    var zs, z := w.Native(m), w.Native(m)[taken];
    assert z in zs && z !in zs[..taken];
    forall i | 0 <= i < |zs[l..]| ensures zs[l..][i] != z { assert zs[l..][i] == zs[l + i]; }
    assert multiset(zs[..taken])[z] == 0 && z !in zs[l..] && multiset(zs[l..])[z] == 0;
  }

  /** The world after the send is the world after a send that took what this one left. */
  lemma ShadowOfSend(w: World, m: nat, taken: nat, l: nat)
    requires Inv(w) && w.OwnedMessage(m) && taken <= l <= |w.Native(m)|
    ensures var zs := w.Native(m);
            Shadows(Release(w, m, zs[..taken], zs[l..]), Release(w, m, zs[..l], zs[l..]), multiset(zs[taken..l]))
  {
    assert w.Native(m)[..l] == w.Native(m)[..taken] + w.Native(m)[taken..l];
  }

  /** Disciplined runs from two such worlds go the same way; what counts as sent in the one stays live in the other. */
  lemma ShadowStaysLive(w: World, v: World, lost: multiset<nat>, z: nat, ops: seq<Op>)
    requires Inv(v) && Shadows(w, v, lost) && w.Live(z) && z in lost && GoodRun(w, ops)
    ensures Run(w, ops).Live(z)
  {
    RunShadow(w, v, lost, ops);
    ReleasedOnce(v, ops);
    var w', v' := Run(w, ops), Run(v, ops);
    assert v.sent <= v'.sent && v.sent[z] >= lost[z] >= 1;
    assert v'.freed[z] + v'.sent[z] <= 1 && v'.sent[z] >= v.sent[z];
  }

  lemma LostInShadow(w: World, v: World, lost: multiset<nat>, z: nat)
    requires Inv(v) && Shadows(w, v, lost) && w.Live(z) && z in lost
    ensures Lost(w, z)
  {
    forall ops | GoodRun(w, ops) ensures Run(w, ops).Live(z) { ShadowStaysLive(w, v, lost, z, ops); }
  }

  /** A zframe that a send neither took nor destroyed is never released by any disciplined run. */
  lemma PartialSendLoses(w: World, m: nat, taken: nat, left: nat)
    requires Inv(w) && HasMessage(w, m) && w.messages[m].owned && taken < |w.Native(m)| && left > 0
    ensures Lost(SendMessage(w, m, true, taken, left).world, w.Native(m)[taken])
  {
    var zs := w.Native(m);
    var z, l := zs[taken], Min(taken + left, |zs|);
    var w1, v, lost := Release(w, m, zs[..taken], zs[l..]), Release(w, m, zs[..l], zs[l..]), multiset(zs[taken..l]);
    ReleaseMessageKeepsInv(w, m, l);
    ShadowOfSend(w, m, taken, l);
    NotReleased(w, m, taken, l);
    assert zs[taken..l][0] == z && z in lost;
    LostInShadow(w1, v, lost, z);
    assert SendMessage(w, m, true, taken, left).world == w1;
  }

  // ---------------------------------------------------------------------------------------------------------
  // The theorem
  // ---------------------------------------------------------------------------------------------------------

  /** A disciplined continuation of at most two calls in which something goes wrong. */
  ghost predicate GoesWrong(w: World, ops: seq<Op>) {
    |ops| <= 2 && GoodRun(w, ops) && (!Clean(w, ops) || ReleasedTwice(Run(w, ops)))
  }

  lemma UndisciplinedHarms(w: World, op: Op) returns (ops: seq<Op>)
    requires Inv(w) && Enabled(w, op) && !Disciplined(w, op)
    ensures || Do(w, op).outcome.Fault?
            || GoesWrong(Do(w, op).world, ops)
            || (op.OpSendMessage? && exists z: nat :: Lost(Do(w, op).world, z))
  {
    ops := [];
    match op
    case OpCompareFrames(f, g) =>
      AccessibleIsLive(w, f);
      AccessibleIsLive(w, g);
    case OpDestroyFrame(f) =>
      if FrameGuard(w, f) == Pass {
        DestroyAttachedHarms(w, f);
        ops := [OpFrameData(f)];
      }
    case OpRemove(m, f) => ops := RemoveStrangerHarms(w, m, f);
    case OpWrap(m, f) => if FrameGuard(w, f) == Pass { ops := WrapAttachedHarms(w, m, f); }
    case OpPopStr(m) =>
      OwningMessage(w, m);
      DroppedHeldHarms(w, op, w.Listed(m)[0]);
      ops := [OpFrameData(w.Listed(m)[0])];
    case OpUnwrap(m) =>
      OwningMessage(w, m);
      if |w.Native(m)| >= 2 {
        DroppedHeldHarms(w, op, w.Listed(m)[1]);
        ops := [OpFrameData(w.Listed(m)[1])];
      }
    case OpSendMessage(m, open, taken, left) => PartialSendLoses(w, m, taken, left);
    case _ =>
  }

  /** From any good world: a call reads no bad pointer and leaves a world from which no harm comes, exactly when the
      caller kept to the discipline. */
  lemma HarmlessIffDisciplined(w: World, op: Op)
    requires Inv(w) && Enabled(w, op)
    ensures !Do(w, op).outcome.Fault? && Harmless(Do(w, op).world) <==> Disciplined(w, op)
  {
    if Disciplined(w, op) {
      DisciplineSuffices(w, op);
      InvIsHarmless(Do(w, op).world);
    } else {
      var ops := UndisciplinedHarms(w, op);
    }
  }

  ghost predicate HarmlessRun(w: World, ops: seq<Op>)
    decreases |ops|
  {
    ops != [] ==>
      && Enabled(w, ops[0]) && !Do(w, ops[0]).outcome.Fault? && Harmless(Do(w, ops[0]).world)
      && HarmlessRun(Do(w, ops[0]).world, ops[1..])
  }

  /** The runs from the start that never do harm are exactly the disciplined ones. */
  lemma HarmlessIffGood(ops: seq<Op>)
    ensures HarmlessRun(EMPTY_WORLD, ops) <==> GoodRun(EMPTY_WORLD, ops)
  {
    EmptyIsGood();
    HarmlessFrom(EMPTY_WORLD, ops);
  }

  lemma {:induction false} HarmlessFrom(w: World, ops: seq<Op>)
    requires Inv(w)
    ensures HarmlessRun(w, ops) <==> GoodRun(w, ops)
    decreases |ops|
  {
    if ops != [] && Enabled(w, ops[0]) {
      HarmlessIffDisciplined(w, ops[0]);
      if Disciplined(w, ops[0]) {
        DisciplineSuffices(w, ops[0]);
        HarmlessFrom(Do(w, ops[0]).world, ops[1..]);
      }
    }
  }
}
