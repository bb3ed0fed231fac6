/**
 The exact condition under which each call keeps the ownership invariant and reads no bad pointer. Most calls
 need nothing; the rest are the places where the extension checks less than the invariant needs.
 */
module OwnershipDiscipline {
  import opened Lists
  import opened Wrappers
  import opened Ownership
  import opened OwnershipSteps
  import opened OwnershipMoves

  /** A frame may be used unless it is attached to a message that has been collected. */
  predicate Usable(w: World, f: nat)
    requires f in w.frames
  {
    FrameGuard(w, f) != Dangling
  }

  /** The frame owns its zframe, or the call raises because the frame is gone. */
  predicate OwnsOrGone(w: World, f: nat)
    requires f in w.frames
  {
    FrameGuard(w, f) == Deny || w.frames[f].owned
  }

  /** The Ruby frame object at position `i` of a message is held by nobody. */
  predicate Unheld(w: World, m: nat, i: nat)
    requires m in w.messages
  {
    i < |w.Listed(m)| ==> w.Listed(m)[i] !in w.heldFrames
  }

  /** What the caller has to see to before the call. */
  ghost predicate Disciplined(w: World, op: Op)
    requires Enabled(w, op)
  {
    match op
    case OpDupFrame(f) => Usable(w, f)
    case OpFrameData(f) => Usable(w, f)
    case OpResetFrame(f, _) => Usable(w, f)
    case OpFrameGone(f) => Usable(w, f)
    case OpCompareFrames(f, g) =>
      f != g ==> Usable(w, f) && (FrameGuard(w, f) == Pass && w.frames[g].frame.Some? ==> FrameGuard(w, g) == Pass)
    case OpDestroyFrame(f) => OwnsOrGone(w, f)
    case OpWrap(m, f) => w.messages[m].owned ==> OwnsOrGone(w, f)
    case OpRemove(m, f) => w.messages[m].owned ==> w.frames[f].owned || w.frames[f].message == Some(m)
    case OpPopStr(m) => w.messages[m].owned ==> Unheld(w, m, 0)
    case OpUnwrap(m) =>
      w.messages[m].owned ==>
        |w.Native(m)| >= 2 && (w.Native(m)[1] in w.data && w.data[w.Native(m)[1]] == [] ==> Unheld(w, m, 1))
    case OpSendMessage(m, open, taken, left) => open && w.messages[m].owned ==> taken >= |w.Native(m)| || left == 0
    case _ => true
  }

  /** The call reads no bad pointer and leaves the invariant standing. */
  ghost predicate Keeps(w: World, op: Op)
    requires Enabled(w, op)
  {
    !Do(w, op).outcome.Fault? && Inv(Do(w, op).world)
  }

  // ---------------------------------------------------------------------------------------------------------
  // What the invariant says about one frame and one message
  // ---------------------------------------------------------------------------------------------------------

  lemma OwningFrame(w: World, f: nat)
    requires Inv(w) && f in w.frames && w.frames[f].owned
    ensures w.frames[f].frame.Some? && w.frames[f].message.None? && w.Live(w.frames[f].frame.value)
  {
    var own: Ledger :| Agrees(w, own);
    assert FrameOk(w, own, f);
    assert ZframeOk(w, own, w.frames[f].frame.value);
  }

  lemma OwningMessage(w: World, m: nat)
    requires Inv(w) && w.OwnedMessage(m)
    ensures w.messages[m].message.Some? && w.messages[m].frames.Some? && |w.Native(m)| == |w.Listed(m)|
    ensures NoDup(w.Native(m))
    ensures forall z :: z in w.Native(m) ==> w.Live(z)
    ensures forall i :: 0 <= i < |w.Native(m)| ==> Mirrors(w, m, i)
  {
    var own: Ledger :| Agrees(w, own);
    assert MessageOk(w, own, m);
    forall z | z in w.Native(m) ensures w.Live(z) { assert ZframeOk(w, own, z); }
  }

  lemma HeldMessage(w: World, m: nat)
    requires Inv(w) && HasMessage(w, m)
    ensures forall f :: f in w.Listed(m) ==> f in w.frames
    ensures w.messages[m].owned ==> NoDup(w.Listed(m))
  {
    var own: Ledger :| Agrees(w, own);
    assert MessageOk(w, own, m);
    if w.messages[m].owned {
      forall i, j | 0 <= i < j < |w.Listed(m)| ensures w.Listed(m)[i] != w.Listed(m)[j] {
        assert Mirrors(w, m, i) && Mirrors(w, m, j);
      }
    }
  }

  /** What stands at position `i` of an owned message. */
  lemma EntryAt(w: World, m: nat, i: nat)
    requires Inv(w) && HasMessage(w, m) && w.messages[m].owned && i < |w.Native(m)|
    ensures |w.Listed(m)| == |w.Native(m)| && w.Live(w.Native(m)[i]) && w.Listed(m)[i] in w.frames
    ensures w.frames[w.Listed(m)[i]] == FrameW(Some(w.Native(m)[i]), Some(m), false)
  {
    OwningMessage(w, m);
    HeldMessage(w, m);
    assert Mirrors(w, m, i);
    assert w.Native(m)[i] in w.Native(m) && w.Listed(m)[i] in w.Listed(m);
  }

  /** Exclusive ownership, in the three ways it can fail. */
  lemma OneFrame(w: World, f: nat, g: nat, z: nat)
    requires Inv(w) && w.FrameOwns(f, z) && w.FrameOwns(g, z)
    ensures f == g
  {
    var own: Ledger :| Agrees(w, own);
    assert FrameOk(w, own, f) && FrameOk(w, own, g);
  }

  lemma FrameOrMessage(w: World, f: nat, m: nat, z: nat)
    requires Inv(w) && w.FrameOwns(f, z)
    ensures !w.MessageOwns(m, z)
  {
    var own: Ledger :| Agrees(w, own);
    assert FrameOk(w, own, f);
    if m in w.messages { assert MessageOk(w, own, m); }
  }

  lemma OneMessage(w: World, m: nat, n: nat, z: nat)
    requires Inv(w) && w.MessageOwns(m, z) && w.MessageOwns(n, z)
    ensures m == n
  {
    var own: Ledger :| Agrees(w, own);
    assert MessageOk(w, own, m) && MessageOk(w, own, n);
  }

  /** Nothing live is ownerless. */
  lemma HasOwner(w: World, z: nat)
    requires Inv(w) && w.Live(z)
    ensures (exists f :: w.FrameOwns(f, z)) || (exists m :: w.MessageOwns(m, z))
  {
    var own: Ledger :| Agrees(w, own);
    assert ZframeOk(w, own, z);
  }

  lemma AttachedIsListed(w: World, f: nat, m: nat)
    requires Inv(w) && HasFrame(w, f) && !w.frames[f].owned && w.frames[f].message == Some(m) && w.OwnedMessage(m)
    ensures f in w.Listed(m)
  {
    var own: Ledger :| Agrees(w, own);
    assert FrameOk(w, own, f);
  }

  /** Where a held frame that is accessible but owns nothing stands in its message. */
  lemma Position(w: World, f: nat) returns (m: nat, i: nat)
    requires Inv(w) && HasFrame(w, f) && !w.frames[f].owned && FrameGuard(w, f) == Pass
    ensures w.OwnedMessage(m) && i < |w.Native(m)| && i < |w.Listed(m)| && w.Listed(m)[i] == f
    ensures w.frames[f] == FrameW(Some(w.Native(m)[i]), Some(m), false)
  {
    var own: Ledger :| Agrees(w, own);
    assert FrameOk(w, own, f);
    m := w.frames[f].message.value;
    OwningMessage(w, m);
    i :| 0 <= i < |w.Listed(m)| && w.Listed(m)[i] == f;
    assert Mirrors(w, m, i);
  }

  /** A held frame is accessible exactly when it points to a live zframe. */
  lemma AccessibleIsLive(w: World, f: nat)
    requires Inv(w) && HasFrame(w, f)
    ensures FrameGuard(w, f) == Pass <==> w.frames[f].frame.Some? && w.Live(w.frames[f].frame.value)
  {
    var own: Ledger :| Agrees(w, own);
    assert FrameOk(w, own, f);
    if w.frames[f].owned {
      OwningFrame(w, f);
    } else if FrameGuard(w, f) == Pass {
      var m, i := Position(w, f);
      OwningMessage(w, m);
    }
  }

  // ---------------------------------------------------------------------------------------------------------
  // The condition is enough
  // ---------------------------------------------------------------------------------------------------------

  lemma {:induction false} ContentsOfLive(w: World, zs: seq<nat>)
    requires forall z :: z in zs ==> w.Live(z)
    ensures Contents(w, zs).Some? && |Contents(w, zs).value| == |zs|
    ensures forall i :: 0 <= i < |zs| ==> w.Live(zs[i]) && Contents(w, zs).value[i] == w.data[zs[i]]
  {
    if zs != [] {
      ContentsOfLive(w, zs[1..]);
    }
  }

  lemma NewFrameKeepsInv(w: World, bytes: Bytes)
    requires Inv(w)
    ensures Inv(NewFrame(w, bytes).world)
  {
    var w' := AllocFrame(w, bytes);
    AllocFrameKeepsInv(w, bytes);
    assert Holdable(w', w.frameCount);
    HoldKeepsInv(w', {w.frameCount});
  }

  lemma HoldKeepsInv(w: World, fs: set<nat>)
    requires Inv(w)
    requires forall f :: f in fs ==> Holdable(w, f)
    ensures Inv(Hold(w, fs))
  {
    var own: Ledger :| Agrees(w, own);
    forall m | m in w.heldMessages ensures m in w.messages && forall f :: f in w.Listed(m) ==> f in w.frames {
      assert MessageOk(w, own, m);
    }
    QuietKeepsInv(w, Hold(w, fs));
  }

  lemma NewMessageKeepsInv(w: World, parts: seq<Bytes>)
    requires Inv(w)
    ensures Inv(NewMessage(w, parts).world)
  {
    var w' := AllocMessage(w, parts);
    AllocMessageKeepsInv(w, parts);
    var own: Ledger :| Agrees(w', own);
    forall m | m in w'.heldMessages + {w.messageCount}
      ensures m in w'.messages && forall f :: f in w'.Listed(m) ==> f in w'.frames
    {
      assert MessageOk(w', own, m);
    }
    QuietKeepsInv(w', NewMessage(w, parts).world);
  }

  lemma PopKeepsInv(w: World, m: nat)
    requires Inv(w) && HasMessage(w, m)
    ensures !Pop(w, m).outcome.Fault? && Inv(Pop(w, m).world)
  {
    if w.messages[m].owned && w.Native(m) != [] {
      OwningMessage(w, m);
      HeldMessage(w, m);
      var f := w.Listed(m)[0];
      DetachAtKeepsInv(w, m, 0);
      assert Tail(w.Native(m)) == Without(w.Native(m), 0) && Tail(w.Listed(m)) == Without(w.Listed(m), 0);
      HoldKeepsInv(DetachAt(w, m, 0), {f});
    }
  }

  lemma RemoveKeepsInv(w: World, m: nat, f: nat)
    requires Inv(w) && HasMessage(w, m) && HasFrame(w, f) && w.messages[m].owned
    requires w.frames[f].owned || w.frames[f].message == Some(m)
    ensures Inv(Remove(w, m, f).world)
  {
    OwningMessage(w, m);
    HeldMessage(w, m);
    if w.frames[f].owned {
      OwningFrame(w, f);
      var own: Ledger :| Agrees(w, own);
      assert FrameOk(w, own, f) && MessageOk(w, own, m);
      forall i | 0 <= i < |w.Listed(m)| ensures w.Listed(m)[i] != f { assert Mirrors(w, m, i); }
      RemoveFirstAbsent(w.Native(m), w.frames[f].frame.value);
      RemoveFirstAbsent(w.Listed(m), f);
      assert w.messages[m := w.messages[m]] == w.messages;
      assert w.frames[f := w.frames[f]] == w.frames;
      assert Remove(w, m, f).world == w;
    } else {
      var n, i := Position(w, f);
      RemoveFirstAt(w.Native(m), i);
      RemoveFirstAt(w.Listed(m), i);
      DetachAtKeepsInv(w, m, i);
    }
  }

  lemma UnwrapKeepsInv(w: World, m: nat)
    requires Inv(w) && HasMessage(w, m) && w.messages[m].owned && |w.Native(m)| >= 2
    requires w.Native(m)[1] in w.data && w.data[w.Native(m)[1]] == [] ==> Unheld(w, m, 1)
    ensures !Unwrap(w, m).outcome.Fault? && Inv(Unwrap(w, m).world)
  {
    OwningMessage(w, m);
    HeldMessage(w, m);
    PopKeepsInv(w, m);
    var f := w.Listed(m)[0];
    var popped := Pop(w, m).world;
    assert w.Live(w.Native(m)[1]);
    if w.data[w.Native(m)[1]] == [] {
      DropFrontKeepsInv(popped, m);
      assert Unwrap(w, m).world == DropFront(popped, m);
    } else {
      assert Unwrap(w, m).world == popped;
    }
  }

  lemma WrapKeepsInv(w: World, m: nat, f: nat)
    requires Inv(w) && HasMessage(w, m) && HasFrame(w, f) && w.messages[m].owned && w.frames[f].owned
    ensures !Wrap(w, m, f).outcome.Fault? && Inv(Wrap(w, m, f).world)
  {
    OwningFrame(w, f);
    Fresh(w);
    AllocFrameKeepsInv(w, []);
    var d := AllocFrame(w, []);
    AttachKeepsInv(d, m, w.frameCount, true);
    AttachKeepsInv(Attach(d, m, w.frameCount, true), m, f, true);
  }

  lemma FinalizeFrameKeepsInv(w: World, f: nat)
    requires Inv(w) && f in w.frames && !w.Reachable(f)
    ensures Inv(FinalizeFrame(w, f))
  {
    var freed := FreeFrame(w, f);
    if w.frames[f].owned {
      OwningFrame(w, f);
      ReleaseFrameKeepsInv(w, f, false);
      EraseFrameKeepsInv(freed, f);
    } else {
      EraseFrameKeepsInv(w, f);
      assert freed.frames - {f} == w.frames - {f};
    }
  }

  lemma EraseFrameKeepsInv(w: World, f: nat)
    requires Inv(w) && f in w.frames && !w.frames[f].owned && !w.Reachable(f)
    ensures Inv(w.(frames := w.frames - {f}))
  {
    var own: Ledger :| Agrees(w, own);
    forall m | m in w.heldMessages ensures m in w.messages && forall g :: g in w.Listed(m) ==> g in w.frames - {f} {
      assert MessageOk(w, own, m);
    }
    QuietKeepsInv(w, w.(frames := w.frames - {f}));
  }

  lemma FinalizeMessageKeepsInv(w: World, m: nat)
    requires Inv(w) && m in w.messages && m !in w.heldMessages
    ensures Inv(FinalizeMessage(w, m))
  {
    var freed := FreeMessage(w, m);
    if w.messages[m].owned {
      FreeMessageKeepsInv(w, m);
      EraseMessageKeepsInv(freed, m);
    } else {
      EraseMessageKeepsInv(w, m);
      assert freed.messages - {m} == w.messages - {m};
    }
  }

  lemma EraseMessageKeepsInv(w: World, m: nat)
    requires Inv(w) && m in w.messages && !w.messages[m].owned && m !in w.heldMessages
    ensures Inv(w.(messages := w.messages - {m}))
  {
    var own: Ledger :| Agrees(w, own);
    forall n | n in w.heldMessages ensures n in w.messages && forall g :: g in w.Listed(n) ==> g in w.frames {
      assert MessageOk(w, own, n);
    }
    QuietKeepsInv(w, w.(messages := w.messages - {m}));
  }

  lemma FrameCallKeeps(w: World, op: Op)
    requires Inv(w) && Enabled(w, op) && Disciplined(w, op)
    requires op.OpDupFrame? || op.OpFrameData? || op.OpResetFrame? || op.OpFrameGone? || op.OpDestroyFrame?
          || op.OpSendFrame?
    ensures Keeps(w, op)
  {
    AccessibleIsLive(w, op.f);
    if FrameGuard(w, op.f) == Pass {
      match op
      case OpDupFrame(f) => NewFrameKeepsInv(w, w.data[w.frames[f].frame.value]);
      case OpResetFrame(f, bytes) => SetDataKeepsInv(w, w.frames[f].frame.value, bytes);
      case OpDestroyFrame(f) => ReleaseFrameKeepsInv(w, f, false);
      case OpSendFrame(f, _, _, _) => if w.frames[f].owned { ReleaseFrameKeepsInv(w, f, true); }
      case _ =>
    }
  }

  lemma SetDataKeepsInv(w: World, z: nat, bytes: Bytes)
    requires Inv(w) && z in w.data
    ensures Inv(w.(data := w.data[z := bytes]))
  {
    HandlesKeepInv(w.(data := w.data[z := bytes]), w, w.heldFrames, w.heldMessages);
  }

  /** Dropping handles, and writing into a zframe. */
  lemma HandlesKeepInv(w': World, w: World, frames: set<nat>, messages: set<nat>)
    requires Inv(w) && frames <= w.heldFrames && messages <= w.heldMessages
    requires w' == w.(data := w'.data, heldFrames := frames, heldMessages := messages) && w'.data.Keys == w.data.Keys
    ensures Inv(w')
  {
    var own: Ledger :| Agrees(w, own);
    forall m | m in messages ensures m in w.messages && forall f :: f in w.Listed(m) ==> f in w.frames {
      assert MessageOk(w, own, m);
    }
    QuietKeepsInv(w, w');
  }

  lemma ArrayKeeps(w: World, m: nat)
    requires Inv(w) && HasMessage(w, m)
    ensures Inv(MessageToArray(w, m).world)
  {
    if w.messages[m].owned {
      OwningMessage(w, m);
      HeldMessage(w, m);
      forall f | f in w.Listed(m) ensures Holdable(w, f) {
        var i :| 0 <= i < |w.Listed(m)| && w.Listed(m)[i] == f;
        assert Mirrors(w, m, i);
      }
      HoldKeepsInv(w, set f | f in w.Listed(m));
    }
  }

  lemma MessageCallKeeps(w: World, op: Op)
    requires Inv(w) && Enabled(w, op) && Disciplined(w, op)
    requires op.OpPopStr? || op.OpDupMessage? || op.OpDestroyMessage? || op.OpSendMessage?
    ensures Keeps(w, op)
  {
    HeldMessage(w, op.m);
    if w.messages[op.m].owned {
      OwningMessage(w, op.m);
      match op
      case OpPopStr(m) => if w.Native(m) != [] { DropFrontKeepsInv(w, m); }
      case OpDupMessage(m) =>
        ContentsOfLive(w, w.Native(m));
        NewMessageKeepsInv(w, Contents(w, w.Native(m)).value);
      case OpDestroyMessage(m) => FreeMessageKeepsInv(w, m);
      case OpSendMessage(m, open, taken, left) =>
        if open {
          var sent := Min(taken, |w.Native(m)|);
          assert sent == |w.Native(m)| || left == 0;
          ReleaseMessageKeepsInv(w, m, sent);
        }
    }
  }

  lemma DisciplineSuffices(w: World, op: Op)
    requires Inv(w) && Enabled(w, op) && Disciplined(w, op)
    ensures Keeps(w, op)
  {
    match op
    case OpNewFrame(bytes) => NewFrameKeepsInv(w, bytes);
    case OpRecvFrame(_, received) => if received.Some? { NewFrameKeepsInv(w, received.value); }
    case OpNewMessage => NewMessageKeepsInv(w, []);
    case OpRecvMessage(_, received) => if received.Some? { NewMessageKeepsInv(w, received.value); }
    case OpCompareFrames(f, g) =>
      AccessibleIsLive(w, f);
      AccessibleIsLive(w, g);
    case OpPush(m, f) => PushKeeps(w, m, f, true);
    case OpAdd(m, f) => PushKeeps(w, m, f, false);
    case OpPushStr(m, bytes) => PushStringKeepsInv(w, m, bytes, true);
    case OpAddStr(m, bytes) => PushStringKeepsInv(w, m, bytes, false);
    case OpPop(m) => PopKeepsInv(w, m);
    case OpRemove(m, f) => if w.messages[m].owned { RemoveKeepsInv(w, m, f); }
    case OpWrap(m, f) => if w.messages[m].owned && w.frames[f].owned { WrapKeepsInv(w, m, f); }
    case OpUnwrap(m) => if w.messages[m].owned { UnwrapKeepsInv(w, m); }
    case OpToArray(m) => ArrayKeeps(w, m);
    case OpDropFrame(f) => HandlesKeepInv(Do(w, op).world, w, w.heldFrames - {f}, w.heldMessages);
    case OpDropMessage(m) => HandlesKeepInv(Do(w, op).world, w, w.heldFrames, w.heldMessages - {m});
    case OpCollectFrame(f) => FinalizeFrameKeepsInv(w, f);
    case OpCollectMessage(m) => FinalizeMessageKeepsInv(w, m);
    case OpSize(_) =>
    case OpMessageGone(_) =>
    case OpPopStr(_) => MessageCallKeeps(w, op);
    case OpDupMessage(_) => MessageCallKeeps(w, op);
    case OpDestroyMessage(_) => MessageCallKeeps(w, op);
    case OpSendMessage(_, _, _, _) => MessageCallKeeps(w, op);
    case _ => FrameCallKeeps(w, op);
  }

  lemma PushKeeps(w: World, m: nat, f: nat, front: bool)
    requires Inv(w) && HasMessage(w, m) && HasFrame(w, f)
    ensures !Push(w, m, f, front).outcome.Fault? && Inv(Push(w, m, f, front).world)
  {
    if w.messages[m].owned && w.frames[f].owned {
      OwningFrame(w, f);
      AttachKeepsInv(w, m, f, front);
    }
  }

  // ---------------------------------------------------------------------------------------------------------
  // The condition is needed
  // ---------------------------------------------------------------------------------------------------------

  /** Destroying an attached frame leaves a NULL pointer in the message's list. */
  lemma DestroyAttachedBreaks(w: World, f: nat)
    requires Inv(w) && HasFrame(w, f) && !w.frames[f].owned && FrameGuard(w, f) == Pass
    ensures !Inv(DestroyFrame(w, f).world)
  {
    var w' := DestroyFrame(w, f).world;
    var m, i := Position(w, f);
    OwningMessage(w, m);
    assert w'.Native(m) == w.Native(m) && w'.Listed(m) == w.Listed(m);
    assert !Mirrors(w', m, i);
    if Inv(w') {
      OwningMessage(w', m);
      assert false;
    }
  }

  /** Removing a frame that is not in the message gives a second owner to its zframe, or an owner to a dead one. */
  lemma RemoveStrangerBreaks(w: World, m: nat, f: nat)
    requires Inv(w) && HasMessage(w, m) && HasFrame(w, f) && w.messages[m].owned
    requires !w.frames[f].owned && w.frames[f].message != Some(m)
    ensures !Inv(Remove(w, m, f).world)
  {
    var w' := Remove(w, m, f).world;
    if Inv(w') {
      OwningFrame(w', f);
      var z := w.frames[f].frame.value;
      assert w.Live(z);
      AccessibleIsLive(w, f);
      var n, i := Position(w, f);
      assert w'.Native(n) == w.Native(n);
      FrameOrMessage(w', f, n, z);
      assert false;
    }
  }

  /** A second wrap, or a wrap of a frame attached elsewhere, puts one zframe into two places. */
  lemma WrapAttachedBreaks(w: World, m: nat, f: nat)
    requires Inv(w) && HasMessage(w, m) && HasFrame(w, f) && w.messages[m].owned
    requires !w.frames[f].owned && FrameGuard(w, f) == Pass
    ensures !Inv(Wrap(w, m, f).world)
  {
    var w' := Wrap(w, m, f).world;
    var n, i := Position(w, f);
    var z := w.Native(n)[i];
    Fresh(w);
    assert w'.Native(m) == [z] + ([w.zframeCount] + w.Native(m));
    if n == m {
      assert w'.Native(m)[0] == w'.Native(m)[i + 2];
    } else {
      assert w'.Native(n) == w.Native(n);
      assert w'.MessageOwns(m, z) && w'.MessageOwns(n, z);
    }
    if Inv(w') {
      OwningMessage(w', m);
      OneMessage(w', m, n, z);
      assert false;
    }
  }

  /** A held Ruby frame whose zframe popstr or unwrap freed still claims to be in the message. */
  lemma StaleHandleBreaks(w: World, m: nat, f: nat)
    requires HasFrame(w, f) && !w.frames[f].owned && w.frames[f].message == Some(m)
    requires w.OwnedMessage(m) && f !in w.Listed(m)
    ensures !Inv(w)
  {
    if Inv(w) {
      AttachedIsListed(w, f, m);
      assert false;
    }
  }

  /** A zframe the socket did not take is live and has no owner: the code clears the flag all the same. */
  lemma PartialSendLeaks(w: World, m: nat, taken: nat, left: nat)
    requires Inv(w) && w.OwnedMessage(m) && taken < |w.Native(m)| && left > 0
    ensures !Inv(SendMessage(w, m, true, taken, left).world)
  {
    var w', zs := SendMessage(w, m, true, taken, left).world, w.Native(m);
    OwningMessage(w, m);
    var z, l := zs[taken], Min(taken + left, |zs|);
    assert z in zs && z !in zs[..taken];
    forall i | 0 <= i < |zs[l..]| ensures zs[l..][i] != z { assert zs[l..][i] == zs[l + i]; }
    assert multiset(zs[..taken])[z] == 0 && z !in zs[l..] && multiset(zs[l..])[z] == 0;
    if Inv(w') {
      if exists g :: w'.FrameOwns(g, z) {
        var g :| w'.FrameOwns(g, z);
        FrameOrMessage(w, g, m, z);
      } else {
        HasOwner(w', z);
        var n :| w'.MessageOwns(n, z);
        assert w'.Native(n) == w.Native(n);
        OneMessage(w, m, n, z);
      }
      assert false;
    }
  }

  /** popstr and unwrap leave a stale handle behind when the frame object they drop is held; and unwrap reads past the
      end of a message with fewer than two frames. */
  lemma DroppingHeldBreaks(w: World, op: Op)
    requires Inv(w) && Enabled(w, op) && !Disciplined(w, op) && (op.OpPopStr? || op.OpUnwrap?)
    ensures !Keeps(w, op)
  {
    var m := op.m;
    OwningMessage(w, m);
    HeldMessage(w, m);
    if op.OpPopStr? {
      assert Mirrors(w, m, 0);
      StaleHandleBreaks(Do(w, op).world, m, w.Listed(m)[0]);
    } else if |w.Native(m)| >= 2 {
      assert Mirrors(w, m, 1);
      StaleHandleBreaks(Do(w, op).world, m, w.Listed(m)[1]);
    }
  }

  lemma DisciplineNeeded(w: World, op: Op)
    requires Inv(w) && Enabled(w, op) && !Disciplined(w, op)
    ensures !Keeps(w, op)
  {
    match op
    case OpCompareFrames(f, g) =>
      AccessibleIsLive(w, f);
      AccessibleIsLive(w, g);
    case OpDestroyFrame(f) => if FrameGuard(w, f) == Pass { DestroyAttachedBreaks(w, f); }
    case OpRemove(m, f) => RemoveStrangerBreaks(w, m, f);
    case OpWrap(m, f) =>
      AccessibleIsLive(w, f);
      if FrameGuard(w, f) == Pass { WrapAttachedBreaks(w, m, f); }
    case OpPopStr(_) => DroppingHeldBreaks(w, op);
    case OpUnwrap(_) => DroppingHeldBreaks(w, op);
    case OpSendMessage(m, open, taken, left) => PartialSendLeaks(w, m, taken, left);
    case _ =>
  }

  /** From any good world, a call keeps the world good exactly when the caller kept to the discipline. */
  lemma KeepsIffDisciplined(w: World, op: Op)
    requires Inv(w) && Enabled(w, op)
    ensures Keeps(w, op) <==> Disciplined(w, op)
  {
    if Disciplined(w, op) {
      DisciplineSuffices(w, op);
    } else {
      DisciplineNeeded(w, op);
    }
  }

  /** What a caller can see to before a send: whatever the library will take and leave, the call keeps the world good
      exactly when it will be refused, or there is nothing to send. */
  lemma SendKeepsWhateverIsTaken(w: World, m: nat, open: bool)
    requires Inv(w) && HasMessage(w, m)
    ensures (forall taken: nat, left: nat :: Keeps(w, OpSendMessage(m, open, taken, left))) <==>
            !open || !w.messages[m].owned || w.Native(m) == []
  {
    forall taken: nat, left: nat
      ensures Keeps(w, OpSendMessage(m, open, taken, left)) <==> Disciplined(w, OpSendMessage(m, open, taken, left))
    {
      KeepsIffDisciplined(w, OpSendMessage(m, open, taken, left));
    }
    assert Keeps(w, OpSendMessage(m, open, 0, 1)) <==> Disciplined(w, OpSendMessage(m, open, 0, 1));
  }
}
