/**
 Which ownership moves keep the invariant. Every API call is one of these moves, or a few of them in a row.
 */
module OwnershipMoves {
  import opened Lists
  import opened Wrappers
  import opened Ownership
  import opened OwnershipSteps

  /** Ids above the counters are not in use. */
  lemma Fresh(w: World)
    requires Inv(w)
    ensures forall z: nat :: z in w.data <==> z < w.zframeCount
    ensures forall f :: f in w.frames ==> f < w.frameCount
    ensures forall m :: m in w.messages ==> m < w.messageCount
  {
    var own: Ledger :| Agrees(w, own);
    forall z: nat ensures z in w.data <==> z < w.zframeCount { assert ZframeOk(w, own, z); }
    forall f: nat | f in w.frames ensures f < w.frameCount { assert FrameOk(w, own, f); }
    forall m: nat | m in w.messages ensures m < w.messageCount { assert MessageOk(w, own, m); }
  }

  /** A message stays good when its lists, its entries in the ledger and the frames attached to it stay. */
  lemma OtherMessage(w: World, own: Ledger, w': World, own': Ledger, n: nat)
    requires n in w.messages && n in w'.messages && w'.messages[n] == w.messages[n] && MessageOk(w, own, n)
    requires w.frameCount <= w'.frameCount && w.messageCount <= w'.messageCount
    requires n in w'.heldMessages ==> forall g :: g in w.Listed(n) ==> g in w'.frames
    requires forall z :: z in own && own[z] == InMessage(n) ==> z in own' && own'[z] == InMessage(n)
    requires forall g :: g in w'.frames && g < w.frameCount && (g in w.frames ==> w.frames[g].message == Some(n)) ==>
                           g in w.frames && w'.frames[g] == w.frames[g]
    ensures MessageOk(w', own', n)
  {
    assert w'.Native(n) == w.Native(n) && w'.Listed(n) == w.Listed(n);
    forall i | 0 <= i < |w.Native(n)| && w.messages[n].owned ensures Mirrors(w', n, i) {
      assert Mirrors(w, n, i);
      assert w.Listed(n)[i] in w.Listed(n);
    }
  }

  lemma AllocFrameKeepsInv(w: World, bytes: Bytes)
    requires Inv(w)
    ensures Inv(AllocFrame(w, bytes))
  {
    var w' := AllocFrame(w, bytes);
    var own: Ledger :| Agrees(w, own);
    var own' := own[w.zframeCount := InFrame(w.frameCount)];
    assert ZframeOk(w, own, w.zframeCount);
    forall z: nat ensures ZframeOk(w', own', z) {
      assert ZframeOk(w, own, z);
      if z in own && own[z].InFrame? {
        assert FrameOk(w, own, own[z].f);
      }
    }
    forall f: nat | f in w'.frames ensures FrameOk(w', own', f) {
      if f != w.frameCount { assert FrameOk(w, own, f); }
    }
    forall m: nat | m in w'.messages ensures MessageOk(w', own', m) {
      assert MessageOk(w, own, m);
      OtherMessage(w, own, w', own', m);
    }
    assert Agrees(w', own');
  }

  lemma AttachKeepsInv(w: World, m: nat, f: nat, front: bool)
    requires Inv(w) && w.OwnedMessage(m)
    requires f in w.frames && w.frames[f].owned && w.frames[f].frame.Some?
    ensures Inv(Attach(w, m, f, front))
  {
    var w' := Attach(w, m, f, front);
    var own: Ledger :| Agrees(w, own);
    var z0 := w.frames[f].frame.value;
    var own' := own[z0 := InMessage(m)];
    assert FrameOk(w, own, f) && MessageOk(w, own, m);
    AttachedMessage(w, own, m, f, front);
    assert w'.Native(m) == if front then [z0] + w.Native(m) else w.Native(m) + [z0];
    assert w'.Listed(m) == if front then [f] + w.Listed(m) else w.Listed(m) + [f];
    forall z: nat ensures ZframeOk(w', own', z) {
      assert ZframeOk(w, own, z);
    }
    forall g: nat | g in w'.frames ensures FrameOk(w', own', g) {
      if g != f { assert FrameOk(w, own, g); }
    }
    forall n: nat | n in w'.messages ensures MessageOk(w', own', n) {
      assert MessageOk(w, own, n);
      if n != m { OtherMessage(w, own, w', own', n); }
    }
    assert Agrees(w', own');
  }

  /** The message that takes the frame stays good. */
  lemma AttachedMessage(w: World, own: Ledger, m: nat, f: nat, front: bool)
    requires Agrees(w, own) && w.OwnedMessage(m)
    requires f in w.frames && w.frames[f].owned && w.frames[f].frame.Some?
    ensures MessageOk(Attach(w, m, f, front), own[w.frames[f].frame.value := InMessage(m)], m)
  {
    var w', z0 := Attach(w, m, f, front), w.frames[f].frame.value;
    assert FrameOk(w, own, f) && MessageOk(w, own, m);
    assert w'.Native(m) == if front then [z0] + w.Native(m) else w.Native(m) + [z0];
    assert w'.Listed(m) == if front then [f] + w.Listed(m) else w.Listed(m) + [f];
    forall i | 0 <= i < |w'.Native(m)| ensures Mirrors(w', m, i) {
      var j := if front then i - 1 else i;
      if 0 <= j < |w.Native(m)| { assert Mirrors(w, m, j); }
    }
  }

  /** Taking the i-th frame of a message out of both lists and giving it back to its wrapper. */
  function DetachAt(w: World, m: nat, i: nat): World
    requires m in w.messages && i < |w.Native(m)| && i < |w.Listed(m)| && w.Listed(m)[i] in w.frames
  {
    Detach(SetLists(w, m, Without(w.Native(m), i), Without(w.Listed(m), i)), w.Listed(m)[i])
  }

  lemma DetachAtKeepsInv(w: World, m: nat, i: nat)
    requires Inv(w) && w.OwnedMessage(m)
    requires i < |w.Native(m)| && i < |w.Listed(m)| && w.Listed(m)[i] in w.frames
    ensures Inv(DetachAt(w, m, i))
  {
    var w' := DetachAt(w, m, i);
    var own: Ledger :| Agrees(w, own);
    var z0, f := w.Native(m)[i], w.Listed(m)[i];
    var own' := own[z0 := InFrame(f)];
    assert MessageOk(w, own, m) && Mirrors(w, m, i);
    assert w'.Native(m) == Without(w.Native(m), i);
    assert w'.Listed(m) == Without(w.Listed(m), i);
    WithoutMembers(w.Native(m), i);
    WithoutMembers(w.Listed(m), i);
    forall z: nat ensures ZframeOk(w', own', z) {
      assert ZframeOk(w, own, z);
    }
    forall g: nat | g in w'.frames ensures FrameOk(w', own', g) {
      assert FrameOk(w, own, g);
    }
    forall n: nat | n in w'.messages ensures MessageOk(w', own', n) {
      assert MessageOk(w, own, n);
      if n != m {
        OtherMessage(w, own, w', own', n);
      } else {
        forall k | 0 <= k < |w'.Native(m)| ensures Mirrors(w', m, k) {
          assert Mirrors(w, m, if k >= i then k + 1 else k);
        }
      }
    }
    assert Agrees(w', own');
  }

  /** Freeing the first zframe of a message is harmless when nobody holds its Ruby frame object. */
  lemma DropFrontKeepsInv(w: World, m: nat)
    requires Inv(w) && w.OwnedMessage(m)
    requires w.Native(m) != [] && w.Listed(m) != [] && w.Listed(m)[0] !in w.heldFrames
    ensures Inv(DropFront(w, m))
  {
    var w' := DropFront(w, m);
    var own: Ledger :| Agrees(w, own);
    var z0, f := w.Native(m)[0], w.Listed(m)[0];
    var own' := own - {z0};
    assert MessageOk(w, own, m) && Mirrors(w, m, 0) && ZframeOk(w, own, z0);
    assert w'.Native(m) == w.Native(m)[1..];
    assert w'.Listed(m) == w.Listed(m)[1..];
    assert forall g :: g in w'.Listed(m) ==> g in w.Listed(m);
    forall z: nat ensures ZframeOk(w', own', z) {
      assert ZframeOk(w, own, z);
    }
    forall g: nat | g in w'.frames ensures FrameOk(w', own', g) {
      assert FrameOk(w, own, g);
    }
    forall n: nat | n in w'.messages ensures MessageOk(w', own', n) {
      assert MessageOk(w, own, n);
      if n != m {
        OtherMessage(w, own, w', own', n);
      } else {
        forall k | 0 <= k < |w'.Native(m)| ensures Mirrors(w', m, k) {
          assert Mirrors(w, m, k + 1);
        }
      }
    }
    assert Agrees(w', own');
  }

  /** An owning frame wrapper lets go of its zframe, which is freed or handed to a socket. */
  function ReleaseFrame(w: World, f: nat, toSocket: bool): World
    requires f in w.frames && w.frames[f].frame.Some?
  {
    var z := w.frames[f].frame.value;
    if toSocket then SetFrame(HandOver(w, [z]), f, w.frames[f].(owned := false))
    else SetFrame(Free(w, [z]), f, FrameW(None, w.frames[f].message, false))
  }

  lemma ReleaseFrameKeepsInv(w: World, f: nat, toSocket: bool)
    requires Inv(w) && f in w.frames && w.frames[f].owned && w.frames[f].frame.Some?
    ensures Inv(ReleaseFrame(w, f, toSocket))
  {
    var w' := ReleaseFrame(w, f, toSocket);
    var own: Ledger :| Agrees(w, own);
    var z0 := w.frames[f].frame.value;
    var own' := own - {z0};
    assert FrameOk(w, own, f) && ZframeOk(w, own, z0);
    forall z: nat ensures ZframeOk(w', own', z) {
      assert ZframeOk(w, own, z);
    }
    forall g: nat | g in w'.frames ensures FrameOk(w', own', g) {
      assert FrameOk(w, own, g);
    }
    forall n: nat | n in w'.messages ensures MessageOk(w', own', n) {
      assert MessageOk(w, own, n);
      OtherMessage(w, own, w', own', n);
    }
    assert Agrees(w', own');
  }

  /** A message lets go of all its zframes. A send keeps the list of Ruby frame objects. */
  function ReleaseMessage(w: World, m: nat, sent: nat): World
    requires m in w.messages && sent <= |w.Native(m)|
  {
    Release(w, m, w.Native(m)[..sent], w.Native(m)[sent..])
  }

  lemma SplitCounts(zs: seq<nat>, k: nat, z: nat)
    requires NoDup(zs) && k <= |zs|
    ensures multiset(zs[..k])[z] + multiset(zs[k..])[z] == if z in zs then 1 else 0
  {
    assert zs == zs[..k] + zs[k..];
    NoDupCounts(zs, z);
  }

  lemma ReleaseMessageKeepsInv(w: World, m: nat, sent: nat)
    requires Inv(w) && w.OwnedMessage(m) && sent <= |w.Native(m)|
    ensures Inv(ReleaseMessage(w, m, sent))
  {
    var w' := ReleaseMessage(w, m, sent);
    var own: Ledger :| Agrees(w, own);
    var zs := w.Native(m);
    var own' := own - set z | z in zs;
    assert MessageOk(w, own, m);
    forall z: nat ensures ZframeOk(w', own', z) {
      assert ZframeOk(w, own, z);
      SplitCounts(zs, sent, z);
    }
    forall g: nat | g in w'.frames ensures FrameOk(w', own', g) {
      assert FrameOk(w, own, g);
      if g in w.Listed(m) {
        var i :| 0 <= i < |zs| && w.Listed(m)[i] == g;
        assert Mirrors(w, m, i) && ZframeOk(w, own, zs[i]);
        SplitCounts(zs, sent, zs[i]);
      }
      if w.frames[g].frame.Some? { SplitCounts(zs, sent, w.frames[g].frame.value); }
    }
    forall n: nat | n in w'.messages ensures MessageOk(w', own', n) {
      assert MessageOk(w, own, n);
      if n != m { OtherMessage(w, own, w', own', n); }
    }
    assert Agrees(w', own');
  }

  /** `rb_czmq_free_message` also drops the list of Ruby frames; nothing asks about it once the message is given up. */
  lemma FreeMessageKeepsInv(w: World, m: nat)
    requires Inv(w) && w.OwnedMessage(m)
    ensures Inv(FreeMessage(w, m))
  {
    var w' := ReleaseMessage(w, m, 0);
    ReleaseMessageKeepsInv(w, m, 0);
    assert w.Native(m)[0..] == w.Native(m) && w.Native(m)[..0] == [];
    var own: Ledger :| Agrees(w', own);
    forall n: nat | n in w.messages ensures MessageOk(FreeMessage(w, m), own, n) {
      assert MessageOk(w', own, n);
      if n != m { OtherMessage(w', own, FreeMessage(w, m), own, n); }
    }
    forall f: nat | f in w.frames ensures FrameOk(FreeMessage(w, m), own, f) { assert FrameOk(w', own, f); }
    forall z: nat ensures ZframeOk(FreeMessage(w, m), own, z) { assert ZframeOk(w', own, z); }
    assert Agrees(FreeMessage(w, m), own);
  }

  /** Frames a program may come to hold: those that own their zframe, and those an owned message lists. */
  predicate Holdable(w: World, f: nat) {
    f in w.frames && (w.frames[f].owned ||
      (w.frames[f].message.Some? && w.OwnedMessage(w.frames[f].message.value)
        && f in w.Listed(w.frames[f].message.value)))
  }

  /** Collecting wrappers that own nothing, gaining and dropping handles, writing into a zframe. */
  lemma QuietKeepsInv(w: World, w': World)
    requires Inv(w)
    requires w'.data.Keys == w.data.Keys && w'.freed == w.freed && w'.sent == w.sent
    requires w'.zframeCount == w.zframeCount && w'.frameCount == w.frameCount && w'.messageCount == w.messageCount
    requires forall f :: f in w'.frames ==> f in w.frames && w'.frames[f] == w.frames[f]
    requires forall f :: f in w.frames && f !in w'.frames ==> !w.frames[f].owned
    requires forall m :: m in w'.messages ==> m in w.messages && w'.messages[m] == w.messages[m]
    requires forall m :: m in w.messages && m !in w'.messages ==> !w.messages[m].owned
    requires forall f :: f in w'.heldFrames ==> f in w'.frames && (f in w.heldFrames || Holdable(w, f))
    requires forall m :: m in w'.heldMessages ==> m in w'.messages && forall f :: f in w.Listed(m) ==> f in w'.frames
    ensures Inv(w')
  {
    var own: Ledger :| Agrees(w, own);
    forall z: nat ensures ZframeOk(w', own, z) {
      assert ZframeOk(w, own, z);
    }
    forall g: nat | g in w'.frames ensures FrameOk(w', own, g) {
      assert FrameOk(w, own, g);
    }
    forall n: nat | n in w'.messages ensures MessageOk(w', own, n) {
      assert MessageOk(w, own, n);
      OtherMessage(w, own, w', own, n);
    }
    assert Agrees(w', own);
  }

  function AddEmptyMessage(w: World): World {
    w.(messages := w.messages[w.messageCount := MessageW(Some([]), Some([]), true)], messageCount := w.messageCount + 1)
  }

  lemma AllocEmpty(w: World)
    ensures AllocMessage(w, []) == AddEmptyMessage(w)
  {
    assert w.data + FreshData(w.zframeCount, []) == w.data;
    assert w.frames + FreshFrames(w.frameCount, 0, w.zframeCount, w.messageCount) == w.frames;
  }

  lemma AddEmptyMessageKeepsInv(w: World)
    requires Inv(w)
    ensures Inv(AddEmptyMessage(w))
  {
    var w' := AddEmptyMessage(w);
    var own: Ledger :| Agrees(w, own);
    Fresh(w);
    forall z: nat ensures ZframeOk(w', own, z) {
      assert ZframeOk(w, own, z);
    }
    forall g: nat | g in w'.frames ensures FrameOk(w', own, g) {
      assert FrameOk(w, own, g);
    }
    forall n: nat | n in w'.messages ensures MessageOk(w', own, n) {
      if n != w.messageCount {
        assert MessageOk(w, own, n);
        OtherMessage(w, own, w', own, n);
      }
    }
    assert Agrees(w', own);
  }

  /** `AllocMessage` once the maps are known. */
  function GrowBy(w: World, data: map<nat, Bytes>, frames: map<nat, FrameW>,
                  zs: seq<nat>, fs: seq<nat>, n: nat): World {
    w.(data := data, frames := frames, messages := w.messages[w.messageCount := MessageW(Some(zs), Some(fs), true)],
       zframeCount := w.zframeCount + n, frameCount := w.frameCount + n, messageCount := w.messageCount + 1)
  }

  /** Wrapping a native message is the same as adding its parts, one string at a time, to an empty message. */
  lemma AllocAppends(w: World, parts: seq<Bytes>, part: Bytes)
    ensures AllocMessage(w, parts + [part]) ==
            PushString(AllocMessage(w, parts), w.messageCount, part, false).world
  {
    var n, m := |parts|, w.messageCount;
    var data := w.data + FreshData(w.zframeCount, parts);
    var frames := w.frames + FreshFrames(w.frameCount, n, w.zframeCount, m);
    FreshDataAppends(w.data, w.zframeCount, parts, part);
    FreshFramesAppend(w.frames, w.frameCount, n, w.zframeCount, m);
    assert From(w.zframeCount, n + 1) == From(w.zframeCount, n) + [w.zframeCount + n];
    assert From(w.frameCount, n + 1) == From(w.frameCount, n) + [w.frameCount + n];
    GrowOneMore(w, data, frames, From(w.zframeCount, n), From(w.frameCount, n), n, part);
  }

  /** What adding a string does to the message just made. */
  lemma GrowOneMore(w: World, data: map<nat, Bytes>, frames: map<nat, FrameW>,
                    zs: seq<nat>, fs: seq<nat>, n: nat, part: Bytes)
    ensures var z, f := w.zframeCount + n, w.frameCount + n;
            PushString(GrowBy(w, data, frames, zs, fs, n), w.messageCount, part, false).world ==
            GrowBy(w, data[z := part], frames[f := FrameW(Some(z), Some(w.messageCount), false)],
                   zs + [z], fs + [f], n + 1)
  {
    var z, f, m := w.zframeCount + n, w.frameCount + n, w.messageCount;
    assert frames[f := FrameW(Some(z), None, true)][f := FrameW(Some(z), Some(m), false)]
        == frames[f := FrameW(Some(z), Some(m), false)];
    assert w.messages[m := MessageW(Some(zs), Some(fs), true)][m := MessageW(Some(zs + [z]), Some(fs + [f]), true)]
        == w.messages[m := MessageW(Some(zs + [z]), Some(fs + [f]), true)];
  }

  lemma FreshDataAppends(old': map<nat, Bytes>, start: nat, parts: seq<Bytes>, part: Bytes)
    ensures old' + FreshData(start, parts + [part]) == (old' + FreshData(start, parts))[start + |parts| := part]
  {
    assert (parts + [part])[..|parts|] == parts;
    assert FreshData(start, parts + [part]) == FreshData(start, parts)[start + |parts| := part];
  }

  lemma FreshFramesAppend(old': map<nat, FrameW>, start: nat, n: nat, zframe: nat, m: nat)
    ensures old' + FreshFrames(start, n + 1, zframe, m) ==
            (old' + FreshFrames(start, n, zframe, m))[start + n := FrameW(Some(zframe + n), Some(m), false)]
  {
    assert FreshFrames(start, n + 1, zframe, m) ==
           FreshFrames(start, n, zframe, m)[start + n := FrameW(Some(zframe + n), Some(m), false)];
  }

  lemma PushStringKeepsInv(w: World, m: nat, bytes: Bytes, front: bool)
    requires Inv(w) && m in w.messages
    ensures Inv(PushString(w, m, bytes, front).world)
  {
    if w.messages[m].owned {
      AllocFrameKeepsInv(w, bytes);
      AttachKeepsInv(AllocFrame(w, bytes), m, w.frameCount, front);
    }
  }

  lemma {:induction false} AllocMessageKeepsInv(w: World, parts: seq<Bytes>)
    requires Inv(w)
    ensures Inv(AllocMessage(w, parts))
  {
    if parts == [] {
      AllocEmpty(w);
      AddEmptyMessageKeepsInv(w);
    } else {
      var front, last := parts[..|parts| - 1], parts[|parts| - 1];
      assert parts == front + [last];
      AllocMessageKeepsInv(w, front);
      AllocAppends(w, front, last);
      PushStringKeepsInv(AllocMessage(w, front), w.messageCount, last, false);
    }
  }
}
