/**
 The extension's own code: wrapper structs updated in place, two lists to a message, and guards over flag bits.
 Every method is proved to do exactly what the function of the same call in `OwnershipSteps` says.
 */
module OwnershipRuntime {
  import opened Lists
  import opened Wrappers
  import opened Ownership
  import D = OwnershipDiscipline
  import R = OwnershipRuns
  import S = OwnershipSteps
  import opened OwnershipMoves

  class FrameWrapper {
    const id: nat
    var frame: Option<nat>
    var message: MessageWrapper?
    var owned: bool

    constructor (id: nat, frame: nat)
      ensures this.id == id && this.frame == Some(frame) && message == null && owned
    {
      this.id := id;
      this.frame := Some(frame);
      message := null;
      owned := true;
    }

    ghost function Value(): FrameW
      reads this
    {
      FrameW(frame, if message == null then None else Some(message.id), owned)
    }
  }

  class MessageWrapper {
    const id: nat
    var message: Option<seq<nat>>
    var frames: Option<seq<FrameWrapper>>
    var owned: bool

    constructor (id: nat, zframes: seq<nat>)
      ensures this.id == id && message == Some(zframes) && frames == Some([]) && owned
    {
      this.id := id;
      message := Some(zframes);
      frames := Some([]);
      owned := true;
    }

    function Zframes(): seq<nat>
      reads this
    {
      match message case Some(zs) => zs case None => []
    }

    function List(): seq<FrameWrapper>
      reads this
    {
      match frames case Some(fs) => fs case None => []
    }

    ghost function Value(): MessageW
      reads this
    {
      MessageW(message, match frames case Some(fs) => Some(FrameIds(fs)) case None => None, owned)
    }
  }

  lemma FrameIdsOf(f: FrameWrapper, fs: seq<FrameWrapper>)
    ensures FrameIds([f] + fs) == [f.id] + FrameIds(fs)
    ensures FrameIds(fs + [f]) == FrameIds(fs) + [f.id]
    ensures FrameIds(S.Tail(fs)) == S.Tail(FrameIds(fs))
  {
  }

  function FrameIds(fs: seq<FrameWrapper>): (ids: seq<nat>)
    ensures |ids| == |fs| && forall i :: 0 <= i < |fs| ==> ids[i] == fs[i].id
  {
    Each((f: FrameWrapper) => f.id, fs)
  }

  /** The process: native memory, the wrappers the collector has not freed, and the handles the program holds.
      `world` is all of it as one value. */
  class Process {
    ghost var world: World

    var data: map<nat, Bytes>
    var freed: multiset<nat>
    var sent: multiset<nat>
    var frames: map<nat, FrameWrapper>
    var messages: map<nat, MessageWrapper>
    var heldFrames: set<nat>
    var heldMessages: set<nat>
    var zframeCount: nat
    var frameCount: nat
    var messageCount: nat

    constructor ()
      ensures Valid() && world == EMPTY_WORLD
    {
      data, freed, sent := map[], multiset{}, multiset{};
      frames, messages, heldFrames, heldMessages := map[], map[], {}, {};
      zframeCount, frameCount, messageCount := 0, 0, 0;
      world := EMPTY_WORLD;
    }

    ghost predicate Valid()
      reads this, frames.Values, messages.Values
    {
      && data == world.data && freed == world.freed && sent == world.sent
      && heldFrames == world.heldFrames && heldMessages == world.heldMessages
      && zframeCount == world.zframeCount && frameCount == world.frameCount && messageCount == world.messageCount
      && frames.Keys == world.frames.Keys && messages.Keys == world.messages.Keys
      && (forall i: nat {:trigger FrameAgrees(i)} :: i in frames ==> FrameAgrees(i))
      && (forall i: nat {:trigger MessageAgrees(i)} :: i in messages ==> MessageAgrees(i))
    }

    /** Every wrapper object that is there. */
    ghost function Objects(): set<object>
      reads this`frames, this`messages
    {
      (set i | i in frames :: frames[i] as object) + (set i | i in messages :: messages[i] as object)
    }

    /** The wrapper has the value the world gives it, and its back pointer is good. */
    ghost predicate FrameAgrees(i: nat)
      requires i in frames
      reads this, frames[i]
    {
      var f := frames[i];
      && i < frameCount && f.id == i && i in world.frames && f.Value() == world.frames[i]
      && (f.message != null ==> Points(f.message))
    }

    ghost predicate MessageAgrees(i: nat)
      requires i in messages
      reads this, messages[i]
    {
      var m := messages[i];
      && i < messageCount && m.id == i && i in world.messages && m.Value() == world.messages[i]
      && forall f :: f in m.List() ==> Lists(f)
    }

    /** A pointer goes to the wrapper of that id, unless that wrapper has been freed. */
    ghost predicate Points(m: MessageWrapper)
      reads this`messages, this`messageCount
    {
      m.id < messageCount && (m.id in messages ==> messages[m.id] == m)
    }

    ghost predicate Lists(f: FrameWrapper)
      reads this`frames, this`frameCount
    {
      f.id < frameCount && (f.id in frames ==> frames[f.id] == f)
    }

    predicate Has(f: FrameWrapper)
      reads this`frames
    {
      f.id in frames && frames[f.id] == f
    }

    predicate HasMessage(m: MessageWrapper)
      reads this`messages
    {
      m.id in messages && messages[m.id] == m
    }

    predicate Live(z: nat)
      reads this
    {
      z in data && freed[z] == 0 && sent[z] == 0
    }

    /** What the guards and the accessors read of a frame wrapper is what the world says. */
    lemma ReadFrame(f: FrameWrapper)
      requires Valid() && Has(f)
      ensures f.id in world.frames && f.Value() == world.frames[f.id]
      ensures Lists(f) && (f.message != null ==> Points(f.message))
    {
      assert FrameAgrees(f.id);
    }

    lemma ReadMessage(m: MessageWrapper)
      requires Valid() && HasMessage(m)
      ensures m.id in world.messages && m.Value() == world.messages[m.id]
      ensures m.Zframes() == world.Native(m.id) && FrameIds(m.List()) == world.Listed(m.id)
      ensures Points(m) && forall f :: f in m.List() ==> Lists(f)
    {
      assert MessageAgrees(m.id);
    }

    // -------------------------------------------------------------------------------------------------------
    // Struct writes and native calls, one at a time
    // -------------------------------------------------------------------------------------------------------

    method WriteFrame(f: FrameWrapper, frame: Option<nat>, message: MessageWrapper?, owned: bool)
      requires Valid() && Has(f) && (message != null ==> Points(message))
      modifies this`world, f
      ensures Valid() && f.frame == frame && f.message == message && f.owned == owned
      ensures world == S.SetFrame(old(world), f.id, f.Value())
    {
      f.frame, f.message, f.owned := frame, message, owned;
      world := S.SetFrame(world, f.id, f.Value());
      forall i: nat | i in frames ensures FrameAgrees(i) { assert old(FrameAgrees(i)); }
      forall i: nat | i in messages ensures MessageAgrees(i) { assert old(MessageAgrees(i)); }
    }

    method WriteMessage(m: MessageWrapper, message: Option<seq<nat>>, frames: Option<seq<FrameWrapper>>, owned: bool)
      requires Valid() && HasMessage(m) && (frames.Some? ==> forall f :: f in frames.value ==> Lists(f))
      modifies this`world, m
      ensures Valid() && m.message == message && m.frames == frames && m.owned == owned
      ensures world == S.SetMessage(old(world), m.id, m.Value())
    {
      m.message, m.frames, m.owned := message, frames, owned;
      world := S.SetMessage(world, m.id, m.Value());
      forall i: nat | i in this.frames ensures FrameAgrees(i) { assert old(FrameAgrees(i)); }
      forall i: nat | i in messages ensures MessageAgrees(i) { assert old(MessageAgrees(i)); }
    }

    /** zframe_new: a native frame with the given contents. */
    method ZframeNew(bytes: Bytes) returns (z: nat)
      requires Valid()
      modifies this`world, this`data, this`zframeCount
      ensures Valid() && z == old(zframeCount)
      ensures world == old(world).(data := old(world).data[z := bytes], zframeCount := z + 1)
    {
      z := zframeCount;
      data := data[z := bytes];
      zframeCount := z + 1;
      world := world.(data := data, zframeCount := zframeCount);
      forall i: nat | i in frames ensures FrameAgrees(i) { assert old(FrameAgrees(i)); }
      forall i: nat | i in messages ensures MessageAgrees(i) { assert old(MessageAgrees(i)); }
    }

    /** zframe_destroy, one after the other. */
    method ZframeDestroy(zs: seq<nat>)
      requires Valid()
      modifies this`world, this`freed
      ensures Valid() && world == S.Free(old(world), zs)
    {
      freed := freed + multiset(zs);
      world := S.Free(world, zs);
      forall i: nat | i in frames ensures FrameAgrees(i) { assert old(FrameAgrees(i)); }
      forall i: nat | i in messages ensures MessageAgrees(i) { assert old(MessageAgrees(i)); }
    }

    /** zframe_send and zmsg_send take these zframes. */
    method ZframeSend(zs: seq<nat>)
      requires Valid()
      modifies this`world, this`sent
      ensures Valid() && world == S.HandOver(old(world), zs)
    {
      sent := sent + multiset(zs);
      world := S.HandOver(world, zs);
      forall i: nat | i in frames ensures FrameAgrees(i) { assert old(FrameAgrees(i)); }
      forall i: nat | i in messages ensures MessageAgrees(i) { assert old(MessageAgrees(i)); }
    }

    /** zframe_reset */
    method ZframeReset(z: nat, bytes: Bytes)
      requires Valid() && z in data
      modifies this`world, this`data
      ensures Valid() && world == old(world).(data := old(world).data[z := bytes])
    {
      data := data[z := bytes];
      world := world.(data := data);
      forall i: nat | i in frames ensures FrameAgrees(i) { assert old(FrameAgrees(i)); }
      forall i: nat | i in messages ensures MessageAgrees(i) { assert old(MessageAgrees(i)); }
    }

    /** The program comes to hold these frame objects. */
    method Hold(fs: set<nat>)
      requires Valid()
      modifies this`world, this`heldFrames
      ensures Valid() && world == S.Hold(old(world), fs)
    {
      heldFrames := heldFrames + fs;
      world := S.Hold(world, fs);
      forall i: nat | i in frames ensures FrameAgrees(i) { assert old(FrameAgrees(i)); }
      forall i: nat | i in messages ensures MessageAgrees(i) { assert old(MessageAgrees(i)); }
    }

    method HoldMessage(m: nat)
      requires Valid()
      modifies this`world, this`heldMessages
      ensures Valid() && world == old(world).(heldMessages := old(world).heldMessages + {m})
    {
      heldMessages := heldMessages + {m};
      world := world.(heldMessages := heldMessages);
      forall i: nat | i in frames ensures FrameAgrees(i) { assert old(FrameAgrees(i)); }
      forall i: nat | i in messages ensures MessageAgrees(i) { assert old(MessageAgrees(i)); }
    }

    /** xfree of a wrapper struct. */
    method EraseFrame(f: FrameWrapper)
      requires Valid() && Has(f)
      modifies this`world, this`frames
      ensures Valid() && world == old(world).(frames := old(world).frames - {f.id})
      ensures fresh(Objects() - old(Objects()))
    {
      frames := frames - {f.id};
      world := world.(frames := world.frames - {f.id});
      forall i: nat | i in frames ensures FrameAgrees(i) { assert old(FrameAgrees(i)); }
      forall i: nat | i in messages ensures MessageAgrees(i) { assert old(MessageAgrees(i)); }
    }

    method EraseMessage(m: MessageWrapper)
      requires Valid() && HasMessage(m)
      modifies this`world, this`messages
      ensures Valid() && world == old(world).(messages := old(world).messages - {m.id})
      ensures fresh(Objects() - old(Objects()))
    {
      messages := messages - {m.id};
      world := world.(messages := world.messages - {m.id});
      forall i: nat | i in frames ensures FrameAgrees(i) { assert old(FrameAgrees(i)); }
      forall i: nat | i in messages ensures MessageAgrees(i) { assert old(MessageAgrees(i)); }
    }

    // -------------------------------------------------------------------------------------------------------
    // The guards of frame.h
    // -------------------------------------------------------------------------------------------------------

    method Guard(f: FrameWrapper) returns (g: S.Guard)
      requires Valid() && Has(f)
      ensures g == S.FrameGuard(world, f.id)
    {
      ReadFrame(f);
      if f.owned { return S.Pass; }
      if f.message == null { return S.Deny; }
      if f.message.id !in messages { return S.Dangling; }
      ReadMessage(f.message);
      return if f.message.owned then S.Pass else S.Deny;
    }

    /** zframe_data and zframe_size: the pointer is followed. */
    method Read(f: FrameWrapper) returns (r: S.Outcome)
      requires Valid() && Has(f)
      ensures r == S.Read(world, f.id)
    {
      ReadFrame(f);
      if f.frame.None? { return S.Fault(S.NullPointer); }
      var z := f.frame.value;
      if !Live(z) { return S.Fault(S.UseAfterFree); }
      return S.Return(S.Str(data[z]));
    }

    // -------------------------------------------------------------------------------------------------------
    // frame.c
    // -------------------------------------------------------------------------------------------------------

    /** rb_czmq_alloc_frame */
    method AllocFrame(z: nat) returns (f: FrameWrapper)
      requires Valid() && z in data
      modifies this`world, this`frames, this`frameCount
      ensures Valid() && fresh(f) && Has(f) && f.id == old(frameCount) && frameCount == old(frameCount) + 1
      ensures f.message == null && f.owned && f.frame == Some(z) && frames == old(frames)[f.id := f]
      ensures world == old(world).(frames := old(world).frames[f.id := FrameW(Some(z), None, true)],
                                   frameCount := old(world).frameCount + 1)
      ensures fresh(Objects() - old(Objects()))
    {
      f := new FrameWrapper(frameCount, z);
      frames := frames[f.id := f];
      frameCount := frameCount + 1;
      world := world.(frames := world.frames[f.id := f.Value()], frameCount := frameCount);
      forall i: nat | i in frames ensures FrameAgrees(i) { if i != f.id { assert old(FrameAgrees(i)); } }
      forall i: nat | i in messages ensures MessageAgrees(i) { assert old(MessageAgrees(i)); }
    }

    /** A new zframe and its wrapper. */
    method AllocNew(bytes: Bytes) returns (f: FrameWrapper)
      requires Valid()
      modifies this`world, this`data, this`zframeCount, this`frames, this`frameCount
      ensures Valid() && world == S.AllocFrame(old(world), bytes)
      ensures fresh(f) && Has(f) && f.id == old(frameCount) && f.frame.Some? && frames == old(frames)[f.id := f]
      ensures fresh(Objects() - old(Objects()))
    {
      var z := ZframeNew(bytes);
      f := AllocFrame(z);
    }

    method NewFrame(bytes: Bytes) returns (r: S.Outcome)
      requires Valid()
      modifies this
      ensures Valid() && S.Step(world, r) == S.NewFrame(old(world), bytes)
      ensures fresh(Objects() - old(Objects()))
    {
      var f := AllocNew(bytes);
      Hold({f.id});
      return S.Return(S.FrameRef(f.id));
    }

    /** rb_czmq_free_frame */
    method FreeFrame(f: FrameWrapper)
      requires Valid() && Has(f)
      modifies this`world, this`freed, f
      ensures Valid() && world == S.FreeFrame(old(world), f.id)
    {
      ReadFrame(f);
      if f.frame.Some? && f.owned {
        ZframeDestroy([f.frame.value]);
        WriteFrame(f, f.frame, f.message, false);
      }
      ghost var w := world;
      ReadFrame(f);
      WriteFrame(f, None, f.message, f.owned);
      assert w.frames[f.id := f.Value()] == old(world).frames[f.id := f.Value()];
    }

    /** rb_czmq_free_frame_gc */
    method FinalizeFrame(f: FrameWrapper)
      requires Valid() && Has(f)
      modifies this`world, this`freed, this`frames, f
      ensures Valid() && world == S.FinalizeFrame(old(world), f.id)
      ensures fresh(Objects() - old(Objects()))
    {
      FreeFrame(f);
      EraseFrame(f);
    }

    method DestroyFrame(f: FrameWrapper) returns (r: S.Outcome)
      requires Valid() && Has(f)
      modifies this`world, this`freed, f
      ensures Valid() && S.Step(world, r) == S.DestroyFrame(old(world), f.id)
    {
      var g := Guard(f);
      if g == S.Dangling { return S.Fault(S.UseAfterFree); }
      if g == S.Deny { return S.Raise(S.ZmqError); }
      FreeFrame(f);
      return S.Return(S.Nil);
    }

    method FrameData(f: FrameWrapper) returns (r: S.Outcome)
      requires Valid() && Has(f)
      ensures S.Step(world, r) == S.FrameData(world, f.id)
    {
      var g := Guard(f);
      if g == S.Dangling { return S.Fault(S.UseAfterFree); }
      if g == S.Deny { return S.Return(S.Nil); }
      r := Read(f);
    }

    method DupFrame(f: FrameWrapper) returns (r: S.Outcome)
      requires Valid() && Has(f)
      modifies this
      ensures Valid() && S.Step(world, r) == S.DupFrame(old(world), f.id)
      ensures fresh(Objects() - old(Objects()))
    {
      var g := Guard(f);
      if g == S.Dangling { return S.Fault(S.UseAfterFree); }
      if g == S.Deny { return S.Raise(S.ZmqError); }
      r := Read(f);
      if r.Return? && r.value.Str? { r := NewFrame(r.value.s); }
    }

    method ResetFrame(f: FrameWrapper, bytes: Bytes) returns (r: S.Outcome)
      requires Valid() && Has(f)
      modifies this`world, this`data
      ensures Valid() && S.Step(world, r) == S.ResetFrame(old(world), f.id, bytes)
    {
      var g := Guard(f);
      if g == S.Dangling { return S.Fault(S.UseAfterFree); }
      if g == S.Deny { return S.Raise(S.ZmqError); }
      r := Read(f);
      if r.Return? {
        ReadFrame(f);
        ZframeReset(f.frame.value, bytes);
        r := S.Return(S.Nil);
      }
    }

    method FrameGone(f: FrameWrapper) returns (r: S.Outcome)
      requires Valid() && Has(f)
      ensures S.Step(world, r) == S.FrameGone(world, f.id)
    {
      var g := Guard(f);
      if g == S.Dangling { return S.Fault(S.UseAfterFree); }
      return S.Return(S.Bool(g == S.Deny));
    }

    method CompareFrames(f: FrameWrapper, g: FrameWrapper) returns (r: S.Outcome)
      requires Valid() && Has(f) && Has(g)
      ensures S.Step(world, r) == S.CompareFrames(world, f.id, g.id)
    {
      if f == g { return S.Return(S.Num(0)); }
      ReadFrame(g);
      var guard := Guard(f);
      if guard == S.Dangling { return S.Fault(S.UseAfterFree); }
      if guard == S.Deny { return S.Raise(S.ZmqError); }
      if g.frame.None? { return S.Raise(S.TypeError); }
      r := Read(f);
      if r.Return? {
        var size := |r.value.s|;
        r := Read(g);
        if r.Return? { r := S.Return(S.Num(S.CompareSizes(size, |r.value.s|))); }
      }
    }

    // -------------------------------------------------------------------------------------------------------
    // message.c
    // -------------------------------------------------------------------------------------------------------

    /** rb_czmq_free_message */
    method FreeMessage(m: MessageWrapper)
      requires Valid() && HasMessage(m)
      modifies this`world, this`freed, m
      ensures Valid() && world == S.FreeMessage(old(world), m.id)
    {
      ReadMessage(m);
      if m.owned {
        ZframeDestroy(m.Zframes());
      }
      WriteMessage(m, None, None, false);
    }

    /** rb_czmq_free_message_gc */
    method FinalizeMessage(m: MessageWrapper)
      requires Valid() && HasMessage(m)
      modifies this`world, this`freed, this`messages, m
      ensures Valid() && world == S.FinalizeMessage(old(world), m.id)
      ensures fresh(Objects() - old(Objects()))
    {
      FreeMessage(m);
      EraseMessage(m);
    }

    /** rb_czmq_mark_message: what the collector must not take while this message is reachable. */
    method Mark(m: MessageWrapper) returns (marked: set<nat>)
      requires Valid() && HasMessage(m)
      ensures marked == set f | f in world.Listed(m.id)
    {
      ReadMessage(m);
      marked := {};
      var list, i := m.List(), 0;
      while i < |list|
        invariant 0 <= i <= |list|
        invariant marked == set f | f in FrameIds(list)[..i]
      {
        assert FrameIds(list)[..i + 1] == FrameIds(list)[..i] + [list[i].id];
        marked := marked + {list[i].id};
        i := i + 1;
      }
      assert FrameIds(list)[..i] == FrameIds(list);
    }

    method Push(m: MessageWrapper, f: FrameWrapper, front: bool) returns (r: S.Outcome)
      requires Valid() && HasMessage(m) && Has(f)
      modifies this`world, m, f
      ensures Valid() && S.Step(world, r) == S.Push(old(world), m.id, f.id, front)
    {
      ReadMessage(m);
      ReadFrame(f);
      if !m.owned { return S.Raise(S.TypeError); }
      if !f.owned { return S.Raise(S.ZmqError); }
      if f.frame.None? { return S.Fault(S.NullPointer); }
      Attach(m, f, front);
      return S.Return(S.Bool(true));
    }

    /** The common tail of push, add, pushstr, addstr and wrap. */
    method Attach(m: MessageWrapper, f: FrameWrapper, front: bool)
      requires Valid() && HasMessage(m) && Has(f) && f.frame.Some?
      modifies this`world, m, f
      ensures Valid() && old(f.id in world.frames && m.id in world.messages && world.frames[f.id].frame.Some?)
      ensures world == S.Attach(old(world), m.id, f.id, front)
      ensures unchanged(this`messages) && f.frame == old(f.frame) && m.owned == old(m.owned)
    {
      ReadMessage(m);
      ReadFrame(f);
      FrameIdsOf(f, m.List());
      var z := f.frame.value;
      WriteFrame(f, f.frame, m, false);
      ReadMessage(m);
      if front {
        WriteMessage(m, Some([z] + m.Zframes()), Some([f] + m.List()), m.owned);
      } else {
        WriteMessage(m, Some(m.Zframes() + [z]), Some(m.List() + [f]), m.owned);
      }
    }

    method PushString(m: MessageWrapper, bytes: Bytes, front: bool) returns (r: S.Outcome)
      requires Valid() && HasMessage(m)
      modifies this, m
      ensures Valid() && S.Step(world, r) == S.PushString(old(world), m.id, bytes, front)
      ensures unchanged(this`messages) && unchanged(this`heldMessages) && m.owned == old(m.owned)
      ensures fresh(Objects() - old(Objects()))
    {
      ReadMessage(m);
      if !m.owned { return S.Raise(S.TypeError); }
      var f := AllocNew(bytes);
      Attach(m, f, front);
      return S.Return(S.Bool(true));
    }

    method Pop(m: MessageWrapper) returns (r: S.Outcome)
      requires Valid() && HasMessage(m)
      modifies this`world, this`heldFrames, m, frames.Values
      ensures Valid() && S.Step(world, r) == S.Pop(old(world), m.id)
    {
      ReadMessage(m);
      if !m.owned { return S.Raise(S.TypeError); }
      if m.Zframes() == [] { return S.Return(S.Nil); }
      var list := m.List();
      if list != [] { FrameIdsOf(list[0], list); }
      WriteMessage(m, Some(m.Zframes()[1..]), Some(S.Tail(list)), m.owned);
      r := GiveBack(list);
    }

    /** zlist_pop, and the frame object that comes off the list takes its zframe back. */
    method GiveBack(list: seq<FrameWrapper>) returns (r: S.Outcome)
      requires Valid() && forall f :: f in list ==> Lists(f)
      modifies this`world, this`heldFrames, frames.Values
      ensures Valid() && S.Step(world, r) == S.GiveBack(old(world), FrameIds(list))
    {
      if list == [] { return S.Raise(S.TypeError); }
      var f := list[0];
      assert f in list;
      if f.id !in frames { return S.Fault(S.UseAfterFree); }
      ReadFrame(f);
      WriteFrame(f, f.frame, null, true);
      Hold({f.id});
      return S.Return(S.FrameRef(f.id));
    }

    method Remove(m: MessageWrapper, f: FrameWrapper) returns (r: S.Outcome)
      requires Valid() && HasMessage(m) && Has(f)
      modifies this`world, m, f
      ensures Valid() && S.Step(world, r) == S.Remove(old(world), m.id, f.id)
    {
      ReadMessage(m);
      ReadFrame(f);
      if !m.owned { return S.Raise(S.TypeError); }
      var zs := if f.frame.Some? then RemoveFirst(m.Zframes(), f.frame.value) else m.Zframes();
      RemoveFirstIds(m.List(), f);
      WriteMessage(m, Some(zs), Some(RemoveFirst(m.List(), f)), m.owned);
      ReadFrame(f);
      WriteFrame(f, f.frame, null, true);
      return S.Return(S.Nil);
    }

    method PopString(m: MessageWrapper) returns (r: S.Outcome)
      requires Valid() && HasMessage(m)
      modifies this`world, this`freed, m
      ensures Valid() && S.Step(world, r) == S.PopString(old(world), m.id)
    {
      ReadMessage(m);
      if !m.owned { return S.Raise(S.TypeError); }
      var zs := m.Zframes();
      if zs == [] { return S.Return(S.Nil); }
      if !Live(zs[0]) { return S.Fault(S.UseAfterFree); }
      var text := S.CString(data[zs[0]]);
      DropFront(m);
      return S.Return(S.Str(text));
    }

    /** The first zframe is popped and destroyed, and the first frame object leaves the list. */
    method DropFront(m: MessageWrapper)
      requires Valid() && HasMessage(m) && m.Zframes() != []
      modifies this`world, this`freed, m
      ensures Valid() && old(m.id in world.messages && world.Native(m.id) != [])
      ensures world == S.DropFront(old(world), m.id)
      ensures m.frames == Some(S.Tail(old(m.List()))) && m.owned == old(m.owned)
    {
      ReadMessage(m);
      var list := m.List();
      if list != [] { FrameIdsOf(list[0], list); }
      ZframeDestroy([m.Zframes()[0]]);
      WriteMessage(m, Some(m.Zframes()[1..]), Some(S.Tail(list)), m.owned);
    }

    method Wrap(m: MessageWrapper, f: FrameWrapper) returns (r: S.Outcome)
      requires Valid() && HasMessage(m) && Has(f)
      modifies this, m, f
      ensures Valid() && S.Step(world, r) == S.Wrap(old(world), m.id, f.id)
      ensures fresh(Objects() - old(Objects()))
    {
      ReadMessage(m);
      ReadFrame(f);
      if !m.owned { return S.Raise(S.TypeError); }
      var g := Guard(f);
      if g == S.Dangling { return S.Fault(S.UseAfterFree); }
      if g == S.Deny { return S.Raise(S.ZmqError); }
      if f.frame.None? { return S.Fault(S.NullPointer); }
      Enclose(m, f);
      return S.Return(S.Nil);
    }

    method Enclose(m: MessageWrapper, f: FrameWrapper)
      requires Valid() && HasMessage(m) && Has(f) && f.frame.Some?
      modifies this, m, f
      ensures Valid() && old(f.id in world.frames && m.id in world.messages && world.frames[f.id].frame.Some?)
      ensures world == S.Enclose(old(world), m.id, f.id)
      ensures fresh(Objects() - old(Objects()))
    {
      ReadMessage(m);
      ReadFrame(f);
      var empty := AllocNew([]);
      Attach(m, empty, true);
      Attach(m, f, true);
    }

    method Unwrap(m: MessageWrapper) returns (r: S.Outcome)
      requires Valid() && HasMessage(m)
      modifies this`world, this`freed, this`heldFrames, m, frames.Values
      ensures Valid() && S.Step(world, r) == S.Unwrap(old(world), m.id)
    {
      ReadMessage(m);
      if !m.owned { return S.Raise(S.TypeError); }
      var zs, list := m.Zframes(), m.List();
      if |zs| < 2 { return S.Fault(S.NullPointer); }
      if !Live(zs[1]) { return S.Fault(S.UseAfterFree); }
      if list != [] { FrameIdsOf(list[0], list); }
      WriteMessage(m, Some(zs[1..]), Some(S.Tail(list)), m.owned);
      ghost var popped := world;
      if data[zs[1]] == [] {
        DropFront(m);
        assert world == S.DropFront(popped, m.id);
      }
      r := GiveBack(list);
    }

    /** The native frames of a message, copied. */
    method CopyParts(m: MessageWrapper) returns (parts: Option<seq<Bytes>>)
      requires Valid() && HasMessage(m)
      ensures parts == S.Contents(world, world.Native(m.id))
    {
      ReadMessage(m);
      var zs := m.Zframes();
      var copied: seq<Bytes>, i := [], |zs|;
      while i > 0
        invariant 0 <= i <= |zs|
        invariant S.Contents(world, zs[i..]) == Some(copied)
      {
        i := i - 1;
        assert zs[i..][1..] == zs[i + 1..];
        if !Live(zs[i]) {
          BadPart(zs, i);
          return None;
        }
        copied := [data[zs[i]]] + copied;
      }
      assert zs[0..] == zs;
      return Some(copied);
    }

    lemma {:induction false} BadPart(zs: seq<nat>, i: nat)
      requires Valid() && i < |zs| && !Live(zs[i])
      ensures S.Contents(world, zs) == None
    {
      if i > 0 {
        BadPart(zs[1..], i - 1);
      }
    }

    method DupMessage(m: MessageWrapper) returns (r: S.Outcome)
      requires Valid() && HasMessage(m)
      modifies this
      ensures Valid() && S.Step(world, r) == S.DupMessage(old(world), m.id)
      ensures fresh(Objects() - old(Objects()))
    {
      ReadMessage(m);
      if !m.owned { return S.Raise(S.TypeError); }
      var parts := CopyParts(m);
      if parts.None? { return S.Fault(S.UseAfterFree); }
      r := NewMessage(parts.value);
    }

    method DestroyMessage(m: MessageWrapper) returns (r: S.Outcome)
      requires Valid() && HasMessage(m)
      modifies this`world, this`freed, m
      ensures Valid() && S.Step(world, r) == S.DestroyMessage(old(world), m.id)
    {
      ReadMessage(m);
      if !m.owned { return S.Raise(S.TypeError); }
      FreeMessage(m);
      return S.Return(S.Nil);
    }

    method MessageSize(m: MessageWrapper) returns (r: S.Outcome)
      requires Valid() && HasMessage(m)
      ensures S.Step(world, r) == S.MessageSize(world, m.id)
    {
      ReadMessage(m);
      return S.Return(if m.owned then S.Num(|m.Zframes()|) else S.Nil);
    }

    method MessageGone(m: MessageWrapper) returns (r: S.Outcome)
      requires Valid() && HasMessage(m)
      ensures S.Step(world, r) == S.MessageGone(world, m.id)
    {
      ReadMessage(m);
      return S.Return(S.Bool(!m.owned));
    }

    method MessageToArray(m: MessageWrapper) returns (r: S.Outcome)
      requires Valid() && HasMessage(m)
      modifies this`world, this`heldFrames
      ensures Valid() && S.Step(world, r) == S.MessageToArray(old(world), m.id)
    {
      ReadMessage(m);
      if !m.owned { return S.Raise(S.TypeError); }
      var list, i, ary, held := m.List(), 0, [], {};
      while i < |list|
        invariant 0 <= i <= |list|
        invariant ary == FrameIds(list)[..i] && held == set f | f in ary
      {
        ary, held, i := ary + [list[i].id], held + {list[i].id}, i + 1;
      }
      assert FrameIds(list)[..i] == FrameIds(list);
      Hold(held);
      return S.Return(S.FrameRefs(ary));
    }

    /** rb_czmq_alloc_message: the native message is there, and the loop makes one wrapper for each of its zframes. */
    method AllocMessage(parts: seq<Bytes>) returns (m: MessageWrapper)
      requires Valid()
      modifies this
      ensures Valid() && fresh(m) && HasMessage(m) && m.owned && m.id == old(messageCount)
      ensures heldMessages == old(heldMessages) && world == S.AllocMessage(old(world), parts)
      ensures fresh(Objects() - old(Objects()))
    {
      ghost var w := world;
      var zs;
      m, zs := BeginMessage(parts);
      ghost var rounds := Rounds(w, parts);
      WrapAll(m, zs, rounds);
      WrapEnd(w, parts);
    }

    /** A native message and an owned wrapper without frame objects as yet. */
    method BeginMessage(parts: seq<Bytes>) returns (m: MessageWrapper, zs: seq<nat>)
      requires Valid()
      modifies this
      ensures Valid() && fresh(m) && HasMessage(m) && m.owned && m.id == old(messageCount)
      ensures zs == S.From(old(zframeCount), |parts|) && world == Wrapped(old(world), parts, 0)
      ensures heldMessages == old(heldMessages) && fresh(Objects() - old(Objects()))
    {
      ghost var w := world;
      zs := NativeMessage(parts);
      m := NewMessageWrapper(zs);
      WrapStart(w, parts, world);
    }

    /** The loop over the zframes of a native message; `rounds` are the states it goes through. */
    method WrapAll(m: MessageWrapper, zs: seq<nat>, ghost rounds: seq<World>)
      requires Valid() && HasMessage(m) && |rounds| == |zs| + 1 && world == rounds[0]
      requires forall i :: 0 <= i < |zs| ==> IsRound(rounds[i], m.id, zs[i], rounds[i + 1])
      modifies this`world, this`frames, this`frameCount, m
      ensures Valid() && m.owned == old(m.owned) && world == rounds[|zs|]
      ensures fresh(Objects() - old(Objects()))
    {
      var i := 0;
      while i < |zs|
        invariant 0 <= i <= |zs| && Valid() && m.owned == old(m.owned)
        invariant world == rounds[i] && fresh(Objects() - old(Objects()))
      {
        assert IsRound(rounds[i], m.id, zs[i], rounds[i + 1]);
        WrapZframe(m, zs[i]);
        i := i + 1;
      }
    }

    /** One round: a wrapper for the zframe, which gives it up to the message at once. */
    method WrapZframe(m: MessageWrapper, z: nat)
      requires Valid() && HasMessage(m) && z in data
      modifies this`world, this`frames, this`frameCount, m
      ensures Valid() && m.owned == old(m.owned) && old(m.id in world.messages)
      ensures world == WrapOne(old(world), m.id, z)
      ensures fresh(Objects() - old(Objects()))
    {
      ReadMessage(m);
      var f := AllocFrame(z);
      FrameIdsOf(f, m.List());
      WriteFrame(f, f.frame, m, false);
      ReadMessage(m);
      ReadFrame(f);
      WriteMessage(m, m.message, Some(m.List() + [f]), m.owned);
    }

    /** zmsg_recv, zmsg_decode and zmsg_dup: a native message appears. */
    method NativeMessage(parts: seq<Bytes>) returns (zs: seq<nat>)
      requires Valid()
      modifies this`world, this`data, this`zframeCount
      ensures Valid() && zs == S.From(old(zframeCount), |parts|)
      ensures world == old(world).(data := old(world).data + S.FreshData(old(zframeCount), parts),
                                   zframeCount := old(zframeCount) + |parts|)
    {
      zs := S.From(zframeCount, |parts|);
      data := data + S.FreshData(zframeCount, parts);
      zframeCount := zframeCount + |parts|;
      world := world.(data := data, zframeCount := zframeCount);
      forall i: nat | i in frames ensures FrameAgrees(i) { assert old(FrameAgrees(i)); }
      forall i: nat | i in messages ensures MessageAgrees(i) { assert old(MessageAgrees(i)); }
    }

    method NewMessageWrapper(zs: seq<nat>) returns (m: MessageWrapper)
      requires Valid()
      modifies this`world, this`messages, this`messageCount
      ensures Valid() && fresh(m) && HasMessage(m) && m.id == old(messageCount)
      ensures m.owned && m.message == Some(zs) && m.frames == Some([])
      ensures world == old(world).(messages := old(world).messages[m.id := MessageW(Some(zs), Some([]), true)],
                                   messageCount := m.id + 1)
      ensures fresh(Objects() - old(Objects()))
    {
      m := new MessageWrapper(messageCount, zs);
      messages := messages[m.id := m];
      messageCount := messageCount + 1;
      assert FrameIds([]) == [];
      world := world.(messages := world.messages[m.id := m.Value()], messageCount := messageCount);
      forall i: nat | i in frames ensures FrameAgrees(i) { assert old(FrameAgrees(i)); }
      forall i: nat | i in messages ensures MessageAgrees(i) { if i != m.id { assert old(MessageAgrees(i)); } }
    }

    method NewMessage(parts: seq<Bytes>) returns (r: S.Outcome)
      requires Valid()
      modifies this
      ensures Valid() && S.Step(world, r) == S.NewMessage(old(world), parts)
      ensures fresh(Objects() - old(Objects()))
    {
      var m := AllocMessage(parts);
      HoldMessage(m.id);
      return S.Return(S.MessageRef(m.id));
    }

    // -------------------------------------------------------------------------------------------------------
    // lib/zmq.rb
    // -------------------------------------------------------------------------------------------------------

    /** ZMQ::Message(*parts) */
    method BuildMessage(parts: seq<Bytes>) returns (m: MessageWrapper)
      requires Valid()
      modifies this
      ensures Valid() && m.id == old(messageCount)
      ensures world == S.NewMessage(old(world), parts).world
      ensures fresh(Objects() - old(Objects()))
    {
      ghost var w := world;
      m := AllocMessage([]);
      AddAll(m, w, parts);
      HoldMessage(m.id);
    }

    /** One addstr for each part. */
    method AddAll(m: MessageWrapper, ghost w: World, parts: seq<Bytes>)
      requires Valid() && HasMessage(m) && m.owned && m.id == w.messageCount && world == S.AllocMessage(w, [])
      modifies this, m
      ensures Valid() && HasMessage(m) && world == S.AllocMessage(w, parts)
      ensures unchanged(this`messages) && fresh(Objects() - old(Objects()))
    {
      var i := 0;
      while i < |parts|
        invariant 0 <= i <= |parts| && Valid() && HasMessage(m) && m.owned
        invariant messages == old(messages) && fresh(Objects() - old(Objects()))
        invariant world == S.AllocMessage(w, parts[..i])
      {
        BuildRound(w, parts, i);
        var r := PushString(m, parts[i], false);
        i := i + 1;
      }
      assert parts[..i] == parts;
    }

    // -------------------------------------------------------------------------------------------------------
    // socket.c
    // -------------------------------------------------------------------------------------------------------

    method SendFrame(f: FrameWrapper, open: bool, reuse: bool, verdict: Verdict) returns (r: S.Outcome)
      requires Valid() && Has(f)
      modifies this`world, this`sent, f
      ensures Valid() && S.Step(world, r) == S.SendFrame(old(world), f.id, open, reuse, verdict)
    {
      ReadFrame(f);
      if !open { return S.Raise(S.ZmqError); }
      if !f.owned { return S.Raise(S.ZmqError); }
      r := Read(f);
      if r.Return? {
        if verdict.TryAgain? { return S.Return(S.Bool(false)); }
        if verdict.Failed? { return S.Raise(S.SysError); }
        if !reuse {
          ZframeSend([f.frame.value]);
          WriteFrame(f, f.frame, f.message, false);
        }
        return S.Return(S.Bool(true));
      }
    }

    method SendMessage(m: MessageWrapper, open: bool, taken: nat, left: nat) returns (r: S.Outcome)
      requires Valid() && HasMessage(m)
      modifies this`world, this`sent, this`freed, m
      ensures Valid() && S.Step(world, r) == S.SendMessage(old(world), m.id, open, taken, left)
    {
      ReadMessage(m);
      if !open { return S.Raise(S.ZmqError); }
      if !m.owned { return S.Raise(S.TypeError); }
      var zs := m.Zframes();
      var sent := S.Min(taken, |zs|);
      ZframeSend(zs[..sent]);
      ZframeDestroy(zs[S.Min(sent + left, |zs|)..]);
      ReadMessage(m);
      WriteMessage(m, None, m.frames, false);
      return S.Return(S.Nil);
    }

    method RecvFrame(open: bool, received: Option<Bytes>) returns (r: S.Outcome)
      requires Valid()
      modifies this
      ensures Valid() && S.Step(world, r) == S.RecvFrame(old(world), open, received)
      ensures fresh(Objects() - old(Objects()))
    {
      if !open { return S.Raise(S.ZmqError); }
      if received.None? { return S.Return(S.Nil); }
      r := NewFrame(received.value);
    }

    method RecvMessage(open: bool, received: Option<seq<Bytes>>) returns (r: S.Outcome)
      requires Valid()
      modifies this
      ensures Valid() && S.Step(world, r) == S.RecvMessage(old(world), open, received)
      ensures fresh(Objects() - old(Objects()))
    {
      if !open { return S.Raise(S.ZmqError); }
      if received.None? { return S.Return(S.Nil); }
      r := NewMessage(received.value);
    }

    // -------------------------------------------------------------------------------------------------------
    // Runs of calls
    // -------------------------------------------------------------------------------------------------------

    /** The program forgets handles. */
    method Drop(fs: set<nat>, ms: set<nat>)
      requires Valid()
      modifies this`world, this`heldFrames, this`heldMessages
      ensures Valid()
      ensures world == old(world).(heldFrames := old(world).heldFrames - fs,
                                   heldMessages := old(world).heldMessages - ms)
    {
      heldFrames, heldMessages := heldFrames - fs, heldMessages - ms;
      world := world.(heldFrames := heldFrames, heldMessages := heldMessages);
      forall i: nat | i in frames ensures FrameAgrees(i) { assert old(FrameAgrees(i)); }
      forall i: nat | i in messages ensures MessageAgrees(i) { assert old(MessageAgrees(i)); }
    }

    function FrameAt(i: nat): (f: FrameWrapper)
      requires Valid() && i in frames
      reads this, frames.Values, messages.Values
      ensures Has(f) && f.id == i && f in Objects()
    {
      assert FrameAgrees(i);
      frames[i]
    }

    function MessageAt(i: nat): (m: MessageWrapper)
      requires Valid() && i in messages
      reads this, frames.Values, messages.Values
      ensures HasMessage(m) && m.id == i && m in Objects()
    {
      assert MessageAgrees(i);
      messages[i]
    }

    method PerformFrame(op: S.Op) returns (r: S.Outcome)
      requires Valid() && S.Enabled(world, op)
      requires op.OpDupFrame? || op.OpDestroyFrame? || op.OpFrameData? || op.OpResetFrame? || op.OpFrameGone?
            || op.OpCompareFrames? || op.OpSendFrame? || op.OpCollectFrame?
      modifies this, Objects()
      ensures Valid() && S.Step(world, r) == S.Do(old(world), op) && fresh(Objects() - old(Objects()))
    {
      var f := FrameAt(op.f);
      match op
      case OpDupFrame(_) => r := DupFrame(f);
      case OpDestroyFrame(_) => r := DestroyFrame(f);
      case OpFrameData(_) => r := FrameData(f);
      case OpResetFrame(_, bytes) => r := ResetFrame(f, bytes);
      case OpFrameGone(_) => r := FrameGone(f);
      case OpCompareFrames(_, g) => r := CompareFrames(f, FrameAt(g));
      case OpSendFrame(_, open, reuse, verdict) => r := SendFrame(f, open, reuse, verdict);
      case OpCollectFrame(_) => FinalizeFrame(f); r := S.Return(S.Nil);
    }

    method PerformEdit(op: S.Op) returns (r: S.Outcome)
      requires Valid() && S.Enabled(world, op)
      requires op.OpPop? || op.OpPushStr? || op.OpAddStr? || op.OpPopStr? || op.OpUnwrap?
      modifies this, Objects()
      ensures Valid() && S.Step(world, r) == S.Do(old(world), op) && fresh(Objects() - old(Objects()))
    {
      var m := MessageAt(op.m);
      match op
      case OpPop(_) => r := Pop(m);
      case OpPushStr(_, bytes) => r := PushString(m, bytes, true);
      case OpAddStr(_, bytes) => r := PushString(m, bytes, false);
      case OpPopStr(_) => r := PopString(m);
      case OpUnwrap(_) => r := Unwrap(m);
    }

    method PerformQuery(op: S.Op) returns (r: S.Outcome)
      requires Valid() && S.Enabled(world, op)
      requires op.OpDupMessage? || op.OpSize? || op.OpToArray? || op.OpMessageGone?
      modifies this, Objects()
      ensures Valid() && S.Step(world, r) == S.Do(old(world), op) && fresh(Objects() - old(Objects()))
    {
      var m := MessageAt(op.m);
      match op
      case OpDupMessage(_) => r := DupMessage(m);
      case OpSize(_) => r := MessageSize(m);
      case OpToArray(_) => r := MessageToArray(m);
      case OpMessageGone(_) => r := MessageGone(m);
    }

    method PerformRelease(op: S.Op) returns (r: S.Outcome)
      requires Valid() && S.Enabled(world, op)
      requires op.OpDestroyMessage? || op.OpSendMessage? || op.OpCollectMessage?
      modifies this, Objects()
      ensures Valid() && S.Step(world, r) == S.Do(old(world), op) && fresh(Objects() - old(Objects()))
    {
      var m := MessageAt(op.m);
      match op
      case OpDestroyMessage(_) => r := DestroyMessage(m);
      case OpSendMessage(_, open, taken, left) => r := SendMessage(m, open, taken, left);
      case OpCollectMessage(_) => FinalizeMessage(m); r := S.Return(S.Nil);
    }

    method PerformBoth(op: S.Op) returns (r: S.Outcome)
      requires Valid() && S.Enabled(world, op) && (op.OpPush? || op.OpAdd? || op.OpRemove? || op.OpWrap?)
      modifies this, Objects()
      ensures Valid() && S.Step(world, r) == S.Do(old(world), op) && fresh(Objects() - old(Objects()))
    {
      var m, f := MessageAt(op.m), FrameAt(op.f);
      match op
      case OpPush(_, _) => r := Push(m, f, true);
      case OpAdd(_, _) => r := Push(m, f, false);
      case OpRemove(_, _) => r := Remove(m, f);
      case OpWrap(_, _) => r := Wrap(m, f);
    }

    method PerformOther(op: S.Op) returns (r: S.Outcome)
      requires Valid() && S.Enabled(world, op)
      requires op.OpNewFrame? || op.OpNewMessage? || op.OpRecvFrame? || op.OpRecvMessage? || op.OpDropFrame?
            || op.OpDropMessage?
      modifies this
      ensures Valid() && S.Step(world, r) == S.Do(old(world), op) && fresh(Objects() - old(Objects()))
    {
      match op
      case OpNewFrame(bytes) => r := NewFrame(bytes);
      case OpNewMessage => r := NewMessage([]);
      case OpRecvFrame(open, received) => r := RecvFrame(open, received);
      case OpRecvMessage(open, received) => r := RecvMessage(open, received);
      case OpDropFrame(f) => Drop({f}, {}); r := S.Return(S.Nil);
      case OpDropMessage(m) => Drop({}, {m}); r := S.Return(S.Nil);
    }

    /** One call of the program, or one step of the collector, on the objects. */
    method Perform(op: S.Op) returns (r: S.Outcome)
      requires Valid() && S.Enabled(world, op)
      modifies this, Objects()
      ensures Valid() && S.Step(world, r) == S.Do(old(world), op) && fresh(Objects() - old(Objects()))
    {
      if op.OpPush? || op.OpAdd? || op.OpRemove? || op.OpWrap? {
        r := PerformBoth(op);
      } else if op.OpNewFrame? || op.OpNewMessage? || op.OpRecvFrame? || op.OpRecvMessage? || op.OpDropFrame?
                || op.OpDropMessage? {
        r := PerformOther(op);
      } else if op.OpDupFrame? || op.OpDestroyFrame? || op.OpFrameData? || op.OpResetFrame? || op.OpFrameGone?
                || op.OpCompareFrames? || op.OpSendFrame? || op.OpCollectFrame? {
        r := PerformFrame(op);
      } else if op.OpPop? || op.OpPushStr? || op.OpAddStr? || op.OpPopStr? || op.OpUnwrap? {
        r := PerformEdit(op);
      } else if op.OpDestroyMessage? || op.OpSendMessage? || op.OpCollectMessage? {
        r := PerformRelease(op);
      } else {
        r := PerformQuery(op);
      }
    }

    /** A disciplined run of calls, on the objects: they end in the state the run ends in, and no call reads a bad
        pointer. */
    method PerformAll(ops: seq<S.Op>) returns (outcomes: seq<S.Outcome>)
      requires Valid() && Inv(world) && R.GoodRun(world, ops)
      modifies this, Objects()
      ensures Valid() && world == R.Run(old(world), ops)
      ensures |outcomes| == |ops| && forall i :: 0 <= i < |ops| ==> !outcomes[i].Fault?
      decreases |ops|
    {
      if ops == [] { return []; }
      D.DisciplineSuffices(world, ops[0]);
      var first := Perform(ops[0]);
      var others := PerformAll(ops[1..]);
      outcomes := [first] + others;
    }
  }

  lemma BuildRound(w: World, parts: seq<Bytes>, i: nat)
    requires i < |parts|
    ensures w.messageCount in S.AllocMessage(w, parts[..i]).messages
    ensures S.PushString(S.AllocMessage(w, parts[..i]), w.messageCount, parts[i], false).world ==
            S.AllocMessage(w, parts[..i + 1])
  {
    AllocAppends(w, parts[..i], parts[i]);
    assert parts[..i + 1] == parts[..i] + [parts[i]];
  }

  /** Removing a frame object from a list removes its id from the list of ids. */
  lemma {:induction false} RemoveFirstIds(fs: seq<FrameWrapper>, f: FrameWrapper)
    requires forall g :: g in fs && g.id == f.id ==> g == f
    ensures FrameIds(RemoveFirst(fs, f)) == RemoveFirst(FrameIds(fs), f.id)
    ensures forall g :: g in RemoveFirst(fs, f) ==> g in fs
  {
    if fs != [] {
      assert fs[0] in fs;
      assert FrameIds(fs)[1..] == FrameIds(fs[1..]);
      RemoveFirstIds(fs[1..], f);
      FrameIdsOf(fs[0], RemoveFirst(fs[1..], f));
    }
  }

  /** The state after `i` rounds of the loop that wraps a native message. */
  ghost function Wrapped(w: World, parts: seq<Bytes>, i: nat): World {
    WrappedWith(w, parts, w.frames + S.FreshFrames(w.frameCount, i, w.zframeCount, w.messageCount),
                S.From(w.frameCount, i), i)
  }

  ghost function WrappedWith(w: World, parts: seq<Bytes>, frames: map<nat, FrameW>, fs: seq<nat>, i: nat): World {
    w.(data := w.data + S.FreshData(w.zframeCount, parts), frames := frames,
       messages := w.messages[w.messageCount := MessageW(Some(S.From(w.zframeCount, |parts|)), Some(fs), true)],
       zframeCount := w.zframeCount + |parts|, frameCount := w.frameCount + i, messageCount := w.messageCount + 1)
  }

  /** A new wrapper, first owning, then given to the message and listed. */
  ghost function WrapOne(w: World, m: nat, z: nat): World
    requires m in w.messages
  {
    var f := w.frameCount;
    w.(frames := w.frames[f := FrameW(Some(z), None, true)][f := FrameW(Some(z), Some(m), false)],
       messages := w.messages[m := MessageW(w.messages[m].message, Some(w.Listed(m) + [f]), w.messages[m].owned)],
       frameCount := f + 1)
  }

  lemma WrapStart(w: World, parts: seq<Bytes>, start: World)
    requires start == w.(data := w.data + S.FreshData(w.zframeCount, parts), zframeCount := w.zframeCount + |parts|,
                         messages := w.messages[w.messageCount :=
                           MessageW(Some(S.From(w.zframeCount, |parts|)), Some([]), true)],
                         messageCount := w.messageCount + 1)
    ensures start == Wrapped(w, parts, 0)
  {
    assert w.frames + S.FreshFrames(w.frameCount, 0, w.zframeCount, w.messageCount) == w.frames;
    assert S.From(w.frameCount, 0) == [];
  }

  lemma WrapEnd(w: World, parts: seq<Bytes>)
    ensures Wrapped(w, parts, |parts|) == S.AllocMessage(w, parts)
  {
  }

  lemma WrapRound(w: World, parts: seq<Bytes>, i: nat)
    requires i < |parts|
    ensures w.zframeCount + i in Wrapped(w, parts, i).data && w.messageCount in Wrapped(w, parts, i).messages
    ensures WrapOne(Wrapped(w, parts, i), w.messageCount, w.zframeCount + i) == Wrapped(w, parts, i + 1)
  {
    assert w.zframeCount + i in S.From(w.zframeCount, |parts|);
    FreshFramesAppend(w.frames, w.frameCount, i, w.zframeCount, w.messageCount);
    assert S.From(w.frameCount, i + 1) == S.From(w.frameCount, i) + [w.frameCount + i];
    WrapMore(w, parts, w.frames + S.FreshFrames(w.frameCount, i, w.zframeCount, w.messageCount),
             S.From(w.frameCount, i), i);
  }

  ghost predicate IsRound(w: World, m: nat, z: nat, w': World) {
    z in w.data && m in w.messages && WrapOne(w, m, z) == w'
  }

  lemma Rounds(w: World, parts: seq<Bytes>) returns (rounds: seq<World>)
    ensures |rounds| == |parts| + 1
    ensures rounds[0] == Wrapped(w, parts, 0) && rounds[|parts|] == Wrapped(w, parts, |parts|)
    ensures forall i :: 0 <= i < |parts| ==> IsRound(rounds[i], w.messageCount, w.zframeCount + i, rounds[i + 1])
  {
    rounds := seq(|parts| + 1, i requires 0 <= i <= |parts| => Wrapped(w, parts, i));
    forall i | 0 <= i < |parts| ensures IsRound(rounds[i], w.messageCount, w.zframeCount + i, rounds[i + 1]) {
      WrapRound(w, parts, i);
    }
  }

  lemma WrapMore(w: World, parts: seq<Bytes>, frames: map<nat, FrameW>, fs: seq<nat>, i: nat)
    ensures var before, f := WrappedWith(w, parts, frames, fs, i), w.frameCount + i;
            var attached := FrameW(Some(w.zframeCount + i), Some(w.messageCount), false);
            WrappedWith(w, parts, frames[f := attached], fs + [f], i + 1) ==
            WrapOne(before, w.messageCount, w.zframeCount + i)
  {
    var f, m, zs := w.frameCount + i, w.messageCount, S.From(w.zframeCount, |parts|);
    var attached := FrameW(Some(w.zframeCount + i), Some(m), false);
    assert frames[f := FrameW(Some(w.zframeCount + i), None, true)][f := attached] == frames[f := attached];
    assert w.messages[m := MessageW(Some(zs), Some(fs), true)][m := MessageW(Some(zs), Some(fs + [f]), true)]
        == w.messages[m := MessageW(Some(zs), Some(fs + [f]), true)];
  }
}
