/**
 The two worlds from which a native frame can be reached: Ruby `ZMQ::Frame` wrappers and native messages.

 A `World` holds every native frame ever made (a zframe), the wrapper structs that have not been garbage
 collected, and the handles the Ruby program still holds. Frames, wrappers and messages are named by numbers
 that are never used twice, so a pointer to freed memory is an id that is no longer in use.
 */
module Ownership {
  import opened Lists
  import opened Wrappers

  type Byte = b: int | 0 <= b < 256
  type Bytes = seq<Byte>

  /** `zmq_frame_wrapper`: the zframe pointer, the back pointer, and the ZMQ_FRAME_OWNED bit. */
  datatype FrameW = FrameW(frame: Option<nat>, message: Option<nat>, owned: bool)

  /** `zmq_message_wrapper`: the zframes of the native message, the list of Ruby frame objects (both lists
      in order), and the ZMQ_MESSAGE_OWNED bit. `message` is None for NULL and for the stale pointer that a
      send leaves behind; every use of that pointer is guarded by the bit. */
  datatype MessageW = MessageW(message: Option<seq<nat>>, frames: Option<seq<nat>>, owned: bool)

  datatype World = World(
    data: map<nat, Bytes>,          // contents of every zframe ever created
    freed: multiset<nat>,           // one entry for each time a zframe was freed
    sent: multiset<nat>,            // one entry for each time a zframe was handed to a socket
    frames: map<nat, FrameW>,       // frame wrappers that have not been collected
    messages: map<nat, MessageW>,   // message wrappers that have not been collected
    heldFrames: set<nat>,           // ZMQ::Frame objects the program can reach directly
    heldMessages: set<nat>,         // ZMQ::Message objects the program can reach
    zframeCount: nat,
    frameCount: nat,
    messageCount: nat)
  {
    /** Allocated and neither freed nor handed to a socket. */
    predicate Live(z: nat) {
      z in data && freed[z] == 0 && sent[z] == 0
    }

    predicate FrameOwns(f: nat, z: nat) {
      f in frames && frames[f].owned && frames[f].frame == Some(z)
    }

    predicate MessageOwns(m: nat, z: nat) {
      OwnedMessage(m) && z in Native(m)
    }

    predicate OwnedMessage(m: nat) {
      m in messages && messages[m].owned
    }

    /** The zframes of a message's native list; empty when the wrapper has none. */
    function Native(m: nat): seq<nat>
      requires m in messages
    {
      match messages[m].message case Some(zs) => zs case None => []
    }

    /** The Ruby frame objects of a message. */
    function Listed(m: nat): seq<nat>
      requires m in messages
    {
      match messages[m].frames case Some(fs) => fs case None => []
    }

    /** What the GC can reach: objects held by the program, and frame objects marked by a held message. */
    predicate Reachable(f: nat) {
      f in heldFrames || exists m :: m in heldMessages && m in messages && f in Listed(m)
    }
  }

  const EMPTY_WORLD := World(map[], multiset{}, multiset{}, map[], map[], {}, {}, 0, 0, 0)

  // ---------------------------------------------------------------------------------------------------------
  // The ownership invariant: some ledger names one owner for every live zframe, and every wrapper agrees with it
  // ---------------------------------------------------------------------------------------------------------

  datatype Owner = InFrame(f: nat) | InMessage(m: nat)
  type Ledger = map<nat, Owner>

  /** Released at most once; in the ledger iff live; and its owner really has it. */
  ghost predicate ZframeOk(w: World, own: Ledger, z: nat) {
    && (z in w.data <==> z < w.zframeCount)
    && w.freed[z] + w.sent[z] <= 1
    && (w.freed[z] + w.sent[z] == 1 ==> z in w.data)
    && (z in own <==> w.Live(z))
    && (z in own ==> match own[z] case InFrame(f) => w.FrameOwns(f, z) case InMessage(m) => w.MessageOwns(m, z))
  }

  /** An owning frame is the owner of its zframe and attached to nothing. A held frame that points to an owned
      message is in its list; a held frame with no owner behind it points to no live zframe. */
  ghost predicate FrameOk(w: World, own: Ledger, f: nat)
    requires f in w.frames
  {
    var fw := w.frames[f];
    && f < w.frameCount
    && (fw.frame.Some? ==> fw.frame.value in w.data)
    && (fw.message.Some? ==> fw.message.value < w.messageCount)
    && (fw.owned ==>
          && fw.frame.Some? && fw.message.None?
          && fw.frame.value in own && own[fw.frame.value] == InFrame(f))
    && (f in w.heldFrames && !fw.owned ==>
          && (fw.message.Some? && w.OwnedMessage(fw.message.value) ==> f in w.Listed(fw.message.value))
          && (fw.frame.Some? && w.Live(fw.frame.value) ==> fw.message.Some? && w.OwnedMessage(fw.message.value)))
  }

  /** The i-th Ruby frame points to the i-th zframe and back to the message, and owns nothing. */
  ghost predicate Mirrors(w: World, m: nat, i: nat)
    requires m in w.messages && i < |w.Native(m)| && i < |w.Listed(m)|
  {
    w.Listed(m)[i] in w.frames ==> w.frames[w.Listed(m)[i]] == FrameW(Some(w.Native(m)[i]), Some(m), false)
  }

  /** An owned message has both lists, of the same length; it owns its zframes, each once; and its Ruby frames
      mirror them. What a held message lists has not been collected. */
  ghost predicate MessageOk(w: World, own: Ledger, m: nat)
    requires m in w.messages
  {
    && m < w.messageCount
    && (forall f :: f in w.Listed(m) ==> f < w.frameCount && (m in w.heldMessages ==> f in w.frames))
    && (w.messages[m].owned ==>
          && w.messages[m].message.Some? && w.messages[m].frames.Some?
          && |w.Native(m)| == |w.Listed(m)|
          && NoDup(w.Native(m))
          && (forall z :: z in w.Native(m) ==> z in own && own[z] == InMessage(m))
          && (forall i :: 0 <= i < |w.Native(m)| ==> Mirrors(w, m, i)))
  }

  ghost predicate Agrees(w: World, own: Ledger) {
    && w.heldFrames <= w.frames.Keys
    && w.heldMessages <= w.messages.Keys
    && (forall z: nat {:trigger ZframeOk(w, own, z)} :: ZframeOk(w, own, z))
    && (forall f: nat {:trigger FrameOk(w, own, f)} :: f in w.frames ==> FrameOk(w, own, f))
    && (forall m: nat {:trigger MessageOk(w, own, m)} :: m in w.messages ==> MessageOk(w, own, m))
  }

  ghost predicate Inv(w: World) {
    exists own :: Agrees(w, own)
  }
}
