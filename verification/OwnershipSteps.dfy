/**
 Every API call of `ZMQ::Frame` and `ZMQ::Message`, every ownership handoff of `ZMQ::Socket`, and every GC step,
 as a total function on worlds. The guards are the ones the extension has; what they let through is left to
 happen, and a read through a pointer that is NULL or freed is an outcome of its own.
 */
module OwnershipSteps {
  import opened Lists
  import opened Wrappers
  import opened Ownership

  datatype Error = TypeError | ZmqError | SysError
  datatype Crash = NullPointer | UseAfterFree

  datatype Value =
    | Nil
    | Bool(b: bool)
    | Num(n: int)
    | Str(s: Bytes)
    | FrameRef(f: nat)
    | MessageRef(m: nat)
    | FrameRefs(fs: seq<nat>)

  datatype Outcome = Return(value: Value) | Raise(error: Error) | Fault(crash: Crash)
  datatype Step = Step(world: World, outcome: Outcome)

  // ---------------------------------------------------------------------------------------------------------
  // The guards of frame.h and message.h
  // ---------------------------------------------------------------------------------------------------------

  datatype Guard = Pass | Deny | Dangling

  /** ZmqAssertFrameOwned and ZmqReturnNilUnlessFrameOwned: the frame owns its zframe, or its message is owned.
      The second test reads through the back pointer. */
  function FrameGuard(w: World, f: nat): Guard
    requires f in w.frames
  {
    if w.frames[f].owned then Pass
    else match w.frames[f].message
      case None => Deny
      case Some(m) =>
        if m !in w.messages then Dangling
        else if w.messages[m].owned then Pass else Deny
  }

  // ---------------------------------------------------------------------------------------------------------
  // Ownership moves
  // ---------------------------------------------------------------------------------------------------------

  function Hold(w: World, fs: set<nat>): World {
    w.(heldFrames := w.heldFrames + fs)
  }

  function SetFrame(w: World, f: nat, fw: FrameW): World {
    w.(frames := w.frames[f := fw])
  }

  function SetMessage(w: World, m: nat, mw: MessageW): World {
    w.(messages := w.messages[m := mw])
  }

  function Free(w: World, zs: seq<nat>): World {
    w.(freed := w.freed + multiset(zs))
  }

  function HandOver(w: World, zs: seq<nat>): World {
    w.(sent := w.sent + multiset(zs))
  }

  /** `rb_czmq_alloc_frame` on a new zframe: the wrapper owns it. */
  function AllocFrame(w: World, bytes: Bytes): World {
    w.(data := w.data[w.zframeCount := bytes],
       frames := w.frames[w.frameCount := FrameW(Some(w.zframeCount), None, true)],
       zframeCount := w.zframeCount + 1,
       frameCount := w.frameCount + 1)
  }

  function NewFrame(w: World, bytes: Bytes): Step {
    Step(Hold(AllocFrame(w, bytes), {w.frameCount}), Return(FrameRef(w.frameCount)))
  }

  /** Push or add: both lists grow at the same end, and the frame wrapper gives up its zframe. */
  function Attach(w: World, m: nat, f: nat, front: bool): World
    requires m in w.messages && f in w.frames && w.frames[f].frame.Some?
  {
    var z := w.frames[f].frame.value;
    var zs := if front then [z] + w.Native(m) else w.Native(m) + [z];
    var fs := if front then [f] + w.Listed(m) else w.Listed(m) + [f];
    SetMessage(SetFrame(w, f, FrameW(Some(z), Some(m), false)), m, MessageW(Some(zs), Some(fs), w.messages[m].owned))
  }

  /** Replaces both lists of a message. */
  function SetLists(w: World, m: nat, zs: seq<nat>, fs: seq<nat>): World
    requires m in w.messages
  {
    SetMessage(w, m, MessageW(Some(zs), Some(fs), w.messages[m].owned))
  }

  /** The frame wrapper takes its zframe back. */
  function Detach(w: World, f: nat): World
    requires f in w.frames
  {
    SetFrame(w, f, FrameW(w.frames[f].frame, None, true))
  }

  function Tail<T>(s: seq<T>): seq<T> {
    if s == [] then [] else s[1..]
  }

  /** `zmsg_popstr` yields a C string: what stands before the first NUL. */
  function CString(s: Bytes): Bytes {
    if s == [] || s[0] == 0 then [] else [s[0]] + CString(s[1..])
  }

  // ---------------------------------------------------------------------------------------------------------
  // frame.c
  // ---------------------------------------------------------------------------------------------------------

  /** `rb_czmq_free_frame` */
  function FreeFrame(w: World, f: nat): World
    requires f in w.frames
  {
    var fw := w.frames[f];
    if fw.frame.Some? && fw.owned then
      SetFrame(Free(w, [fw.frame.value]), f, FrameW(None, fw.message, false))
    else
      SetFrame(w, f, fw.(frame := None))
  }

  /** `rb_czmq_free_frame_gc` */
  function FinalizeFrame(w: World, f: nat): World
    requires f in w.frames
  {
    var freed := FreeFrame(w, f);
    freed.(frames := freed.frames - {f})
  }

  function DestroyFrame(w: World, f: nat): Step
    requires f in w.frames
  {
    match FrameGuard(w, f)
    case Dangling => Step(w, Fault(UseAfterFree))
    case Deny => Step(w, Raise(ZmqError))
    case Pass => Step(FreeFrame(w, f), Return(Nil))
  }

  /** The zframe an accessor reads: the pointer must be set and the zframe must be live. */
  function Read(w: World, f: nat): Outcome
    requires f in w.frames
  {
    match w.frames[f].frame
    case None => Fault(NullPointer)
    case Some(z) => if w.Live(z) then Return(Str(w.data[z])) else Fault(UseAfterFree)
  }

  function FrameData(w: World, f: nat): Step
    requires f in w.frames
  {
    match FrameGuard(w, f)
    case Dangling => Step(w, Fault(UseAfterFree))
    case Deny => Step(w, Return(Nil))
    case Pass => Step(w, Read(w, f))
  }

  function DupFrame(w: World, f: nat): Step
    requires f in w.frames
  {
    match FrameGuard(w, f)
    case Dangling => Step(w, Fault(UseAfterFree))
    case Deny => Step(w, Raise(ZmqError))
    case Pass =>
      match Read(w, f)
      case Return(v) => if v.Str? then NewFrame(w, v.s) else Step(w, Return(v))
      case other => Step(w, other)
  }

  function ResetFrame(w: World, f: nat, bytes: Bytes): Step
    requires f in w.frames
  {
    match FrameGuard(w, f)
    case Dangling => Step(w, Fault(UseAfterFree))
    case Deny => Step(w, Raise(ZmqError))
    case Pass =>
      match Read(w, f)
      case Return(_) => Step(w.(data := w.data[w.frames[f].frame.value := bytes]), Return(Nil))
      case other => Step(w, other)
  }

  function FrameGone(w: World, f: nat): Step
    requires f in w.frames
  {
    match FrameGuard(w, f)
    case Dangling => Step(w, Fault(UseAfterFree))
    case Deny => Step(w, Return(Bool(true)))
    case Pass => Step(w, Return(Bool(false)))
  }

  function CompareSizes(a: nat, b: nat): int {
    if a == b then 0 else if a > b then 1 else -1
  }

  /** `frame <=> other`: the guard is applied to the receiver twice and never to the argument. */
  function CompareFrames(w: World, f: nat, g: nat): Step
    requires f in w.frames && g in w.frames
  {
    if f == g then Step(w, Return(Num(0)))
    else match FrameGuard(w, f)
      case Dangling => Step(w, Fault(UseAfterFree))
      case Deny => Step(w, Raise(ZmqError))
      case Pass =>
        if w.frames[g].frame.None? then Step(w, Raise(TypeError))
        else match (Read(w, f), Read(w, g))
          case (Return(Str(a)), Return(Str(b))) => Step(w, Return(Num(CompareSizes(|a|, |b|))))
          case (Return(_), other) => Step(w, other)
          case (other, _) => Step(w, other)
  }

  // ---------------------------------------------------------------------------------------------------------
  // message.c
  // ---------------------------------------------------------------------------------------------------------

  /** `rb_czmq_free_message` */
  function FreeMessage(w: World, m: nat): World
    requires m in w.messages
  {
    SetMessage(if w.messages[m].owned then Free(w, w.Native(m)) else w, m, MessageW(None, None, false))
  }

  /** `rb_czmq_free_message_gc` */
  function FinalizeMessage(w: World, m: nat): World
    requires m in w.messages
  {
    var freed := FreeMessage(w, m);
    freed.(messages := freed.messages - {m})
  }

  /** The `n` fresh ids from `start` on, in order. */
  function From(start: nat, n: nat): (r: seq<nat>)
    ensures |r| == n && forall i :: 0 <= i < n ==> r[i] == start + i
    ensures forall x :: x in r <==> start <= x < start + n
  {
    var r := seq(n, i => start + i);
    assert forall x | start <= x < start + n :: x in r by {
      forall x | start <= x < start + n ensures x in r { assert r[x - start] == x; }
    }
    r
  }

  /** The zframes of a native message with the given contents. */
  function FreshData(start: nat, parts: seq<Bytes>): (r: map<nat, Bytes>)
    ensures forall z :: z in r <==> start <= z < start + |parts|
    ensures forall z :: z in r ==> r[z] == parts[z - start]
    decreases |parts|
  {
    if parts == [] then map[]
    else FreshData(start, parts[..|parts| - 1])[start + |parts| - 1 := parts[|parts| - 1]]
  }

  /** One wrapper for each of `n` zframes of message `m`. */
  function FreshFrames(start: nat, n: nat, zframe: nat, m: nat): (r: map<nat, FrameW>)
    ensures forall f :: f in r <==> start <= f < start + n
    ensures forall f :: f in r ==> r[f] == FrameW(Some(zframe + f - start), Some(m), false)
    decreases n
  {
    if n == 0 then map[]
    else FreshFrames(start, n - 1, zframe, m)[start + n - 1 := FrameW(Some(zframe + n - 1), Some(m), false)]
  }

  /** `rb_czmq_alloc_message` on a native message with the given contents: one wrapper a zframe, in order,
      none of them owning. */
  function AllocMessage(w: World, parts: seq<Bytes>): World {
    var n := |parts|;
    w.(data := w.data + FreshData(w.zframeCount, parts),
       frames := w.frames + FreshFrames(w.frameCount, n, w.zframeCount, w.messageCount),
       messages := w.messages[w.messageCount :=
         MessageW(Some(From(w.zframeCount, n)), Some(From(w.frameCount, n)), true)],
       zframeCount := w.zframeCount + n,
       frameCount := w.frameCount + n,
       messageCount := w.messageCount + 1)
  }

  function NewMessage(w: World, parts: seq<Bytes>): Step {
    var w' := AllocMessage(w, parts);
    Step(w'.(heldMessages := w'.heldMessages + {w.messageCount}), Return(MessageRef(w.messageCount)))
  }

  function Push(w: World, m: nat, f: nat, front: bool): Step
    requires m in w.messages && f in w.frames
  {
    if !w.messages[m].owned then Step(w, Raise(TypeError))
    else if !w.frames[f].owned then Step(w, Raise(ZmqError))
    else if w.frames[f].frame.None? then Step(w, Fault(NullPointer))
    else Step(Attach(w, m, f, front), Return(Bool(true)))
  }

  function PushString(w: World, m: nat, bytes: Bytes, front: bool): Step
    requires m in w.messages
  {
    if !w.messages[m].owned then Step(w, Raise(TypeError))
    else Step(Attach(AllocFrame(w, bytes), m, w.frameCount, front), Return(Bool(true)))
  }

  function Pop(w: World, m: nat): Step
    requires m in w.messages
  {
    if !w.messages[m].owned then Step(w, Raise(TypeError))
    else if w.Native(m) == [] then Step(w, Return(Nil))
    else
      var w' := SetLists(w, m, Tail(w.Native(m)), Tail(w.Listed(m)));
      GiveBack(w', w.Listed(m))
  }

  /** The Ruby frame object at the front of a list becomes the owner of its zframe and is returned. */
  function GiveBack(w: World, fs: seq<nat>): Step {
    if fs == [] then Step(w, Raise(TypeError))
    else if fs[0] !in w.frames then Step(w, Fault(UseAfterFree))
    else Step(Hold(Detach(w, fs[0]), {fs[0]}), Return(FrameRef(fs[0])))
  }

  /** Nothing checks that the frame is in the message. */
  function Remove(w: World, m: nat, f: nat): Step
    requires m in w.messages && f in w.frames
  {
    if !w.messages[m].owned then Step(w, Raise(TypeError))
    else
      var zs := match w.frames[f].frame case Some(z) => RemoveFirst(w.Native(m), z) case None => w.Native(m);
      Step(Detach(SetLists(w, m, zs, RemoveFirst(w.Listed(m), f)), f), Return(Nil))
  }

  /** The zframe is freed; its Ruby frame object leaves the list but keeps both its pointers. */
  function PopString(w: World, m: nat): Step
    requires m in w.messages
  {
    if !w.messages[m].owned then Step(w, Raise(TypeError))
    else if w.Native(m) == [] then Step(w, Return(Nil))
    else if !w.Live(w.Native(m)[0]) then Step(w, Fault(UseAfterFree))
    else Step(DropFront(w, m), Return(Str(CString(w.data[w.Native(m)[0]]))))
  }

  function DropFront(w: World, m: nat): World
    requires m in w.messages && w.Native(m) != []
  {
    SetLists(Free(w, [w.Native(m)[0]]), m, Tail(w.Native(m)), Tail(w.Listed(m)))
  }

  /** Pushes an empty delimiter and then the frame. The guard admits a frame attached to another message. */
  function Wrap(w: World, m: nat, f: nat): Step
    requires m in w.messages && f in w.frames
  {
    if !w.messages[m].owned then Step(w, Raise(TypeError))
    else match FrameGuard(w, f)
      case Dangling => Step(w, Fault(UseAfterFree))
      case Deny => Step(w, Raise(ZmqError))
      case Pass =>
        if w.frames[f].frame.None? then Step(w, Fault(NullPointer))
        else Step(Enclose(w, m, f), Return(Nil))
  }

  function Enclose(w: World, m: nat, f: nat): World
    requires m in w.messages && f in w.frames && w.frames[f].frame.Some?
  {
    var delimited := Attach(AllocFrame(w, []), m, w.frameCount, true);
    Attach(delimited, m, f, true)
  }

  /** Pops the first frame and drops an empty one behind it; the size of what is then first is read unchecked. */
  function Unwrap(w: World, m: nat): Step
    requires m in w.messages
  {
    if !w.messages[m].owned then Step(w, Raise(TypeError))
    else if |w.Native(m)| < 2 then Step(w, Fault(NullPointer))
    else if !w.Live(w.Native(m)[1]) then Step(w, Fault(UseAfterFree))
    else
      GiveBack(OpenEnvelope(w, m), w.Listed(m))
  }

  function OpenEnvelope(w: World, m: nat): World
    requires m in w.messages && |w.Native(m)| >= 2 && w.Native(m)[1] in w.data
  {
    var popped := SetLists(w, m, Tail(w.Native(m)), Tail(w.Listed(m)));
    if w.data[w.Native(m)[1]] == [] then DropFront(popped, m) else popped
  }

  /** The contents of a list of zframes, for as long as all of them are live. */
  function Contents(w: World, zs: seq<nat>): Option<seq<Bytes>> {
    if zs == [] then Some([])
    else if !w.Live(zs[0]) then None
    else match Contents(w, zs[1..])
      case None => None
      case Some(rest) => Some([w.data[zs[0]]] + rest)
  }

  function DupMessage(w: World, m: nat): Step
    requires m in w.messages
  {
    if !w.messages[m].owned then Step(w, Raise(TypeError))
    else match Contents(w, w.Native(m))
      case None => Step(w, Fault(UseAfterFree))
      case Some(parts) => NewMessage(w, parts)
  }

  function DestroyMessage(w: World, m: nat): Step
    requires m in w.messages
  {
    if !w.messages[m].owned then Step(w, Raise(TypeError))
    else Step(FreeMessage(w, m), Return(Nil))
  }

  function MessageSize(w: World, m: nat): Step
    requires m in w.messages
  {
    Step(w, Return(if w.messages[m].owned then Num(|w.Native(m)|) else Nil))
  }

  function MessageToArray(w: World, m: nat): Step
    requires m in w.messages
  {
    if !w.messages[m].owned then Step(w, Raise(TypeError))
    else Step(Hold(w, set f | f in w.Listed(m)), Return(FrameRefs(w.Listed(m))))
  }

  function MessageGone(w: World, m: nat): Step
    requires m in w.messages
  {
    Step(w, Return(Bool(!w.messages[m].owned)))
  }

  // ---------------------------------------------------------------------------------------------------------
  // socket.c: the ownership handoff. `open` is the verdict of the socket's own guards.
  // ---------------------------------------------------------------------------------------------------------

  /** Without REUSE a successful zframe_send consumes the zframe; a failed one leaves it. */
  function SendFrame(w: World, f: nat, open: bool, reuse: bool, verdict: Verdict): Step
    requires f in w.frames
  {
    if !open then Step(w, Raise(ZmqError))
    else if !w.frames[f].owned then Step(w, Raise(ZmqError))
    else match Read(w, f)
      case Return(_) =>
        if verdict.TryAgain? then Step(w, Return(Bool(false)))
        else if verdict.Failed? then Step(w, Raise(SysError))
        else if reuse then Step(w, Return(Bool(true)))
        else Step(SetFrame(HandOver(w, [w.frames[f].frame.value]), f, w.frames[f].(owned := false)), Return(Bool(true)))
      case other => Step(w, other)
  }

  function Min(a: nat, b: nat): nat { if a < b then a else b }

  /** zmsg_send, whose return code is discarded: of the zframes, from the front, `taken` go to the socket, `left` are
      neither sent nor destroyed, and the others are destroyed. */
  function SendMessage(w: World, m: nat, open: bool, taken: nat, left: nat): Step
    requires m in w.messages
  {
    if !open then Step(w, Raise(ZmqError))
    else if !w.messages[m].owned then Step(w, Raise(TypeError))
    else
      var zs := w.Native(m);
      var sent := Min(taken, |zs|);
      Step(Release(w, m, zs[..sent], zs[Min(sent + left, |zs|)..]), Return(Nil))
  }

  /** The message is given up; these of its zframes have gone to a socket, and these were destroyed. */
  function Release(w: World, m: nat, sent: seq<nat>, freed: seq<nat>): World
    requires m in w.messages
  {
    SetMessage(Free(HandOver(w, sent), freed), m, MessageW(None, w.messages[m].frames, false))
  }

  function RecvFrame(w: World, open: bool, received: Option<Bytes>): Step {
    if !open then Step(w, Raise(ZmqError))
    else match received case None => Step(w, Return(Nil)) case Some(bytes) => NewFrame(w, bytes)
  }

  function RecvMessage(w: World, open: bool, received: Option<seq<Bytes>>): Step {
    if !open then Step(w, Raise(ZmqError))
    else match received case None => Step(w, Return(Nil)) case Some(parts) => NewMessage(w, parts)
  }

  // ---------------------------------------------------------------------------------------------------------
  // One step of the program or of the collector
  // ---------------------------------------------------------------------------------------------------------

  datatype Op =
    | OpNewFrame(bytes: Bytes)
    | OpDupFrame(f: nat)
    | OpDestroyFrame(f: nat)
    | OpFrameData(f: nat)
    | OpResetFrame(f: nat, bytes: Bytes)
    | OpFrameGone(f: nat)
    | OpCompareFrames(f: nat, g: nat)
    | OpNewMessage
    | OpPush(m: nat, f: nat)
    | OpAdd(m: nat, f: nat)
    | OpPop(m: nat)
    | OpRemove(m: nat, f: nat)
    | OpPushStr(m: nat, bytes: Bytes)
    | OpAddStr(m: nat, bytes: Bytes)
    | OpPopStr(m: nat)
    | OpWrap(m: nat, f: nat)
    | OpUnwrap(m: nat)
    | OpDupMessage(m: nat)
    | OpDestroyMessage(m: nat)
    | OpSize(m: nat)
    | OpToArray(m: nat)
    | OpMessageGone(m: nat)
    | OpSendFrame(f: nat, open: bool, reuse: bool, verdict: Verdict)
    | OpSendMessage(m: nat, open: bool, taken: nat, left: nat)
    | OpRecvFrame(open: bool, received: Option<Bytes>)
    | OpRecvMessage(open: bool, parts: Option<seq<Bytes>>)
    | OpDropFrame(f: nat)        // the program forgets a handle
    | OpDropMessage(m: nat)
    | OpCollectFrame(f: nat)     // the collector finalises an unreachable object
    | OpCollectMessage(m: nat)

  predicate HasFrame(w: World, f: nat) { f in w.heldFrames && f in w.frames }
  predicate HasMessage(w: World, m: nat) { m in w.heldMessages && m in w.messages }

  /** The program can only call with objects it holds; the collector only takes unreachable ones. */
  ghost predicate Enabled(w: World, op: Op) {
    match op
    case OpNewFrame(_) => true
    case OpNewMessage => true
    case OpRecvFrame(_, _) => true
    case OpRecvMessage(_, _) => true
    case OpDupFrame(f) => HasFrame(w, f)
    case OpDestroyFrame(f) => HasFrame(w, f)
    case OpFrameData(f) => HasFrame(w, f)
    case OpResetFrame(f, _) => HasFrame(w, f)
    case OpFrameGone(f) => HasFrame(w, f)
    case OpSendFrame(f, _, _, _) => HasFrame(w, f)
    case OpDropFrame(f) => HasFrame(w, f)
    case OpCompareFrames(f, g) => HasFrame(w, f) && HasFrame(w, g)
    case OpPush(m, f) => HasMessage(w, m) && HasFrame(w, f)
    case OpAdd(m, f) => HasMessage(w, m) && HasFrame(w, f)
    case OpRemove(m, f) => HasMessage(w, m) && HasFrame(w, f)
    case OpWrap(m, f) => HasMessage(w, m) && HasFrame(w, f)
    case OpPop(m) => HasMessage(w, m)
    case OpPushStr(m, _) => HasMessage(w, m)
    case OpAddStr(m, _) => HasMessage(w, m)
    case OpPopStr(m) => HasMessage(w, m)
    case OpUnwrap(m) => HasMessage(w, m)
    case OpDupMessage(m) => HasMessage(w, m)
    case OpDestroyMessage(m) => HasMessage(w, m)
    case OpSize(m) => HasMessage(w, m)
    case OpToArray(m) => HasMessage(w, m)
    case OpMessageGone(m) => HasMessage(w, m)
    case OpSendMessage(m, _, _, _) => HasMessage(w, m)
    case OpDropMessage(m) => HasMessage(w, m)
    case OpCollectFrame(f) => f in w.frames && !w.Reachable(f)
    case OpCollectMessage(m) => m in w.messages && m !in w.heldMessages
  }

  ghost function Do(w: World, op: Op): Step
    requires Enabled(w, op)
  {
    match op
    case OpNewFrame(bytes) => NewFrame(w, bytes)
    case OpDupFrame(f) => DupFrame(w, f)
    case OpDestroyFrame(f) => DestroyFrame(w, f)
    case OpFrameData(f) => FrameData(w, f)
    case OpResetFrame(f, bytes) => ResetFrame(w, f, bytes)
    case OpFrameGone(f) => FrameGone(w, f)
    case OpCompareFrames(f, g) => CompareFrames(w, f, g)
    case OpNewMessage => NewMessage(w, [])
    case OpPush(m, f) => Push(w, m, f, true)
    case OpAdd(m, f) => Push(w, m, f, false)
    case OpPop(m) => Pop(w, m)
    case OpRemove(m, f) => Remove(w, m, f)
    case OpPushStr(m, bytes) => PushString(w, m, bytes, true)
    case OpAddStr(m, bytes) => PushString(w, m, bytes, false)
    case OpPopStr(m) => PopString(w, m)
    case OpWrap(m, f) => Wrap(w, m, f)
    case OpUnwrap(m) => Unwrap(w, m)
    case OpDupMessage(m) => DupMessage(w, m)
    case OpDestroyMessage(m) => DestroyMessage(w, m)
    case OpSize(m) => MessageSize(w, m)
    case OpToArray(m) => MessageToArray(w, m)
    case OpMessageGone(m) => MessageGone(w, m)
    case OpSendFrame(f, open, reuse, verdict) => SendFrame(w, f, open, reuse, verdict)
    case OpSendMessage(m, open, taken, left) => SendMessage(w, m, open, taken, left)
    case OpRecvFrame(open, received) => RecvFrame(w, open, received)
    case OpRecvMessage(open, received) => RecvMessage(w, open, received)
    case OpDropFrame(f) => Step(w.(heldFrames := w.heldFrames - {f}), Return(Nil))
    case OpDropMessage(m) => Step(w.(heldMessages := w.heldMessages - {m}), Return(Nil))
    case OpCollectFrame(f) => Step(FinalizeFrame(w, f), Return(Nil))
    case OpCollectMessage(m) => Step(FinalizeMessage(w, m), Return(Nil))
  }
}
