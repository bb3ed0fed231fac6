# Verification of rbczmq's ownership, lifecycle and polling protocols

rbczmq binds CZMQ to Ruby. Most of it forwards calls. Three protocols it has to get right by itself, because CZMQ knows
nothing of Ruby objects, and these are modelled here:

* **Frames and messages.** A native zframe can be reached through a `ZMQ::Frame` wrapper and through a native message,
  and who must free it is decided by a flag on the frame wrapper, a back pointer, a flag on the message wrapper, and two
  lists that have to mirror each other.
* **Contexts and sockets.** Close, context destroy and two finalisers come in any order, and a native socket must be
  destroyed once.
* **Polling.** A native pollset is cached behind a dirty flag and a count of its own, and poll results are mapped back
  to Ruby objects by index.

What one of them relies on from another is stated over a program that uses all three at once (`WholeProgram`).

## How it is built

Each protocol has three layers.

1. *What a call does*, as a total function on a value that is the whole state: `OwnershipSteps`, `Lifecycle`, `Polling`.
   The guards are exactly the ones in the C code. Where they let something through, it happens; a read through a NULL or
   freed pointer is an outcome of its own (`Fault`, `Crash`), not a precondition. No call requires more of its caller
   than to hold the object it is called on.
2. *The code as written*, as classes that are updated in place, with the loops of the source: `OwnershipRuntime`,
   `LifecycleRuntime`, `PollerRuntime`. Each method's `ensures` equates the new state and the answer with the function of
   layer 1. `Valid()` ties the fields to that value, and its proof obligations are the frame conditions.
   In each of the three, `PerformAll` carries a whole run over to the objects.
3. *What the protocol promises*, over every reachable state and every run: the other modules. Some of them say of each
   call, without reference to layer 1, what becomes of every zframe, frame object and message (`OwnershipFates`,
   `OwnershipAnswers`), of every context and socket (`LifecycleAnswers`), of the items and lists of a poller
   (`PollerAnswers`), and what is answered. In each case this leaves one outcome only, and `CallIsExactly` proves that
   the functions of layer 1 have it.

`Lists` has the list operations of CZMQ and Ruby that all three use.

Objects and zframes are named by numbers that are never used twice, so a dangling pointer is a name that is no longer in
use. A run may interleave calls on any number of objects with the collector, which may take any unreachable object at
any time and in any order. For contexts and sockets not even reachability is assumed: anything may be collected at any
moment.

What is assumed of the libraries: list operations do what they say; a successful `zframe_send` without REUSE consumes
the zframe and a failed one leaves it; `zmsg_send` hands some zframes over from the front, leaves some more alone and
destroys the rest, and both numbers are parameters; a new zframe, socket or context can be allocated; `zmq_poll`
returns a mask to every entry and the count of those that are not empty; an encoded message is each frame behind its
length, a length of up to 254 is one byte, and no length is written as the beginning of another.

## Where the code checks less than the protocol needs

The guards of the extension are weaker than its invariant in a few places. `OwnershipDiscipline.Disciplined` is the
exact condition for each call. `HarmlessIffDisciplined` proves it exact in both directions, and says so without the
invariant: under the condition the call reads no bad pointer, and no orderly continuation of any length reads one,
releases anything twice, or is left with something it cannot release. Without the condition one of these fails, always:
the call itself faults, or at most two further calls that are in order themselves fault or release a zframe twice, or,
after a send that left some frames neither taken nor destroyed, no orderly run ever releases them. `OwnershipWitnesses`
has a run from the start to each of the calls below.

* `wrap` uses the guard that also admits an attached frame (`ext/rbczmq/message.c:476`), unlike `push` and `add`. An
  attached frame ends up in two places.
* `remove` never asks whether the frame is in the message (`ext/rbczmq/message.c:347-356`). A frame of another message,
  or one that is gone, becomes an owner.
* `Frame#destroy` accepts an attached frame (`ext/rbczmq/frame.c:101-102`) and leaves a NULL pointer in the message.
* `popstr`, and the delimiter that `unwrap` drops, free a zframe whose Ruby frame keeps both its pointers
  (`ext/rbczmq/message.c:449`, `ext/rbczmq/message.c:531`). That matters exactly when the frame object is still held.
* `unwrap` reads the size of the second frame without asking whether there is one (`ext/rbczmq/message.c:527-528`).
* A frame does not keep its message alive (`ext/rbczmq/frame.c:14`), and every guard on an attached frame reads the
  message's flags.
* `<=>` repeats the check of the receiver where the check of the argument should be (`ext/rbczmq/frame.c:316`).
* `send_message` ignores the return code of `zmsg_send` (`ext/rbczmq/socket.c:700`) and gives the message up in any
  case: a zframe that was neither taken nor destroyed has no owner any more (`PartialSendLeaks`, `PartialSendLoses`).
  What a caller can see to beforehand is only whether there is anything to send (`SendKeepsWhateverIsTaken`).

Outside the ownership protocol:

* `bind` and `connect` check the reported endpoint with an assertion that compares a boolean with -1
  (`ext/rbczmq/socket.c:221`, `ext/rbczmq/socket.c:259`), which never fires. When no endpoint is reported the state is
  set, the next line raises, and a socket without endpoints is let through to send. `StepKeepsEndpointsIff` has the
  exact condition, `AttachKeepsWhateverIsReported` the one that a caller can see to, `SilentConnectIsAdmitted` the
  example.
* `eql?` on messages is documented to compare the serialized representations, but it compares them with `strncmp`
  (`ext/rbczmq/message.c:666`), which stops at a NUL. An empty frame encodes as one, and so may a length.
  `EqlIsExactIff` says for which messages the answer can be trusted, `EqlConfuses` shows two that differ and compare
  equal. `LongFramesAreConfused`: if longer lengths are written as 255 and four bytes, no message with a frame of 255
  bytes to 16 megabytes is told apart from every other.
* `Poller#remove` deletes every registration of the item and lowers the count by one (`ext/rbczmq/poller.c:237-238`).
  Registering one poll item twice and removing it once makes every later poll raise (`TwinRun`); `CacheAgreesIff`
  proves that this is the only way. Sockets and IOs may be registered as often as one likes: coercion makes a new item
  each time.
* A poll of an empty poller returns before it clears the lists (`ext/rbczmq/poller.c:145`), so `readables` and
  `writables` are those of an earlier poll. `PollReportsIff` has the exact condition, `StaleRun` the example.
* `Poller#remove` promises to deregister the entity for any event it was registered for (`ext/rbczmq/poller.c:217`), but
  it stops at the first match. Registered once for reading and once for writing, the entity is still polled after one
  removal (`BothRun`); `RemoveDeregistersIff` has the exact condition.
* A poll item copies the native address of its socket when it is made (`ext/rbczmq/pollitem.c:79`), and nothing asks
  about the socket again. A context's socket that is closed, collected or drained while it is registered leaves a dead
  address in what `zmq_poll` is given (`ClosedSocketIsPolled`). `PollsLiveIff` says for which runs this never happens.
* `Context.new` looks at the thread count after the context has been entered as that of the process
  (`ext/rbczmq/context.c:202-203`). An argument that is no Fixnum (TypeError), a count that no C int holds (RangeError,
  on a 64-bit Ruby), a negative one, and one the library reports as EINVAL raise and leave the entry behind.
  `RefusalIsCleanIff` says exactly which refused calls do, `RefusalIsCleanWhateverIsReported` what a caller can see to,
  `RefusedButEntered` has examples of three kinds, and `RefusedUntilFreed` the consequence: every further call of the
  process is refused until that very context is destroyed or collected.
* `Context#socket` looks its class up after the native socket has been made (`ext/rbczmq/context.c:338`). A type that the
  library has and Ruby has not raises and leaves a native socket that no wrapper refers to (`StepStraysIff`).

## Model

| member | source | states |
|---|---|---|
| `OwnershipHarm.HarmlessIffDisciplined` | ext/rbczmq/message.c:161-583 | from any good state a call reads no bad pointer and leaves a state from which no orderly continuation faults, releases twice or is stuck with a zframe, if and only if the caller met that call's condition |
| `OwnershipHarm.UndisciplinedHarms` | ext/rbczmq/message.c:161-583 | otherwise the call faults, or at most two orderly calls later one faults or a zframe is released twice, or a send has lost one |
| `OwnershipHarm.HarmlessIffGood` | ext/rbczmq/message.c:8-583 | the runs from the start that never do harm in that sense are exactly the disciplined ones |
| `OwnershipHarm.CanBeReleased` | ext/rbczmq/frame.c:29-50 | in a good state every live zframe can still be released by some orderly run |
| `OwnershipHarm.PartialSendLoses` | ext/rbczmq/socket.c:695-737 | whenever a send leaves zframes neither taken nor destroyed, the first of them is never released by any orderly run of any length |
| `OwnershipDiscipline.KeepsIffDisciplined` | ext/rbczmq/message.c:161-583 | from any state of the ownership invariant, any API call or GC step reads no bad pointer and keeps the invariant if and only if the caller met that call's condition |
| `OwnershipDiscipline.SendKeepsWhateverIsTaken` | ext/rbczmq/socket.c:720-737 | a message send keeps the invariant whatever the library takes, leaves and destroys if and only if it will be refused or there is nothing to send |
| `OwnershipAnswers.CallIsExactly` | ext/rbczmq/message.c:119-731 | from any good state, disciplined or not, every call comes to exactly one state and answer: the one in which each zframe, frame object, message and handle has the fate stated for it |
| `OwnershipFates.ReleasesExactly` | ext/rbczmq/message.c:8-540 | a call frees exactly the zframes that its caller's wrapper or message owns at the stated positions, and hands to a socket exactly those a send took, each once |
| `OwnershipFates.WritesExactly` | ext/rbczmq/frame.c:65-374 | a call makes exactly the stated zframes with the stated contents, and writes into no other but the one that is reset |
| `OwnershipFates.WrapsExactly` | ext/rbczmq/message.c:161-540 | after a call every frame object has the stated zframe, message and ownership, each new zframe its one new frame object, and no other frame object is there |
| `OwnershipAnswers.ListsExactly` | ext/rbczmq/message.c:161-583 | after a call the message it is about has the stated two lists, every other message its own, and a new one exactly the new zframes and frame objects |
| `OwnershipAnswers.AnswersExactly` | ext/rbczmq/message.c:119-731 | the value, exception or fault of every call, by whether the zframe is there, the message owned and the socket admitted, and what the program then holds |
| `OwnershipFates.SendMessageFates` | ext/rbczmq/socket.c:720-737 | of a message that is sent, the zframe at position i goes to the socket, stays live or is freed exactly as i is among those taken, left or neither; no other is touched; a refused call names its exception and changes nothing |
| `OwnershipFates.CompleteSend` | ext/rbczmq/socket.c:733-734 | a send that is taken whole hands over every zframe of the message and frees none |
| `OwnershipFates.SendFrameIff` | ext/rbczmq/socket.c:648-688 | a frame is consumed if and only if it owns its zframe, the socket admits it, REUSE is not set and the library accepts; else nothing changes; and which of the four answers is given |
| `FrameContents.NewFrameIsRead` | ext/rbczmq/frame.c:65-82 | from a new frame exactly the given bytes are read, on a new zframe that it owns |
| `FrameContents.RecvFrameIsRead` | ext/rbczmq/socket.c:766-784 | from a received frame exactly what was received is read; nil when nothing was, an exception when the socket is refused |
| `FrameContents.DupFrameIsRead` | ext/rbczmq/frame.c:196-207 | a duplicate reads as its original, which still does, on a new zframe; there is none of a frame that is gone |
| `FrameContents.ResetIsRead` | ext/rbczmq/frame.c:365-374 | after a reset, of an owning or an attached frame, exactly the new bytes are read; one that is gone refuses |
| `FrameContents.ContentsStay` | ext/rbczmq/frame.c:139-146 | along any disciplined run that does not reset its zframe, a frame reads the same until it is gone, and then nil |
| `FrameContents.CompareIsBySize` | ext/rbczmq/frame.c:306-321 | 1 means strictly larger, -1 strictly smaller, 0 the same size, and turning the comparison round turns the sign round |
| `OwnershipDiscipline.DestroyAttachedBreaks` | ext/rbczmq/frame.c:98-104 | destroying any frame that is attached to a live message breaks the invariant |
| `OwnershipDiscipline.RemoveStrangerBreaks` | ext/rbczmq/message.c:343-359 | removing any unowned frame that is not in the message breaks it: two owners, or an owner of something released |
| `OwnershipDiscipline.WrapAttachedBreaks` | ext/rbczmq/message.c:468-497 | wrapping any attached frame breaks it: one zframe in two places |
| `OwnershipDiscipline.DroppingHeldBreaks` | ext/rbczmq/message.c:440-540 | popstr and unwrap break it whenever the frame object they drop is held, and unwrap faults on a message of fewer than two frames |
| `OwnershipDiscipline.PartialSendLeaks` | ext/rbczmq/socket.c:695-737 | a message send that leaves a zframe neither taken nor destroyed breaks the invariant: it is live and has no owner |
| `OwnershipWitnesses.WrapLeadsToHarm` | ext/rbczmq/message.c:476 | a run from the start in which wrapping an attached frame does harm |
| `OwnershipWitnesses.RemoveLeadsToHarm` | ext/rbczmq/message.c:347-356 | the same for removing a frame of another message |
| `OwnershipWitnesses.DestroyLeadsToHarm` | ext/rbczmq/frame.c:101-102 | the same for destroying an attached frame |
| `OwnershipWitnesses.PopStringLeadsToHarm` | ext/rbczmq/message.c:449 | the same for popstr of a frame that is held |
| `OwnershipWitnesses.UnwrapHeldLeadsToHarm` | ext/rbczmq/message.c:531 | the same for unwrap with a held empty second frame |
| `OwnershipWitnesses.UnwrapShortLeadsToHarm` | ext/rbczmq/message.c:527-528 | the same for unwrap of a message of one frame |
| `OwnershipWitnesses.DanglingLeadsToHarm` | ext/rbczmq/frame.c:14 | the same for a frame whose message was collected |
| `OwnershipWitnesses.CompareLeadsToHarm` | ext/rbczmq/frame.c:316 | the same for comparing with a frame that was sent |
| `OwnershipWitnesses.PartialSendLeadsToHarm` | ext/rbczmq/socket.c:700 | the same for a send that leaves a zframe neither taken nor destroyed |
| `OwnershipDiscipline.AccessibleIsLive` | ext/rbczmq/frame.h:29-47 | a held frame passes the guard exactly when its zframe is neither freed nor sent |
| `OwnershipRuns.SafeIffGood` | ext/rbczmq/message.c:8-583 | the runs in which every call reads no bad pointer and keeps the invariant are exactly the disciplined ones |
| `OwnershipRuns.SingleOwner` | ext/rbczmq/message.c:161-540 | after any disciplined run a live zframe has exactly one owner, a wrapper or one position of one message, and a released one has none |
| `OwnershipRuns.ReleasedOnce` | ext/rbczmq/frame.c:29-50 | along any run no zframe is freed twice, sent twice, or both, and no release is taken back |
| `OwnershipRuns.NothingLeaks` | ext/rbczmq/message.c:8-35 | once every wrapper has been collected, every zframe ever created was freed once or handed over once |
| `OwnershipRuns.GoneIsExact` | ext/rbczmq/frame.c:387-393 | after any disciplined run `gone?` answers no exactly when the zframe is neither freed nor sent |
| `OwnershipRuns.MessageTakesItsFrames` | ext/rbczmq/socket.c:720-737 | destroying or sending a message makes every frame of it gone at once, and changes the answer for no other frame |
| `OwnershipRuns.ListedFramesSurvive` | ext/rbczmq/message.c:41-50 | no run lets the collector take a frame object that a held message lists |
| `OwnershipRuns.FinalizersCommute` | ext/rbczmq/message.c:8-35 | any set of unreachable frames and messages can be finalised in any order, and every order ends in the same state, with each zframe they own freed once |
| `OwnershipRuns.FinalSweepReleasesEverything` | ext/rbczmq/frame.c:29-50 | when the program holds nothing, finalising all wrappers in any order leaves every zframe released exactly once |
| `OwnershipEffects.CallEffect` | ext/rbczmq/message.c:161-583 | a call changes at most the message it is about, never revives a message, never undoes a release, and writes into existing frame data only if it is `reset` |
| `MessageSequence.RunRefines` | ext/rbczmq/message.c:119-731 | any disciplined run over all objects looks, from one message, like the same calls on a plain sequence of byte strings that may come to an end: same contents, same answers, nil, false and exceptions told apart, also after the message was sent or destroyed |
| `MessageSequence.StepRefines` | ext/rbczmq/message.c:119-731 | the same for one call: push, add, pop, pushstr, addstr, popstr, remove, wrap, unwrap, reset, dup, size, to_a, gone?, destroy, send, and everything that is about other objects |
| `MessageSequence.CStringIsWhole` | ext/rbczmq/message.c:440-452 | popstr answers the whole frame if and only if it holds no NUL |
| `MessageSequence.CStringEndsAtNul` | ext/rbczmq/message.c:445-451 | a C string is the bytes before the first NUL: a prefix, without a NUL, and followed by one when it is not the whole |
| `FrameContents.PopStringText` | ext/rbczmq/message.c:440-452 | popstr answers exactly what stands before the first NUL of the first frame |
| `FrameContents.RecvMessageShape` | ext/rbczmq/socket.c:846-859 | a received message holds exactly the parts that were received, newly wrapped in order; nil when nothing was |
| `MessageSequence.WrapUnwrap` | ext/rbczmq/message.c:468-540 | wrap then unwrap gives back the same frame object, owning; both lists are as before; only the delimiter was created, and freed once |
| `MessageSequence.NewMessageShape` | ext/rbczmq/message.c:57-83 | a received, decoded or duplicated message of any length gets one new unowned wrapper for each zframe, in order, pointing back to it |
| `MessageSequence.BuildIsAlloc` | lib/zmq.rb:28-32 | building a message by repeated addstr and wrapping a native one with the same parts end in the same state |
| `MessageSequence.DupShares` | ext/rbczmq/message.c:554-561 | dup has equal contents and shares no zframe and no frame object with the original |
| `MessageSequence.DupIndependent` | ext/rbczmq/message.c:554-561 | after dup, no run without a call about one of the two changes or ends it, whatever it does to the other |
| `MessageEquality.EqlIsExactIff` | ext/rbczmq/message.c:646-668 | `eql?` tells a message from every other exactly when no content follows the first NUL of its encoding |
| `MessageEquality.EqlOnText` | ext/rbczmq/message.c:646-668 | for frames without NUL, of 1 to 254 bytes or of a longer length that is written without one, `eql?` is frame-by-frame equality |
| `MessageEquality.LongFramesAreConfused` | ext/rbczmq/message.c:666 | with a four-byte length, every message with a frame of 255 bytes to 16 megabytes has another that is reported equal |
| `MessageEquality.FourBytesIsCode` | ext/rbczmq/message.c:599-609 | a header of the assumed kind exists: one byte up to 254, else 255 and four bytes |
| `MessageEquality.EncodeIsInjective` | ext/rbczmq/message.c:599-609 | different messages have different encodings, so only the comparison confuses them |
| `MessageEquality.EqlConfuses` | ext/rbczmq/message.c:666 | two messages that differ in one byte and are reported equal |
| `MessageEquality.EqlIs` | ext/rbczmq/message.c:646-668 | two messages are reported equal exactly when they have as many frames, as much content, and encodings of one length that agree up to the first NUL |
| `MessageEquality.MessageEqlAnswers` | ext/rbczmq/message.c:653-658 | the call raises a TypeError exactly when one of the two messages is gone, and otherwise compares their parts |
| `MessageEquality.MessageEqlComparesParts` | ext/rbczmq/message.c:646-668 | after any disciplined run the call reads nothing freed, and compares the two sequences whenever one of them is of the exact kind |
| `OwnershipRuntime.Process.NewFrame` | ext/rbczmq/frame.c:65-82 | a new zframe with the given bytes and a new wrapper that owns it |
| `OwnershipRuntime.Process.AllocFrame` | ext/rbczmq/frame.c:10-20 | the wrapper owns its zframe and belongs to no message |
| `OwnershipRuntime.Process.FreeFrame` | ext/rbczmq/frame.c:29-36 | the zframe is freed only if the wrapper owns it; pointer and bit are cleared |
| `OwnershipRuntime.Process.FinalizeFrame` | ext/rbczmq/frame.c:43-50 | frees what the wrapper owns, then the wrapper |
| `OwnershipRuntime.Process.DestroyFrame` | ext/rbczmq/frame.c:98-104 | frees, or raises if the weaker guard denies it |
| `OwnershipRuntime.Process.Guard` | ext/rbczmq/frame.h:29-47 | the three verdicts of the guard, the third being a back pointer to a freed message |
| `OwnershipRuntime.Process.FrameData` | ext/rbczmq/frame.c:139-146 | the bytes of the zframe, nil when it is gone |
| `OwnershipRuntime.Process.DupFrame` | ext/rbczmq/frame.c:196-207 | a second zframe with equal bytes, owned by a second wrapper |
| `OwnershipRuntime.Process.CompareFrames` | ext/rbczmq/frame.c:306-321 | -1, 0 or 1 by size, with the receiver's guard only |
| `OwnershipRuntime.Process.ResetFrame` | ext/rbczmq/frame.c:365-374 | replaces the bytes of the zframe, wherever it is attached |
| `OwnershipRuntime.Process.FrameGone` | ext/rbczmq/frame.c:387-393 | the negation of the guard |
| `OwnershipRuntime.Process.FreeMessage` | ext/rbczmq/message.c:8-21 | frees all zframes of an owned message and drops both lists |
| `OwnershipRuntime.Process.FinalizeMessage` | ext/rbczmq/message.c:28-35 | the same, then the wrapper |
| `OwnershipRuntime.Process.Mark` | ext/rbczmq/message.c:41-50 | the cursor loop marks exactly the listed frame objects |
| `OwnershipRuntime.Process.AllocMessage` | ext/rbczmq/message.c:57-83 | the cursor loop wraps every zframe of a native message, in order |
| `OwnershipRuntime.Process.NewMessage` | ext/rbczmq/message.c:96-103 | an owned message with the given parts |
| `OwnershipRuntime.Process.MessageSize` | ext/rbczmq/message.c:119-124 | the number of zframes, nil when gone |
| `OwnershipRuntime.Process.Push` | ext/rbczmq/message.c:161-207 | push and add: both lists grow at the same end, the wrapper gives up its bit and points back |
| `OwnershipRuntime.Process.Pop` | ext/rbczmq/message.c:224-237 | both lists lose their first, and that frame object owns its zframe again |
| `OwnershipRuntime.Process.Remove` | ext/rbczmq/message.c:343-359 | each list loses the first entry equal to its own key, and the frame becomes an owner unconditionally |
| `OwnershipRuntime.Process.PushString` | ext/rbczmq/message.c:373-425 | pushstr and addstr: a new zframe and a new unowned frame object at that end |
| `OwnershipRuntime.Process.PopString` | ext/rbczmq/message.c:440-452 | the first zframe is copied up to a NUL and freed, and its frame object leaves the list |
| `OwnershipRuntime.Process.Wrap` | ext/rbczmq/message.c:468-497 | an empty delimiter and then the frame in front of both lists |
| `OwnershipRuntime.Process.Unwrap` | ext/rbczmq/message.c:515-540 | the first frame comes back, an empty second one is dropped and freed; a missing second one is a NULL read |
| `OwnershipRuntime.Process.DupMessage` | ext/rbczmq/message.c:554-561 | a new message with copies of all parts |
| `OwnershipRuntime.Process.DestroyMessage` | ext/rbczmq/message.c:577-583 | frees the message, or raises if it is gone |
| `OwnershipRuntime.Process.MessageToArray` | ext/rbczmq/message.c:702-714 | the loop returns the frame objects in order |
| `OwnershipRuntime.Process.MessageGone` | ext/rbczmq/message.c:727-731 | whether the message is no longer owned |
| `OwnershipRuntime.Process.BuildMessage` | lib/zmq.rb:28-32 | the loop of addstr ends with exactly the given parts |
| `OwnershipRuntime.Process.SendFrame` | ext/rbczmq/socket.c:648-688 | the wrapper stops owning exactly when the send succeeded without REUSE; an attached frame is refused; EAGAIN answers false and other errors raise, and both leave the frame as it was |
| `OwnershipRuntime.Process.SendMessage` | ext/rbczmq/socket.c:720-737 | refused without the guards of socket and message; else the zframes taken are the socket's, those destroyed are freed, and the message is given up whatever the library did with the others |
| `OwnershipRuntime.Process.RecvFrame` | ext/rbczmq/socket.c:766-784 | a new owned frame, or nil |
| `OwnershipRuntime.Process.RecvMessage` | ext/rbczmq/socket.c:846-859 | a new message with a wrapper for each part, or nil; decode does the same at ext/rbczmq/message.c:624-631 |
| `OwnershipRuntime.Process.PerformAll` | ext/rbczmq/message.c:8-583 | any disciplined run, made on the objects, ends in the state of that run, and no call of it faults |
| `LifecycleRuns.StepKeepsInv` | ext/rbczmq/context.c:92-134 | no call and no finaliser, in whatever order, reads a freed context, and each keeps the invariant of lists, flags and counts |
| `LifecycleRuns.AnyOrderIsSafe` | ext/rbczmq/context.c:43-134 | the same for every run from the start |
| `LifecycleRuns.NativeSocketsDieOnce` | ext/rbczmq/context.c:92-120 | a native socket is destroyed at most once; exactly when its wrapper was closed, drained or collected; certainly once its context is gone; never for a beacon's pipe |
| `LifecycleRuns.ListIsOpenSockets` | ext/rbczmq/context.c:377-396 | after any run the list of a context has its open sockets, each once, and nothing else |
| `LifecycleRuns.DrainShutsAll` | ext/rbczmq/context.c:43-62 | the drain ends with an empty list, every open socket of the context shut, and no other socket touched |
| `LifecycleRuns.OneContextPerProcess` | ext/rbczmq/context.c:179-205 | a process has an entry exactly when it has a context that is not destroyed, and then only one |
| `LifecycleRuns.EntriesChangeOnlyByTheirContext` | ext/rbczmq/context.c:59-61 | an entry disappears only when the very context it names is freed and appears only when its process makes one; a context once gone is never open again, so it clears its entry at most once and never a newer one's |
| `LifecycleRuns.StepStraysIff` | ext/rbczmq/context.c:336-339 | a step leaves a native socket without a wrapper if and only if it asks a usable context for a type without a class, and no step ever takes one back |
| `LifecycleAnswers.CallIsExactly` | ext/rbczmq/context.c:43-396 | from any good state every call and finaliser comes to exactly one state and answer: each socket with its state and endpoints in order, each context with its list, each entry, and how often each native object was destroyed |
| `LifecycleAnswers.NewSocketIff` | ext/rbczmq/context.c:377-396 | `ctx.socket` makes one new pending socket at the front of its context's list if and only if the context is open, of this process, and the type has a class; otherwise it raises and no socket, context or entry changes |
| `LifecycleFinalisers.CollectInAnyOrder` | ext/rbczmq/context.c:127-134 | any set of contexts and sockets can be collected in any order; what is left, and how often everything native was destroyed, is determined by the set |
| `LifecycleFinalisers.OrdersAgree` | ext/rbczmq/socket.c:40-66 | two orders of the same objects end in the same state |
| `LifecycleRuns.FinalisersAgree` | ext/rbczmq/context.c:127-134 | two runs of finalisers that collect every context, and sockets or not, destroy the same native sockets and contexts, each once |
| `ContextEntry.RefusalIsCleanIff` | ext/rbczmq/context.c:179-205 | a refused `Context.new` changes nothing if and only if the process had a context, or there is no thread count, or it is a number from 0 to the largest C int that the library accepts |
| `ContextEntry.RefusalIsCleanWhateverIsReported` | ext/rbczmq/context.c:241-253 | and it does so whatever the library reports if and only if the process had a context or no thread count is given |
| `ContextEntry.RefusedButEntered` | ext/rbczmq/context.c:202-203 | the first call of a process, with -1, with one more than a C int holds, or with no number, raises and is entered, and the next call raises |
| `ContextEntry.RefusedUntilFreed` | ext/rbczmq/context.c:187-203 | along any run after a call refused for its thread count, of any of these kinds, the entry names that very context if and only if nothing has freed it, and until then every further call of the process raises and changes nothing |
| `LifecycleRuntime.Process.DestroySocket` | ext/rbczmq/context.c:92-120 | takes the socket off its context's list and destroys it natively unless that was done or it is a pipe, and shuts it in any case |
| `LifecycleRuntime.Process.Drain` | ext/rbczmq/context.c:51-54 | the popping loop terminates in the state the recursive drain defines |
| `LifecycleRuntime.Process.FreeContext` | ext/rbczmq/context.c:20-62 | drains, destroys the native context only in the process that made it, clears the entry and the list |
| `LifecycleRuntime.Process.ZlistRemove` | ext/rbczmq/context.c:108 | the list without the first entry for the socket |
| `LifecycleRuntime.Process.NewContext` | ext/rbczmq/context.c:179-205 | refused while the process has a context; an argument that cannot be set as the thread count, of any kind, raises with the entry made |
| `LifecycleRuntime.Process.DestroyContext` | ext/rbczmq/context.c:221-227 | frees the context, or raises if it is destroyed or of another process |
| `LifecycleRuntime.Process.CollectContext` | ext/rbczmq/context.c:127-134 | frees it unless that was done, and then the wrapper, never following a dead pointer |
| `LifecycleRuntime.Process.NewSocket` | ext/rbczmq/context.c:334-396 | a pending socket in front of its context's list; nothing on a context that may not be used or for what is no socket type; and for a type without a class a native socket without a wrapper |
| `LifecycleRuntime.Process.NewPipe` | ext/rbczmq/beacon.c:296-305 | a bound socket without a context, on no list |
| `LifecycleRuntime.Process.Close` | ext/rbczmq/socket.c:80-90 | shuts the socket, or raises if it is shut or on another thread |
| `LifecycleRuntime.Process.CollectSocket` | ext/rbczmq/socket.c:40-66 | shuts it if it was open, and then the wrapper, whatever became of its context |
| `LifecycleRuntime.Process.Fork` | ext/rbczmq/context.h:31-34 | everything is as it was, but for the process id that the guard compares with |
| `LifecycleRuntime.Process.Attach` | ext/rbczmq/socket.c:204-266 | bind and connect: state and endpoint on success, state alone when no endpoint is reported |
| `LifecycleRuntime.Process.Detach` | ext/rbczmq/socket.c:299-373 | disconnect and unbind: every equal endpoint goes, and with the last one the state |
| `LifecycleRuntime.Process.Admitted` | ext/rbczmq/socket.h:94-96 | the verdict of the three guards of every send and receive |
| `LifecycleRuntime.Process.PerformAll` | ext/rbczmq/context.c:43-134 | any run of calls and finalisers, in any order, made on the objects, ends in the state of that run and follows no dead pointer |
| `SocketEndpoints.StepKeepsEndpointsIff` | ext/rbczmq/socket.c:204-373 | a step keeps "bound or connected iff the endpoint list is not empty" for all open sockets of contexts if and only if it is not a successful bind or connect that reports no endpoint on an empty list |
| `SocketEndpoints.RunKeepsEndpointsIff` | ext/rbczmq/socket.c:204-373 | the same for runs |
| `SocketEndpoints.AttachKeepsWhateverIsReported` | ext/rbczmq/socket.c:204-266 | bind and connect keep it whatever the native call does and reports if and only if the socket has an endpoint already or the call will be refused |
| `SocketEndpoints.AdmittedIffAttached` | ext/rbczmq/socket.h:94-96 | then the guard lets a send through exactly when the socket is open, on its thread, and attached somewhere |
| `SocketEndpoints.PipeIsAdmitted` | ext/rbczmq/beacon.c:296-305 | a beacon's pipe is admitted on its thread, and on no other, through any run that makes no call on it and does not collect it |
| `SocketEndpoints.SilentConnectIsAdmitted` | ext/rbczmq/socket.c:258-263 | a run in which connect raised and sends are admitted with no endpoint |
| `SocketEndpoints.AttachThenDetach` | ext/rbczmq/socket.c:299-319 | attaching and detaching an endpoint restores the list if and only if it was not listed before |
| `PollingRuns.StepAgreesIff` | ext/rbczmq/poller.c:200-244 | a step keeps count, array and clean pollset in agreement if and only if it does not remove an item registered more than once |
| `PollingRuns.StepKeepsBroken` | ext/rbczmq/poller.c:37-52 | after such a removal the poller stays broken, and every poll raises and changes nothing |
| `PollingRuns.CacheAgreesIff` | ext/rbczmq/poller.c:135-244 | after any run from a new poller the cache agrees, and polls are not refused, if and only if no such removal happened |
| `PollingRuns.NewItemsNeverHitTwin` | ext/rbczmq/poller.c:200-211 | passing no poll item while it is registered is enough, however often sockets and IOs are registered |
| `PollingRuns.TwinRun` | ext/rbczmq/poller.c:237-238 | a run from a new poller that removes a twin, after which every poll raises |
| `PollingRuns.StaleRun` | ext/rbczmq/poller.c:145 | a run from a new poller after which a poll of no items lists one |
| `PollingRuns.RemoveTakesFirstMatch` | ext/rbczmq/poller.c:227-244 | remove takes the first item that is the one given or polls the same entity, keeps the order of the rest, and answers false exactly when there is none |
| `PollingRuns.RemoveDeregistersIff` | ext/rbczmq/poller.c:217-244 | remove finds something exactly when the entity is polled; after that nothing polls it any more if and only if every item that did was equal to the one found |
| `PollerAnswers.CallIsExactly` | ext/rbczmq/poller.c:135-244 | from any poller that a run can reach every call comes to exactly one poller and answer: the items, the pollset with what was reported, the two lists, and each error |
| `PollerAnswers.RunsStayPossible` | ext/rbczmq/poller.c:135-244 | a run leaves a poller whose parts agree or one whose count has run ahead, and nothing else |
| `PollerAnswers.EventsCounts` | ext/rbczmq/poller.c:107-113 | the number a poll answers is the number of entries with an event |
| `PollerAnswers.SelectRaisesTheFirst` | lib/zmq.rb:58-64 | when select raises, it is for the first member that cannot be polled, all of `read` before all of `write` |
| `PollingRuns.BothRun` | ext/rbczmq/poller.c:237-240 | a run from a new poller that registers an IO for reading and for writing and removes it, after which it is still polled |
| `PollingRuns.RegisterThenRemove` | ext/rbczmq/poller.c:200-244 | removing what was just registered restores the items if and only if its entity was not polled before |
| `PollingRuns.PickIsExact` | ext/rbczmq/poller.c:59-75 | what is reported is the entities at exactly the positions whose bit is set, in ascending order |
| `PollingRuns.PollReportsIff` | ext/rbczmq/poller.c:135-176 | a successful poll reports exactly the ready entities, in order of registration, if and only if the poller is not empty or had nothing reported before |
| `PollingRuns.SelectAcceptsIff` | lib/zmq.rb:58-64 | select goes through if and only if every member of both lists can be polled: an open IO, or a socket bound or connected, not destroyed, on its thread |
| `PollingRuns.SelectIsExact` | lib/zmq.rb:58-64 | select returns exactly the readable members of `read` and the writable members of `write`, each in the order given, with nothing crossing over |
| `Lists.DeleteOne` | ext/rbczmq/poller.c:237 | rb_ary_delete takes exactly one entry out of its place when the entry is there once |
| `Lists.DeleteKeepsOrder` | ext/rbczmq/socket.c:299-373 | deleting an endpoint, or an item, leaves exactly the entries that differ, in the order they had |
| `Lists.RemoveFirstAt` | ext/rbczmq/message.c:343-359 | without duplicates, removing by value is removing by position, which is why two lists searched by different keys stay in step |
| `Polling.NewItem` | ext/rbczmq/pollitem.c:58-98 | a poll item is made exactly of an open IO or of a socket that may be used, and for POLLIN or POLLOUT at least; without a mask it is for both |
| `PollerRuntime.PollerWrapper.RebuildPollset` | ext/rbczmq/poller.c:37-52 | the loop copies the native entry of every item in order and clears the flag; it raises when the array is shorter than the count |
| `PollerRuntime.PollerWrapper.RebuildSelectables` | ext/rbczmq/poller.c:59-75 | the loop pushes the entities with POLLIN and POLLOUT by index |
| `PollerRuntime.PollerWrapper.ZmqPoll` | ext/rbczmq/poller.c:107-113 | zmq_poll's contract: a mask to every entry, and the count of those not empty |
| `PollerRuntime.PollerWrapper.Poll` | ext/rbczmq/poller.c:135-176 | the whole call, with the early return, the rebuild, the clearing and the three results |
| `PollerRuntime.PollerWrapper.New` | ext/rbczmq/pollitem.c:58-98 | a poll item that was not there before, or an exception and nothing; a closed IO is refused like a socket that may not be used |
| `PollerRuntime.PollerWrapper.Coerce` | ext/rbczmq/pollitem.c:113-131 | a poll item is returned as it is, and anything else made into a new one |
| `PollerRuntime.PollerWrapper.Register` | ext/rbczmq/poller.c:200-211 | coerces, appends, counts, and sets the flag; changes nothing when coercion raises |
| `PollerRuntime.PollerWrapper.Remove` | ext/rbczmq/poller.c:227-244 | the search loop and the deletion, with the count off by one less than the array when the item was there twice |
| `PollerRuntime.Select` | lib/zmq.rb:58-64 | the two loops and the poll return what `SelectIsExact` is about |
| `PollerRuntime.PerformAll` | ext/rbczmq/poller.c:135-244 | any run of calls, made on the wrapper struct and its array, ends in the state of that run, where count, array and pollset agree exactly when no twin was removed |
| `WholeProgram.RefusedTransfer` | ext/rbczmq/socket.c:657-661 | a send or receive through a socket that its guards do not admit raises and changes nothing in the whole program |
| `WholeProgram.SentThroughOpenSockets` | ext/rbczmq/socket.c:648-737 | zframes are handed over only by a send through a socket that is open, on its thread and admitted, and, while endpoints are in order, attached somewhere |
| `WholeProgram.HandedOverLiveIff` | ext/rbczmq/poller.c:37-52 | what `zmq_poll` is given has the addresses of the registered items one by one, and all of them are of live native sockets if and only if every registered socket is live |
| `WholeProgram.DestroysIff` | ext/rbczmq/context.c:92-120 | a call destroys a live native socket if and only if it was made in a context and the call closes it on its thread, collects it, collects its context, or destroys its context in the process that made that |
| `WholeProgram.StepPollsLiveIff` | ext/rbczmq/pollitem.c:79-84 | while every registered socket is live, any step of the program keeps it so if and only if it destroys no registered socket and registers no poll item whose socket was destroyed since the item was made |
| `WholeProgram.PollsLiveIff` | ext/rbczmq/poller.c:45 | from the start, every registered socket is live all along if and only if no step of the run is of that kind |
| `WholeProgram.HandsOverLiveSockets` | ext/rbczmq/poller.c:135-176 | after any such run that removed no twin, `zmq_poll` is given one entry for each registered item, and every socket among them is live |
| `WholeProgram.ClosedSocketIsPolled` | ext/rbczmq/pollitem.c:79 | a run in which a socket is connected, registered and closed, after which its address is in what `zmq_poll` is given |
| `WholeProgram.PartsOfRun` | ext/rbczmq/socket.c:648-859 | the calls on frames, on sockets and on the poller in any run of the whole are runs of their own with the same outcome, so that what was proved of those holds in it |

## Left out

- EqlIsExactIff: frames shorter than 4 gigabytes, and of the way CZMQ writes longer lengths only that they can be told apart; CZMQ itself, and what decode does with a malformed buffer, are not part of this model.
- EqlOnText: the same.
- EncodeIsInjective: the same.
- MessageEqlComparesParts: the same.
- SendMessage: CZMQ itself is not part of this model. How many zframes `zmsg_send` takes from the front and how many more it leaves alone are parameters, and the rest it destroys; a library that leaves one in the middle after destroying an earlier one is not covered.
- NewPipe: a second call for one beacon, which wraps the same native socket once more; a pipe's native socket is its beacon's, and goes with that, so that no call here destroys it.
- AdmittedIffAttached: sockets of a context only, because the pipe of a beacon is bound from the start and has no endpoint.
- Poll: the timeout, its conversion, and the revents a failed zmq_poll may leave in the pollset, which are never read.
- Poll: the two result arrays are the same Ruby objects from poll to poll, so a caller's earlier result is cleared under it; they are values here. The array that `Socket#endpoints` returns is likewise a value.
- SelectIsExact: a poll that succeeds; one that is interrupted or fails leaves both lists empty (`PollFailsEmpty`).
- Calls that release the interpreter lock are one atomic step; interleavings of threads inside them are not modelled.
- Failure to allocate a native object, error texts, and checks of argument types that come before anything was changed; those of `Context.new` and `Context#socket` come later and are modelled.
- The first, next and last cursor of a message: marking and to_a move the same library cursor.
- `ZMQ::Frame#eql?`, `==`, to_s, strhex, more, print, and the size and content size as numbers: they only read a zframe behind the guard that `FrameData` models.
- A poll item's handler and verbosity, and the verbose logging of every call.
- HandedOverLiveIff: what libzmq does with the address of a socket that is gone, and whether a new socket comes to lie there; addresses are never used twice here.
- Socket options, file descriptors, events, monitors, proxy, and the calls of a beacon other than its pipe: forwards to CZMQ.
- Transport, routing, request-reply alternation, high water marks and linger: implemented in libzmq.
- The reactor and its timers: the scheduling is CZMQ's.
