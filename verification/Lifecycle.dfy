/**
 Contexts and sockets. Close, context destroy and both finalisers may come in any order, and the native destroy of
 a socket must happen once. The functions below follow context.c and socket.c call by call.
 */
module Lifecycle {
  import opened Lists
  import opened Wrappers

  datatype SocketState = Pending | Bound | Connected | Disconnected

  /** `zmq_ctx_wrapper`: `native` says whether the zctx pointer is set; the list is gone once it was destroyed. */
  datatype Ctx = Ctx(native: bool, destroyed: bool, pid: nat, sockets: Option<seq<nat>>)

  /** `zmq_sock_wrapper`. A socket made by ZMQ::Beacon#pipe has no context; `hasCtx` and `native` are the zctx and
      the socket pointer. A native socket is named like the wrapper it was made for. */
  datatype Sock = Sock(context: Option<nat>, hasCtx: bool, native: bool, destroyed: bool,
                       state: SocketState, endpoints: seq<string>)

  datatype Net = Net(
    contexts: map<nat, Ctx>,         // context wrappers that have not been collected
    socks: map<nat, Sock>,           // socket wrappers that have not been collected
    entry: map<nat, nat>,            // the per-process map: process id to context
    pid: nat,                        // the current process
    born: map<nat, Option<nat>>,     // for every socket ever made, the context it was made in
    closed: multiset<nat>,           // native sockets destroyed by this extension
    terminated: multiset<nat>,       // native contexts destroyed
    strays: multiset<nat>,           // the contexts of native sockets that got no wrapper
    contextCount: nat)
  {
    /** A socket that is neither closed nor collected. */
    predicate Open(s: nat) {
      s in socks && !socks[s].destroyed
    }

    predicate OpenContext(c: nat) {
      c in contexts && !contexts[c].destroyed
    }
  }

  const NO_NET := Net(map[], map[], map[], 0, map[], multiset{}, multiset{}, multiset{}, 0)

  datatype Answer = Nil | True | False | Made(id: nat) | Raised
  datatype Outcome = Done(net: Net, answer: Answer) | Crash

  function SetSock(w: Net, s: nat, sock: Sock): Net {
    w.(socks := w.socks[s := sock])
  }

  function SetCtx(w: Net, c: nat, ctx: Ctx): Net {
    w.(contexts := w.contexts[c := ctx])
  }

  /** What is left of a wrapper after `rb_czmq_context_destroy_socket`. */
  function Shut(sock: Sock): Sock {
    sock.(destroyed := true, hasCtx := false, native := false, state := Disconnected)
  }

  /** `rb_czmq_context_destroy_socket`. Reading through the pointer to a freed context, or removing from a list that
      is gone, is a crash. */
  function DestroySocket(w: Net, s: nat): Option<Net>
    requires s in w.socks
  {
    var sock := w.socks[s];
    if sock.context.None? || !sock.hasCtx || sock.destroyed then Some(SetSock(w, s, Shut(sock)))
    else
      var c := sock.context.value;
      if c !in w.contexts || w.contexts[c].sockets.None? then None
      else
        var ctx := w.contexts[c];
        var w' := SetCtx(w, c, ctx.(sockets := Some(RemoveFirst(ctx.sockets.value, s))));
        Some(SetSock(if sock.native then w'.(closed := w'.closed + multiset{s}) else w', s, Shut(sock)))
  }

  /** The drain loop of `rb_czmq_free_ctx`: pops wrappers off the context's list until it is empty. */
  function Drain(w: Net, c: nat): Option<Net>
    requires c in w.contexts
    decreases if w.contexts[c].sockets.Some? then |w.contexts[c].sockets.value| else 0
  {
    if w.contexts[c].sockets.None? then None
    else if w.contexts[c].sockets.value == [] then Some(w)
    else
      var s := w.contexts[c].sockets.value[0];
      var popped := SetCtx(w, c, w.contexts[c].(sockets := Some(w.contexts[c].sockets.value[1..])));
      if s !in w.socks then None
      else match DestroySocket(popped, s)
        case None => None
        case Some(w') => Drain(w', c)
  }

  /** `rb_czmq_free_ctx` once the sockets are gone. Only the process that made the native context destroys it. */
  function Terminate(w: Net, c: nat): Net
    requires c in w.contexts
  {
    var ctx := w.contexts[c];
    var w' := SetCtx(w, c, Ctx(false, true, ctx.pid, None));
    w'.(terminated := if ctx.pid == w.pid then w.terminated + multiset{c} else w.terminated,
        entry := w.entry - {ctx.pid})
  }

  function FreeContext(w: Net, c: nat): Option<Net>
    requires c in w.contexts
  {
    match Drain(w, c)
    case None => None
    case Some(w') => if c in w'.contexts then Some(Terminate(w', c)) else None
  }

  function Finish(w: Option<Net>, answer: Answer): Outcome {
    match w case None => Crash case Some(w') => Done(w', answer)
  }

  // ---------------------------------------------------------------------------------------------------------
  // The calls
  // ---------------------------------------------------------------------------------------------------------

  /** What is given for the number of I/O threads: nothing or nil, a whole number, or something else. */
  datatype Threads = NoCount | Count(n: int) | NotACount

  /** The largest number a C int holds; a larger one raises when it is converted. */
  const INT_MAX := 0x7FFF_FFFF

  /** The setter of the thread count raises: for what is no number, for one that does not fit a C int, for a negative
      one, and when the library reports EINVAL. */
  predicate Unsettable(threads: Threads, einval: bool) {
    match threads
    case NoCount => false
    case NotACount => true
    case Count(n) => n < 0 || n > INT_MAX || einval
  }

  /** `ZMQ::Context.new(io_threads)`: a second context of the process is refused. The thread count is looked at only
      after the context has been entered into the map. */
  function NewContext(w: Net, threads: Threads, einval: bool): Outcome {
    if w.pid in w.entry then Done(w, Raised)
    else
      var c := w.contextCount;
      var w' := SetCtx(w, c, Ctx(true, false, w.pid, Some([])));
      Done(w'.(entry := w.entry[w.pid := c], contextCount := c + 1),
           if Unsettable(threads, einval) then Raised else Made(c))
  }

  function DestroyContext(w: Net, c: nat): Outcome
    requires c in w.contexts
  {
    if w.contexts[c].destroyed || w.contexts[c].pid != w.pid then Done(w, Raised)
    else Finish(FreeContext(w, c), Nil)
  }

  /** `rb_czmq_free_ctx_gc` */
  function CollectContext(w: Net, c: nat): Outcome
    requires c in w.contexts
  {
    var freed := if w.contexts[c].native && !w.contexts[c].destroyed then FreeContext(w, c) else Some(w);
    match freed
    case None => Crash
    case Some(w') => Done(w'.(contexts := w'.contexts - {c}), Nil)
  }

  /** What is asked of `ctx.socket`: a type that Ruby has a class for, one that only the library knows, or none. */
  datatype SocketType = Classed | Unclassed | NoType

  /** The class is looked up, and may be missing, after the native socket has been made. */
  function NewSocket(w: Net, c: nat, s: nat, socketType: SocketType): Outcome
    requires c in w.contexts && s !in w.born
  {
    var ctx := w.contexts[c];
    if ctx.destroyed || ctx.pid != w.pid || socketType.NoType? then Done(w, Raised)
    else if socketType.Unclassed? then Done(w.(strays := w.strays + multiset{c}), Raised)
    else if ctx.sockets.None? then Crash
    else
      var w' := SetSock(w, s, Sock(Some(c), ctx.native, true, false, Pending, []));
      Done(SetCtx(w', c, ctx.(sockets := Some([s] + ctx.sockets.value))).(born := w.born[s := Some(c)]), Made(s))
  }

  /** `ZMQ::Beacon#pipe`: the socket belongs to the beacon's own context, and counts as bound from the start. */
  function NewPipe(w: Net, s: nat): Outcome
    requires s !in w.born
  {
    Done(SetSock(w, s, Sock(None, false, true, false, Bound, [])).(born := w.born[s := None]), Made(s))
  }

  function Close(w: Net, s: nat, sameThread: bool): Outcome
    requires s in w.socks
  {
    if w.socks[s].destroyed || !sameThread then Done(w, Raised)
    else Finish(DestroySocket(SetSock(w, s, w.socks[s].(state := Disconnected)), s), Nil)
  }

  /** `rb_czmq_free_sock_gc` */
  function CollectSocket(w: Net, s: nat): Outcome
    requires s in w.socks
  {
    match DestroySocket(w, s)
    case None => Crash
    case Some(w') => Done(w'.(socks := w'.socks - {s}), Nil)
  }

  /** bind and connect. `last`: what zsocket_last_endpoint then reports. The
      check for a NULL report compares a boolean with -1 and never fires, so the state is set before the exception. */
  function Attach(w: Net, s: nat, sameThread: bool, state: SocketState, verdict: Verdict, last: Option<string>): Outcome
    requires s in w.socks
  {
    if w.socks[s].destroyed || !sameThread then Done(w, Raised)
    else if !verdict.Accepted? then Done(w, if verdict.TryAgain? then False else Raised)
    else
      var sock := w.socks[s].(state := state);
      match last
      case None => Done(SetSock(w, s, sock), Raised)
      case Some(e) => Done(SetSock(w, s, sock.(endpoints := sock.endpoints + [e])), True)
  }

  /** disconnect and unbind. */
  function Detach(w: Net, s: nat, sameThread: bool, endpoint: string, verdict: Verdict): Outcome
    requires s in w.socks
  {
    if w.socks[s].destroyed || !sameThread then Done(w, Raised)
    else if !verdict.Accepted? then Done(w, if verdict.TryAgain? then False else Raised)
    else
      var left := DeleteAll(w.socks[s].endpoints, endpoint);
      var sock := w.socks[s].(endpoints := left);
      Done(SetSock(w, s, if left == [] then sock.(state := Disconnected) else sock), True)
  }

  /** The guard of every send and receive: not destroyed, bound or connected, on its own thread. */
  function Admitted(w: Net, s: nat, sameThread: bool): bool
    requires s in w.socks
  {
    !w.socks[s].destroyed && (w.socks[s].state.Bound? || w.socks[s].state.Connected?) && sameThread
  }

  // ---------------------------------------------------------------------------------------------------------
  // Steps
  // ---------------------------------------------------------------------------------------------------------

  datatype Op =
    | OpNewContext(threads: Threads, einval: bool)
    | OpDestroyContext(c: nat)
    | OpCollectContext(c: nat)
    | OpNewSocket(c: nat, s: nat, socketType: SocketType)
    | OpNewPipe(s: nat)
    | OpClose(s: nat, sameThread: bool)
    | OpCollectSocket(s: nat)
    | OpBind(s: nat, sameThread: bool, verdict: Verdict, last: Option<string>)
    | OpConnect(s: nat, sameThread: bool, verdict: Verdict, last: Option<string>)
    | OpUnbind(s: nat, sameThread: bool, verdict: Verdict, endpoint: string)
    | OpDisconnect(s: nat, sameThread: bool, verdict: Verdict, endpoint: string)
    | OpFork(pid: nat)               // the run goes on in the child, with a copy of everything

  /** Any uncollected object may be used, and any may be collected: nothing is said about reachability. */
  predicate Enabled(w: Net, op: Op) {
    match op
    case OpNewContext(_, _) => true
    case OpDestroyContext(c) => c in w.contexts
    case OpCollectContext(c) => c in w.contexts
    case OpNewSocket(c, s, _) => c in w.contexts && s !in w.born
    case OpNewPipe(s) => s !in w.born
    case OpFork(_) => true
    case _ => op.s in w.socks
  }

  function Do(w: Net, op: Op): Outcome
    requires Enabled(w, op)
  {
    match op
    case OpNewContext(threads, einval) => NewContext(w, threads, einval)
    case OpDestroyContext(c) => DestroyContext(w, c)
    case OpCollectContext(c) => CollectContext(w, c)
    case OpNewSocket(c, s, socketType) => NewSocket(w, c, s, socketType)
    case OpNewPipe(s) => NewPipe(w, s)
    case OpClose(s, sameThread) => Close(w, s, sameThread)
    case OpCollectSocket(s) => CollectSocket(w, s)
    case OpBind(s, sameThread, verdict, last) => Attach(w, s, sameThread, Bound, verdict, last)
    case OpConnect(s, sameThread, verdict, last) => Attach(w, s, sameThread, Connected, verdict, last)
    case OpUnbind(s, sameThread, verdict, endpoint) => Detach(w, s, sameThread, endpoint, verdict)
    case OpDisconnect(s, sameThread, verdict, endpoint) => Detach(w, s, sameThread, endpoint, verdict)
    case OpFork(pid) => Done(w.(pid := pid), Nil)
  }
}
