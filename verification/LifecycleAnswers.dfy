/**
 The whole effect of every call on contexts and sockets, and of both finalisers: what becomes of each socket and each
 context, what is destroyed natively, and the answer. These determine the call: `CallIsExactly`.
 */
module LifecycleAnswers {
  import opened Lists
  import opened Wrappers
  import opened Lifecycle
  import opened LifecycleRuns

  // ---------------------------------------------------------------------------------------------------------
  // What should come of a call
  // ---------------------------------------------------------------------------------------------------------

  /** The context is there, not destroyed, and of the process that asks. */
  predicate Own(w: Net, c: nat) {
    w.OpenContext(c) && w.contexts[c].pid == w.pid
  }

  /** The socket may be used. */
  predicate May(w: Net, s: nat, sameThread: bool) {
    w.Open(s) && sameThread
  }

  predicate Settable(threads: Threads, einval: bool) {
    threads.NoCount? || (threads.Count? && 0 <= threads.n <= INT_MAX && !einval)
  }

  /** The process has no context yet: whatever the call answers, it then has. */
  predicate Enters(w: Net, op: Op) {
    op.OpNewContext? && w.pid !in w.entry
  }

  predicate Opens(w: Net, op: Op) {
    || op.OpNewPipe?
    || (op.OpNewSocket? && Own(w, op.c) && op.socketType.Classed?)
  }

  predicate Frees(w: Net, op: Op, c: nat) {
    || (op == OpCollectContext(c) && w.OpenContext(c))
    || (op == OpDestroyContext(c) && Own(w, c))
  }

  /** The call shuts this socket: it closes or collects it, or frees its context. */
  predicate Shuts(w: Net, op: Op, s: nat) {
    && w.Open(s)
    && (|| op == OpClose(s, true)
        || op == OpCollectSocket(s)
        || (w.socks[s].context.Some? && Frees(w, op, w.socks[s].context.value)))
  }

  function Verdicted(w: Net, s: nat, sameThread: bool, verdict: Verdict, accepted: Answer): Answer {
    if !May(w, s, sameThread) then Raised
    else match verdict case Accepted => accepted case TryAgain => False case Failed => Raised
  }

  function Expected(w: Net, op: Op): Answer {
    match op
    case OpNewContext(threads, einval) =>
      if Enters(w, op) && Settable(threads, einval) then Made(w.contextCount) else Raised
    case OpDestroyContext(c) => if Own(w, c) then Nil else Raised
    case OpNewSocket(_, s, _) => if Opens(w, op) then Made(s) else Raised
    case OpNewPipe(s) => Made(s)
    case OpClose(s, sameThread) => if May(w, s, sameThread) then Nil else Raised
    case OpBind(s, sameThread, verdict, last) =>
      Verdicted(w, s, sameThread, verdict, if last.Some? then True else Raised)
    case OpConnect(s, sameThread, verdict, last) =>
      Verdicted(w, s, sameThread, verdict, if last.Some? then True else Raised)
    case OpUnbind(s, sameThread, verdict, _) => Verdicted(w, s, sameThread, verdict, True)
    case OpDisconnect(s, sameThread, verdict, _) => Verdicted(w, s, sameThread, verdict, True)
    case OpCollectContext(_) => Nil
    case OpCollectSocket(_) => Nil
    case OpFork(_) => Nil
  }

  /** A native bind, connect, unbind or disconnect of this socket went through. */
  predicate Went(w: Net, op: Op, s: nat) {
    match op
    case OpBind(x, sameThread, verdict, _) => x == s && May(w, s, sameThread) && verdict.Accepted?
    case OpConnect(x, sameThread, verdict, _) => x == s && May(w, s, sameThread) && verdict.Accepted?
    case OpUnbind(x, sameThread, verdict, _) => x == s && May(w, s, sameThread) && verdict.Accepted?
    case OpDisconnect(x, sameThread, verdict, _) => x == s && May(w, s, sameThread) && verdict.Accepted?
    case _ => false
  }

  function Listed(last: Option<string>): seq<string> {
    match last case Some(e) => [e] case None => []
  }

  /** The endpoints of the socket, in order: the new one comes last, and every equal one goes. */
  function Endpoints(w: Net, op: Op, s: nat): seq<string>
    requires s in w.socks
  {
    var es := w.socks[s].endpoints;
    if !Went(w, op, s) then es
    else match op
      case OpBind(_, _, _, last) => es + Listed(last)
      case OpConnect(_, _, _, last) => es + Listed(last)
      case OpUnbind(_, _, _, e) => DeleteAll(es, e)
      case OpDisconnect(_, _, _, e) => DeleteAll(es, e)
      case _ => es
  }

  function State(w: Net, op: Op, s: nat): SocketState
    requires s in w.socks
  {
    if Shuts(w, op, s) then Disconnected
    else if !Went(w, op, s) then w.socks[s].state
    else if op.OpBind? then Bound
    else if op.OpConnect? then Connected
    else if Endpoints(w, op, s) == [] then Disconnected
    else w.socks[s].state
  }

  /** The socket wrapper after the call: shut and without its pointers, or as it was but for state and endpoints. */
  predicate SocketRight(w: Net, op: Op, w': Net, s: nat)
    requires s in w.socks
  {
    && s in w'.socks
    && var (before, after, shut) := (w.socks[s], w'.socks[s], Shuts(w, op, s));
       && after.context == before.context && after.endpoints == Endpoints(w, op, s) && after.state == State(w, op, s)
       && after.destroyed == (shut || before.destroyed)
       && after.native == (!shut && before.native) && after.hasCtx == (!shut && before.hasCtx)
  }

  ghost predicate SocketsRight(w: Net, op: Op, w': Net) {
    && (forall s: nat :: s in w'.socks <==>
          (s in w.socks && op != OpCollectSocket(s)) || (Opens(w, op) && s == op.s))
    && (forall s: nat {:trigger SocketRight(w, op, w', s)} ::
          s in w.socks && op != OpCollectSocket(s) ==> SocketRight(w, op, w', s))
    && (Opens(w, op) ==>
          w'.socks[op.s] == if op.OpNewPipe? then Sock(None, false, true, false, Bound, [])
                            else Sock(Some(op.c), true, true, false, Pending, []))
    && w'.born == if Opens(w, op) then w.born[op.s := if op.OpNewPipe? then None else Some(op.c)] else w.born
  }

  /** The list of a context that stays: a new socket in front, a shut one gone from its place. */
  function ListOf(w: Net, op: Op, c: nat): seq<nat>
    requires c in w.contexts && w.contexts[c].sockets.Some?
  {
    var list := w.contexts[c].sockets.value;
    if Opens(w, op) && op.OpNewSocket? && op.c == c then [op.s] + list
    else if (op.OpClose? || op.OpCollectSocket?) && Shuts(w, op, op.s) && w.socks[op.s].context == Some(c)
      then Less(list, op.s)
    else list
  }

  predicate ContextRight(w: Net, op: Op, w': Net, c: nat)
    requires c in w.contexts
  {
    && c in w'.contexts && w'.contexts[c].pid == w.contexts[c].pid
    && (if Frees(w, op, c) || w.contexts[c].destroyed
        then w'.contexts[c].destroyed && !w'.contexts[c].native && w'.contexts[c].sockets.None?
        else
          && !w'.contexts[c].destroyed && w'.contexts[c].native
          && w.contexts[c].sockets.Some? && w'.contexts[c].sockets == Some(ListOf(w, op, c)))
  }

  ghost predicate ContextsRight(w: Net, op: Op, w': Net) {
    && (forall c: nat :: c in w'.contexts <==>
          (c in w.contexts && op != OpCollectContext(c)) || (Enters(w, op) && c == w.contextCount))
    && (forall c: nat {:trigger ContextRight(w, op, w', c)} ::
          c in w.contexts && op != OpCollectContext(c) ==> ContextRight(w, op, w', c))
    && (Enters(w, op) ==> w'.contexts[w.contextCount] == Ctx(true, false, w.pid, Some([])))
    && w'.contextCount == w.contextCount + (if Enters(w, op) then 1 else 0)
    && w'.pid == if op.OpFork? then op.pid else w.pid
  }

  /** Process `p` has the entry it had, or none if its context is freed, or a new one. */
  predicate EntryRight(w: Net, op: Op, w': Net, p: nat) {
    if Enters(w, op) && p == w.pid then p in w'.entry && w'.entry[p] == w.contextCount
    else if p in w.entry && !Frees(w, op, w.entry[p]) then p in w'.entry && w'.entry[p] == w.entry[p]
    else p !in w'.entry
  }

  /** How often the native socket and the native context of this name have been destroyed, and how many sockets of the
      context got no wrapper. */
  predicate NativesRight(w: Net, op: Op, w': Net, x: nat) {
    && w'.closed[x] == w.closed[x] + (if Shuts(w, op, x) && w.socks[x].context.Some? then 1 else 0)
    && w'.terminated[x] == w.terminated[x] + (if Frees(w, op, x) && w.contexts[x].pid == w.pid then 1 else 0)
    && w'.strays[x] == w.strays[x]
                       + (if op.OpNewSocket? && op.c == x && Own(w, x) && op.socketType.Unclassed? then 1 else 0)
  }

  ghost predicate RestRight(w: Net, op: Op, w': Net) {
    && (forall p: nat {:trigger EntryRight(w, op, w', p)} :: EntryRight(w, op, w', p))
    && (forall x: nat {:trigger NativesRight(w, op, w', x)} :: NativesRight(w, op, w', x))
  }

  /** State `w'` and this answer are what the call should come to. */
  ghost predicate ComesTo(w: Net, op: Op, w': Net, answer: Answer) {
    && SocketsRight(w, op, w') && ContextsRight(w, op, w')
    && RestRight(w, op, w') && answer == Expected(w, op)
  }

  // ---------------------------------------------------------------------------------------------------------
  // It does come of it
  // ---------------------------------------------------------------------------------------------------------

  lemma NewContextComesToSockets(w: Net, op: Op)
    requires Inv(w) && Enabled(w, op) && op.OpNewContext?
    ensures Do(w, op).Done? && SocketsRight(w, op, Do(w, op).net)
  {
    var w' := Do(w, op).net;
    forall s: nat | s in w.socks && op != OpCollectSocket(s) ensures SocketRight(w, op, w', s) {}
  }

  lemma NewContextComesToContexts(w: Net, op: Op)
    requires Inv(w) && Enabled(w, op) && op.OpNewContext?
    ensures Do(w, op).Done? && ContextsRight(w, op, Do(w, op).net)
  {
    forall c: nat | c in w.contexts ensures c < w.contextCount { assert CtxOk(w, c); }
    var w' := Do(w, op).net;
    forall c: nat | c in w.contexts ensures ContextRight(w, op, w', c) { assert CtxOk(w, c); }
  }

  lemma NewContextComesToRest(w: Net, op: Op)
    requires Inv(w) && Enabled(w, op) && op.OpNewContext?
    ensures Do(w, op).Done? && RestRight(w, op, Do(w, op).net) && Do(w, op).answer == Expected(w, op)
  {
    var w' := Do(w, op).net;
    forall p: nat ensures EntryRight(w, op, w', p) {}
    forall x: nat ensures NativesRight(w, op, w', x) {}
  }

  lemma NewContextComesTo(w: Net, op: Op)
    requires Inv(w) && Enabled(w, op) && op.OpNewContext?
    ensures Do(w, op).Done? && ComesTo(w, op, Do(w, op).net, Do(w, op).answer)
  {
    NewContextComesToSockets(w, op);
    NewContextComesToContexts(w, op);
    NewContextComesToRest(w, op);
  }

  lemma NewSocketComesToSockets(w: Net, op: Op)
    requires Inv(w) && Enabled(w, op) && (op.OpNewSocket? || op.OpNewPipe?)
    ensures Do(w, op).Done? && SocketsRight(w, op, Do(w, op).net)
  {
    if op.OpNewSocket? { assert CtxOk(w, op.c); }
    forall s: nat | s in w.socks ensures s in w.born { assert SockOk(w, s); }
    var w' := Do(w, op).net;
    forall s: nat | s in w.socks && op != OpCollectSocket(s) ensures SocketRight(w, op, w', s) {}
  }

  lemma NewSocketComesToContexts(w: Net, op: Op)
    requires Inv(w) && Enabled(w, op) && (op.OpNewSocket? || op.OpNewPipe?)
    ensures Do(w, op).Done? && ContextsRight(w, op, Do(w, op).net)
  {
    if op.OpNewSocket? { assert CtxOk(w, op.c); }
    var w' := Do(w, op).net;
    forall c: nat | c in w.contexts ensures ContextRight(w, op, w', c) { assert CtxOk(w, c); }
  }

  lemma NewSocketComesToRest(w: Net, op: Op)
    requires Inv(w) && Enabled(w, op) && (op.OpNewSocket? || op.OpNewPipe?)
    ensures Do(w, op).Done? && RestRight(w, op, Do(w, op).net) && Do(w, op).answer == Expected(w, op)
  {
    if op.OpNewSocket? { assert CtxOk(w, op.c); }
    var w' := Do(w, op).net;
    forall p: nat ensures EntryRight(w, op, w', p) {}
    forall x: nat ensures NativesRight(w, op, w', x) {}
  }

  lemma NewSocketComesTo(w: Net, op: Op)
    requires Inv(w) && Enabled(w, op) && (op.OpNewSocket? || op.OpNewPipe?)
    ensures Do(w, op).Done? && ComesTo(w, op, Do(w, op).net, Do(w, op).answer)
  {
    NewSocketComesToSockets(w, op);
    NewSocketComesToContexts(w, op);
    NewSocketComesToRest(w, op);
  }

  predicate OnEndpoints(op: Op) {
    op.OpBind? || op.OpConnect? || op.OpUnbind? || op.OpDisconnect?
  }

  /** Only the one socket may have changed. */
  lemma EndpointsTouchOne(w: Net, op: Op)
    requires Enabled(w, op) && OnEndpoints(op)
    ensures Do(w, op).Done? && op.s in Do(w, op).net.socks
    ensures Do(w, op).net == w.(socks := w.socks[op.s := Do(w, op).net.socks[op.s]])
  {
    if Do(w, op).net == w { assert w.socks == w.socks[op.s := w.socks[op.s]]; }
  }

  lemma AttachRight(w: Net, op: Op)
    requires Enabled(w, op) && (op.OpBind? || op.OpConnect?)
    ensures Do(w, op).Done? && SocketRight(w, op, Do(w, op).net, op.s)
  {
    var done := Do(w, op);
    assert !Shuts(w, op, op.s);
    if Went(w, op, op.s) {
      AttachedIs(w, op.s, if op.OpBind? then Bound else Connected, op.last);
    } else {
      assert done.net == w;
    }
  }

  lemma AttachedIs(w: Net, s: nat, state: SocketState, last: Option<string>)
    requires w.Open(s)
    ensures var (done, es) := (Attach(w, s, true, state, Accepted, last), w.socks[s].endpoints);
            && done.Done? && s in done.net.socks
            && done.net.socks[s] == w.socks[s].(endpoints := es + Listed(last), state := state)
  {
    assert last.None? ==> w.socks[s].endpoints + Listed(last) == w.socks[s].endpoints;
  }

  lemma DetachRight(w: Net, op: Op)
    requires Enabled(w, op) && (op.OpUnbind? || op.OpDisconnect?)
    ensures Do(w, op).Done? && SocketRight(w, op, Do(w, op).net, op.s)
  {
    var done := Do(w, op);
    assert !Shuts(w, op, op.s);
    if !Went(w, op, op.s) {
      assert done.net == w;
    } else {
      DetachedIs(w, op.s, op.endpoint);
    }
  }

  lemma DetachedIs(w: Net, s: nat, endpoint: string)
    requires w.Open(s)
    ensures var (done, left) := (Detach(w, s, true, endpoint, Accepted), DeleteAll(w.socks[s].endpoints, endpoint));
            && done.Done? && s in done.net.socks
            && done.net.socks[s] == w.socks[s].(endpoints := left,
                                                state := if left == [] then Disconnected else w.socks[s].state)
  {
  }

  lemma EndpointsAnswer(w: Net, op: Op)
    requires Enabled(w, op) && OnEndpoints(op)
    ensures Do(w, op).Done? && Do(w, op).answer == Expected(w, op)
  {
    match op
    case OpBind(_, _, _, _) =>
    case OpConnect(_, _, _, _) =>
    case OpUnbind(_, _, _, _) =>
    case OpDisconnect(_, _, _, _) =>
  }

  lemma EndpointsComeTo(w: Net, op: Op)
    requires Inv(w) && Enabled(w, op) && OnEndpoints(op)
    ensures Do(w, op).Done? && ComesTo(w, op, Do(w, op).net, Do(w, op).answer)
  {
    EndpointsTouchOne(w, op);
    EndpointsAnswer(w, op);
    if op.OpBind? || op.OpConnect? { AttachRight(w, op); } else { DetachRight(w, op); }
    OthersStay(w, op, Do(w, op).net);
  }

  lemma OthersStay(w: Net, op: Op, w': Net)
    requires Inv(w) && Enabled(w, op) && OnEndpoints(op) && SocketRight(w, op, w', op.s)
    requires w' == w.(socks := w.socks[op.s := w'.socks[op.s]])
    ensures SocketsRight(w, op, w') && ContextsRight(w, op, w') && RestRight(w, op, w')
  {
    forall s: nat | s in w.socks ensures SocketRight(w, op, w', s) { if s != op.s { OtherSocketStays(w, op, w', s); } }
    ContextsStay(w, op, w');
  }

  lemma ContextsStay(w: Net, op: Op, w': Net)
    requires Inv(w) && Enabled(w, op) && OnEndpoints(op) && w' == w.(socks := w'.socks)
    ensures ContextsRight(w, op, w') && RestRight(w, op, w')
  {
    forall c: nat | c in w.contexts ensures ContextRight(w, op, w', c) { assert CtxOk(w, c); }
    forall p: nat ensures EntryRight(w, op, w', p) {}
    forall x: nat ensures NativesRight(w, op, w', x) {}
  }

  lemma OtherSocketStays(w: Net, op: Op, w': Net, s: nat)
    requires Enabled(w, op) && OnEndpoints(op) && s in w.socks && s != op.s
    requires s in w'.socks && w'.socks[s] == w.socks[s]
    ensures SocketRight(w, op, w', s)
  {
  }

  lemma ForkComesTo(w: Net, op: Op)
    requires Inv(w) && Enabled(w, op) && op.OpFork?
    ensures Do(w, op).Done? && ComesTo(w, op, Do(w, op).net, Do(w, op).answer)
  {
    var w' := Do(w, op).net;
    forall c: nat | c in w.contexts ensures ContextRight(w, op, w', c) { assert CtxOk(w, c); }
    forall s: nat | s in w.socks && op != OpCollectSocket(s) ensures SocketRight(w, op, w', s) {}
    forall p: nat ensures EntryRight(w, op, w', p) {}
    forall x: nat ensures NativesRight(w, op, w', x) {}
  }

  /** The socket is shut, or the call is refused and nothing happens. */
  lemma ShuttingCloses(w: Net, op: Op)
    requires Inv(w) && Enabled(w, op) && (op.OpClose? || op.OpCollectSocket?)
    ensures Do(w, op).Done? && op.s in w.born && w.born[op.s] == w.socks[op.s].context
    ensures op.OpClose? && !May(w, op.s, op.sameThread) ==> Do(w, op) == Done(w, Raised)
    ensures op.OpClose? && May(w, op.s, op.sameThread) ==>
              Do(w, op).answer == Nil && Closes(w, op.s, Do(w, op).net)
    ensures op.OpCollectSocket? ==>
              && Do(w, op).answer == Nil && DestroySocket(w, op.s).Some?
              && Closes(w, op.s, DestroySocket(w, op.s).value)
              && Do(w, op).net == DestroySocket(w, op.s).value.(socks := DestroySocket(w, op.s).value.socks - {op.s})
  {
    var s := op.s;
    assert SockOk(w, s);
    if op.OpCollectSocket? {
      DestroySocketCloses(w, s);
    } else if May(w, s, op.sameThread) {
      var w1 := SetSock(w, s, w.socks[s].(state := Disconnected));
      RestateKeepsInv(w, s, Disconnected, w.socks[s].endpoints);
      DestroySocketCloses(w1, s);
      assert Do(w, op).net.socks == w.socks[s := Shut(w.socks[s])];
    }
  }

  lemma ShuttingComesToSockets(w: Net, op: Op)
    requires Inv(w) && Enabled(w, op) && (op.OpClose? || op.OpCollectSocket?)
    ensures Do(w, op).Done? && SocketsRight(w, op, Do(w, op).net)
  {
    ShuttingCloses(w, op);
    var w' := Do(w, op).net;
    forall s: nat | s in w.socks && op != OpCollectSocket(s) ensures SocketRight(w, op, w', s) {}
  }

  lemma ShuttingComesToContexts(w: Net, op: Op)
    requires Inv(w) && Enabled(w, op) && (op.OpClose? || op.OpCollectSocket?)
    ensures Do(w, op).Done? && ContextsRight(w, op, Do(w, op).net)
  {
    ShuttingCloses(w, op);
    assert SockOk(w, op.s);
    var w' := Do(w, op).net;
    forall c: nat | c in w.contexts ensures ContextRight(w, op, w', c) {
      assert CtxOk(w, c);
      if w.OpenContext(c) { RemoveFirstIsLess(w.contexts[c].sockets.value, op.s); }
    }
  }

  lemma ShuttingComesToRest(w: Net, op: Op)
    requires Inv(w) && Enabled(w, op) && (op.OpClose? || op.OpCollectSocket?)
    ensures Do(w, op).Done? && RestRight(w, op, Do(w, op).net) && Do(w, op).answer == Expected(w, op)
  {
    ShuttingCloses(w, op);
    var w' := Do(w, op).net;
    forall p: nat ensures EntryRight(w, op, w', p) {}
    forall x: nat ensures NativesRight(w, op, w', x) {}
  }

  lemma ShuttingComesTo(w: Net, op: Op)
    requires Inv(w) && Enabled(w, op) && (op.OpClose? || op.OpCollectSocket?)
    ensures Do(w, op).Done? && ComesTo(w, op, Do(w, op).net, Do(w, op).answer)
  {
    ShuttingComesToSockets(w, op);
    ShuttingComesToContexts(w, op);
    ShuttingComesToRest(w, op);
  }

  lemma FreeingComesToSockets(w: Net, op: Op)
    requires Inv(w) && Enabled(w, op) && (op.OpDestroyContext? || op.OpCollectContext?)
    ensures Do(w, op).Done? && SocketsRight(w, op, Do(w, op).net)
  {
    assert CtxOk(w, op.c);
    if w.OpenContext(op.c) { FreeContextKeepsInv(w, op.c); }
    var w' := Do(w, op).net;
    forall s: nat | s in w.socks && op != OpCollectSocket(s) ensures SocketRight(w, op, w', s) { assert SockOk(w, s); }
  }

  /** What freeing does to everything but the sockets. */
  lemma FreeingIs(w: Net, op: Op)
    requires Inv(w) && Enabled(w, op) && (op.OpDestroyContext? || op.OpCollectContext?)
    ensures Do(w, op).Done? && Do(w, op).answer == Expected(w, op)
    ensures var (w', d, freed) := (Do(w, op).net, op.c, Frees(w, op, op.c));
            && w'.contextCount == w.contextCount && w'.pid == w.pid && w'.strays == w.strays
            && w'.entry == (if freed then w.entry - {w.contexts[d].pid} else w.entry)
            && w'.terminated ==
               (if freed && w.contexts[d].pid == w.pid then w.terminated + multiset{d} else w.terminated)
            && w'.contexts.Keys == (if op.OpCollectContext? then w.contexts.Keys - {d} else w.contexts.Keys)
            && (forall c: nat :: c in w'.contexts && c != d ==> w'.contexts[c] == w.contexts[c])
            && (d in w'.contexts ==> w'.contexts[d].pid == w.contexts[d].pid && w'.contexts[d].destroyed ==
                                     (freed || w.contexts[d].destroyed))
            && (d in w'.contexts && !freed ==> w'.contexts[d] == w.contexts[d])
  {
    assert CtxOk(w, op.c);
    if w.OpenContext(op.c) { FreeContextKeepsInv(w, op.c); }
  }

  lemma FreeingComesToContexts(w: Net, op: Op)
    requires Inv(w) && Enabled(w, op) && (op.OpDestroyContext? || op.OpCollectContext?)
    ensures Do(w, op).Done? && ContextsRight(w, op, Do(w, op).net)
  {
    FreeingIs(w, op);
    StepKeepsInv(w, op);
    FreedContextsRight(w, op, Do(w, op).net);
  }

  lemma FreedContextsRight(w: Net, op: Op, w': Net)
    requires Inv(w) && Inv(w') && Enabled(w, op) && (op.OpDestroyContext? || op.OpCollectContext?)
    requires w'.contextCount == w.contextCount && w'.pid == w.pid
    requires w'.contexts.Keys == if op.OpCollectContext? then w.contexts.Keys - {op.c} else w.contexts.Keys
    requires forall c: nat :: c in w'.contexts && c != op.c ==> w'.contexts[c] == w.contexts[c]
    requires op.c in w'.contexts ==>
               && w'.contexts[op.c].pid == w.contexts[op.c].pid
               && w'.contexts[op.c].destroyed == (Frees(w, op, op.c) || w.contexts[op.c].destroyed)
               && (!Frees(w, op, op.c) ==> w'.contexts[op.c] == w.contexts[op.c])
    ensures ContextsRight(w, op, w')
  {
    forall c: nat | c in w.contexts && op != OpCollectContext(c) ensures ContextRight(w, op, w', c) {
      assert CtxOk(w, c) && CtxOk(w', c);
    }
  }

  lemma FreeingComesToRest(w: Net, op: Op)
    requires Inv(w) && Enabled(w, op) && (op.OpDestroyContext? || op.OpCollectContext?)
    ensures Do(w, op).Done? && RestRight(w, op, Do(w, op).net) && Do(w, op).answer == Expected(w, op)
  {
    FreeingIs(w, op);
    StepKeepsInv(w, op);
    FreeingComesToSockets(w, op);
    var w' := Do(w, op).net;
    FreedEntriesRight(w, op, w');
    forall x: nat ensures NativesRight(w, op, w', x) { FreedNativesRight(w, op, w', x); }
  }

  lemma FreedEntriesRight(w: Net, op: Op, w': Net)
    requires Inv(w) && Enabled(w, op) && (op.OpDestroyContext? || op.OpCollectContext?)
    requires w'.entry == if Frees(w, op, op.c) then w.entry - {w.contexts[op.c].pid} else w.entry
    ensures forall p: nat {:trigger EntryRight(w, op, w', p)} :: EntryRight(w, op, w', p)
  {
    assert CtxOk(w, op.c);
    forall p: nat ensures EntryRight(w, op, w', p) { if p in w.entry { assert EntryOk(w, p); } }
  }

  lemma FreedNativesRight(w: Net, op: Op, w': Net, x: nat)
    requires Inv(w) && Inv(w') && Enabled(w, op) && (op.OpDestroyContext? || op.OpCollectContext?)
    requires SocketsRight(w, op, w') && w'.strays == w.strays
    requires w'.terminated == if Frees(w, op, op.c) && w.contexts[op.c].pid == w.pid
                              then w.terminated + multiset{op.c} else w.terminated
    ensures NativesRight(w, op, w', x)
  {
    assert ClosedOk(w, x) && ClosedOk(w', x);
    if x in w.socks { assert SockOk(w, x) && SocketRight(w, op, w', x); }
  }

  lemma FreeingComesTo(w: Net, op: Op)
    requires Inv(w) && Enabled(w, op) && (op.OpDestroyContext? || op.OpCollectContext?)
    ensures Do(w, op).Done? && ComesTo(w, op, Do(w, op).net, Do(w, op).answer)
  {
    FreeingComesToSockets(w, op);
    FreeingComesToContexts(w, op);
    FreeingComesToRest(w, op);
  }

  lemma DoesComeTo(w: Net, op: Op)
    requires Inv(w) && Enabled(w, op)
    ensures Do(w, op).Done? && ComesTo(w, op, Do(w, op).net, Do(w, op).answer)
  {
    match op
    case OpNewContext(_, _) => NewContextComesTo(w, op);
    case OpDestroyContext(_) => FreeingComesTo(w, op);
    case OpCollectContext(_) => FreeingComesTo(w, op);
    case OpNewSocket(_, _, _) => NewSocketComesTo(w, op);
    case OpNewPipe(_) => NewSocketComesTo(w, op);
    case OpClose(_, _) => ShuttingComesTo(w, op);
    case OpCollectSocket(_) => ShuttingComesTo(w, op);
    case OpFork(_) => ForkComesTo(w, op);
    case _ => EndpointsComeTo(w, op);
  }

  lemma SocketsOnce(w: Net, op: Op, a: Net, b: Net)
    requires SocketsRight(w, op, a) && SocketsRight(w, op, b)
    ensures a.socks == b.socks && a.born == b.born
  {
    forall s: nat | s in a.socks ensures s in b.socks && b.socks[s] == a.socks[s] {
      if s in w.socks && op != OpCollectSocket(s) { assert SocketRight(w, op, a, s) && SocketRight(w, op, b, s); }
    }
    assert a.socks.Keys == b.socks.Keys;
  }

  lemma ContextsOnce(w: Net, op: Op, a: Net, b: Net)
    requires ContextsRight(w, op, a) && ContextsRight(w, op, b)
    ensures a.contexts == b.contexts && a.contextCount == b.contextCount && a.pid == b.pid
  {
    forall c: nat | c in a.contexts ensures c in b.contexts && b.contexts[c] == a.contexts[c] {
      if c in w.contexts && op != OpCollectContext(c) { assert ContextRight(w, op, a, c) && ContextRight(w, op, b, c); }
    }
    assert a.contexts.Keys == b.contexts.Keys;
  }

  lemma RestOnce(w: Net, op: Op, a: Net, b: Net)
    requires RestRight(w, op, a) && RestRight(w, op, b)
    ensures a.entry == b.entry && a.closed == b.closed && a.terminated == b.terminated && a.strays == b.strays
  {
    forall p: nat ensures p in a.entry <==> p in b.entry
      ensures p in a.entry ==> a.entry[p] == b.entry[p]
    {
      assert EntryRight(w, op, a, p) && EntryRight(w, op, b, p);
    }
    assert a.entry.Keys == b.entry.Keys;
    forall x: nat
      ensures a.closed[x] == b.closed[x] && a.terminated[x] == b.terminated[x] && a.strays[x] == b.strays[x]
    {
      assert NativesRight(w, op, a, x) && NativesRight(w, op, b, x);
    }
  }

  /** From any good state a call comes to exactly one state and one answer: those in which every socket, every context,
      every entry and every native object is as it should be. */
  lemma CallIsExactly(w: Net, op: Op, w': Net, answer: Answer)
    requires Inv(w) && Enabled(w, op)
    ensures ComesTo(w, op, w', answer) <==> Do(w, op) == Done(w', answer)
  {
    DoesComeTo(w, op);
    var d := Do(w, op).net;
    if ComesTo(w, op, w', answer) {
      SocketsOnce(w, op, w', d);
      ContextsOnce(w, op, w', d);
      RestOnce(w, op, w', d);
    }
  }

  // ---------------------------------------------------------------------------------------------------------
  // ctx.socket
  // ---------------------------------------------------------------------------------------------------------

  /** A socket is made exactly when the context is open, of this process, and the type has a class; it is then new, open
      and pending, stands first in its context's list, and nothing else changed. Otherwise the call raises, and no
      socket, context or entry has changed. */
  lemma NewSocketIff(w: Net, c: nat, s: nat, socketType: SocketType)
    requires Inv(w) && c in w.contexts && s !in w.born
    ensures NewSocket(w, c, s, socketType).Done?
    ensures var (r, made) := (NewSocket(w, c, s, socketType),
                              w.OpenContext(c) && w.contexts[c].pid == w.pid && socketType.Classed?);
            && r.answer == (if made then Made(s) else Raised)
            && r.net.entry == w.entry && r.net.closed == w.closed
            && (made ==>
                  && s !in w.socks && r.net.socks == w.socks[s := Sock(Some(c), true, true, false, Pending, [])]
                  && r.net.born == w.born[s := Some(c)] && w.contexts[c].sockets.Some?
                  && r.net.contexts ==
                     w.contexts[c := w.contexts[c].(sockets := Some([s] + w.contexts[c].sockets.value))])
            && (!made ==> r.net.socks == w.socks && r.net.contexts == w.contexts && r.net.born == w.born)
  {
    assert CtxOk(w, c);
    forall x: nat | x in w.socks ensures x in w.born { assert SockOk(w, x); }
  }
}
