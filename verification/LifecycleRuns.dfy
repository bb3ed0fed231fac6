/**
 What every run of `Lifecycle` keeps, whatever the order of close, context destroy and the finalisers: no freed
 context is read, a native socket is destroyed once and only once, and a process has one context.
 */
module LifecycleRuns {
  import opened Lists
  import opened Wrappers
  import opened Lifecycle

  /** The list of a context is its open sockets, each once; only a context that is not destroyed has one. */
  ghost predicate CtxOk(w: Net, c: nat)
    requires c in w.contexts
  {
    var ctx := w.contexts[c];
    && c < w.contextCount
    && ctx.native == !ctx.destroyed && ctx.sockets.Some? == !ctx.destroyed
    && (!ctx.destroyed ==>
          && ctx.pid in w.entry && w.entry[ctx.pid] == c
          && NoDup(ctx.sockets.value)
          && forall s :: s in ctx.sockets.value ==> w.Open(s) && w.socks[s].context == Some(c))
  }

  ghost predicate SockOk(w: Net, s: nat)
    requires s in w.socks
  {
    var sock := w.socks[s];
    && s in w.born && w.born[s] == sock.context
    && (if sock.destroyed then !sock.native && !sock.hasCtx && sock.state.Disconnected?
        else
          && sock.native && sock.hasCtx == sock.context.Some?
          && (sock.context.Some? ==>
                var c := sock.context.value;
                w.OpenContext(c) && w.contexts[c].sockets.Some? && s in w.contexts[c].sockets.value))
  }

  /** The native socket has been destroyed exactly when the wrapper is no longer open; a pipe's never. */
  ghost predicate ClosedOk(w: Net, s: nat) {
    w.closed[s] == if s in w.born && w.born[s].Some? && !w.Open(s) then 1 else 0
  }

  ghost predicate TerminatedOk(w: Net, c: nat) {
    w.terminated[c] <= if c < w.contextCount && !w.OpenContext(c) then 1 else 0
  }

  ghost predicate EntryOk(w: Net, p: nat)
    requires p in w.entry
  {
    w.OpenContext(w.entry[p]) && w.contexts[w.entry[p]].pid == p
  }

  ghost predicate Inv(w: Net) {
    && (forall c: nat {:trigger CtxOk(w, c)} :: c in w.contexts ==> CtxOk(w, c))
    && (forall s: nat {:trigger SockOk(w, s)} :: s in w.socks ==> SockOk(w, s))
    && (forall s: nat {:trigger ClosedOk(w, s)} :: ClosedOk(w, s))
    && (forall c: nat {:trigger TerminatedOk(w, c)} :: TerminatedOk(w, c))
    && (forall p: nat {:trigger EntryOk(w, p)} :: p in w.entry ==> EntryOk(w, p))
  }

  // ---------------------------------------------------------------------------------------------------------
  // Destroying one socket
  // ---------------------------------------------------------------------------------------------------------

  /** One socket is shut, taken off its context's list and, unless that happened before or it is a pipe, destroyed. */
  ghost predicate Closes(w: Net, s: nat, w': Net)
    requires s in w.socks && s in w.born
  {
    && w'.socks == w.socks[s := Shut(w.socks[s])]
    && w'.born == w.born && w'.entry == w.entry && w'.pid == w.pid
    && w'.terminated == w.terminated && w'.strays == w.strays && w'.contextCount == w.contextCount
    && w'.contexts.Keys == w.contexts.Keys
    && (forall c :: c in w.contexts ==>
          w'.contexts[c] == if w.Open(s) && w.socks[s].context == Some(c) && w.contexts[c].sockets.Some?
                            then w.contexts[c].(sockets := Some(RemoveFirst(w.contexts[c].sockets.value, s)))
                            else w.contexts[c])
    && w'.closed == if w.Open(s) && w.born[s].Some? then w.closed + multiset{s} else w.closed
  }

  lemma DestroySocketCloses(w: Net, s: nat)
    requires Inv(w) && s in w.socks
    ensures s in w.born && DestroySocket(w, s).Some? && Closes(w, s, DestroySocket(w, s).value)
  {
    assert SockOk(w, s);
  }

  lemma ClosesKeepsInv(w: Net, s: nat, w': Net)
    requires Inv(w) && s in w.socks && s in w.born && Closes(w, s, w')
    ensures Inv(w') && !w'.Open(s)
  {
    assert SockOk(w, s);
    forall c: nat | c in w'.contexts ensures CtxOk(w', c) && w'.OpenContext(c) == w.OpenContext(c) {
      assert CtxOk(w, c);
      if w.OpenContext(c) { RemoveFirstOnce(w.contexts[c].sockets.value, s); }
    }
    forall x: nat | x in w'.socks ensures SockOk(w', x) {
      assert SockOk(w, x);
      if w.Open(x) && w.socks[x].context.Some? {
        assert CtxOk(w, w.socks[x].context.value);
        RemoveFirstOnce(w.contexts[w.socks[x].context.value].sockets.value, s);
      }
    }
    forall x: nat ensures ClosedOk(w', x) { assert ClosedOk(w, x); }
    forall c: nat ensures TerminatedOk(w', c) { assert TerminatedOk(w, c); }
    forall p: nat | p in w'.entry ensures EntryOk(w', p) { assert EntryOk(w, p); }
  }

  // ---------------------------------------------------------------------------------------------------------
  // The drain loop
  // ---------------------------------------------------------------------------------------------------------

  /** Popping the head and then removing it again finds nothing to remove: the loop closes the listed sockets. */
  lemma PopThenRemove(w: Net, c: nat)
    requires Inv(w) && c in w.contexts && w.contexts[c].sockets.Some? && w.contexts[c].sockets.value != []
    ensures var list := w.contexts[c].sockets.value;
            && list[0] in w.socks
            && DestroySocket(SetCtx(w, c, w.contexts[c].(sockets := Some(list[1..]))), list[0])
               == DestroySocket(w, list[0])
  {
    assert CtxOk(w, c);
    var list := w.contexts[c].sockets.value;
    assert list[0] in list;
    assert SockOk(w, list[0]);
    RemoveFirstAbsent(list[1..], list[0]);
    var popped := SetCtx(w, c, w.contexts[c].(sockets := Some(list[1..])));
    assert popped.contexts[c := w.contexts[c].(sockets := Some(list[1..]))]
        == w.contexts[c := w.contexts[c].(sockets := Some(list[1..]))];
  }

  /** Between two states of the drain of `c`, only sockets of `c` and its list have changed. */
  ghost predicate Drains(w: Net, c: nat, w': Net) {
    && w'.socks.Keys == w.socks.Keys && w'.contexts.Keys == w.contexts.Keys
    && w'.born == w.born && w'.entry == w.entry && w'.pid == w.pid
    && w'.terminated == w.terminated && w'.strays == w.strays && w'.contextCount == w.contextCount
    && (forall x: nat :: x in w.contexts ==>
          w'.contexts[x] == if x == c then w.contexts[x].(sockets := w'.contexts[x].sockets) else w.contexts[x])
    && (forall s: nat :: s in w.socks ==>
          w'.socks[s] == if w.Open(s) && w.socks[s].context == Some(c) then Shut(w.socks[s]) else w.socks[s])
  }

  /** One turn of the loop, seen from outside: the head is popped and destroyed, and the loop goes on from there. */
  lemma DrainUnfolds(w: Net, c: nat)
    requires c in w.contexts && w.contexts[c].sockets.Some? && w.contexts[c].sockets.value != []
    requires Drain(w, c).Some?
    ensures var list := w.contexts[c].sockets.value;
            var popped := SetCtx(w, c, w.contexts[c].(sockets := Some(list[1..])));
            && list[0] in w.socks && DestroySocket(popped, list[0]).Some?
            && var w' := DestroySocket(popped, list[0]).value;
               && c in w'.contexts && w'.contexts[c].sockets.Some?
               && |w'.contexts[c].sockets.value| < |list| && Drain(w', c) == Drain(w, c)
  {
  }

  lemma {:induction false} DrainShutsAll(w: Net, c: nat)
    requires Inv(w) && w.OpenContext(c)
    ensures var r := Drain(w, c);
            r.Some? && Inv(r.value) && Drains(w, c, r.value) && r.value.contexts[c].sockets == Some([])
    decreases if w.contexts[c].sockets.Some? then |w.contexts[c].sockets.value| else 0
  {
    assert CtxOk(w, c);
    var list := w.contexts[c].sockets.value;
    if list == [] {
      forall s: nat | s in w.socks ensures w.Open(s) ==> w.socks[s].context != Some(c) { assert SockOk(w, s); }
    } else {
      PopThenRemove(w, c);
      DestroySocketCloses(w, list[0]);
      var w' := DestroySocket(w, list[0]).value;
      ClosesKeepsInv(w, list[0], w');
      assert list[0] in list;
      var popped := SetCtx(w, c, w.contexts[c].(sockets := Some(list[1..])));
      assert Drain(w, c) == Drain(w', c);
      DrainShutsAll(w', c);
    }
  }

  lemma TerminateKeepsInv(w: Net, c: nat)
    requires Inv(w) && w.OpenContext(c) && w.contexts[c].sockets == Some([])
    ensures Inv(Terminate(w, c)) && !Terminate(w, c).OpenContext(c)
  {
    var w' := Terminate(w, c);
    assert CtxOk(w, c) && TerminatedOk(w, c);
    forall x: nat | x in w'.contexts ensures CtxOk(w', x) {
      assert CtxOk(w, x);
    }
    forall x: nat | x in w'.socks ensures SockOk(w', x) { assert SockOk(w, x); }
    forall x: nat ensures ClosedOk(w', x) { assert ClosedOk(w, x); }
    forall x: nat ensures TerminatedOk(w', x) { assert TerminatedOk(w, x); }
    forall p: nat | p in w'.entry ensures EntryOk(w', p) { assert EntryOk(w, p); }
  }

  /** What freeing an open context amounts to: every open socket of it is shut and natively destroyed, the process
      entry goes, and the native context goes if this is the process that made it. */
  lemma FreeContextKeepsInv(w: Net, c: nat)
    requires Inv(w) && w.OpenContext(c)
    ensures FreeContext(w, c).Some?
    ensures var w' := FreeContext(w, c).value;
            && Inv(w') && c in w'.contexts && !w'.OpenContext(c)
            && w'.contexts[c].pid == w.contexts[c].pid
            && w'.entry == w.entry - {w.contexts[c].pid} && w'.born == w.born && w'.pid == w.pid
            && w'.contextCount == w.contextCount && w'.strays == w.strays
            && w'.terminated == (if w.contexts[c].pid == w.pid then w.terminated + multiset{c} else w.terminated)
            && w'.socks.Keys == w.socks.Keys && w'.contexts.Keys == w.contexts.Keys
            && (forall x: nat :: x in w.contexts && x != c ==> w'.contexts[x] == w.contexts[x])
            && (forall s: nat :: s in w.socks ==>
                  w'.socks[s] == if w.Open(s) && w.socks[s].context == Some(c) then Shut(w.socks[s]) else w.socks[s])
  {
    DrainShutsAll(w, c);
    TerminateKeepsInv(Drain(w, c).value, c);
  }

  // ---------------------------------------------------------------------------------------------------------
  // Steps
  // ---------------------------------------------------------------------------------------------------------

  lemma NewContextKeepsInv(w: Net, threads: Threads, einval: bool)
    requires Inv(w)
    ensures NewContext(w, threads, einval).Done? && Inv(NewContext(w, threads, einval).net)
  {
    var w' := NewContext(w, threads, einval).net;
    assert TerminatedOk(w, w.contextCount);
    forall x: nat | x in w'.contexts ensures CtxOk(w', x) { if x in w.contexts { assert CtxOk(w, x); } }
    forall x: nat | x in w'.socks ensures SockOk(w', x) {
      assert SockOk(w, x);
      forall c: nat | c in w.contexts ensures CtxOk(w, c) {}
    }
    forall x: nat ensures ClosedOk(w', x) { assert ClosedOk(w, x); }
    forall x: nat ensures TerminatedOk(w', x) { assert TerminatedOk(w, x); }
    forall p: nat | p in w'.entry ensures EntryOk(w', p) {
      if p in w.entry { assert EntryOk(w, p); assert CtxOk(w, w.entry[p]); }
    }
  }

  /** A context that is not open any more is in nobody's way: it can go. */
  lemma ForgetContextKeepsInv(w: Net, c: nat)
    requires Inv(w) && c in w.contexts && !w.OpenContext(c)
    ensures Inv(w.(contexts := w.contexts - {c}))
  {
    var w' := w.(contexts := w.contexts - {c});
    forall x: nat | x in w'.contexts ensures CtxOk(w', x) { assert CtxOk(w, x); }
    forall x: nat | x in w'.socks ensures SockOk(w', x) { assert SockOk(w, x); }
    forall x: nat ensures ClosedOk(w', x) { assert ClosedOk(w, x); }
    forall x: nat ensures TerminatedOk(w', x) { assert TerminatedOk(w, x); }
    forall p: nat | p in w'.entry ensures EntryOk(w', p) { assert EntryOk(w, p); }
  }

  lemma CollectContextKeepsInv(w: Net, c: nat)
    requires Inv(w) && c in w.contexts
    ensures CollectContext(w, c).Done? && Inv(CollectContext(w, c).net)
  {
    assert CtxOk(w, c);
    if w.OpenContext(c) {
      FreeContextKeepsInv(w, c);
      ForgetContextKeepsInv(FreeContext(w, c).value, c);
    } else {
      ForgetContextKeepsInv(w, c);
    }
  }

  /** The current process and the native sockets without a wrapper are nothing to the invariant. */
  lemma BystandersKeepInv(w: Net, pid: nat, strays: multiset<nat>)
    requires Inv(w)
    ensures Inv(w.(pid := pid, strays := strays))
  {
    var w' := w.(pid := pid, strays := strays);
    forall x: nat | x in w'.contexts ensures CtxOk(w', x) { assert CtxOk(w, x); }
    forall x: nat | x in w'.socks ensures SockOk(w', x) { assert SockOk(w, x); }
    forall x: nat ensures ClosedOk(w', x) { assert ClosedOk(w, x); }
    forall x: nat ensures TerminatedOk(w', x) { assert TerminatedOk(w, x); }
    forall p: nat | p in w'.entry ensures EntryOk(w', p) { assert EntryOk(w, p); }
  }

  lemma NewSocketKeepsInv(w: Net, c: nat, s: nat, socketType: SocketType)
    requires Inv(w) && c in w.contexts && s !in w.born
    ensures NewSocket(w, c, s, socketType).Done? && Inv(NewSocket(w, c, s, socketType).net)
  {
    assert CtxOk(w, c);
    forall x: nat | x in w.socks ensures x in w.born { assert SockOk(w, x); }
    if socketType.Unclassed? {
      BystandersKeepInv(w, w.pid, w.strays + multiset{c});
    } else if !w.contexts[c].destroyed && w.contexts[c].pid == w.pid && socketType.Classed? {
      var w' := NewSocket(w, c, s, socketType).net;
      assert NoDup([s] + w.contexts[c].sockets.value);
      forall x: nat | x in w'.contexts ensures CtxOk(w', x) { assert CtxOk(w, x); }
      forall x: nat | x in w'.socks ensures SockOk(w', x) { if x != s { assert SockOk(w, x); } }
      forall x: nat ensures ClosedOk(w', x) { assert ClosedOk(w, x); }
      forall x: nat ensures TerminatedOk(w', x) { assert TerminatedOk(w, x); }
      forall p: nat | p in w'.entry ensures EntryOk(w', p) { assert EntryOk(w, p); }
    }
  }

  lemma NewPipeKeepsInv(w: Net, s: nat)
    requires Inv(w) && s !in w.born
    ensures NewPipe(w, s).Done? && Inv(NewPipe(w, s).net)
  {
    forall x: nat | x in w.socks ensures x in w.born { assert SockOk(w, x); }
    var w' := NewPipe(w, s).net;
    forall x: nat | x in w'.contexts ensures CtxOk(w', x) { assert CtxOk(w, x); }
    forall x: nat | x in w'.socks ensures SockOk(w', x) { if x != s { assert SockOk(w, x); } }
    forall x: nat ensures ClosedOk(w', x) { assert ClosedOk(w, x); }
    forall x: nat ensures TerminatedOk(w', x) { assert TerminatedOk(w, x); }
    forall p: nat | p in w'.entry ensures EntryOk(w', p) { assert EntryOk(w, p); }
  }

  /** The state and the endpoints of an open socket are nothing to the invariant. */
  lemma RestateKeepsInv(w: Net, s: nat, state: SocketState, endpoints: seq<string>)
    requires Inv(w) && w.Open(s)
    ensures Inv(SetSock(w, s, w.socks[s].(state := state, endpoints := endpoints)))
  {
    var w' := SetSock(w, s, w.socks[s].(state := state, endpoints := endpoints));
    assert SockOk(w, s);
    forall x: nat | x in w'.contexts ensures CtxOk(w', x) { assert CtxOk(w, x); }
    forall x: nat | x in w'.socks ensures SockOk(w', x) { assert SockOk(w, x); }
    forall x: nat ensures ClosedOk(w', x) { assert ClosedOk(w, x); }
    forall x: nat ensures TerminatedOk(w', x) { assert TerminatedOk(w, x); }
    forall p: nat | p in w'.entry ensures EntryOk(w', p) { assert EntryOk(w, p); }
  }

  /** The later of two writes to one wrapper counts. */
  lemma SetTwice(w: Net, s: nat, first: Sock, second: Sock)
    ensures SetSock(SetSock(w, s, first), s, second) == SetSock(w, s, second)
  {
    assert w.socks[s := first][s := second] == w.socks[s := second];
  }

  lemma CloseKeepsInv(w: Net, s: nat, sameThread: bool)
    requires Inv(w) && s in w.socks
    ensures Close(w, s, sameThread).Done? && Inv(Close(w, s, sameThread).net)
  {
    if w.Open(s) && sameThread {
      RestateKeepsInv(w, s, Disconnected, w.socks[s].endpoints);
      var w' := SetSock(w, s, w.socks[s].(state := Disconnected));
      DestroySocketCloses(w', s);
      ClosesKeepsInv(w', s, DestroySocket(w', s).value);
    }
  }

  lemma CollectSocketKeepsInv(w: Net, s: nat)
    requires Inv(w) && s in w.socks
    ensures CollectSocket(w, s).Done? && Inv(CollectSocket(w, s).net)
  {
    DestroySocketCloses(w, s);
    var w1 := DestroySocket(w, s).value;
    ClosesKeepsInv(w, s, w1);
    var w' := w1.(socks := w1.socks - {s});
    forall x: nat | x in w'.contexts ensures CtxOk(w', x) { assert CtxOk(w1, x); }
    forall x: nat | x in w'.socks ensures SockOk(w', x) { assert SockOk(w1, x); }
    forall x: nat ensures ClosedOk(w', x) { assert ClosedOk(w1, x); }
    forall x: nat ensures TerminatedOk(w', x) { assert TerminatedOk(w1, x); }
    forall p: nat | p in w'.entry ensures EntryOk(w', p) { assert EntryOk(w1, p); }
  }

  lemma AttachKeepsInv(w: Net, s: nat, sameThread: bool, state: SocketState, verdict: Verdict, last: Option<string>)
    requires Inv(w) && s in w.socks
    ensures var r := Attach(w, s, sameThread, state, verdict, last); r.Done? && Inv(r.net)
  {
    if w.Open(s) {
      var endpoints := w.socks[s].endpoints;
      RestateKeepsInv(w, s, state, endpoints);
      if last.Some? { RestateKeepsInv(w, s, state, endpoints + [last.value]); }
    }
  }

  lemma DetachKeepsInv(w: Net, s: nat, sameThread: bool, endpoint: string, verdict: Verdict)
    requires Inv(w) && s in w.socks
    ensures var r := Detach(w, s, sameThread, endpoint, verdict); r.Done? && Inv(r.net)
  {
    if w.Open(s) {
      var left := DeleteAll(w.socks[s].endpoints, endpoint);
      RestateKeepsInv(w, s, if left == [] then Disconnected else w.socks[s].state, left);
    }
  }

  /** No call and no finaliser, in whatever order it comes, reads a freed context or breaks the invariant. */
  lemma StepKeepsInv(w: Net, op: Op)
    requires Inv(w) && Enabled(w, op)
    ensures Do(w, op).Done? && Inv(Do(w, op).net)
  {
    match op
    case OpNewContext(threads, einval) => NewContextKeepsInv(w, threads, einval);
    case OpDestroyContext(c) => if !w.contexts[c].destroyed { FreeContextKeepsInv(w, c); }
    case OpCollectContext(c) => CollectContextKeepsInv(w, c);
    case OpNewSocket(c, s, socketType) => NewSocketKeepsInv(w, c, s, socketType);
    case OpNewPipe(s) => NewPipeKeepsInv(w, s);
    case OpClose(s, sameThread) => CloseKeepsInv(w, s, sameThread);
    case OpCollectSocket(s) => CollectSocketKeepsInv(w, s);
    case OpFork(pid) => BystandersKeepInv(w, pid, w.strays);
    case OpBind(s, sameThread, verdict, last) => AttachKeepsInv(w, s, sameThread, Bound, verdict, last);
    case OpConnect(s, sameThread, verdict, last) => AttachKeepsInv(w, s, sameThread, Connected, verdict, last);
    case OpUnbind(s, sameThread, verdict, endpoint) => DetachKeepsInv(w, s, sameThread, endpoint, verdict);
    case OpDisconnect(s, sameThread, verdict, endpoint) => DetachKeepsInv(w, s, sameThread, endpoint, verdict);
  }

  // ---------------------------------------------------------------------------------------------------------
  // Runs
  // ---------------------------------------------------------------------------------------------------------

  predicate CanRun(w: Net, ops: seq<Op>)
    decreases |ops|
  {
    ops != [] ==> Enabled(w, ops[0]) && (Do(w, ops[0]).Done? ==> CanRun(Do(w, ops[0]).net, ops[1..]))
  }

  function Run(w: Net, ops: seq<Op>): (r: Option<Net>)
    requires CanRun(w, ops)
    decreases |ops|
  {
    if ops == [] then Some(w) else match Do(w, ops[0]) case Crash => None case Done(w', _) => Run(w', ops[1..])
  }

  lemma {:induction false} RunKeepsInv(w: Net, ops: seq<Op>)
    requires Inv(w) && CanRun(w, ops)
    ensures Run(w, ops).Some? && Inv(Run(w, ops).value)
    decreases |ops|
  {
    if ops != [] {
      StepKeepsInv(w, ops[0]);
      RunKeepsInv(Do(w, ops[0]).net, ops[1..]);
    }
  }

  lemma AnyOrderIsSafe(ops: seq<Op>)
    requires CanRun(NO_NET, ops)
    ensures Run(NO_NET, ops).Some? && Inv(Run(NO_NET, ops).value)
  {
    forall s: nat ensures ClosedOk(NO_NET, s) {}
    forall c: nat ensures TerminatedOk(NO_NET, c) {}
    RunKeepsInv(NO_NET, ops);
  }

  /** A native socket is destroyed once at most; it is destroyed exactly when it was made in a context and its wrapper
      was closed, collected or drained; and once its context is gone it is destroyed for certain. */
  lemma NativeSocketsDieOnce(ops: seq<Op>, s: nat)
    requires CanRun(NO_NET, ops)
    ensures Run(NO_NET, ops).Some?
    ensures var w := Run(NO_NET, ops).value;
            && w.closed[s] <= 1
            && (w.closed[s] == 1 <==> s in w.born && w.born[s].Some? && !w.Open(s))
            && (s in w.born && w.born[s].Some? && !w.OpenContext(w.born[s].value) ==> w.closed[s] == 1)
  {
    AnyOrderIsSafe(ops);
    var w := Run(NO_NET, ops).value;
    assert ClosedOk(w, s);
    if w.Open(s) { assert SockOk(w, s); }
  }

  lemma FreeingLeavesStrays(w: Net, op: Op)
    requires Inv(w) && Enabled(w, op) && (op.OpDestroyContext? || op.OpCollectContext?)
    ensures Do(w, op).Done? && Do(w, op).net.strays == w.strays
  {
    assert CtxOk(w, op.c);
    if w.OpenContext(op.c) { FreeContextKeepsInv(w, op.c); }
  }

  lemma ShuttingLeavesStrays(w: Net, op: Op)
    requires Inv(w) && Enabled(w, op) && (op.OpClose? || op.OpCollectSocket?)
    ensures Do(w, op).Done? && Do(w, op).net.strays == w.strays
  {
    if op.OpCollectSocket? {
      DestroySocketCloses(w, op.s);
    } else if w.Open(op.s) && op.sameThread {
      RestateKeepsInv(w, op.s, Disconnected, w.socks[op.s].endpoints);
      DestroySocketCloses(SetSock(w, op.s, w.socks[op.s].(state := Disconnected)), op.s);
    }
  }

  /** A call leaves a native socket without a wrapper exactly when it asks a context that may be used for a type without
      a class; and no call or finaliser ever takes such a socket back. */
  lemma StepStraysIff(w: Net, op: Op)
    requires Inv(w) && Enabled(w, op)
    ensures Do(w, op).Done?
    ensures var stray := op.OpNewSocket? && op.socketType.Unclassed? && w.OpenContext(op.c)
                         && w.contexts[op.c].pid == w.pid;
            Do(w, op).net.strays == if stray then w.strays + multiset{op.c} else w.strays
  {
    match op
    case OpDestroyContext(_) => FreeingLeavesStrays(w, op);
    case OpCollectContext(_) => FreeingLeavesStrays(w, op);
    case OpClose(_, _) => ShuttingLeavesStrays(w, op);
    case OpCollectSocket(_) => ShuttingLeavesStrays(w, op);
    case OpNewSocket(c, _, _) => assert CtxOk(w, c);
    case _ =>
  }

  ghost function OpenSockets(w: Net, c: nat): set<nat> {
    set s: nat | s in w.socks && w.Open(s) && w.socks[s].context == Some(c)
  }

  /** The list of a context that is not destroyed has every open socket of it, each once, and nothing else. */
  lemma ListIsOpenSockets(ops: seq<Op>, c: nat)
    requires CanRun(NO_NET, ops)
    ensures Run(NO_NET, ops).Some?
    ensures var w := Run(NO_NET, ops).value;
            w.OpenContext(c) ==>
              && w.contexts[c].sockets.Some?
              && multiset(w.contexts[c].sockets.value) == multiset(OpenSockets(w, c))
  {
    AnyOrderIsSafe(ops);
    var w := Run(NO_NET, ops).value;
    if w.OpenContext(c) {
      assert CtxOk(w, c);
      var list := w.contexts[c].sockets.value;
      var listed: multiset<nat>, open: multiset<nat> := multiset(list), multiset(OpenSockets(w, c));
      forall s: nat ensures listed[s] == open[s] {
        if s in w.socks { assert SockOk(w, s); }
        NoDupCounts(list, s);
      }
    }
  }

  /** A process has an entry exactly when it has a context that is not destroyed, and then it has one only. */
  lemma OneContextPerProcess(ops: seq<Op>, p: nat)
    requires CanRun(NO_NET, ops)
    ensures Run(NO_NET, ops).Some?
    ensures var w := Run(NO_NET, ops).value;
            && (p in w.entry <==> exists c :: w.OpenContext(c) && w.contexts[c].pid == p)
            && (forall c, d :: w.OpenContext(c) && w.OpenContext(d) && w.contexts[c].pid == w.contexts[d].pid ==>
                  c == d)
  {
    AnyOrderIsSafe(ops);
    var w := Run(NO_NET, ops).value;
    forall c | w.OpenContext(c) ensures w.contexts[c].pid in w.entry && w.entry[w.contexts[c].pid] == c {
      assert CtxOk(w, c);
    }
    if p in w.entry { assert EntryOk(w, p); }
  }

  /** No entry has changed and no context was made or came back. */
  ghost predicate SameContexts(w: Net, w': Net) {
    w'.entry == w.entry && w'.contextCount == w.contextCount && forall c :: w'.OpenContext(c) ==> w.OpenContext(c)
  }

  lemma ShuttingLeavesContexts(w: Net, op: Op)
    requires Inv(w) && Enabled(w, op) && (op.OpClose? || op.OpCollectSocket?)
    ensures Do(w, op).Done? && SameContexts(w, Do(w, op).net)
  {
    if op.OpCollectSocket? {
      DestroySocketCloses(w, op.s);
    } else if w.Open(op.s) && op.sameThread {
      RestateKeepsInv(w, op.s, Disconnected, w.socks[op.s].endpoints);
      DestroySocketCloses(SetSock(w, op.s, w.socks[op.s].(state := Disconnected)), op.s);
    }
  }

  lemma FreeingTakesOneEntry(w: Net, op: Op)
    requires Inv(w) && Enabled(w, op) && (op.OpDestroyContext? || op.OpCollectContext?)
    ensures Do(w, op).Done?
    ensures var w' := Do(w, op).net;
            && w'.contextCount == w.contextCount && (forall c :: w'.OpenContext(c) ==> w.OpenContext(c))
            && (w'.entry == w.entry || (w.OpenContext(op.c) && w'.entry == w.entry - {w.contexts[op.c].pid}))
  {
    assert CtxOk(w, op.c);
    if w.OpenContext(op.c) { FreeContextKeepsInv(w, op.c); }
  }

  /** Why the entry of process `p` may differ after a step: `p` made its context, or that very context was freed. A
      context that is destroyed already changes no entry, and once destroyed or collected it is not open again. */
  lemma EntriesChangeOnlyByTheirContext(w: Net, op: Op, p: nat, c: nat)
    requires Inv(w) && Enabled(w, op) && c < w.contextCount
    ensures Do(w, op).Done?
    ensures var w' := Do(w, op).net;
            && (p in w.entry && (p !in w'.entry || w'.entry[p] != w.entry[p]) ==>
                  p !in w'.entry && (op.OpDestroyContext? || op.OpCollectContext?) && op.c == w.entry[p])
            && (p !in w.entry && p in w'.entry ==> op.OpNewContext? && p == w.pid && w'.entry[p] == w.contextCount)
            && (!w.OpenContext(c) ==> !w'.OpenContext(c))
            && w'.contextCount >= w.contextCount
  {
    match op
    case OpNewContext(_, _) =>
    case OpDestroyContext(x) => FreeingTakesOneEntry(w, op); assert CtxOk(w, x);
    case OpCollectContext(x) => FreeingTakesOneEntry(w, op); assert CtxOk(w, x);
    case OpNewSocket(x, _, _) => assert CtxOk(w, x);
    case OpNewPipe(_) =>
    case OpFork(_) =>
    case OpClose(_, _) => ShuttingLeavesContexts(w, op);
    case OpCollectSocket(_) => ShuttingLeavesContexts(w, op);
    case _ =>
  }

  // ---------------------------------------------------------------------------------------------------------
  // The finalisers at the end
  // ---------------------------------------------------------------------------------------------------------

  predicate Collects(ops: seq<Op>) {
    forall i :: 0 <= i < |ops| ==> ops[i].OpCollectContext? || ops[i].OpCollectSocket?
  }

  /** Native contexts destroyed, now or still to come in this process. */
  ghost function Due(w: Net, c: nat): nat {
    w.terminated[c] + if w.OpenContext(c) && w.contexts[c].pid == w.pid then 1 else 0
  }

  lemma CollectingKeepsDue(w: Net, op: Op, c: nat)
    requires Inv(w) && Enabled(w, op) && (op.OpCollectContext? || op.OpCollectSocket?)
    ensures Do(w, op).Done?
    ensures Due(Do(w, op).net, c) == Due(w, c) && Do(w, op).net.born == w.born
  {
    if op.OpCollectSocket? {
      DestroySocketCloses(w, op.s);
    } else {
      assert CtxOk(w, op.c);
      if w.OpenContext(op.c) { FreeContextKeepsInv(w, op.c); }
    }
  }

  lemma {:induction false} CollectRunKeepsDue(w: Net, ops: seq<Op>, c: nat)
    requires Inv(w) && CanRun(w, ops) && Collects(ops)
    ensures Run(w, ops).Some?
    ensures Due(Run(w, ops).value, c) == Due(w, c) && Run(w, ops).value.born == w.born
    decreases |ops|
  {
    if ops != [] {
      StepKeepsInv(w, ops[0]);
      CollectingKeepsDue(w, ops[0], c);
      CollectRunKeepsDue(Do(w, ops[0]).net, ops[1..], c);
    }
  }

  /** Two runs of finalisers that collect every context, in any two orders and mixed with socket finalisers in any
      way, destroy the same native sockets and the same native contexts, each once. */
  lemma FinalisersAgree(w: Net, ops: seq<Op>, ops': seq<Op>)
    requires Inv(w) && CanRun(w, ops) && CanRun(w, ops') && Collects(ops) && Collects(ops')
    ensures Run(w, ops).Some? && Run(w, ops').Some?
    ensures var (a, b) := (Run(w, ops).value, Run(w, ops').value);
            a.contexts == map[] && b.contexts == map[] ==>
              a.closed == b.closed && a.terminated == b.terminated
  {
    RunKeepsInv(w, ops);
    RunKeepsInv(w, ops');
    var a, b := Run(w, ops).value, Run(w, ops').value;
    if a.contexts == map[] && b.contexts == map[] {
      forall x: nat ensures a.closed[x] == b.closed[x] && a.terminated[x] == b.terminated[x] {
        CollectRunKeepsDue(w, ops, x);
        CollectRunKeepsDue(w, ops', x);
        ClosedForGood(a, x);
        ClosedForGood(b, x);
      }
    }
  }

  /** With no context left, every native socket that was ever made in one has been destroyed. */
  lemma ClosedForGood(w: Net, s: nat)
    requires Inv(w) && w.contexts == map[]
    ensures w.closed[s] == if s in w.born && w.born[s].Some? then 1 else 0
  {
    assert ClosedOk(w, s);
    if w.Open(s) { assert SockOk(w, s); }
  }
}
