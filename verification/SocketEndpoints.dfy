/**
 The state of a context's socket against its endpoint list. Sends and receives are let through by the state; what they
 mean to ask is whether the socket is attached anywhere.
 */
module SocketEndpoints {
  import opened Lists
  import opened Wrappers
  import opened Lifecycle
  import opened LifecycleRuns
  import A = LifecycleAnswers

  predicate Attached(state: SocketState) {
    state.Bound? || state.Connected?
  }

  ghost predicate EndpointsAgree(w: Net, s: nat)
    requires s in w.socks
  {
    Attached(w.socks[s].state) <==> w.socks[s].endpoints != []
  }

  /** Open, and made in a context: a beacon's pipe is bound without an endpoint. */
  predicate Usable(w: Net, s: nat) {
    w.Open(s) && w.socks[s].context.Some?
  }

  ghost predicate AllAgree(w: Net) {
    forall s: nat {:trigger EndpointsAgree(w, s)} :: Usable(w, s) ==> EndpointsAgree(w, s)
  }

  /** bind or connect succeeded natively, but no endpoint was reported, and the list was empty. */
  predicate Silent(w: Net, op: Op)
    requires Enabled(w, op)
  {
    && (op.OpBind? || op.OpConnect?)
    && Usable(w, op.s) && op.sameThread && op.verdict.Accepted? && op.last.None? && w.socks[op.s].endpoints == []
  }

  /** Every socket open after the step was open and the same before, or is new. */
  ghost predicate LeavesOpenSockets(w: Net, w': Net) {
    forall s: nat :: Usable(w', s) ==>
      (Usable(w, s) && w'.socks[s] == w.socks[s]) || (w'.socks[s].state.Pending? && w'.socks[s].endpoints == [])
  }

  lemma FreeingLeavesOpenSockets(w: Net, op: Op)
    requires Inv(w) && Enabled(w, op) && (op.OpDestroyContext? || op.OpCollectContext?)
    ensures Do(w, op).Done? && LeavesOpenSockets(w, Do(w, op).net)
  {
    assert CtxOk(w, op.c);
    if w.OpenContext(op.c) { FreeContextKeepsInv(w, op.c); }
  }

  lemma ShuttingLeavesOpenSockets(w: Net, op: Op)
    requires Inv(w) && Enabled(w, op) && (op.OpClose? || op.OpCollectSocket?)
    ensures Do(w, op).Done? && LeavesOpenSockets(w, Do(w, op).net)
  {
    if op.OpCollectSocket? {
      DestroySocketCloses(w, op.s);
    } else if w.Open(op.s) && op.sameThread {
      RestateKeepsInv(w, op.s, Disconnected, w.socks[op.s].endpoints);
      DestroySocketCloses(SetSock(w, op.s, w.socks[op.s].(state := Disconnected)), op.s);
    }
  }

  lemma OtherStepsLeaveOpenSockets(w: Net, op: Op)
    requires Inv(w) && Enabled(w, op) && !(op.OpBind? || op.OpConnect? || op.OpUnbind? || op.OpDisconnect?)
    ensures Do(w, op).Done? && LeavesOpenSockets(w, Do(w, op).net)
  {
    match op
    case OpNewContext(_, _) =>
    case OpDestroyContext(_) => FreeingLeavesOpenSockets(w, op);
    case OpCollectContext(_) => FreeingLeavesOpenSockets(w, op);
    case OpNewSocket(c, s, socketType) => NewSocketKeepsInv(w, c, s, socketType);
    case OpNewPipe(_) =>
    case OpFork(_) =>
    case _ => ShuttingLeavesOpenSockets(w, op);
  }

  /** The call touches no socket but `s`, and opens or closes none. */
  ghost predicate TouchesOnly(w: Net, s: nat, w': Net) {
    && (forall x: nat :: Usable(w', x) && x != s ==> Usable(w, x) && w'.socks[x] == w.socks[x])
    && (Usable(w', s) <==> Usable(w, s))
  }

  lemma AttachAgreesIff(w: Net, s: nat, sameThread: bool, state: SocketState, verdict: Verdict, last: Option<string>)
    requires s in w.socks && Attached(state)
    ensures var r := Attach(w, s, sameThread, state, verdict, last);
            && r.Done? && s in r.net.socks && TouchesOnly(w, s, r.net)
            && (EndpointsAgree(w, s) ==>
                  (EndpointsAgree(r.net, s) <==>
                     !(w.Open(s) && sameThread && verdict.Accepted? && last.None? && w.socks[s].endpoints == [])))
  {
  }

  lemma DetachAgrees(w: Net, s: nat, sameThread: bool, endpoint: string, verdict: Verdict)
    requires s in w.socks
    ensures var r := Detach(w, s, sameThread, endpoint, verdict);
            && r.Done? && s in r.net.socks && TouchesOnly(w, s, r.net)
            && (EndpointsAgree(w, s) ==> EndpointsAgree(r.net, s))
  {
  }

  lemma EndpointCallsTouchOneSocket(w: Net, op: Op)
    requires AllAgree(w) && Enabled(w, op) && (op.OpBind? || op.OpConnect? || op.OpUnbind? || op.OpDisconnect?)
    ensures Do(w, op).Done? && op.s in Do(w, op).net.socks && TouchesOnly(w, op.s, Do(w, op).net)
    ensures Usable(w, op.s) ==> (EndpointsAgree(Do(w, op).net, op.s) <==> !Silent(w, op))
  {
    match op
    case OpBind(s, sameThread, verdict, last) => AttachAgreesIff(w, s, sameThread, Bound, verdict, last);
    case OpConnect(s, sameThread, verdict, last) => AttachAgreesIff(w, s, sameThread, Connected, verdict, last);
    case OpUnbind(s, sameThread, verdict, endpoint) => DetachAgrees(w, s, sameThread, endpoint, verdict);
    case OpDisconnect(s, sameThread, verdict, endpoint) => DetachAgrees(w, s, sameThread, endpoint, verdict);
    assert Usable(w, op.s) ==> EndpointsAgree(w, op.s);
  }

  /** Every step keeps the agreement, except the silent one, which always breaks it. */
  lemma StepKeepsEndpointsIff(w: Net, op: Op)
    requires Inv(w) && AllAgree(w) && Enabled(w, op)
    ensures Do(w, op).Done?
    ensures AllAgree(Do(w, op).net) <==> !Silent(w, op)
  {
    StepKeepsInv(w, op);
    if op.OpBind? || op.OpConnect? || op.OpUnbind? || op.OpDisconnect? {
      EndpointCallsTouchOneSocket(w, op);
    } else {
      OtherStepsLeaveOpenSockets(w, op);
    }
    var w' := Do(w, op).net;
    forall s: nat | Usable(w', s) && !Silent(w, op) ensures EndpointsAgree(w', s) {
      if Usable(w, s) { assert EndpointsAgree(w, s); }
    }
  }

  /** What a caller can see to before the call: whatever the native call will do and report, bind and connect keep the
      agreement exactly when the socket has an endpoint already, or will be refused. */
  lemma AttachKeepsWhateverIsReported(w: Net, s: nat, sameThread: bool)
    requires Inv(w) && AllAgree(w) && s in w.socks
    ensures forall verdict, last :: Do(w, OpBind(s, sameThread, verdict, last)).Done?
    ensures forall verdict, last :: Do(w, OpConnect(s, sameThread, verdict, last)).Done?
    ensures (forall verdict, last :: AllAgree(Do(w, OpBind(s, sameThread, verdict, last)).net)) <==>
            !(Usable(w, s) && sameThread && w.socks[s].endpoints == [])
    ensures (forall verdict, last :: AllAgree(Do(w, OpConnect(s, sameThread, verdict, last)).net)) <==>
            !(Usable(w, s) && sameThread && w.socks[s].endpoints == [])
  {
    forall verdict, last
      ensures AllAgree(Do(w, OpBind(s, sameThread, verdict, last)).net)
         <==> !Silent(w, OpBind(s, sameThread, verdict, last))
      ensures AllAgree(Do(w, OpConnect(s, sameThread, verdict, last)).net)
         <==> !Silent(w, OpConnect(s, sameThread, verdict, last))
    {
      StepKeepsEndpointsIff(w, OpBind(s, sameThread, verdict, last));
      StepKeepsEndpointsIff(w, OpConnect(s, sameThread, verdict, last));
    }
    var bind, connect := OpBind(s, sameThread, Accepted, None), OpConnect(s, sameThread, Accepted, None);
    assert Do(w, bind).Done? && Do(w, connect).Done?;
    assert Silent(w, bind) <==> Usable(w, s) && sameThread && w.socks[s].endpoints == [];
    assert AllAgree(Do(w, bind).net) <==> !Silent(w, bind);
    assert AllAgree(Do(w, connect).net) <==> !Silent(w, connect);
  }

  predicate NeverSilent(w: Net, ops: seq<Op>)
    requires CanRun(w, ops)
    decreases |ops|
  {
    ops != [] ==> !Silent(w, ops[0]) && (Do(w, ops[0]).Done? ==> NeverSilent(Do(w, ops[0]).net, ops[1..]))
  }

  ghost predicate AgreeAllAlong(w: Net, ops: seq<Op>)
    requires CanRun(w, ops)
    decreases |ops|
  {
    AllAgree(w) && (ops != [] ==> Do(w, ops[0]).Done? && AgreeAllAlong(Do(w, ops[0]).net, ops[1..]))
  }

  lemma {:induction false} RunKeepsEndpointsIff(w: Net, ops: seq<Op>)
    requires Inv(w) && AllAgree(w) && CanRun(w, ops)
    ensures AgreeAllAlong(w, ops) <==> NeverSilent(w, ops)
    ensures NeverSilent(w, ops) ==> Run(w, ops).Some? && AllAgree(Run(w, ops).value)
    decreases |ops|
  {
    if ops != [] {
      StepKeepsInv(w, ops[0]);
      StepKeepsEndpointsIff(w, ops[0]);
      if !Silent(w, ops[0]) { RunKeepsEndpointsIff(Do(w, ops[0]).net, ops[1..]); }
    }
  }

  /** From the start, with every successful bind and connect reporting an endpoint, the guard of sends and receives
      lets a call through exactly when the context's socket is open, on its thread and attached somewhere. */
  lemma AdmittedIffAttached(ops: seq<Op>, s: nat, sameThread: bool)
    requires CanRun(NO_NET, ops) && NeverSilent(NO_NET, ops)
    ensures Run(NO_NET, ops).Some?
    ensures var w := Run(NO_NET, ops).value;
            s in w.socks && w.socks[s].context.Some? ==>
              (Admitted(w, s, sameThread) <==> w.Open(s) && sameThread && w.socks[s].endpoints != [])
  {
    AnyOrderIsSafe([]);
    RunKeepsEndpointsIff(NO_NET, ops);
    var w := Run(NO_NET, ops).value;
    if Usable(w, s) { assert EndpointsAgree(w, s); }
  }

  /** A beacon's pipe is let through on its thread from the start, and for as long as nobody attaches, detaches or
      closes it, whatever else happens. */
  lemma {:induction false} PipeIsAdmitted(w: Net, ops: seq<Op>, s: nat, sameThread: bool)
    requires Inv(w) && CanRun(w, ops) && w.Open(s) && w.socks[s].context.None? && w.socks[s].state.Bound?
    requires forall i :: 0 <= i < |ops| ==> !IsAbout(ops[i], s)
    ensures Run(w, ops).Some? && s in Run(w, ops).value.socks
    ensures Admitted(Run(w, ops).value, s, sameThread) <==> sameThread
    decreases |ops|
  {
    if ops != [] {
      A.DoesComeTo(w, ops[0]);
      StepKeepsInv(w, ops[0]);
      assert !IsAbout(ops[0], s) && A.SocketRight(w, ops[0], Do(w, ops[0]).net, s);
      PipeIsAdmitted(Do(w, ops[0]).net, ops[1..], s, sameThread);
    }
  }

  /** A call or a finaliser on this socket. */
  predicate IsAbout(op: Op, s: nat) {
    (op.OpClose? || op.OpCollectSocket? || op.OpBind? || op.OpConnect? || op.OpUnbind? || op.OpDisconnect?) && op.s == s
  }

  /** The silent connect: the exception is raised, the list is empty, and sends are let through. */
  lemma SilentConnectIsAdmitted()
    ensures var ops := [OpNewContext(NoCount, false), OpNewSocket(0, 0, Classed), OpConnect(0, true, Accepted, None)];
            && CanRun(NO_NET, ops) && Run(NO_NET, ops).Some?
            && var w := Run(NO_NET, ops).value;
               0 in w.socks && w.socks[0].endpoints == [] && Admitted(w, 0, true)
  {
    var w1 := NewContext(NO_NET, NoCount, false).net;
    var w2 := NewSocket(w1, 0, 0, Classed).net;
    var create, open := OpNewContext(NoCount, false), OpNewSocket(0, 0, Classed);
    var attach := OpConnect(0, true, Accepted, None);
    RunFirst(w2, attach, []);
    RunFirst(w1, open, [attach]);
    RunFirst(NO_NET, create, [open, attach]);
    assert [attach] + [] == [attach] && [open] + [attach] == [open, attach];
    assert [create] + [open, attach] == [create, open, attach];
  }

  lemma RunFirst(w: Net, op: Op, rest: seq<Op>)
    requires Enabled(w, op) && Do(w, op).Done? && CanRun(Do(w, op).net, rest)
    ensures CanRun(w, [op] + rest) && Run(w, [op] + rest) == Run(Do(w, op).net, rest)
  {
    assert ([op] + rest)[1..] == rest;
  }

  lemma DeleteOfOthers(es: seq<string>, e: string)
    ensures DeleteAll(es + [e], e) == DeleteAll(es, e)
    ensures e !in es <==> DeleteAll(es, e) == es
  {
    DeleteBoth(es, [e], e);
    DeletedIsGone(es, e);
    if e !in es { DeleteNone(es, e); }
  }

  /** Attaching and detaching again leaves the endpoints, and with them the guard, as before exactly when the endpoint
      was not listed already: detaching deletes every equal entry. */
  lemma AttachThenDetach(w: Net, s: nat, state: SocketState, e: string)
    requires Inv(w) && w.Open(s) && EndpointsAgree(w, s) && Attached(state)
    ensures var r := Attach(w, s, true, state, Accepted, Some(e));
            && r.Done? && r.net.Open(s)
            && var back := Detach(r.net, s, true, e, Accepted);
               && back.Done? && back.net.Open(s)
               && (back.net.socks[s].endpoints == w.socks[s].endpoints <==> e !in w.socks[s].endpoints)
               && (e !in w.socks[s].endpoints ==> Admitted(back.net, s, true) == Admitted(w, s, true))
  {
    DeleteOfOthers(w.socks[s].endpoints, e);
  }
}
