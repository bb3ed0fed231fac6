/**
 Frames, sockets and a poller of one program together. What is sent goes through the guards of a socket, and a poll item
 of a socket copies its native address once and for all.
 */
module WholeProgram {
  import opened Lists
  import opened Wrappers
  import opened Ownership
  import S = OwnershipSteps
  import D = OwnershipDiscipline
  import O = OwnershipRuns
  import L = Lifecycle
  import N = LifecycleRuns
  import A = LifecycleAnswers
  import E = SocketEndpoints
  import P = Polling
  import R = PollingRuns

  datatype Whole = Whole(world: World, net: L.Net, poller: P.Poller)

  const START := Whole(EMPTY_WORLD, L.NO_NET, P.NEW_POLLER)

  datatype Step =
    | OnFrames(op: S.Op)
    | OnSocket(s: nat, sameThread: bool, op: S.Op)    // a send or a receive, through socket `s`
    | OnNet(call: L.Op)
    | OnPoller(sameThread: bool, poll: P.Op)

  predicate IsTransfer(op: S.Op) {
    op.OpSendFrame? || op.OpSendMessage? || op.OpRecvFrame? || op.OpRecvMessage?
  }

  /** A socket that is given to be polled is one that is there, at its own address, and its guards are asked. */
  predicate Faithful(net: L.Net, sameThread: bool, thing: P.Thing) {
    thing.ASocket? ==>
      thing.address in net.socks && thing.admitted == L.Admitted(net, thing.address, sameThread)
  }

  ghost predicate Enabled(j: Whole, step: Step) {
    match step
    case OnFrames(op) => !IsTransfer(op) && S.Enabled(j.world, op)
    case OnSocket(s, sameThread, op) =>
      IsTransfer(op) && S.Enabled(j.world, op) && s in j.net.socks && op.open == L.Admitted(j.net, s, sameThread)
    case OnNet(call) => L.Enabled(j.net, call)
    case OnPoller(sameThread, poll) =>
      && P.Enabled(j.poller, poll)
      && (poll.OpNew? ==> Faithful(j.net, sameThread, poll.thing))
      && ((poll.OpRegister? || poll.OpRemove?) && poll.argument.AThing? ==>
            Faithful(j.net, sameThread, poll.argument.thing))
  }

  ghost function Next(j: Whole, step: Step): Whole
    requires Enabled(j, step)
  {
    match step
    case OnFrames(op) => j.(world := S.Do(j.world, op).world)
    case OnSocket(_, _, op) => j.(world := S.Do(j.world, op).world)
    case OnNet(call) => (match L.Do(j.net, call) case Done(net, _) => j.(net := net) case Crash => j)
    case OnPoller(_, poll) => j.(poller := P.Do(j.poller, poll).poller)
  }

  // ---------------------------------------------------------------------------------------------------------
  // What goes through a socket
  // ---------------------------------------------------------------------------------------------------------

  lemma OthersSendNothing(w: World, op: S.Op)
    requires S.Enabled(w, op) && !IsTransfer(op)
    ensures S.Do(w, op).world.sent == w.sent
  {
  }

  /** A transfer that the guards of the socket refuse raises and changes nothing. */
  lemma RefusedTransfer(j: Whole, step: Step)
    requires Enabled(j, step) && step.OnSocket? && !L.Admitted(j.net, step.s, step.sameThread)
    ensures Next(j, step) == j && S.Do(j.world, step.op).outcome == S.Raise(S.ZmqError)
  {
  }

  /** Zframes are handed over only by a send through a socket that is open, on its thread, and bound or connected; and
      if its context made it and its endpoints are in order, attached somewhere. */
  lemma SentThroughOpenSockets(j: Whole, step: Step)
    requires Enabled(j, step) && Next(j, step).world.sent != j.world.sent
    ensures step.OnSocket? && (step.op.OpSendFrame? || step.op.OpSendMessage?)
    ensures j.net.Open(step.s) && L.Admitted(j.net, step.s, step.sameThread)
    ensures E.AllAgree(j.net) && j.net.socks[step.s].context.Some? ==> j.net.socks[step.s].endpoints != []
  {
    if step.OnFrames? { OthersSendNothing(j.world, step.op); }
    if step.OnSocket? && E.Usable(j.net, step.s) && E.AllAgree(j.net) { assert E.EndpointsAgree(j.net, step.s); }
  }

  // ---------------------------------------------------------------------------------------------------------
  // Addresses in the pollset
  // ---------------------------------------------------------------------------------------------------------

  /** The native socket is there: it was made, and nothing has destroyed it. */
  predicate Live(net: L.Net, s: nat) {
    s in net.born && s !in net.closed
  }

  predicate AddressLive(net: L.Net, target: P.Target) {
    target.SocketPointer? ==> Live(net, target.address)
  }

  /** The native socket of everything registered is there. */
  predicate PollsLive(j: Whole) {
    forall i :: 0 <= i < |j.poller.items| ==> AddressLive(j.net, j.poller.items[i].target)
  }

  /** A wrapper that is not shut has a live native socket; the socket of a context has one no longer than that. */
  lemma OpenIsLive(net: L.Net, s: nat)
    requires N.Inv(net)
    ensures net.Open(s) ==> Live(net, s)
    ensures s in net.born && net.born[s].Some? ==> (Live(net, s) <==> net.Open(s))
  {
    assert N.ClosedOk(net, s);
    if net.Open(s) { assert N.SockOk(net, s); }
  }

  /** What zmq_poll is given is the address of every registered item in order, and no other; all of them are addresses
      of live sockets exactly when everything registered is live. */
  lemma HandedOverLiveIff(j: Whole)
    requires R.Agrees(j.poller) && j.poller.items != []
    ensures var pollset := P.Rebuild(j.poller).pollset;
            && pollset.Some? && |pollset.value| == |j.poller.items|
            && (forall i :: 0 <= i < |pollset.value| ==> pollset.value[i].target == j.poller.items[i].target)
            && ((forall i :: 0 <= i < |pollset.value| ==> AddressLive(j.net, pollset.value[i].target)) <==>
                PollsLive(j))
  {
    var p := j.poller;
    assert p.items[..p.size] == p.items;
    var entries := P.Rebuild(p).pollset.value;
    assert forall i :: 0 <= i < |entries| ==> entries[i].target == p.items[i].target;
  }

  /** The call destroys the native socket `s`; that of a pipe is its beacon's, and no call here destroys it. */
  predicate Destroys(net: L.Net, call: L.Op, s: nat) {
    A.Shuts(net, call, s) && net.socks[s].context.Some?
  }

  lemma DestroysIff(net: L.Net, call: L.Op, s: nat)
    requires N.Inv(net) && L.Enabled(net, call) && Live(net, s)
    ensures L.Do(net, call).Done? && (Live(L.Do(net, call).net, s) <==> !Destroys(net, call, s))
  {
    A.DoesComeTo(net, call);
    assert A.NativesRight(net, call, L.Do(net, call).net, s);
  }

  /** The step destroys a native socket that is registered, or registers a poll item whose own was destroyed since it
      was made. */
  predicate Spoils(j: Whole, step: Step)
    requires PollsLive(j)
  {
    match step
    case OnNet(call) =>
      exists i {:trigger j.poller.items[i]} :: 0 <= i < |j.poller.items| && j.poller.items[i].target.SocketPointer?
        && Destroys(j.net, call, j.poller.items[i].target.address)
    case OnPoller(_, poll) =>
      poll.OpRegister? && poll.argument.AnItem? && !AddressLive(j.net, poll.argument.item.target)
    case _ => false
  }

  lemma NetStepPollsLiveIff(j: Whole, step: Step)
    requires N.Inv(j.net) && PollsLive(j) && Enabled(j, step) && step.OnNet?
    ensures PollsLive(Next(j, step)) <==> !Spoils(j, step)
  {
    N.StepKeepsInv(j.net, step.call);
    var items, net' := j.poller.items, L.Do(j.net, step.call).net;
    forall i | 0 <= i < |items|
      ensures AddressLive(net', items[i].target) <==>
              !(items[i].target.SocketPointer? && Destroys(j.net, step.call, items[i].target.address))
    {
      assert AddressLive(j.net, items[i].target);
      if items[i].target.SocketPointer? { DestroysIff(j.net, step.call, items[i].target.address); }
    }
  }

  lemma PollerStepPollsLiveIff(j: Whole, step: Step)
    requires N.Inv(j.net) && PollsLive(j) && Enabled(j, step) && step.OnPoller?
    ensures PollsLive(Next(j, step)) <==> !Spoils(j, step)
  {
    var p, q := j.poller, P.Do(j.poller, step.poll).poller;
    if step.poll.OpRegister? && P.Coerce(p, step.poll.argument).Coerced? {
      var item := P.Coerce(p, step.poll.argument).item;
      if item.target.SocketPointer? { OpenIsLive(j.net, item.target.address); }
      assert q.items == p.items + [item];
      assert step.poll.argument.AThing? ==> AddressLive(j.net, item.target);
      assert AddressLive(j.net, item.target) <==> !Spoils(j, step);
      assert q.items[|p.items|] == item;
      forall i | 0 <= i < |p.items| ensures q.items[i] == p.items[i] && AddressLive(j.net, q.items[i].target) {}
    } else if step.poll.OpRemove? && P.Coerce(p, step.poll.argument).Coerced? {
      var found := P.Find(p.items, p.size, P.Coerce(p, step.poll.argument).item, 0);
      if found.At? {
        forall i | 0 <= i < |q.items| ensures AddressLive(j.net, q.items[i].target) {
          R.DeletedWasThere(p.items, p.items[found.pos], i);
          var k :| 0 <= k < |p.items| && p.items[k] == q.items[i];
        }
      }
    }
  }

  /** As long as everything registered is live, a step keeps it so exactly when it spoils nothing. */
  lemma StepPollsLiveIff(j: Whole, step: Step)
    requires N.Inv(j.net) && PollsLive(j) && Enabled(j, step)
    ensures PollsLive(Next(j, step)) <==> !Spoils(j, step)
  {
    match step
    case OnNet(_) => NetStepPollsLiveIff(j, step);
    case OnPoller(_, _) => PollerStepPollsLiveIff(j, step);
    case _ =>
  }

  // ---------------------------------------------------------------------------------------------------------
  // Runs
  // ---------------------------------------------------------------------------------------------------------

  ghost predicate CanRun(j: Whole, steps: seq<Step>)
    decreases |steps|
  {
    steps != [] ==> Enabled(j, steps[0]) && CanRun(Next(j, steps[0]), steps[1..])
  }

  ghost function Run(j: Whole, steps: seq<Step>): Whole
    requires CanRun(j, steps)
    decreases |steps|
  {
    if steps == [] then j else Run(Next(j, steps[0]), steps[1..])
  }

  lemma StepKeepsNet(j: Whole, step: Step)
    requires N.Inv(j.net) && Enabled(j, step)
    ensures N.Inv(Next(j, step).net)
  {
    if step.OnNet? { N.StepKeepsInv(j.net, step.call); }
  }

  ghost predicate PollsLiveAllAlong(j: Whole, steps: seq<Step>)
    requires CanRun(j, steps)
    decreases |steps|
  {
    PollsLive(j) && (steps != [] ==> PollsLiveAllAlong(Next(j, steps[0]), steps[1..]))
  }

  ghost predicate NeverSpoils(j: Whole, steps: seq<Step>)
    requires CanRun(j, steps) && PollsLive(j)
    decreases |steps|
  {
    steps != [] ==>
      && !Spoils(j, steps[0]) && PollsLive(Next(j, steps[0]))
      && NeverSpoils(Next(j, steps[0]), steps[1..])
  }

  lemma {:induction false} PollsLiveFrom(j: Whole, steps: seq<Step>)
    requires N.Inv(j.net) && CanRun(j, steps) && PollsLive(j)
    ensures PollsLiveAllAlong(j, steps) <==> NeverSpoils(j, steps)
    decreases |steps|
  {
    if steps != [] {
      StepPollsLiveIff(j, steps[0]);
      if !Spoils(j, steps[0]) {
        StepKeepsNet(j, steps[0]);
        PollsLiveFrom(Next(j, steps[0]), steps[1..]);
      }
    }
  }

  /** From the start, everything registered is live all along exactly when no step of the run spoils it. */
  lemma PollsLiveIff(steps: seq<Step>)
    requires CanRun(START, steps)
    ensures PollsLive(START) && (PollsLiveAllAlong(START, steps) <==> NeverSpoils(START, steps))
  {
    N.AnyOrderIsSafe([]);
    PollsLiveFrom(START, steps);
  }

  lemma RunFirst(j: Whole, step: Step, rest: seq<Step>)
    requires Enabled(j, step) && CanRun(Next(j, step), rest)
    ensures CanRun(j, [step] + rest) && Run(j, [step] + rest) == Run(Next(j, step), rest)
  {
    assert ([step] + rest)[1..] == rest;
  }

  // ---------------------------------------------------------------------------------------------------------
  // A run that polls a socket that is gone
  // ---------------------------------------------------------------------------------------------------------

  const CONNECTED := L.Sock(Some(0), true, true, false, L.Connected, ["inproc://a"])
  const ITEM := P.Item(0, 1, P.SocketPointer(0), P.POLLIN_OR_POLLOUT)

  const CREATE := OnNet(L.OpNewContext(L.NoCount, false))
  const OPEN := OnNet(L.OpNewSocket(0, 0, L.Classed))
  const CONNECT := OnNet(L.OpConnect(0, true, Accepted, Some("inproc://a")))
  const REGISTER := OnPoller(true, P.OpRegister(P.AThing(P.ASocket(1, 0, true))))
  const CLOSE := OnNet(L.OpClose(0, true))

  lemma ConnectedRun() returns (j: Whole)
    ensures CanRun(START, [CREATE, OPEN, CONNECT]) && j == Run(START, [CREATE, OPEN, CONNECT])
    ensures j.net.socks == map[0 := CONNECTED] && j.poller == P.NEW_POLLER && N.Inv(j.net)
  {
    var j1 := Next(START, CREATE);
    var j2 := Next(j1, OPEN);
    j := Next(j2, CONNECT);
    assert j.net.socks[0].endpoints == ["inproc://a"];
    N.AnyOrderIsSafe([]);
    StepKeepsNet(START, CREATE);
    StepKeepsNet(j1, OPEN);
    StepKeepsNet(j2, CONNECT);
    RunFirst(j2, CONNECT, []);
    RunFirst(j1, OPEN, [CONNECT] + []);
    RunFirst(START, CREATE, [OPEN] + ([CONNECT] + []));
    assert [CREATE] + ([OPEN] + ([CONNECT] + [])) == [CREATE, OPEN, CONNECT];
  }

  /** A socket is connected, registered and closed: the next poll hands its address over. */
  lemma ClosedSocketIsPolled() returns (j: Whole)
    ensures CanRun(START, [CREATE, OPEN, CONNECT] + [REGISTER] + [CLOSE])
    ensures j == Run(START, [CREATE, OPEN, CONNECT] + [REGISTER] + [CLOSE]) && R.Agrees(j.poller)
    ensures var pollset := P.Rebuild(j.poller).pollset;
            pollset.Some? && |pollset.value| == 1 && pollset.value[0].target == P.SocketPointer(0) && !Live(j.net, 0)
  {
    var j3 := ConnectedRun();
    assert Enabled(j3, REGISTER);
    var j4 := Next(j3, REGISTER);
    assert j4.poller.items == [ITEM] && j4.poller.size == 1 && j4.poller.dirty;
    OpenIsLive(j4.net, 0);
    assert N.SockOk(j4.net, 0) && Destroys(j4.net, CLOSE.call, 0);
    DestroysIff(j4.net, CLOSE.call, 0);
    j := Next(j4, CLOSE);
    OneMore(START, [CREATE, OPEN, CONNECT], REGISTER);
    OneMore(START, [CREATE, OPEN, CONNECT] + [REGISTER], CLOSE);
    assert j.poller.items[..1] == [ITEM];
  }

  lemma {:induction false} OneMore(j: Whole, steps: seq<Step>, step: Step)
    requires CanRun(j, steps) && Enabled(Run(j, steps), step)
    ensures CanRun(j, steps + [step]) && Run(j, steps + [step]) == Next(Run(j, steps), step)
    decreases |steps|
  {
    if steps == [] {
      RunFirst(j, step, []);
      assert [step] + [] == steps + [step];
    } else {
      OneMore(Next(j, steps[0]), steps[1..], step);
      assert (steps + [step])[1..] == steps[1..] + [step];
    }
  }

  // ---------------------------------------------------------------------------------------------------------
  // The parts of a run
  // ---------------------------------------------------------------------------------------------------------

  function FrameOps(steps: seq<Step>): seq<S.Op> {
    if steps == [] then []
    else (if steps[0].OnFrames? || steps[0].OnSocket? then [steps[0].op] else []) + FrameOps(steps[1..])
  }

  function NetCalls(steps: seq<Step>): seq<L.Op> {
    if steps == [] then [] else (if steps[0].OnNet? then [steps[0].call] else []) + NetCalls(steps[1..])
  }

  function Polls(steps: seq<Step>): seq<P.Op> {
    if steps == [] then [] else (if steps[0].OnPoller? then [steps[0].poll] else []) + Polls(steps[1..])
  }

  ghost predicate Disciplined(j: Whole, steps: seq<Step>)
    requires CanRun(j, steps)
    decreases |steps|
  {
    steps != [] ==>
      && (steps[0].OnFrames? || steps[0].OnSocket? ==> D.Disciplined(j.world, steps[0].op))
      && Disciplined(Next(j, steps[0]), steps[1..])
  }

  lemma ConsOps<T>(x: T, rest: seq<T>)
    ensures [x] + rest != [] && ([x] + rest)[0] == x && ([x] + rest)[1..] == rest && [] + rest == rest
  {
  }

  lemma {:induction false} FramesOfRun(j: Whole, steps: seq<Step>)
    requires CanRun(j, steps) && Disciplined(j, steps)
    ensures O.GoodRun(j.world, FrameOps(steps)) && Run(j, steps).world == O.Run(j.world, FrameOps(steps))
    decreases |steps|
  {
    if steps != [] {
      var step, after := steps[0], Next(j, steps[0]);
      FramesOfRun(after, steps[1..]);
      if step.OnFrames? || step.OnSocket? {
        assert after.world == S.Do(j.world, step.op).world;
        ConsOps(step.op, FrameOps(steps[1..]));
      } else {
        assert after.world == j.world && FrameOps(steps) == FrameOps(steps[1..]);
      }
    }
  }

  lemma {:induction false} NetOfRun(j: Whole, steps: seq<Step>)
    requires N.Inv(j.net) && CanRun(j, steps)
    ensures N.CanRun(j.net, NetCalls(steps)) && N.Run(j.net, NetCalls(steps)) == Some(Run(j, steps).net)
    decreases |steps|
  {
    if steps != [] {
      var step, after := steps[0], Next(j, steps[0]);
      StepKeepsNet(j, step);
      NetOfRun(after, steps[1..]);
      if step.OnNet? {
        N.StepKeepsInv(j.net, step.call);
        ConsOps(step.call, NetCalls(steps[1..]));
      } else {
        assert after.net == j.net && NetCalls(steps) == NetCalls(steps[1..]);
      }
    }
  }

  lemma {:induction false} PollerOfRun(j: Whole, steps: seq<Step>)
    requires CanRun(j, steps)
    ensures R.CanRun(j.poller, Polls(steps)) && R.Run(j.poller, Polls(steps)) == Run(j, steps).poller
    decreases |steps|
  {
    if steps != [] {
      var step, after := steps[0], Next(j, steps[0]);
      PollerOfRun(after, steps[1..]);
      if step.OnPoller? {
        assert after.poller == P.Do(j.poller, step.poll).poller;
        ConsOps(step.poll, Polls(steps[1..]));
      } else {
        assert after.poller == j.poller && Polls(steps) == Polls(steps[1..]);
      }
    }
  }

  /** The parts of any run of the whole are runs of frames, of sockets and of a poller, so what was proved of those
      holds of them; with discipline in every call on frames, the zframes are in order all along. */
  lemma PartsOfRun(steps: seq<Step>)
    requires CanRun(START, steps)
    ensures var end := Run(START, steps);
            && N.Inv(end.net) && N.CanRun(L.NO_NET, NetCalls(steps))
            && N.Run(L.NO_NET, NetCalls(steps)) == Some(end.net)
            && R.CanRun(P.NEW_POLLER, Polls(steps)) && R.Run(P.NEW_POLLER, Polls(steps)) == end.poller
            && (Disciplined(START, steps) ==>
                  O.GoodRun(EMPTY_WORLD, FrameOps(steps)) && end.world == O.Run(EMPTY_WORLD, FrameOps(steps)))
  {
    N.AnyOrderIsSafe([]);
    NetOfRun(START, steps);
    N.AnyOrderIsSafe(NetCalls(steps));
    PollerOfRun(START, steps);
    if Disciplined(START, steps) { FramesOfRun(START, steps); }
  }

  lemma {:induction false} AllAlongAtTheEnd(j: Whole, steps: seq<Step>)
    requires CanRun(j, steps) && PollsLiveAllAlong(j, steps)
    ensures PollsLive(Run(j, steps))
    decreases |steps|
  {
    if steps != [] { AllAlongAtTheEnd(Next(j, steps[0]), steps[1..]); }
  }

  /** After any run that removed no twin and spoiled no registration, what zmq_poll is given is one entry for each
      registered entity, and every socket among them is live. */
  lemma HandsOverLiveSockets(steps: seq<Step>)
    requires CanRun(START, steps) && PollsLive(START) && NeverSpoils(START, steps)
    requires R.CanRun(P.NEW_POLLER, Polls(steps)) && !R.EverHitsTwin(P.NEW_POLLER, Polls(steps))
    ensures var end := Run(START, steps);
            end.poller.items != [] ==>
              var pollset := P.Rebuild(end.poller).pollset;
              && pollset.Some? && |pollset.value| == |end.poller.items|
              && forall i :: 0 <= i < |pollset.value| ==>
                   && pollset.value[i].target == end.poller.items[i].target
                   && AddressLive(end.net, pollset.value[i].target)
  {
    PollsLiveIff(steps);
    AllAlongAtTheEnd(START, steps);
    PollerOfRun(START, steps);
    R.RunAgreesIff(P.NEW_POLLER, Polls(steps));
    var end := Run(START, steps);
    if end.poller.items != [] { HandedOverLiveIff(end); }
  }
}
