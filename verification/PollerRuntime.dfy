/**
 poller.c as it is written: a native pollset rebuilt in place behind a dirty flag, a count kept beside the array, and
 results mapped back by index; and `ZMQ.select` over it. Each method does what the function of that name in `Polling`
 says.
 */
module PollerRuntime {
  import opened Lists
  import opened Wrappers
  import P = Polling
  import R = PollingRuns

  class PollerWrapper {
    var made: seq<P.Item>
    var pollables: seq<P.Item>
    var readables: seq<nat>
    var writables: seq<nat>
    var pollset: array?<P.Entry>
    var pollSize: nat
    var dirty: bool

    constructor ()
      ensures Valid() && State() == P.NEW_POLLER && pollset == null
    {
      made, pollables, readables, writables := [], [], [], [];
      pollset, pollSize, dirty := null, 0, false;
    }

    ghost function State(): P.Poller
      reads this, pollset
    {
      P.Poller(made, pollables, pollSize, dirty, if dirty || pollset == null then None else Some(pollset[..]),
               readables, writables)
    }

    /** The only two conditions a poller is ever in. */
    ghost predicate Valid()
      reads this, pollset
    {
      R.Agrees(State()) || R.Broken(State())
    }

    /** `rb_czmq_poller_rebuild_pollset`: raises when the array is shorter than the count. */
    method RebuildPollset() returns (raised: bool)
      requires dirty
      modifies this`pollset, this`dirty
      ensures State() == P.Rebuild(old(State())) && raised == dirty && (raised <==> pollSize > |pollables|)
      ensures fresh(pollset) && pollset.Length == pollSize
    {
      var entries := new P.Entry[pollSize];
      pollset := entries;
      for rebuilt := 0 to pollSize
        invariant pollset == entries && dirty && rebuilt <= |pollables|
        invariant entries[..rebuilt] == P.Entries(pollables[..rebuilt])
      {
        if rebuilt >= |pollables| { return true; }
        var item := pollables[rebuilt];
        entries[rebuilt] := P.Entry(item.target, item.events, P.NOTHING);
      }
      assert entries[..] == entries[..pollSize];
      dirty := false;
      raised := false;
    }

    /** zmq_poll writes a mask into every entry, and returns how many are not empty. */
    method ZmqPoll(masks: seq<P.Mask>) returns (rc: int)
      requires !dirty && pollset != null && |masks| == pollset.Length
      modifies pollset
      ensures rc == P.Events(masks)
      ensures pollset[..] == P.Answered(old(pollset[..]), masks)
    {
      rc := 0;
      for i := 0 to pollset.Length
        invariant rc == P.Events(masks[..i])
        invariant pollset[..i] == P.Answered(old(pollset[..i]), masks[..i])
        invariant forall j :: i <= j < pollset.Length ==> pollset[j] == old(pollset[j])
      {
        pollset[i] := pollset[i].(revents := masks[i]);
        if masks[i].Any() { rc := rc + 1; }
        assert masks[..i + 1][..i] == masks[..i];
      }
      assert masks[..pollset.Length] == masks;
    }

    /** `rb_czmq_poller_rebuild_selectables` */
    method RebuildSelectables()
      requires !dirty && pollset != null && pollset.Length == pollSize == |pollables|
      modifies this`readables, this`writables
      ensures readables == P.Readables(pollables, pollset[..], pollSize)
      ensures writables == P.Writables(pollables, pollset[..], pollSize)
    {
      readables, writables := [], [];
      for rebuilt := 0 to pollSize
        invariant readables == P.Readables(pollables, pollset[..], rebuilt)
        invariant writables == P.Writables(pollables, pollset[..], rebuilt)
      {
        var item := pollset[rebuilt];
        assert item == pollset[..][rebuilt];
        if item.revents.readable { readables := readables + [pollables[rebuilt].pollable]; }
        if item.revents.writable { writables := writables + [pollables[rebuilt].pollable]; }
      }
    }

    /** `poller.poll` */
    method Poll(native: P.Native) returns (r: P.Answer)
      requires Valid() && (native.Polled? ==> |native.masks| == pollSize)
      modifies this, pollset
      ensures Valid() && P.Reply(State(), r) == P.Poll(old(State()), native)
      ensures pollset != old(pollset) ==> fresh(pollset)
    {
      Kept(State(), P.OpPoll(native));
      if pollSize == 0 { return P.Count(0); }
      if dirty {
        var raised := RebuildPollset();
        if raised { return P.Raised(P.WrongType); }
      }
      assert pollables[..pollSize] == pollables;
      readables, writables := [], [];
      match native
      case Failed => r := P.Raised(P.PollFailed);
      case Interrupted => r := P.Count(-1);
      case Polled(masks) =>
        var rc := ZmqPoll(masks);
        if rc > 0 { RebuildSelectables(); }
        r := P.Count(rc);
    }

    lemma Kept(p: P.Poller, op: P.Op)
      requires (R.Agrees(p) || R.Broken(p)) && P.Enabled(p, op)
      ensures R.Agrees(P.Do(p, op).poller) || R.Broken(P.Do(p, op).poller)
    {
      if R.Agrees(p) { R.StepAgreesIff(p, op); } else { R.StepKeepsBroken(p, op); }
    }

    /** `ZMQ::Pollitem.new` */
    method New(thing: P.Thing, events: Option<P.Mask>) returns (r: P.Answer)
      requires Valid()
      modifies this`made
      ensures Valid() && P.Reply(State(), r) == P.New(old(State()), thing, events)
    {
      Kept(State(), P.OpNew(thing, events));
      match P.NewItem(|made|, thing, events)
      case Refused(e) => r := P.Raised(e);
      case Coerced(item) =>
        made := made + [item];
        r := P.Found(item);
    }

    /** `ZMQ::Pollitem.coerce` */
    method Coerce(argument: P.Argument) returns (r: P.Coerced)
      requires Valid()
      modifies this`made
      ensures r == P.Coerce(old(State()), argument)
      ensures State() == if r.Coerced? then P.Made(old(State()), argument, r.item) else old(State())
    {
      match argument
      case AnItem(item) => r := P.Coerced(item);
      case AThing(thing) =>
        r := P.NewItem(|made|, thing, None);
        if r.Coerced? { made := made + [r.item]; }
    }

    /** `poller.register` */
    method Register(argument: P.Argument) returns (r: P.Answer)
      requires Valid() && P.Enabled(State(), P.OpRegister(argument))
      modifies this`made, this`pollables, this`pollSize, this`dirty
      ensures Valid() && P.Reply(State(), r) == P.Register(old(State()), argument)
    {
      Kept(State(), P.OpRegister(argument));
      var coerced := Coerce(argument);
      match coerced
      case Refused(e) => r := P.Raised(e);
      case Coerced(item) =>
        pollables := pollables + [item];
        pollSize := pollSize + 1;
        dirty := true;
        r := P.Found(item);
    }

    /** What `remove` does to the array, the count and the flag. */
    method Deregister(registered: P.Item)
      requires pollSize > 0
      modifies this`pollables, this`pollSize, this`dirty
      ensures State() == P.Dirtied(old(State()), DeleteAll(old(pollables), registered), old(pollSize) - 1)
    {
      pollables := ArrayDelete(pollables, registered);
      pollSize := pollSize - 1;
      dirty := true;
    }

    /** `poller.remove` */
    method Remove(argument: P.Argument) returns (r: P.Answer)
      requires Valid() && P.Enabled(State(), P.OpRemove(argument))
      modifies this`made, this`pollables, this`pollSize, this`dirty
      ensures Valid() && P.Reply(State(), r) == P.Remove(old(State()), argument)
    {
      Kept(State(), P.OpRemove(argument));
      var coerced := Coerce(argument);
      if coerced.Refused? { return P.Raised(coerced.error); }
      var item := coerced.item;
      for pos := 0 to pollSize
        invariant P.Find(pollables, pollSize, item, pos) == P.Find(pollables, pollSize, item, 0)
        invariant State() == P.Made(old(State()), argument, item)
      {
        if pos >= |pollables| { return P.Raised(P.WrongType); }
        var registered := pollables[pos];
        if item == registered || item.pollable == registered.pollable {
          Deregister(registered);
          return P.Found(registered);
        }
      }
      r := P.False;
    }
  }

  /** One call on the poller. */
  method Perform(poller: PollerWrapper, op: P.Op) returns (r: P.Answer)
    requires poller.Valid() && P.Enabled(poller.State(), op)
    modifies poller, poller.pollset
    ensures poller.Valid() && P.Reply(poller.State(), r) == P.Do(old(poller.State()), op)
    ensures poller.pollset != old(poller.pollset) ==> fresh(poller.pollset)
  {
    match op
    case OpNew(thing, events) => r := poller.New(thing, events);
    case OpRegister(argument) => r := poller.Register(argument);
    case OpRemove(argument) => r := poller.Remove(argument);
    case OpPoll(native) => r := poller.Poll(native);
  }

  /** A run of calls on the poller ends in the state of the run, and the poller's parts still agree exactly when the run
      removed no twin. */
  method PerformAll(poller: PollerWrapper, ops: seq<P.Op>) returns (answers: seq<P.Answer>)
    requires poller.Valid() && R.CanRun(poller.State(), ops)
    modifies poller, poller.pollset
    ensures poller.Valid() && poller.State() == R.Run(old(poller.State()), ops) && |answers| == |ops|
    ensures old(R.Agrees(poller.State())) ==>
              (R.Agrees(poller.State()) <==> !R.EverHitsTwin(old(poller.State()), ops))
    decreases |ops|
  {
    if R.Agrees(poller.State()) { R.RunAgreesIff(poller.State(), ops); }
    if ops == [] { return []; }
    var first := Perform(poller, ops[0]);
    var others := PerformAll(poller, ops[1..]);
    answers := [first] + others;
  }

  /** One of the two loops of `ZMQ.select`: a poll item for each, until one is refused. */
  method RegisterAll(poller: PollerWrapper, things: seq<P.Thing>, events: P.Mask) returns (r: P.Answer)
    requires poller.Valid()
    modifies poller`made, poller`pollables, poller`pollSize, poller`dirty
    ensures poller.Valid()
    ensures P.Reply(poller.State(), r) == P.RegisterAll(old(poller.State()), things, events)
  {
    var i := 0;
    while i < |things|
      invariant i <= |things| && poller.Valid()
      invariant P.RegisterAll(poller.State(), things[i..], events) == P.RegisterAll(old(poller.State()), things, events)
    {
      assert things[i..][1..] == things[i + 1..];
      r := poller.New(things[i], Some(events));
      if !r.Found? { return; }
      var registered := poller.Register(P.AnItem(r.item));
      i := i + 1;
    }
    r := P.False;
  }

  /** `ZMQ.select(read, write)`; `now` is what zmq_poll finds ready. */
  method Select(read: Option<seq<P.Thing>>, write: Option<seq<P.Thing>>, now: P.Now) returns (r: P.Selected)
    ensures r == P.Select(read, write, now)
  {
    var poller := new PollerWrapper();
    var readers := RegisterAll(poller, P.Listed(read), P.POLLIN);
    if readers.Raised? { return P.Refusal(readers.error); }
    var writers := RegisterAll(poller, P.Listed(write), P.POLLOUT);
    if writers.Raised? { return P.Refusal(writers.error); }
    var masks := P.Snapshot(poller.pollables, now);
    var ready := poller.Poll(P.Polled(masks));
    if ready.Raised? { return P.Refusal(ready.error); }
    r := P.Ready(poller.readables, poller.writables);
  }
}
