/**
 ZMQ::Pollitem, ZMQ::Poller and ZMQ.select. A poller keeps a Ruby array of poll items and a native pollset built from
 it, with a count and a dirty flag of its own; results are mapped back by position.
 */
module Polling {
  import opened Lists
  import opened Wrappers

  /** A poll mask: POLLIN, POLLOUT and whatever other bits there are. */
  datatype Mask = Mask(readable: bool, writable: bool, other: bool)
  {
    predicate Any() {
      readable || writable || other
    }
  }

  const NOTHING := Mask(false, false, false)
  const POLLIN := Mask(true, false, false)
  const POLLOUT := Mask(false, true, false)
  const POLLIN_OR_POLLOUT := Mask(true, true, false)

  /** What a native poll item points to. */
  datatype Target = SocketPointer(address: nat) | Descriptor(fd: int)

  /** What may be given to be polled. `id` is the identity of the Ruby object; `admitted` says that the socket is
      bound or connected, not destroyed, and on its own thread; a closed IO has no descriptor. */
  datatype Thing =
    | ASocket(id: nat, address: nat, admitted: bool)
    | AnIo(id: nat, fd: Option<int>)
    | SomethingElse(id: nat)

  /** A `ZMQ::Pollitem`: its place among all poll items ever made is its identity, and it never changes. */
  datatype Item = Item(id: nat, pollable: nat, target: Target, events: Mask)

  /** `zmq_pollitem_t` */
  datatype Entry = Entry(target: Target, events: Mask, revents: Mask)

  datatype Error = InvalidEvents | NotAdmitted | ClosedIo | WrongType | PollFailed
  datatype Coerced = Coerced(item: Item) | Refused(error: Error)

  function TargetOf(thing: Thing): Target
    requires !thing.SomethingElse? && (thing.AnIo? ==> thing.fd.Some?)
  {
    match thing case ASocket(_, address, _) => SocketPointer(address) case AnIo(_, fd) => Descriptor(fd.value)
  }

  predicate Acceptable(thing: Thing) {
    match thing case ASocket(_, _, admitted) => admitted case AnIo(_, fd) => fd.Some? case SomethingElse(_) => false
  }

  /** `rb_czmq_pollitem_s_new`. The new object is `id`. */
  function NewItem(id: nat, thing: Thing, events: Option<Mask>): (r: Coerced)
    ensures r.Coerced? <==> Acceptable(thing) && (events.Some? ==> events.value.readable || events.value.writable)
    ensures r.Coerced? ==> r.item.pollable == thing.id && (r.item.events.readable || r.item.events.writable)
  {
    var evts := match events case None => POLLIN_OR_POLLOUT case Some(e) => e;
    if !evts.readable && !evts.writable then Refused(InvalidEvents)
    else match thing
      case ASocket(_, _, admitted) =>
        if admitted then Coerced(Item(id, thing.id, TargetOf(thing), evts)) else Refused(NotAdmitted)
      case AnIo(_, fd) =>
        if fd.Some? then Coerced(Item(id, thing.id, TargetOf(thing), evts)) else Refused(ClosedIo)
      case SomethingElse(_) => Refused(WrongType)
  }

  // ---------------------------------------------------------------------------------------------------------
  // The poller
  // ---------------------------------------------------------------------------------------------------------

  /** `zmq_poll_wrapper`, and beside it the poll items that have been made. A dirty pollset is never read, and has no
      value here. */
  datatype Poller = Poller(made: seq<Item>, items: seq<Item>, size: nat, dirty: bool, pollset: Option<seq<Entry>>,
                           readables: seq<nat>, writables: seq<nat>)

  const NEW_POLLER := Poller([], [], 0, false, None, [], [])

  datatype Answer = Found(item: Item) | False | Count(n: int) | Raised(error: Error)
  datatype Reply = Reply(poller: Poller, answer: Answer)

  datatype Argument = AnItem(item: Item) | AThing(thing: Thing)

  /** `ZMQ::Pollitem.coerce`: a poll item is taken as it is, and for anything else a new one is made. */
  function Coerce(p: Poller, argument: Argument): Coerced {
    match argument case AnItem(item) => Coerced(item) case AThing(thing) => NewItem(|p.made|, thing, None)
  }

  function Made(p: Poller, argument: Argument, item: Item): Poller {
    if argument.AThing? then p.(made := p.made + [item]) else p
  }

  /** `ZMQ::Pollitem.new(pollable, events)` */
  function New(p: Poller, thing: Thing, events: Option<Mask>): Reply {
    match NewItem(|p.made|, thing, events)
    case Refused(e) => Reply(p, Raised(e))
    case Coerced(item) => Reply(p.(made := p.made + [item]), Found(item))
  }

  function Dirtied(p: Poller, items: seq<Item>, size: nat): Poller {
    p.(items := items, size := size, dirty := true, pollset := None)
  }

  function Register(p: Poller, argument: Argument): Reply {
    match Coerce(p, argument)
    case Refused(e) => Reply(p, Raised(e))
    case Coerced(item) => Reply(Dirtied(Made(p, argument, item), p.items + [item], p.size + 1), Found(item))
  }

  predicate Matches(item: Item, registered: Item) {
    item == registered || item.pollable == registered.pollable
  }

  datatype Search = At(pos: nat) | Nowhere | Missing

  /** The search of `remove`, over as many positions as the count says; past the end of the array there is nil, and
      asking nil for its pollable raises. */
  function Find(items: seq<Item>, size: nat, item: Item, from: nat): (r: Search)
    ensures r.At? ==> from <= r.pos < |items| && r.pos < size && Matches(item, items[r.pos])
    decreases size - from
  {
    if from >= size then Nowhere
    else if from >= |items| then Missing
    else if Matches(item, items[from]) then At(from)
    else Find(items, size, item, from + 1)
  }

  function Remove(p: Poller, argument: Argument): Reply {
    match Coerce(p, argument)
    case Refused(e) => Reply(p, Raised(e))
    case Coerced(item) =>
      var q := Made(p, argument, item);
      match Find(p.items, p.size, item, 0)
      case Nowhere => Reply(q, False)
      case Missing => Reply(q, Raised(WrongType))
      case At(pos) => Reply(Dirtied(q, DeleteAll(p.items, p.items[pos]), p.size - 1), Found(p.items[pos]))
  }

  /** What zmq_poll reports: a mask to every entry, or an error; EINTR and EAGAIN are handed back as -1. */
  datatype Native = Polled(masks: seq<Mask>) | Interrupted | Failed

  function Entries(items: seq<Item>): (r: seq<Entry>)
    ensures |r| == |items|
    ensures forall i :: 0 <= i < |items| ==> r[i] == Entry(items[i].target, items[i].events, NOTHING)
  {
    seq(|items|, i requires 0 <= i < |items| => Entry(items[i].target, items[i].events, NOTHING))
  }

  /** The pollset is that of these items, whatever the last poll wrote into it. */
  predicate BuiltFrom(pollset: seq<Entry>, items: seq<Item>) {
    && |pollset| == |items|
    && forall i :: 0 <= i < |items| ==> pollset[i].target == items[i].target && pollset[i].events == items[i].events
  }

  function Answered(pollset: seq<Entry>, masks: seq<Mask>): (r: seq<Entry>)
    requires |masks| == |pollset|
    ensures |r| == |pollset| && forall i :: 0 <= i < |r| ==> r[i] == pollset[i].(revents := masks[i])
  {
    seq(|pollset|, i requires 0 <= i < |pollset| => pollset[i].(revents := masks[i]))
  }

  /** The return value of zmq_poll: how many entries have events. */
  function Events(masks: seq<Mask>): nat {
    if masks == [] then 0
    else Events(masks[..|masks| - 1]) + if masks[|masks| - 1].Any() then 1 else 0
  }

  /** The two lists that the loop of `rb_czmq_poller_rebuild_selectables` has pushed after `n` turns. */
  function Readables(items: seq<Item>, pollset: seq<Entry>, n: nat): seq<nat>
    requires n <= |items| && n <= |pollset|
  {
    if n == 0 then []
    else Readables(items, pollset, n - 1) + if pollset[n - 1].revents.readable then [items[n - 1].pollable] else []
  }

  function Writables(items: seq<Item>, pollset: seq<Entry>, n: nat): seq<nat>
    requires n <= |items| && n <= |pollset|
  {
    if n == 0 then []
    else Writables(items, pollset, n - 1) + if pollset[n - 1].revents.writable then [items[n - 1].pollable] else []
  }

  /** `rb_czmq_poller_rebuild_pollset`: a count beyond the array finds nil there, raises, and leaves the set dirty. */
  function Rebuild(p: Poller): Poller {
    if !p.dirty || p.size > |p.items| then p
    else p.(dirty := false, pollset := Some(Entries(p.items[..p.size])))
  }

  /** `poller.poll`. An empty poller answers 0 and touches nothing. */
  function Poll(p: Poller, native: Native): Reply
    requires native.Polled? ==> |native.masks| == p.size
  {
    if p.size == 0 then Reply(p, Count(0))
    else
      var q := Rebuild(p);
      if q.pollset.None? || |q.pollset.value| != q.size || q.size > |q.items| then Reply(q, Raised(WrongType))
      else
        var cleared := q.(readables := [], writables := []);
        match native
        case Failed => Reply(cleared, Raised(PollFailed))
        case Interrupted => Reply(cleared, Count(-1))
        case Polled(masks) =>
          var pollset := Answered(q.pollset.value, masks);
          var polled := cleared.(pollset := Some(pollset));
          if Events(masks) == 0 then Reply(polled, Count(0))
          else Reply(polled.(readables := Readables(q.items, pollset, q.size),
                             writables := Writables(q.items, pollset, q.size)),
                     Count(Events(masks)))
  }

  // ---------------------------------------------------------------------------------------------------------
  // ZMQ.select
  // ---------------------------------------------------------------------------------------------------------

  /** What is ready at the moment of the poll. */
  datatype Now = Now(readable: set<Target>, writable: set<Target>)

  /** zmq_poll's own contract: of the events asked for, those that are there. */
  function Snapshot(items: seq<Item>, now: Now): (masks: seq<Mask>)
    ensures |masks| == |items|
    ensures forall i :: 0 <= i < |items| ==>
      masks[i] == Mask(items[i].events.readable && items[i].target in now.readable,
                       items[i].events.writable && items[i].target in now.writable, false)
  {
    seq(|items|, i requires 0 <= i < |items| =>
      Mask(items[i].events.readable && items[i].target in now.readable,
           items[i].events.writable && items[i].target in now.writable, false))
  }

  /** `register_readable` or `register_writable` of each, as long as none is refused. */
  function RegisterAll(p: Poller, things: seq<Thing>, events: Mask): (r: Reply)
    ensures r.poller.size - |r.poller.items| == p.size - |p.items|
    decreases |things|
  {
    if things == [] then Reply(p, False)
    else
      var r := New(p, things[0], Some(events));
      match r.answer
      case Found(item) => RegisterAll(Register(r.poller, AnItem(item)).poller, things[1..], events)
      case _ => r
  }

  function Listed(things: Option<seq<Thing>>): seq<Thing> {
    match things case None => [] case Some(ts) => ts
  }

  datatype Selected = Ready(readables: seq<nat>, writables: seq<nat>) | Refusal(error: Error)

  function Select(read: Option<seq<Thing>>, write: Option<seq<Thing>>, now: Now): Selected {
    var r := RegisterAll(NEW_POLLER, Listed(read), POLLIN);
    if r.answer.Raised? then Refusal(r.answer.error)
    else
      var both := RegisterAll(r.poller, Listed(write), POLLOUT);
      if both.answer.Raised? then Refusal(both.answer.error)
      else
        var reply := Poll(both.poller, Polled(Snapshot(both.poller.items, now)));
        if reply.answer.Raised? then Refusal(reply.answer.error)
        else Ready(reply.poller.readables, reply.poller.writables)
  }

  // ---------------------------------------------------------------------------------------------------------
  // Steps
  // ---------------------------------------------------------------------------------------------------------

  datatype Op =
    | OpNew(thing: Thing, events: Option<Mask>)
    | OpRegister(argument: Argument)
    | OpRemove(argument: Argument)
    | OpPoll(native: Native)

  /** A poll item must have been made before it is passed; zmq_poll returns a mask to every entry. */
  predicate Enabled(p: Poller, op: Op) {
    match op
    case OpNew(_, _) => true
    case OpRegister(argument) => argument.AnItem? ==> argument.item in p.made
    case OpRemove(argument) => argument.AnItem? ==> argument.item in p.made
    case OpPoll(native) => native.Polled? ==> |native.masks| == p.size
  }

  function Do(p: Poller, op: Op): Reply
    requires Enabled(p, op)
  {
    match op
    case OpNew(thing, events) => New(p, thing, events)
    case OpRegister(argument) => Register(p, argument)
    case OpRemove(argument) => Remove(p, argument)
    case OpPoll(native) => Poll(p, native)
  }
}
