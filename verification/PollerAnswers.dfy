/**
 The whole effect of every call on a poller, be its parts in agreement or broken by the removal of a twin: the items,
 the pollset, the two lists, and the answer. It determines the call: `CallIsExactly`.
 */
module PollerAnswers {
  import opened Lists
  import opened Wrappers
  import opened Polling
  import opened PollingRuns

  // ---------------------------------------------------------------------------------------------------------
  // Poll items
  // ---------------------------------------------------------------------------------------------------------

  /** Why no poll item can be made of this, if so; the events are looked at first. */
  function Reason(thing: Thing, events: Option<Mask>): Option<Error> {
    if events.Some? && !events.value.readable && !events.value.writable then Some(InvalidEvents)
    else match thing
      case ASocket(_, _, admitted) => if admitted then None else Some(NotAdmitted)
      case AnIo(_, fd) => if fd.Some? then None else Some(ClosedIo)
      case SomethingElse(_) => Some(WrongType)
  }

  /** A new item polls the thing, at the address or descriptor it has now, for the events given or for both. */
  predicate Polls(item: Item, thing: Thing, events: Option<Mask>) {
    && item.pollable == thing.id
    && item.events == (if events.Some? then events.value else Mask(true, true, false))
    && match thing
       case ASocket(_, address, _) => item.target == SocketPointer(address)
       case AnIo(_, fd) => fd.Some? && item.target == Descriptor(fd.value)
       case SomethingElse(_) => false
  }

  /** The call goes on with this item: the one given, or a new one. */
  predicate GoesOnWith(p: Poller, argument: Argument, item: Item) {
    match argument
    case AnItem(given) => item == given
    case AThing(thing) => Reason(thing, None).None? && item.id == |p.made| && Polls(item, thing, None)
  }

  predicate Refuses(argument: Argument, error: Error) {
    argument.AThing? && Reason(argument.thing, None) == Some(error)
  }

  /** Nothing but the items that were made has changed: by this one, if it is new. */
  predicate Remade(p: Poller, argument: Argument, item: Item, q: Poller) {
    q == p.(made := if argument.AThing? then p.made + [item] else p.made)
  }

  /** The items are these now, and the pollset has to be built again. */
  predicate Reset(p: Poller, argument: Argument, item: Item, items: seq<Item>, q: Poller) {
    && q.made == (if argument.AThing? then p.made + [item] else p.made)
    && q.items == items && q.dirty && q.pollset.None?
    && q.readables == p.readables && q.writables == p.writables
  }

  /** The item at this position is the first that polls the same entity. */
  predicate FirstAt(items: seq<Item>, item: Item, pos: nat) {
    && pos < |items| && items[pos].pollable == item.pollable
    && forall i :: 0 <= i < pos ==> items[i].pollable != item.pollable
  }

  // ---------------------------------------------------------------------------------------------------------
  // What should come of a call
  // ---------------------------------------------------------------------------------------------------------

  predicate NewComesTo(p: Poller, thing: Thing, events: Option<Mask>, q: Poller, answer: Answer) {
    match Reason(thing, events)
    case Some(error) => q == p && answer == Raised(error)
    case None =>
      && answer.Found? && answer.item.id == |p.made| && Polls(answer.item, thing, events)
      && q == p.(made := p.made + [answer.item])
  }

  ghost predicate RegisterComesTo(p: Poller, argument: Argument, q: Poller, answer: Answer) {
    match answer
    case Raised(error) => Refuses(argument, error) && q == p
    case Found(item) =>
      GoesOnWith(p, argument, item) && Reset(p, argument, item, p.items + [item], q) && q.size == p.size + 1
    case _ => false
  }

  /** No item polls what is to be removed. */
  ghost predicate FindsNothing(p: Poller, argument: Argument, q: Poller) {
    exists item :: GoesOnWith(p, argument, item) && Remade(p, argument, item, q)
      && forall i :: 0 <= i < |p.items| ==> p.items[i].pollable != item.pollable
  }

  /** When the count has run ahead of the array, a search that finds nothing runs past its end. */
  ghost predicate RemoveComesTo(p: Poller, argument: Argument, q: Poller, answer: Answer) {
    match answer
    case Raised(error) =>
      || (Refuses(argument, error) && q == p)
      || (error == WrongType && p.size > |p.items| && FindsNothing(p, argument, q))
    case False => p.size == |p.items| && FindsNothing(p, argument, q)
    case Found(found) =>
      exists item, pos: nat :: GoesOnWith(p, argument, item) && FirstAt(p.items, item, pos) && found == p.items[pos]
        && Reset(p, argument, item, DeleteAll(p.items, found), q) && q.size == p.size - 1
    case _ => false
  }

  /** The positions at which something is reported. */
  function Reported(masks: seq<Mask>): set<nat> {
    set i: nat | i < |masks| && masks[i].Any()
  }

  /** The return value of zmq_poll is the number of entries that have events. */
  lemma {:induction false} EventsCounts(masks: seq<Mask>)
    ensures Events(masks) == |Reported(masks)|
  {
    if masks == [] {
      assert Reported(masks) == {};
    } else {
      var n := |masks| - 1;
      EventsCounts(masks[..n]);
      assert Reported(masks) == Reported(masks[..n]) + if masks[n].Any() then {n} else {};
      assert n !in Reported(masks[..n]);
    }
  }

  /** What stands in the pollset at each position after a poll: the item's own, and what was reported of it; when the
      poll failed, nothing yet, or what stood there. */
  predicate EntryRight(p: Poller, native: Native, entry: Entry, i: nat)
    requires i < |p.items| && (native.Polled? ==> i < |native.masks|)
  {
    && entry.target == p.items[i].target && entry.events == p.items[i].events
    && entry.revents == (if native.Polled? then native.masks[i]
                         else if p.dirty || p.pollset.None? || i >= |p.pollset.value| then NOTHING
                         else p.pollset.value[i].revents)
  }

  predicate PollComesTo(p: Poller, native: Native, q: Poller, answer: Answer)
    requires native.Polled? ==> |native.masks| == |p.items|
  {
    if p.items == [] then q == p && answer == Count(0)
    else
      && q.made == p.made && q.items == p.items && q.size == p.size && !q.dirty
      && q.pollset.Some? && |q.pollset.value| == |p.items|
      && (forall i: nat :: i < |p.items| ==> EntryRight(p, native, q.pollset.value[i], i))
      && (match native
          case Failed => answer == Raised(PollFailed) && q.readables == [] && q.writables == []
          case Interrupted => answer == Count(-1) && q.readables == [] && q.writables == []
          case Polled(masks) => answer == Count(|Reported(masks)|) && Reports(q, masks))
  }

  /** The pollers there are: those whose parts agree, and those that lost a twin. */
  predicate Possible(p: Poller) {
    Agrees(p) || Broken(p)
  }

  ghost predicate ComesTo(p: Poller, op: Op, q: Poller, answer: Answer)
    requires Possible(p) && Enabled(p, op)
  {
    match op
    case OpNew(thing, events) => NewComesTo(p, thing, events, q, answer)
    case OpRegister(argument) => RegisterComesTo(p, argument, q, answer)
    case OpRemove(argument) => RemoveComesTo(p, argument, q, answer)
    case OpPoll(native) =>
      if Broken(p) then q == p && answer == Raised(WrongType) else PollComesTo(p, native, q, answer)
  }

  // ---------------------------------------------------------------------------------------------------------
  // It does come of it, and of nothing else
  // ---------------------------------------------------------------------------------------------------------

  lemma CoercesTo(p: Poller, argument: Argument)
    ensures match Coerce(p, argument)
            case Coerced(item) => GoesOnWith(p, argument, item)
            case Refused(error) => Refuses(argument, error)
    ensures Coerce(p, argument).Coerced? ==> forall error :: !Refuses(argument, error)
    ensures Coerce(p, argument).Coerced? ==> forall item :: GoesOnWith(p, argument, item) ==>
              item == Coerce(p, argument).item
    ensures Coerce(p, argument).Refused? ==> forall item :: !GoesOnWith(p, argument, item)
  {
  }

  lemma RegisterIsExactly(p: Poller, argument: Argument, q: Poller, answer: Answer)
    ensures RegisterComesTo(p, argument, q, answer) <==> Register(p, argument) == Reply(q, answer)
  {
    CoercesTo(p, argument);
  }

  lemma {:induction false} FindsFirst(items: seq<Item>, size: nat, item: Item, from: nat)
    requires from <= |items| <= size && forall i :: 0 <= i < from ==> items[i].pollable != item.pollable
    ensures match Find(items, size, item, from)
            case At(pos) => FirstAt(items, item, pos)
            case Nowhere => size == |items| && forall i :: 0 <= i < |items| ==> items[i].pollable != item.pollable
            case Missing => size > |items| && forall i :: 0 <= i < |items| ==> items[i].pollable != item.pollable
    decreases size - from
  {
    if from < |items| && !Matches(item, items[from]) { FindsFirst(items, size, item, from + 1); }
  }

  lemma RemoveIsExactly(p: Poller, argument: Argument, q: Poller, answer: Answer)
    requires Possible(p)
    ensures RemoveComesTo(p, argument, q, answer) <==> Remove(p, argument) == Reply(q, answer)
  {
    CoercesTo(p, argument);
    if Coerce(p, argument).Coerced? {
      var item := Coerce(p, argument).item;
      FindsFirst(p.items, p.size, item, 0);
      var found := Find(p.items, p.size, item, 0);
      if found.At? {
        forall pos: nat | FirstAt(p.items, item, pos) ensures pos == found.pos {}
        assert FirstAt(p.items, item, found.pos);
      }
    }
  }

  lemma PollDoesComeTo(p: Poller, native: Native)
    requires Agrees(p) && Enabled(p, OpPoll(native))
    ensures PollComesTo(p, native, Poll(p, native).poller, Poll(p, native).answer)
  {
    if p.items != [] {
      assert p.items[..p.size] == p.items;
      match native
      case Polled(masks) =>
        PollReportsIff(p, masks);
        EventsCounts(masks);
      case _ => PollFailsEmpty(p, native);
    }
  }

  lemma PollsetOnce(p: Poller, native: Native, a: seq<Entry>, b: seq<Entry>)
    requires |a| == |b| == |p.items| && (native.Polled? ==> |native.masks| == |p.items|)
    requires forall i: nat :: i < |p.items| ==> EntryRight(p, native, a[i], i)
    requires forall i: nat :: i < |p.items| ==> EntryRight(p, native, b[i], i)
    ensures a == b
  {
    forall i: nat | i < |a| ensures a[i] == b[i] { assert EntryRight(p, native, a[i], i); }
  }

  lemma PollIsExactly(p: Poller, native: Native, q: Poller, answer: Answer)
    requires Agrees(p) && Enabled(p, OpPoll(native))
    ensures PollComesTo(p, native, q, answer) <==> Poll(p, native) == Reply(q, answer)
  {
    PollDoesComeTo(p, native);
    var r := Poll(p, native);
    if PollComesTo(p, native, q, answer) && p.items != [] {
      PollsetOnce(p, native, q.pollset.value, r.poller.pollset.value);
    }
  }

  /** From any poller there is, a call comes to exactly one poller and one answer: items, pollset and lists are
      as they should be, whatever was polled, refused or removed, a twin included. */
  lemma CallIsExactly(p: Poller, op: Op, q: Poller, answer: Answer)
    requires Possible(p) && Enabled(p, op)
    ensures ComesTo(p, op, q, answer) <==> Do(p, op) == Reply(q, answer)
  {
    match op
    case OpNew(thing, events) =>
    case OpRegister(argument) => RegisterIsExactly(p, argument, q, answer);
    case OpRemove(argument) => RemoveIsExactly(p, argument, q, answer);
    case OpPoll(native) => if Broken(p) { StepKeepsBroken(p, op); } else { PollIsExactly(p, native, q, answer); }
  }

  /** And no run leaves the pollers there are. */
  lemma {:induction false} RunsStayPossible(p: Poller, ops: seq<Op>)
    requires Possible(p) && CanRun(p, ops)
    ensures Possible(Run(p, ops))
    decreases |ops|
  {
    if ops != [] {
      if Agrees(p) { StepAgreesIff(p, ops[0]); } else { StepKeepsBroken(p, ops[0]); }
      RunsStayPossible(Do(p, ops[0]).poller, ops[1..]);
    }
  }

  // ---------------------------------------------------------------------------------------------------------
  // ZMQ.select, when it raises
  // ---------------------------------------------------------------------------------------------------------

  /** The first of these that cannot be polled. */
  predicate FirstRefused(things: seq<Thing>, i: nat) {
    && i < |things| && Reason(things[i], None).Some?
    && forall j :: 0 <= j < i ==> Reason(things[j], None).None?
  }

  lemma {:induction false} RegisterAllRaises(p: Poller, things: seq<Thing>, events: Mask, i: nat)
    requires FirstRefused(things, i) && (events.readable || events.writable)
    ensures RegisterAll(p, things, events).answer == Raised(Reason(things[i], None).value)
    decreases |things|
  {
    if i > 0 {
      var r := New(p, things[0], Some(events));
      assert Reason(things[0], None).None?;
      RegisterAllRaises(Register(r.poller, AnItem(r.answer.item)).poller, things[1..], events, i - 1);
    }
  }

  lemma AcceptableIffNotRefused(things: seq<Thing>)
    ensures AllAcceptable(things) <==> forall i :: 0 <= i < |things| ==> Reason(things[i], None).None?
  {
  }

  lemma SelectRaisesOfReaders(read: Option<seq<Thing>>, write: Option<seq<Thing>>, now: Now, i: nat)
    requires FirstRefused(Listed(read), i)
    ensures Select(read, write, now) == Refusal(Reason(Listed(read)[i], None).value)
  {
    RegisterAllRaises(NEW_POLLER, Listed(read), POLLIN, i);
  }

  lemma SelectRaisesOfWriters(read: Option<seq<Thing>>, write: Option<seq<Thing>>, now: Now, i: nat)
    requires AllAcceptable(Listed(read)) && FirstRefused(Listed(write), i)
    ensures Select(read, write, now) == Refusal(Reason(Listed(write)[i], None).value)
  {
    RegisterAllAppends(NEW_POLLER, Listed(read), POLLIN);
    RegisterAllRaises(RegisterAll(NEW_POLLER, Listed(read), POLLIN).poller, Listed(write), POLLOUT, i);
  }

  /** select raises what the first member that cannot be polled raises, and all of `read` come before all of `write`. */
  lemma SelectRaisesTheFirst(read: Option<seq<Thing>>, write: Option<seq<Thing>>, now: Now, i: nat)
    requires FirstRefused(Listed(read) + Listed(write), i)
    ensures Select(read, write, now) == Refusal(Reason((Listed(read) + Listed(write))[i], None).value)
  {
    var r, w := Listed(read), Listed(write);
    if i < |r| {
      forall j | 0 <= j <= i ensures (r + w)[j] == r[j] {}
      SelectRaisesOfReaders(read, write, now, i);
    } else {
      forall j | 0 <= j < |r| ensures Reason(r[j], None).None? { assert (r + w)[j] == r[j]; }
      forall j | 0 <= j < i - |r| ensures Reason(w[j], None).None? { assert (r + w)[|r| + j] == w[j]; }
      AcceptableIffNotRefused(r);
      SelectRaisesOfWriters(read, write, now, i - |r|);
    }
  }
}
