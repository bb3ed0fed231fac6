/**
 When the poller's cache agrees with its array, what a poll reports, and what ZMQ.select returns.
 */
module PollingRuns {
  import opened Lists
  import opened Wrappers
  import opened Polling

  // ---------------------------------------------------------------------------------------------------------
  // The count, the dirty flag and the pollset
  // ---------------------------------------------------------------------------------------------------------

  /** The count is the length of the array, and a clean pollset is that of the array, in order. */
  predicate Agrees(p: Poller) {
    && p.size == |p.items|
    && (p.dirty ==> p.pollset.None?)
    && (!p.dirty ==> if p.pollset.None? then p.items == [] else BuiltFrom(p.pollset.value, p.items))
  }

  /** The count has run ahead of the array. */
  predicate Broken(p: Poller) {
    p.size > |p.items| && p.dirty && p.pollset.None?
  }

  /** `remove` is about to hit an item that is registered more than once. */
  predicate HitsTwin(p: Poller, op: Op) {
    && op.OpRemove? && Coerce(p, op.argument).Coerced?
    && var found := Find(p.items, p.size, Coerce(p, op.argument).item, 0);
       found.At? && multiset(p.items)[p.items[found.pos]] > 1
  }

  lemma FindLooksAtAll(items: seq<Item>, size: nat, item: Item, from: nat)
    requires size <= |items|
    ensures !Find(items, size, item, from).Missing?
    decreases size - from
  {
  }

  /** Every step keeps the agreement, except the removal of a twin, which leaves the poller broken. */
  lemma StepAgreesIff(p: Poller, op: Op)
    requires Agrees(p) && Enabled(p, op)
    ensures Agrees(Do(p, op).poller) <==> !HitsTwin(p, op)
    ensures HitsTwin(p, op) ==> Broken(Do(p, op).poller)
  {
    match op
    case OpNew(_, _) =>
    case OpRegister(argument) =>
    case OpRemove(argument) =>
      if Coerce(p, argument).Coerced? {
        var item := Coerce(p, argument).item;
        FindLooksAtAll(p.items, p.size, item, 0);
        var found := Find(p.items, p.size, item, 0);
        if found.At? { assert p.items[found.pos] in multiset(p.items); }
      }
    case OpPoll(native) =>
      assert p.items[..p.size] == p.items;
  }

  /** A poller that is broken stays so, and every poll of it raises. */
  lemma StepKeepsBroken(p: Poller, op: Op)
    requires Broken(p) && Enabled(p, op)
    ensures Broken(Do(p, op).poller)
    ensures op.OpPoll? ==> Do(p, op) == Reply(p, Raised(WrongType))
  {
    if op.OpRemove? && Coerce(p, op.argument).Coerced? {
      var found := Find(p.items, p.size, Coerce(p, op.argument).item, 0);
      if found.At? { assert p.items[found.pos] in multiset(p.items); }
    }
  }

  predicate CanRun(p: Poller, ops: seq<Op>)
    decreases |ops|
  {
    ops != [] ==> Enabled(p, ops[0]) && CanRun(Do(p, ops[0]).poller, ops[1..])
  }

  function Run(p: Poller, ops: seq<Op>): Poller
    requires CanRun(p, ops)
    decreases |ops|
  {
    if ops == [] then p else Run(Do(p, ops[0]).poller, ops[1..])
  }

  predicate EverHitsTwin(p: Poller, ops: seq<Op>)
    requires CanRun(p, ops)
    decreases |ops|
  {
    ops != [] && (HitsTwin(p, ops[0]) || EverHitsTwin(Do(p, ops[0]).poller, ops[1..]))
  }

  lemma {:induction false} RunKeepsBroken(p: Poller, ops: seq<Op>)
    requires Broken(p) && CanRun(p, ops)
    ensures Broken(Run(p, ops))
    decreases |ops|
  {
    if ops != [] {
      StepKeepsBroken(p, ops[0]);
      RunKeepsBroken(Do(p, ops[0]).poller, ops[1..]);
    }
  }

  lemma {:induction false} RunAgreesIff(p: Poller, ops: seq<Op>)
    requires Agrees(p) && CanRun(p, ops)
    ensures Agrees(Run(p, ops)) <==> !EverHitsTwin(p, ops)
    ensures EverHitsTwin(p, ops) ==> Broken(Run(p, ops))
    decreases |ops|
  {
    if ops != [] {
      StepAgreesIff(p, ops[0]);
      if HitsTwin(p, ops[0]) {
        RunKeepsBroken(Do(p, ops[0]).poller, ops[1..]);
      } else {
        RunAgreesIff(Do(p, ops[0]).poller, ops[1..]);
      }
    }
  }

  /** After any run from a new poller: the cache agrees exactly when no removal ever hit an item registered twice, and
      a poll that has something to poll is refused by the poller itself exactly when one did. */
  lemma CacheAgreesIff(ops: seq<Op>, native: Native)
    requires CanRun(NEW_POLLER, ops) && Enabled(Run(NEW_POLLER, ops), OpPoll(native))
    ensures var p := Run(NEW_POLLER, ops);
            && (Agrees(p) <==> !EverHitsTwin(NEW_POLLER, ops))
            && (Poll(p, native).answer == Raised(WrongType) <==> EverHitsTwin(NEW_POLLER, ops))
  {
    RunAgreesIff(NEW_POLLER, ops);
    var p := Run(NEW_POLLER, ops);
    if Agrees(p) {
      assert p.items[..p.size] == p.items;
    } else {
      StepKeepsBroken(p, OpPoll(native));
    }
  }

  // ---------------------------------------------------------------------------------------------------------
  // Register and remove
  // ---------------------------------------------------------------------------------------------------------

  lemma {:induction false} FindIsFirst(items: seq<Item>, size: nat, item: Item, from: nat)
    requires from <= size == |items|
    ensures var found := Find(items, size, item, from);
            && !found.Missing?
            && (found.Nowhere? ==> forall i :: from <= i < size ==> !Matches(item, items[i]))
            && (found.At? ==> forall i :: from <= i < found.pos ==> !Matches(item, items[i]))
    decreases size - from
  {
    if from < size && !Matches(item, items[from]) { FindIsFirst(items, size, item, from + 1); }
  }

  /** Of the registered items, `remove` takes out the first that is the one given or polls the same entity, and
      leaves the order of the rest; it answers false exactly when there is none. */
  lemma RemoveTakesFirstMatch(p: Poller, argument: Argument)
    requires Agrees(p) && Coerce(p, argument).Coerced? && !HitsTwin(p, OpRemove(argument))
    ensures var (r, item) := (Remove(p, argument), Coerce(p, argument).item);
            && (r.answer == False <==> forall i :: 0 <= i < |p.items| ==> !Matches(item, p.items[i]))
            && (r.answer == False ==> r.poller == Made(p, argument, item))
            && (r.answer != False ==> exists pos: nat {:trigger p.items[pos]} ::
                  && pos < |p.items| && Matches(item, p.items[pos]) && r.answer == Found(p.items[pos])
                  && (forall i :: 0 <= i < pos ==> !Matches(item, p.items[i]))
                  && r.poller.items == p.items[..pos] + p.items[pos + 1..])
  {
    var item := Coerce(p, argument).item;
    FindIsFirst(p.items, p.size, item, 0);
    var found := Find(p.items, p.size, item, 0);
    if found.At? {
      assert p.items[found.pos] in multiset(p.items);
      DeleteOne(p.items, found.pos);
    }
  }

  predicate Polls(items: seq<Item>, pollable: nat) {
    exists x :: x in items && x.pollable == pollable
  }

  /** `remove` is documented to deregister the entity for any event it was registered for. It stops at the first match:
      no item polls the entity any more exactly when every item that did was the one it found. */
  lemma RemoveDeregistersIff(p: Poller, argument: Argument)
    requires Agrees(p) && Coerce(p, argument).Coerced?
    ensures var (r, item) := (Remove(p, argument), Coerce(p, argument).item);
            && (r.answer.Found? <==> Polls(p.items, item.pollable))
            && (r.answer.Found? ==>
                  (!Polls(r.poller.items, item.pollable) <==>
                     forall x :: x in p.items && x.pollable == item.pollable ==> x == r.answer.item))
  {
    var item := Coerce(p, argument).item;
    FindIsFirst(p.items, p.size, item, 0);
    var found := Find(p.items, p.size, item, 0);
    if found.At? {
      var x := p.items[found.pos];
      assert x in p.items && x.pollable == item.pollable;
      DeletedIsGone(p.items, x);
    } else {
      forall x | x in p.items ensures x.pollable != item.pollable {
        var i :| 0 <= i < |p.items| && p.items[i] == x;
        assert !Matches(item, p.items[i]);
      }
    }
  }

  /** Removing what was just registered gives the items back as they were exactly when its entity was not polled
      before: otherwise the earlier item goes, and the new one stays. */
  lemma RegisterThenRemove(p: Poller, item: Item)
    requires Agrees(p)
    ensures var r := Register(p, AnItem(item)).poller;
            && Agrees(r)
            && (Remove(r, AnItem(item)).poller.items == p.items <==>
                  forall i :: 0 <= i < |p.items| ==> p.items[i].pollable != item.pollable)
  {
    var r := Register(p, AnItem(item)).poller;
    assert Matches(item, r.items[|p.items|]);
    FindIsFirst(r.items, r.size, item, 0);
    var pos := Find(r.items, r.size, item, 0).pos;
    assert r.items[|p.items|] == item;
    if pos == |p.items| {
      forall i | 0 <= i < |p.items| ensures p.items[i].pollable != item.pollable {
        assert !Matches(item, r.items[i]);
      }
      NewItemGoes(p.items, item);
    } else {
      assert r.items[pos] == p.items[pos];
      DeletedIsGone(r.items, p.items[pos]);
    }
  }

  lemma NewItemGoes(items: seq<Item>, item: Item)
    requires item !in items
    ensures DeleteAll(items + [item], item) == items
  {
    assert multiset(items + [item]) == multiset(items) + multiset{item} && item !in multiset(items);
    DeleteOne(items + [item], |items|);
  }

  /** No poll item is registered while it is registered already. Sockets and IOs may be, as often as one likes. */
  predicate RegistersNew(p: Poller, ops: seq<Op>)
    requires CanRun(p, ops)
    decreases |ops|
  {
    ops != [] ==>
      && (ops[0].OpRegister? && ops[0].argument.AnItem? ==> ops[0].argument.item !in p.items)
      && RegistersNew(Do(p, ops[0]).poller, ops[1..])
  }

  predicate Once(items: seq<Item>) {
    forall x :: x in items ==> multiset(items)[x] == 1
  }

  /** Poll items are told apart by their place among all that were made, and only such are registered. */
  predicate Known(p: Poller) {
    && (forall i :: 0 <= i < |p.made| ==> p.made[i].id == i)
    && (forall i :: 0 <= i < |p.items| ==> p.items[i].id < |p.made|)
  }

  lemma StepKeepsKnown(p: Poller, op: Op)
    requires Known(p) && Enabled(p, op)
    ensures Known(Do(p, op).poller)
  {
    var q := Do(p, op).poller;
    if op.OpRegister? && op.argument.AnItem? {
      var i :| 0 <= i < |p.made| && p.made[i] == op.argument.item;
    }
    if op.OpRemove? && Coerce(p, op.argument).Coerced? {
      var found := Find(p.items, p.size, Coerce(p, op.argument).item, 0);
      if found.At? {
        forall i | 0 <= i < |q.items| ensures q.items[i].id < |p.made| {
          DeletedWasThere(p.items, p.items[found.pos], i);
        }
      }
    }
  }

  lemma {:induction false} DeletedWasThere(items: seq<Item>, x: Item, i: nat)
    requires i < |DeleteAll(items, x)|
    ensures DeleteAll(items, x)[i] in items
  {
    if items[0] == x {
      DeletedWasThere(items[1..], x, i);
    } else if i > 0 {
      DeletedWasThere(items[1..], x, i - 1);
    }
  }

  lemma StepKeepsOnce(p: Poller, op: Op)
    requires Agrees(p) && Known(p) && Once(p.items) && Enabled(p, op) && RegistersNew(p, [op])
    ensures !HitsTwin(p, op) && Once(Do(p, op).poller.items)
  {
    if op.OpRegister? && Coerce(p, op.argument).Coerced? {
      var item := Coerce(p, op.argument).item;
      assert op.argument.AThing? ==> item.id == |p.made|;
      NewKeepsOnce(p.items, item);
    }
    if op.OpRemove? && Coerce(p, op.argument).Coerced? {
      var found := Find(p.items, p.size, Coerce(p, op.argument).item, 0);
      if found.At? { DeletingKeepsOnce(p.items, found.pos); }
    }
  }

  lemma NewKeepsOnce(items: seq<Item>, item: Item)
    requires Once(items) && item !in items
    ensures Once(items + [item])
  {
    forall x | x in items + [item] ensures multiset(items + [item])[x] == 1 {
      assert multiset(items + [item]) == multiset(items) + multiset{item};
      assert x in items || x == item;
      assert x == item ==> x !in multiset(items);
    }
  }

  lemma SplitCounts(items: seq<Item>, pos: nat)
    requires pos < |items|
    ensures multiset(items) == multiset(items[..pos] + items[pos + 1..]) + multiset{items[pos]}
  {
    assert items == items[..pos] + [items[pos]] + items[pos + 1..];
  }

  lemma DeletingKeepsOnce(items: seq<Item>, pos: nat)
    requires pos < |items| && Once(items)
    ensures Once(DeleteAll(items, items[pos]))
  {
    DeleteOne(items, pos);
    var left := DeleteAll(items, items[pos]);
    SplitCounts(items, pos);
    forall x | x in left ensures multiset(left)[x] == 1 {
      assert x in multiset(left) && x in multiset(items);
    }
  }

  lemma {:induction false} NewItemsFrom(p: Poller, ops: seq<Op>)
    requires Agrees(p) && Known(p) && Once(p.items) && CanRun(p, ops) && RegistersNew(p, ops)
    ensures !EverHitsTwin(p, ops)
    decreases |ops|
  {
    if ops != [] {
      assert RegistersNew(p, [ops[0]]) by { assert [ops[0]][1..] == []; }
      StepKeepsOnce(p, ops[0]);
      StepKeepsKnown(p, ops[0]);
      StepAgreesIff(p, ops[0]);
      NewItemsFrom(Do(p, ops[0]).poller, ops[1..]);
    }
  }

  /** From a new poller, a run that passes no poll item twice never removes a twin: the items that coercion makes of
      sockets and IOs are different every time. */
  lemma NewItemsNeverHitTwin(ops: seq<Op>)
    requires CanRun(NEW_POLLER, ops) && RegistersNew(NEW_POLLER, ops)
    ensures !EverHitsTwin(NEW_POLLER, ops) && Agrees(Run(NEW_POLLER, ops))
  {
    NewItemsFrom(NEW_POLLER, ops);
    RunAgreesIff(NEW_POLLER, ops);
  }

  // ---------------------------------------------------------------------------------------------------------
  // The failing runs
  // ---------------------------------------------------------------------------------------------------------

  lemma RunFirst(p: Poller, op: Op, rest: seq<Op>)
    requires Enabled(p, op) && CanRun(Do(p, op).poller, rest)
    ensures CanRun(p, [op] + rest) && Run(p, [op] + rest) == Run(Do(p, op).poller, rest)
    ensures EverHitsTwin(p, [op] + rest) <==> HitsTwin(p, op) || EverHitsTwin(Do(p, op).poller, rest)
  {
    assert ([op] + rest)[1..] == rest;
  }

  const AN_IO := AnIo(7, Some(0))
  const AN_ITEM := Item(0, 7, Descriptor(0), POLLIN_OR_POLLOUT)

  const TWIN_RUN := [OpNew(AN_IO, None), OpRegister(AnItem(AN_ITEM)), OpRegister(AnItem(AN_ITEM)),
                     OpRemove(AnItem(AN_ITEM))]

  lemma TwinRegistered(p: Poller)
    requires p == Poller([AN_ITEM], [AN_ITEM, AN_ITEM], 2, true, None, [], [])
    ensures HitsTwin(p, OpRemove(AnItem(AN_ITEM))) && Enabled(p, OpRemove(AnItem(AN_ITEM)))
  {
    assert Find(p.items, 2, AN_ITEM, 0) == At(0);
    assert multiset(p.items)[AN_ITEM] == 2;
  }

  /** A poll item is made, registered twice, and removed: every later poll raises. */
  lemma TwinRun()
    ensures CanRun(NEW_POLLER, TWIN_RUN) && EverHitsTwin(NEW_POLLER, TWIN_RUN)
    ensures forall native :: Enabled(Run(NEW_POLLER, TWIN_RUN), OpPoll(native)) ==>
              Poll(Run(NEW_POLLER, TWIN_RUN), native).answer == Raised(WrongType)
  {
    var make, register, remove := OpNew(AN_IO, None), OpRegister(AnItem(AN_ITEM)), OpRemove(AnItem(AN_ITEM));
    var p1 := Poller([AN_ITEM], [], 0, false, None, [], []);
    var p2 := Poller([AN_ITEM], [AN_ITEM], 1, true, None, [], []);
    var p3 := Poller([AN_ITEM], [AN_ITEM, AN_ITEM], 2, true, None, [], []);
    assert Do(NEW_POLLER, make).poller == p1 && Do(p1, register).poller == p2;
    assert Do(p2, register).poller == p3 by { assert [AN_ITEM] + [AN_ITEM] == [AN_ITEM, AN_ITEM]; }
    TwinRegistered(p3);
    RunFirst(p3, remove, []);
    RunFirst(p2, register, [remove]);
    RunFirst(p1, register, [register, remove]);
    RunFirst(NEW_POLLER, make, [register, register, remove]);
    assert [remove] + [] == [remove] && [register] + [remove] == [register, remove];
    assert [register] + [register, remove] == [register, register, remove];
    assert [make] + [register, register, remove] == TWIN_RUN;
    forall native | Enabled(Run(NEW_POLLER, TWIN_RUN), OpPoll(native))
      ensures Poll(Run(NEW_POLLER, TWIN_RUN), native).answer == Raised(WrongType)
    {
      CacheAgreesIff(TWIN_RUN, native);
    }
  }

  const READER := Item(0, 7, Descriptor(0), POLLIN)
  const WRITER := Item(1, 7, Descriptor(0), POLLOUT)

  const BOTH_RUN := [OpNew(AN_IO, Some(POLLIN)), OpRegister(AnItem(READER)), OpNew(AN_IO, Some(POLLOUT)),
                     OpRegister(AnItem(WRITER)), OpRemove(AThing(AN_IO))]

  lemma BothRegistered(p: Poller)
    requires p == Poller([READER, WRITER], [READER, WRITER], 2, true, None, [], [])
    ensures Remove(p, AThing(AN_IO)).poller.items == [WRITER]
  {
    var item := Coerce(p, AThing(AN_IO)).item;
    assert Matches(item, p.items[0]) && Find(p.items, 2, item, 0) == At(0);
    assert p.items[1..] == [WRITER] && [WRITER][1..] == [];
    assert DeleteAll([WRITER], READER) == [WRITER] + DeleteAll([], READER);
  }

  /** An IO is registered for reading and for writing and removed: it is still polled for writing. */
  lemma BothRun()
    ensures CanRun(NEW_POLLER, BOTH_RUN) && Run(NEW_POLLER, BOTH_RUN).items == [WRITER]
  {
    var p1 := Poller([READER], [], 0, false, None, [], []);
    var p2 := Poller([READER], [READER], 1, true, None, [], []);
    var p3 := Poller([READER, WRITER], [READER], 1, true, None, [], []);
    var p4 := Poller([READER, WRITER], [READER, WRITER], 2, true, None, [], []);
    assert [READER] + [WRITER] == [READER, WRITER] && [] + [READER] == [READER];
    assert Do(NEW_POLLER, BOTH_RUN[0]).poller == p1 && Do(p1, BOTH_RUN[1]).poller == p2;
    assert Do(p2, BOTH_RUN[2]).poller == p3 && Do(p3, BOTH_RUN[3]).poller == p4;
    BothRegistered(p4);
    RunFirst(p4, BOTH_RUN[4], []);
    RunFirst(p3, BOTH_RUN[3], [BOTH_RUN[4]] + []);
    RunFirst(p2, BOTH_RUN[2], [BOTH_RUN[3]] + ([BOTH_RUN[4]] + []));
    RunFirst(p1, BOTH_RUN[1], [BOTH_RUN[2]] + ([BOTH_RUN[3]] + ([BOTH_RUN[4]] + [])));
    var rest := [BOTH_RUN[1]] + ([BOTH_RUN[2]] + ([BOTH_RUN[3]] + ([BOTH_RUN[4]] + [])));
    RunFirst(NEW_POLLER, BOTH_RUN[0], rest);
    assert [BOTH_RUN[0]] + rest == BOTH_RUN;
  }

  const STALE_RUN := [OpRegister(AThing(AN_IO)), OpPoll(Polled([POLLIN])), OpRemove(AThing(AN_IO))]

  /** Only the IO is polled, and it is found readable. */
  lemma FoundReadable(p: Poller)
    requires p == Poller([AN_ITEM], [AN_ITEM], 1, true, None, [], [])
    ensures var q := Poll(p, Polled([POLLIN])).poller;
            && q.made == [AN_ITEM] && q.items == [AN_ITEM] && q.size == 1 && q.readables == [7] && Agrees(q)
  {
    PollReportsIff(p, [POLLIN]);
    assert Pollables(p.items) == [7] && ReadableFlags([POLLIN]) == [true];
    assert Pick([7], [true]) == Pick([7][..0], [true][..0]) + [7];
  }

  lemma Removed(q: Poller)
    requires q.items == [AN_ITEM] && q.size == 1 && Agrees(q)
    ensures var r := Remove(q, AThing(AN_IO)).poller;
            r.items == [] && r.size == 0 && r.readables == q.readables && Agrees(r)
  {
    var item := Coerce(q, AThing(AN_IO)).item;
    assert Matches(item, q.items[0]) && Find(q.items, 1, item, 0) == At(0);
    DeletedIsGone([AN_ITEM], AN_ITEM);
    assert multiset(q.items)[AN_ITEM] == 1;
  }

  /** An IO is registered, found readable and removed: the next poll still lists it. */
  lemma StaleRun()
    ensures CanRun(NEW_POLLER, STALE_RUN)
    ensures var p := Run(NEW_POLLER, STALE_RUN);
            Agrees(p) && p.items == [] && p.size == 0 && Poll(p, Polled([])).poller.readables == [7]
  {
    var register, poll, remove := OpRegister(AThing(AN_IO)), OpPoll(Polled([POLLIN])), OpRemove(AThing(AN_IO));
    var p1 := Poller([AN_ITEM], [AN_ITEM], 1, true, None, [], []);
    assert Do(NEW_POLLER, register).poller == p1 by { assert [] + [AN_ITEM] == [AN_ITEM]; }
    FoundReadable(p1);
    var p2 := Poll(p1, Polled([POLLIN])).poller;
    Removed(p2);
    RunFirst(p2, remove, []);
    RunFirst(p1, poll, [remove]);
    RunFirst(NEW_POLLER, register, [poll, remove]);
    assert [remove] + [] == [remove] && [poll] + [remove] == [poll, remove];
    assert [register] + [poll, remove] == STALE_RUN;
  }

  // ---------------------------------------------------------------------------------------------------------
  // What a poll reports
  // ---------------------------------------------------------------------------------------------------------

  /** The names whose flag is set, in order. */
  function Pick(names: seq<nat>, flags: seq<bool>): seq<nat>
    requires |names| == |flags|
    decreases |names|
  {
    if names == [] then []
    else
      var n := |names| - 1;
      Pick(names[..n], flags[..n]) + if flags[n] then [names[n]] else []
  }

  /** `positions` are exactly the positions that are set, in ascending order. */
  predicate AreSet(positions: seq<nat>, flags: seq<bool>) {
    && (forall k, l :: 0 <= k < l < |positions| ==> positions[k] < positions[l])
    && (forall k :: 0 <= k < |positions| ==> positions[k] < |flags| && flags[positions[k]])
    && (forall i: nat {:trigger flags[i]} :: i < |flags| && flags[i] ==> i in positions)
  }

  lemma OneMoreFlag(before: seq<nat>, flags: seq<bool>)
    requires flags != [] && AreSet(before, flags[..|flags| - 1])
    ensures AreSet(if flags[|flags| - 1] then before + [|flags| - 1] else before, flags)
  {
    var n := |flags| - 1;
    forall i: nat | i < n && flags[i] ensures i in before { assert flags[..n][i]; }
    if flags[n] { assert (before + [n])[|before|] == n; }
  }

  /** What `Pick` returns, said without its recursion: the names at the set positions, none left out, none twice. */
  lemma {:induction false} PickIsExact(names: seq<nat>, flags: seq<bool>) returns (positions: seq<nat>)
    requires |names| == |flags|
    ensures AreSet(positions, flags)
    ensures |Pick(names, flags)| == |positions|
    ensures forall k :: 0 <= k < |positions| ==> Pick(names, flags)[k] == names[positions[k]]
    decreases |names|
  {
    if names == [] {
      positions := [];
    } else {
      var n := |names| - 1;
      var before := PickIsExact(names[..n], flags[..n]);
      OneMoreFlag(before, flags);
      positions := if flags[n] then before + [n] else before;
    }
  }

  lemma {:induction false} PickNone(names: seq<nat>, flags: seq<bool>)
    requires |names| == |flags| && forall i :: 0 <= i < |flags| ==> !flags[i]
    ensures Pick(names, flags) == []
    decreases |names|
  {
    if names != [] { PickNone(names[..|names| - 1], flags[..|names| - 1]); }
  }

  lemma {:induction false} PickBoth(a: seq<nat>, f: seq<bool>, b: seq<nat>, g: seq<bool>)
    requires |a| == |f| && |b| == |g|
    ensures Pick(a + b, f + g) == Pick(a, f) + Pick(b, g)
    decreases |b|
  {
    if b == [] {
      assert a + b == a && f + g == f;
    } else {
      var n := |b| - 1;
      PickBoth(a, f, b[..n], g[..n]);
      assert (a + b)[..|a| + n] == a + b[..n] && (f + g)[..|a| + n] == f + g[..n];
    }
  }

  function ReadableFlags(masks: seq<Mask>): (r: seq<bool>)
    ensures |r| == |masks| && forall i :: 0 <= i < |r| ==> r[i] == masks[i].readable
  {
    seq(|masks|, i requires 0 <= i < |masks| => masks[i].readable)
  }

  function WritableFlags(masks: seq<Mask>): (r: seq<bool>)
    ensures |r| == |masks| && forall i :: 0 <= i < |r| ==> r[i] == masks[i].writable
  {
    seq(|masks|, i requires 0 <= i < |masks| => masks[i].writable)
  }

  function Pollables(items: seq<Item>): (r: seq<nat>)
    ensures |r| == |items| && forall i :: 0 <= i < |r| ==> r[i] == items[i].pollable
  {
    seq(|items|, i requires 0 <= i < |items| => items[i].pollable)
  }

  /** The two lists are the registered entities with POLLIN, and with POLLOUT, in the masks returned: exactly those,
      in the order of registration. */
  predicate Reports(p: Poller, masks: seq<Mask>)
    requires |masks| == |p.items|
  {
    && p.readables == Pick(Pollables(p.items), ReadableFlags(masks))
    && p.writables == Pick(Pollables(p.items), WritableFlags(masks))
  }

  lemma {:induction false} ReadablesArePicked(items: seq<Item>, pollset: seq<Entry>, masks: seq<Mask>, n: nat)
    requires |masks| == |pollset| == |items| && n <= |items|
    requires forall i :: 0 <= i < |items| ==> pollset[i].revents == masks[i]
    ensures Readables(items, pollset, n) == Pick(Pollables(items)[..n], ReadableFlags(masks)[..n])
  {
    if n > 0 {
      ReadablesArePicked(items, pollset, masks, n - 1);
      assert ReadableFlags(masks)[..n][..n - 1] == ReadableFlags(masks)[..n - 1];
      assert Pollables(items)[..n][..n - 1] == Pollables(items)[..n - 1];
    }
  }

  lemma {:induction false} WritablesArePicked(items: seq<Item>, pollset: seq<Entry>, masks: seq<Mask>, n: nat)
    requires |masks| == |pollset| == |items| && n <= |items|
    requires forall i :: 0 <= i < |items| ==> pollset[i].revents == masks[i]
    ensures Writables(items, pollset, n) == Pick(Pollables(items)[..n], WritableFlags(masks)[..n])
  {
    if n > 0 {
      WritablesArePicked(items, pollset, masks, n - 1);
      assert WritableFlags(masks)[..n][..n - 1] == WritableFlags(masks)[..n - 1];
      assert Pollables(items)[..n][..n - 1] == Pollables(items)[..n - 1];
    }
  }

  lemma {:induction false} NoEventsNoMask(masks: seq<Mask>)
    requires Events(masks) == 0
    ensures forall i :: 0 <= i < |masks| ==> !masks[i].Any()
  {
    if masks != [] {
      var n := |masks| - 1;
      NoEventsNoMask(masks[..n]);
      forall i | 0 <= i < |masks| ensures !masks[i].Any() { if i < n { assert masks[i] == masks[..n][i]; } }
    }
  }

  /** With no events both lists come out empty, which is how the call leaves them without rebuilding. */
  lemma NoEventsNothingPicked(names: seq<nat>, masks: seq<Mask>)
    requires |names| == |masks| && Events(masks) == 0
    ensures Pick(names, ReadableFlags(masks)) == [] && Pick(names, WritableFlags(masks)) == []
  {
    NoEventsNoMask(masks);
    PickNone(names, ReadableFlags(masks));
    PickNone(names, WritableFlags(masks));
  }

  lemma ListsArePicked(items: seq<Item>, pollset: seq<Entry>, masks: seq<Mask>)
    requires |masks| == |pollset| == |items|
    ensures var answered := Answered(pollset, masks);
            && Readables(items, answered, |items|) == Pick(Pollables(items), ReadableFlags(masks))
            && Writables(items, answered, |items|) == Pick(Pollables(items), WritableFlags(masks))
  {
    var n := |items|;
    ReadablesArePicked(items, Answered(pollset, masks), masks, n);
    WritablesArePicked(items, Answered(pollset, masks), masks, n);
    assert ReadableFlags(masks)[..n] == ReadableFlags(masks) && WritableFlags(masks)[..n] == WritableFlags(masks);
    assert Pollables(items)[..n] == Pollables(items);
  }

  /** A poll that succeeds reports exactly what is ready, unless the poller is empty: then it leaves the lists of the
      poll before, and reports right only if they were empty. */
  lemma PollReportsIff(p: Poller, masks: seq<Mask>)
    requires Agrees(p) && |masks| == p.size
    ensures var r := Poll(p, Polled(masks));
            && r.answer == Count(Events(masks)) && r.poller.items == p.items && Agrees(r.poller)
            && (Reports(r.poller, masks) <==> p.items != [] || (p.readables == [] && p.writables == []))
  {
    StepAgreesIff(p, OpPoll(Polled(masks)));
    if p.items != [] {
      assert p.items[..p.size] == p.items;
      ListsArePicked(p.items, Rebuild(p).pollset.value, masks);
      if Events(masks) == 0 { NoEventsNothingPicked(Pollables(p.items), masks); }
    }
  }

  /** A poll that does not succeed reports nothing ready. */
  lemma PollFailsEmpty(p: Poller, native: Native)
    requires Agrees(p) && p.items != [] && !native.Polled?
    ensures var r := Poll(p, native);
            && r.poller.readables == [] && r.poller.writables == [] && Agrees(r.poller)
            && (r.answer == Count(-1) <==> native.Interrupted?) && (r.answer == Raised(PollFailed) <==> native.Failed?)
  {
    assert p.items[..p.size] == p.items;
  }

  // ---------------------------------------------------------------------------------------------------------
  // ZMQ.select
  // ---------------------------------------------------------------------------------------------------------

  predicate AllAcceptable(things: seq<Thing>) {
    forall i :: 0 <= i < |things| ==> Acceptable(things[i])
  }

  function ItemsOf(things: seq<Thing>, events: Mask, id: nat): (r: seq<Item>)
    requires AllAcceptable(things)
    ensures |r| == |things|
    ensures forall i :: 0 <= i < |r| ==> r[i] == Item(id + i, things[i].id, TargetOf(things[i]), events)
  {
    seq(|things|, i requires 0 <= i < |things| => Item(id + i, things[i].id, TargetOf(things[i]), events))
  }

  lemma ItemsOfMore(things: seq<Thing>, events: Mask, id: nat)
    requires things != [] && AllAcceptable(things)
    ensures AllAcceptable(things[1..])
    ensures ItemsOf(things, events, id)
         == [Item(id, things[0].id, TargetOf(things[0]), events)] + ItemsOf(things[1..], events, id + 1)
  {
  }

  /** The poller after registering each of these items. */
  function Extended(p: Poller, items: seq<Item>): Poller {
    if items == [] then p else Dirtied(p.(made := p.made + items), p.items + items, p.size + |items|)
  }

  lemma ExtendedTwice(p: Poller, item: Item, rest: seq<Item>)
    ensures Extended(Extended(p, [item]), rest) == Extended(p, [item] + rest)
  {
    assert p.items + ([item] + rest) == (p.items + [item]) + rest;
    assert p.made + ([item] + rest) == (p.made + [item]) + rest;
    assert rest == [] ==> [item] + rest == [item];
  }

  lemma {:induction false} RegisterAllAppends(p: Poller, things: seq<Thing>, events: Mask)
    requires AllAcceptable(things) && (events.readable || events.writable)
    ensures RegisterAll(p, things, events) == Reply(Extended(p, ItemsOf(things, events, |p.made|)), False)
    decreases |things|
  {
    if things != [] {
      var item := Item(|p.made|, things[0].id, TargetOf(things[0]), events);
      ItemsOfMore(things, events, |p.made|);
      assert Register(New(p, things[0], Some(events)).poller, AnItem(item)).poller == Extended(p, [item]);
      RegisterAllAppends(Extended(p, [item]), things[1..], events);
      ExtendedTwice(p, item, ItemsOf(things[1..], events, |p.made| + 1));
    }
  }

  lemma {:induction false} RegisterAllRefuses(p: Poller, things: seq<Thing>, events: Mask)
    requires !AllAcceptable(things) && (events.readable || events.writable)
    ensures RegisterAll(p, things, events).answer.Raised?
    decreases |things|
  {
    if Acceptable(things[0]) {
      assert !AllAcceptable(things[1..]) by {
        var i :| 0 <= i < |things| && !Acceptable(things[i]);
        assert things[1..][i - 1] == things[i];
      }
      var item := Item(|p.made|, things[0].id, TargetOf(things[0]), events);
      RegisterAllRefuses(Register(New(p, things[0], Some(events)).poller, AnItem(item)).poller, things[1..], events);
    }
  }

  /** Which of the things are in the given set of targets. */
  function Among(things: seq<Thing>, targets: set<Target>): (r: seq<bool>)
    requires AllAcceptable(things)
    ensures |r| == |things| && forall i :: 0 <= i < |r| ==> r[i] == (TargetOf(things[i]) in targets)
  {
    seq(|things|, i requires 0 <= i < |things| => TargetOf(things[i]) in targets)
  }

  function Names(things: seq<Thing>): (r: seq<nat>)
    ensures |r| == |things| && forall i :: 0 <= i < |r| ==> r[i] == things[i].id
  {
    seq(|things|, i requires 0 <= i < |things| => things[i].id)
  }

  lemma ReadersAndWriters(r: seq<Thing>, w: seq<Thing>, now: Now)
    requires AllAcceptable(r) && AllAcceptable(w)
    ensures var items := ItemsOf(r, POLLIN, 0) + ItemsOf(w, POLLOUT, |r|);
            var masks := Snapshot(items, now);
            && Pick(Pollables(items), ReadableFlags(masks)) == Pick(Names(r), Among(r, now.readable))
            && Pick(Pollables(items), WritableFlags(masks)) == Pick(Names(w), Among(w, now.writable))
  {
    var items := ItemsOf(r, POLLIN, 0) + ItemsOf(w, POLLOUT, |r|);
    var masks := Snapshot(items, now);
    var noReaders, noWriters := seq(|w|, _ => false), seq(|r|, _ => false);
    assert Pollables(items) == Names(r) + Names(w);
    assert ReadableFlags(masks) == Among(r, now.readable) + noReaders;
    assert WritableFlags(masks) == noWriters + Among(w, now.writable);
    PickBoth(Names(r), Among(r, now.readable), Names(w), noReaders);
    PickBoth(Names(r), noWriters, Names(w), Among(w, now.writable));
    PickNone(Names(w), noReaders);
    PickNone(Names(r), noWriters);
  }

  /** ZMQ.select goes through exactly when everything given can be polled. */
  lemma SelectAcceptsIff(read: Option<seq<Thing>>, write: Option<seq<Thing>>, now: Now)
    ensures Select(read, write, now).Ready? <==> AllAcceptable(Listed(read)) && AllAcceptable(Listed(write))
  {
    var r, w := Listed(read), Listed(write);
    if AllAcceptable(r) && AllAcceptable(w) {
      SelectIsExact(read, write, now);
    } else if AllAcceptable(r) {
      RegisterAllAppends(NEW_POLLER, r, POLLIN);
      RegisterAllRefuses(RegisterAll(NEW_POLLER, r, POLLIN).poller, w, POLLOUT);
    } else {
      RegisterAllRefuses(NEW_POLLER, r, POLLIN);
    }
  }

  lemma RegisteredBoth(r: seq<Thing>, w: seq<Thing>) returns (both: Poller)
    requires AllAcceptable(r) && AllAcceptable(w)
    ensures both == RegisterAll(RegisterAll(NEW_POLLER, r, POLLIN).poller, w, POLLOUT).poller
    ensures Agrees(both) && both.items == ItemsOf(r, POLLIN, 0) + ItemsOf(w, POLLOUT, |r|)
    ensures both.readables == [] && both.writables == []
    ensures !RegisterAll(NEW_POLLER, r, POLLIN).answer.Raised?
    ensures !RegisterAll(RegisterAll(NEW_POLLER, r, POLLIN).poller, w, POLLOUT).answer.Raised?
  {
    RegisterAllAppends(NEW_POLLER, r, POLLIN);
    var p := RegisterAll(NEW_POLLER, r, POLLIN).poller;
    RegisterAllAppends(p, w, POLLOUT);
    both := RegisterAll(p, w, POLLOUT).poller;
    assert p.items == ItemsOf(r, POLLIN, 0);
  }

  /** And then it returns the members of `read` that are readable and the members of `write` that are writable:
      exactly those, each in the order given, and with nothing of one list in the other, even where both hold the same
      socket. */
  lemma SelectIsExact(read: Option<seq<Thing>>, write: Option<seq<Thing>>, now: Now)
    requires AllAcceptable(Listed(read)) && AllAcceptable(Listed(write))
    ensures var (r, w) := (Listed(read), Listed(write));
            Select(read, write, now)
            == Ready(Pick(Names(r), Among(r, now.readable)), Pick(Names(w), Among(w, now.writable)))
  {
    var r, w := Listed(read), Listed(write);
    var both := RegisteredBoth(r, w);
    PollReportsIff(both, Snapshot(both.items, now));
    ReadersAndWriters(r, w, now);
  }
}
