/**
 The finalisers of contexts and sockets. Whatever set of objects the collector takes, it may take them in any order, and
 every order ends in the same state.
 */
module LifecycleFinalisers {
  import opened Lists
  import opened Wrappers
  import opened Lifecycle
  import opened LifecycleRuns

  datatype Garbage = SocketObject(s: nat) | ContextObject(c: nat)

  predicate Uncollected(w: Net, x: Garbage) {
    match x case SocketObject(s) => s in w.socks case ContextObject(c) => c in w.contexts
  }

  function Collect(w: Net, x: Garbage): Outcome
    requires Uncollected(w, x)
  {
    match x case SocketObject(s) => CollectSocket(w, s) case ContextObject(c) => CollectContext(w, c)
  }

  /** The finalisers run one after the other. */
  function CollectAll(w: Net, order: seq<Garbage>): Option<Net>
    decreases |order|
  {
    if order == [] then Some(w)
    else if !Uncollected(w, order[0]) then None
    else match Collect(w, order[0]) case Crash => None case Done(w', _) => CollectAll(w', order[1..])
  }

  // ---------------------------------------------------------------------------------------------------------
  // What is left when a set of objects is gone
  // ---------------------------------------------------------------------------------------------------------

  function Spared(list: seq<nat>, xs: set<Garbage>): seq<nat> {
    if list == [] then []
    else if SocketObject(list[0]) in xs then Spared(list[1..], xs)
    else [list[0]] + Spared(list[1..], xs)
  }

  /** The native socket goes, with its own wrapper or with its context. */
  predicate Dies(w: Net, xs: set<Garbage>, s: nat) {
    && w.Open(s) && w.socks[s].context.Some?
    && (SocketObject(s) in xs || ContextObject(w.socks[s].context.value) in xs)
  }

  /** The native context goes. */
  predicate Ends(w: Net, xs: set<Garbage>, c: nat) {
    w.OpenContext(c) && w.contexts[c].pid == w.pid && ContextObject(c) in xs
  }

  function Dying(w: Net, xs: set<Garbage>): set<nat> {
    set s | s in w.socks && Dies(w, xs, s)
  }

  function Ending(w: Net, xs: set<Garbage>): set<nat> {
    set c | c in w.contexts && Ends(w, xs, c)
  }

  function SweptContext(ctx: Ctx, xs: set<Garbage>): Ctx {
    ctx.(sockets := match ctx.sockets case None => None case Some(list) => Some(Spared(list, xs)))
  }

  /** What is left is determined: which wrappers, what each holds, and how often everything native was destroyed. */
  ghost predicate IsSwept(w: Net, xs: set<Garbage>, v: Net) {
    && v.contexts.Keys == (set c | c in w.contexts && ContextObject(c) !in xs)
    && (forall c: nat :: c in v.contexts ==> v.contexts[c] == SweptContext(w.contexts[c], xs))
    && v.socks.Keys == (set s | s in w.socks && SocketObject(s) !in xs)
    && (forall s: nat :: s in v.socks ==> v.socks[s] == if Dies(w, xs, s) then Shut(w.socks[s]) else w.socks[s])
    && v.entry.Keys == (set p | p in w.entry && ContextObject(w.entry[p]) !in xs)
    && (forall p: nat :: p in v.entry ==> v.entry[p] == w.entry[p])
    && v.closed == w.closed + multiset(Dying(w, xs)) && v.terminated == w.terminated + multiset(Ending(w, xs))
    && v.born == w.born && v.pid == w.pid && v.strays == w.strays && v.contextCount == w.contextCount
  }

  lemma SweptIsUnique(w: Net, xs: set<Garbage>, v: Net, v': Net)
    requires IsSwept(w, xs, v) && IsSwept(w, xs, v')
    ensures v == v'
  {
    assert v.contexts == v'.contexts && v.socks == v'.socks && v.entry == v'.entry;
  }

  // ---------------------------------------------------------------------------------------------------------
  // One finaliser
  // ---------------------------------------------------------------------------------------------------------

  lemma {:induction false} SparedOne(list: seq<nat>, s: nat)
    requires NoDup(list)
    ensures Spared(list, {SocketObject(s)}) == RemoveFirst(list, s)
  {
    if list != [] {
      if list[0] == s {
        SparedAll(list[1..], {SocketObject(s)});
      } else {
        SparedOne(list[1..], s);
      }
    }
  }

  lemma {:induction false} SparedAll(list: seq<nat>, xs: set<Garbage>)
    requires forall s :: s in list ==> SocketObject(s) !in xs
    ensures Spared(list, xs) == list
  {
    if list != [] {
      SparedAll(list[1..], xs);
      assert list == [list[0]] + list[1..];
    }
  }

  lemma CollectSocketIsSweep(w: Net, s: nat)
    requires Inv(w) && s in w.socks
    ensures CollectSocket(w, s).Done? && IsSwept(w, {SocketObject(s)}, CollectSocket(w, s).net)
  {
    var xs := {SocketObject(s)};
    ContextsAfterSocket(w, s);
    DestroySocketCloses(w, s);
    assert SockOk(w, s);
    assert Dying(w, xs) == if w.Open(s) && w.born[s].Some? then {s} else {};
    assert Ending(w, xs) == {};
  }

  lemma ContextsAfterSocket(w: Net, s: nat)
    requires Inv(w) && s in w.socks
    ensures CollectSocket(w, s).Done? && CollectSocket(w, s).net.contexts.Keys == w.contexts.Keys
    ensures forall c: nat :: c in w.contexts ==>
              CollectSocket(w, s).net.contexts[c] == SweptContext(w.contexts[c], {SocketObject(s)})
  {
    DestroySocketCloses(w, s);
    var xs, w' := {SocketObject(s)}, CollectSocket(w, s).net;
    forall c: nat | c in w.contexts ensures w'.contexts[c] == SweptContext(w.contexts[c], xs) {
      assert CtxOk(w, c);
      if w.OpenContext(c) {
        SparedOne(w.contexts[c].sockets.value, s);
        if !(w.Open(s) && w.socks[s].context == Some(c)) { RemoveFirstAbsent(w.contexts[c].sockets.value, s); }
      }
    }
  }

  lemma CollectContextIsSweep(w: Net, c: nat)
    requires Inv(w) && c in w.contexts
    ensures CollectContext(w, c).Done? && IsSwept(w, {ContextObject(c)}, CollectContext(w, c).net)
  {
    ContextsAfterContext(w, c);
    TerminatedAfterContext(w, c);
    ClosedAfterContext(w, c);
    SocksAfterContext(w, c);
  }

  /** The lists of the other contexts hold none of this context's sockets, and its entry is its own. */
  lemma ContextsAfterContext(w: Net, c: nat)
    requires Inv(w) && c in w.contexts
    ensures CollectContext(w, c).Done?
    ensures var (w', xs) := (CollectContext(w, c).net, {ContextObject(c)});
            && w'.contexts.Keys == w.contexts.Keys - {c}
            && (forall x: nat :: x in w'.contexts ==> w'.contexts[x] == SweptContext(w.contexts[x], xs))
            && w'.entry.Keys == (set p | p in w.entry && w.entry[p] != c)
            && (forall p: nat :: p in w'.entry ==> w'.entry[p] == w.entry[p])
  {
    assert CtxOk(w, c);
    if w.OpenContext(c) { FreeContextKeepsInv(w, c); }
    forall p: nat | p in w.entry ensures w.entry[p] == c <==> w.OpenContext(c) && p == w.contexts[c].pid {
      assert EntryOk(w, p);
    }
    forall x: nat | x in w.contexts ensures SweptContext(w.contexts[x], {ContextObject(c)}) == w.contexts[x] {
      if w.contexts[x].sockets.Some? { SparedAll(w.contexts[x].sockets.value, {ContextObject(c)}); }
    }
  }

  lemma SocksAfterContext(w: Net, c: nat)
    requires Inv(w) && c in w.contexts
    ensures CollectContext(w, c).Done?
    ensures var (w', xs) := (CollectContext(w, c).net, {ContextObject(c)});
            && w'.socks.Keys == w.socks.Keys
            && (forall s: nat :: s in w.socks ==>
                  w'.socks[s] == if Dies(w, xs, s) then Shut(w.socks[s]) else w.socks[s])
            && w'.born == w.born && w'.pid == w.pid && w'.strays == w.strays && w'.contextCount == w.contextCount
  {
    assert CtxOk(w, c);
    if w.OpenContext(c) { FreeContextKeepsInv(w, c); }
    forall s: nat | s in w.socks ensures Dies(w, {ContextObject(c)}, s) ==> w.OpenContext(c) { assert SockOk(w, s); }
  }

  lemma EndsItself(w: Net, c: nat)
    requires c in w.contexts
    ensures Ending(w, {ContextObject(c)}) == if w.OpenContext(c) && w.contexts[c].pid == w.pid then {c} else {}
  {
  }

  lemma TerminatedAfterContext(w: Net, c: nat)
    requires Inv(w) && c in w.contexts
    ensures CollectContext(w, c).Done?
    ensures CollectContext(w, c).net.terminated == w.terminated + multiset(Ending(w, {ContextObject(c)}))
  {
    assert CtxOk(w, c);
    if w.OpenContext(c) { FreeContextKeepsInv(w, c); }
    EndsItself(w, c);
  }

  lemma ClosedAfterContext(w: Net, c: nat)
    requires Inv(w) && c in w.contexts
    ensures CollectContext(w, c).Done?
    ensures CollectContext(w, c).net.closed == w.closed + multiset(Dying(w, {ContextObject(c)}))
  {
    SocksAfterContext(w, c);
    CollectContextKeepsInv(w, c);
    var w', dying: multiset<nat> := CollectContext(w, c).net, multiset(Dying(w, {ContextObject(c)}));
    forall s: nat ensures w'.closed[s] == w.closed[s] + dying[s] {
      assert ClosedOk(w, s) && ClosedOk(w', s);
      if s in w.socks { assert SockOk(w, s); }
    }
    assert w'.closed == w.closed + dying;
  }

  // ---------------------------------------------------------------------------------------------------------
  // Any order
  // ---------------------------------------------------------------------------------------------------------

  lemma {:induction false} SparedTwice(list: seq<nat>, xs: set<Garbage>, ys: set<Garbage>)
    ensures Spared(Spared(list, xs), ys) == Spared(list, xs + ys)
  {
    if list != [] { SparedTwice(list[1..], xs, ys); }
  }

  lemma DeadTwice(w: Net, x: Garbage, rest: set<Garbage>, w': Net)
    requires Inv(w) && x !in rest && IsSwept(w, {x}, w')
    ensures multiset(Dying(w, {x})) + multiset(Dying(w', rest)) == multiset(Dying(w, {x} + rest))
    ensures multiset(Ending(w, {x})) + multiset(Ending(w', rest)) == multiset(Ending(w, {x} + rest))
  {
    forall s: nat | s in w.socks
      ensures s in Dying(w, {x} + rest) <==> s in Dying(w, {x}) || s in Dying(w', rest)
      ensures !(s in Dying(w, {x}) && s in Dying(w', rest))
    {
      assert SockOk(w, s);
    }
    assert Dying(w, {x} + rest) == Dying(w, {x}) + Dying(w', rest);
    assert Dying(w, {x}) !! Dying(w', rest);
    assert Ending(w, {x} + rest) == Ending(w, {x}) + Ending(w', rest);
    assert Ending(w, {x}) !! Ending(w', rest);
  }

  lemma ContextsTwice(w: Net, x: Garbage, rest: set<Garbage>, w': Net, v: Net)
    requires IsSwept(w, {x}, w') && IsSwept(w', rest, v)
    ensures v.contexts.Keys == (set c | c in w.contexts && ContextObject(c) !in {x} + rest)
    ensures forall c: nat :: c in v.contexts ==> v.contexts[c] == SweptContext(w.contexts[c], {x} + rest)
  {
    forall c: nat | c in w.contexts && w.contexts[c].sockets.Some?
      ensures Spared(Spared(w.contexts[c].sockets.value, {x}), rest)
           == Spared(w.contexts[c].sockets.value, {x} + rest)
    {
      SparedTwice(w.contexts[c].sockets.value, {x}, rest);
    }
  }

  lemma SocksTwice(w: Net, x: Garbage, rest: set<Garbage>, w': Net, v: Net)
    requires IsSwept(w, {x}, w') && IsSwept(w', rest, v)
    ensures v.socks.Keys == (set s | s in w.socks && SocketObject(s) !in {x} + rest)
    ensures forall s: nat :: s in v.socks ==>
              v.socks[s] == if Dies(w, {x} + rest, s) then Shut(w.socks[s]) else w.socks[s]
  {
  }

  lemma SweepTwice(w: Net, x: Garbage, rest: set<Garbage>, w': Net, v: Net)
    requires Inv(w) && x !in rest && IsSwept(w, {x}, w') && IsSwept(w', rest, v)
    ensures IsSwept(w, {x} + rest, v)
  {
    DeadTwice(w, x, rest, w');
    ContextsTwice(w, x, rest, w', v);
    SocksTwice(w, x, rest, w', v);
    MultisetsTwice(w.closed, multiset(Dying(w, {x})), multiset(Dying(w', rest)));
    MultisetsTwice(w.terminated, multiset(Ending(w, {x})), multiset(Ending(w', rest)));
  }

  lemma MultisetsTwice(a: multiset<nat>, b: multiset<nat>, c: multiset<nat>)
    ensures (a + b) + c == a + (b + c)
  {
  }

  lemma CollectIsSweep(w: Net, x: Garbage)
    requires Inv(w) && Uncollected(w, x)
    ensures Collect(w, x).Done? && IsSwept(w, {x}, Collect(w, x).net) && Inv(Collect(w, x).net)
  {
    match x
    case SocketObject(s) =>
      CollectSocketIsSweep(w, s);
      CollectSocketKeepsInv(w, s);
    case ContextObject(c) =>
      CollectContextIsSweep(w, c);
      CollectContextKeepsInv(w, c);
  }

  lemma SweepNothing(w: Net)
    ensures IsSwept(w, {}, w)
  {
    forall c: nat | c in w.contexts ensures SweptContext(w.contexts[c], {}) == w.contexts[c] {
      if w.contexts[c].sockets.Some? { SparedAll(w.contexts[c].sockets.value, {}); }
    }
    assert Dying(w, {}) == {} && Ending(w, {}) == {};
  }

  function Elements(order: seq<Garbage>): set<Garbage> {
    set x | x in order
  }

  predicate AllUncollected(w: Net, order: seq<Garbage>) {
    forall i :: 0 <= i < |order| ==> Uncollected(w, order[i])
  }

  lemma OthersStay(w: Net, order: seq<Garbage>, w': Net)
    requires order != [] && NoDup(order) && AllUncollected(w, order) && IsSwept(w, {order[0]}, w')
    ensures AllUncollected(w', order[1..])
    ensures order[0] !in Elements(order[1..]) && Elements(order) == {order[0]} + Elements(order[1..])
  {
    forall i | 0 <= i < |order[1..]| ensures Uncollected(w', order[1..][i]) {
      assert order[1..][i] == order[i + 1] && Uncollected(w, order[i + 1]);
    }
    assert order == [order[0]] + order[1..];
  }

  /** Any order of any set of uncollected sockets and contexts goes through; what is left depends on the set only. */
  lemma {:induction false} CollectInAnyOrder(w: Net, order: seq<Garbage>)
    requires Inv(w) && NoDup(order) && AllUncollected(w, order)
    ensures CollectAll(w, order).Some?
    ensures Inv(CollectAll(w, order).value) && IsSwept(w, Elements(order), CollectAll(w, order).value)
    decreases |order|
  {
    if order == [] {
      SweepNothing(w);
      assert Elements(order) == {};
    } else {
      CollectIsSweep(w, order[0]);
      var w' := Collect(w, order[0]).net;
      OthersStay(w, order, w');
      CollectInAnyOrder(w', order[1..]);
      SweepTwice(w, order[0], Elements(order[1..]), w', CollectAll(w, order).value);
    }
  }

  /** So two orders of the same objects end in the same state. */
  lemma OrdersAgree(w: Net, order: seq<Garbage>, order': seq<Garbage>)
    requires Inv(w) && NoDup(order) && NoDup(order') && AllUncollected(w, order)
    requires Elements(order) == Elements(order')
    ensures CollectAll(w, order).Some? && CollectAll(w, order') == CollectAll(w, order)
  {
    forall i | 0 <= i < |order'| ensures Uncollected(w, order'[i]) {
      assert order'[i] in Elements(order);
      var j :| 0 <= j < |order| && order[j] == order'[i];
    }
    CollectInAnyOrder(w, order);
    CollectInAnyOrder(w, order');
    SweptIsUnique(w, Elements(order), CollectAll(w, order).value, CollectAll(w, order').value);
  }
}
