/**
 Whole runs: single ownership, one release for every zframe, no leak, exact `gone?`, and finalisers in any order.
 */
module OwnershipRuns {
  import opened Lists
  import opened Wrappers
  import opened Ownership
  import opened OwnershipSteps
  import opened OwnershipMoves
  import opened OwnershipDiscipline
  import opened OwnershipEffects

  /** Every call is possible and disciplined at the moment it is made. */
  ghost predicate GoodRun(w: World, ops: seq<Op>)
    decreases |ops|
  {
    ops != [] ==> Enabled(w, ops[0]) && Disciplined(w, ops[0]) && GoodRun(Do(w, ops[0]).world, ops[1..])
  }

  ghost function Run(w: World, ops: seq<Op>): World
    requires GoodRun(w, ops)
    decreases |ops|
  {
    if ops == [] then w else Run(Do(w, ops[0]).world, ops[1..])
  }

  lemma {:induction false} RunKeepsInv(w: World, ops: seq<Op>)
    requires Inv(w) && GoodRun(w, ops)
    ensures Inv(Run(w, ops))
    decreases |ops|
  {
    if ops != [] {
      DisciplineSuffices(w, ops[0]);
      RunKeepsInv(Do(w, ops[0]).world, ops[1..]);
    }
  }

  /** Every call is possible, reads no bad pointer and leaves the invariant standing. */
  ghost predicate SafeRun(w: World, ops: seq<Op>)
    decreases |ops|
  {
    ops != [] ==> Enabled(w, ops[0]) && Keeps(w, ops[0]) && SafeRun(Do(w, ops[0]).world, ops[1..])
  }

  /** The runs that stay safe are exactly the disciplined ones. */
  lemma {:induction false} SafeIffGood(w: World, ops: seq<Op>)
    requires Inv(w)
    ensures SafeRun(w, ops) <==> GoodRun(w, ops)
    decreases |ops|
  {
    if ops != [] && Enabled(w, ops[0]) {
      KeepsIffDisciplined(w, ops[0]);
      if Keeps(w, ops[0]) {
        SafeIffGood(Do(w, ops[0]).world, ops[1..]);
      }
    }
  }

  lemma EmptyIsGood()
    ensures Inv(EMPTY_WORLD)
  {
    var own: Ledger := map[];
    forall z: nat ensures ZframeOk(EMPTY_WORLD, own, z) {}
    assert Agrees(EMPTY_WORLD, own);
  }

  // ---------------------------------------------------------------------------------------------------------
  // Single ownership, and one release each
  // ---------------------------------------------------------------------------------------------------------

  /** A place that owns a zframe: a frame wrapper, or one position in one message. */
  datatype Place = WrapperOf(f: nat) | PositionIn(m: nat, i: nat)

  ghost predicate Owns(w: World, p: Place, z: nat) {
    match p
    case WrapperOf(f) => w.FrameOwns(f, z)
    case PositionIn(m, i) => w.OwnedMessage(m) && i < |w.Native(m)| && w.Native(m)[i] == z
  }

  /** After any disciplined run, a live zframe has exactly one owner and a released one has none. */
  lemma SingleOwner(ops: seq<Op>, z: nat)
    requires GoodRun(EMPTY_WORLD, ops)
    ensures var w := Run(EMPTY_WORLD, ops);
            && (w.Live(z) ==> exists p :: Owns(w, p, z) && forall q :: Owns(w, q, z) ==> q == p)
            && (!w.Live(z) ==> forall q :: !Owns(w, q, z))
  {
    EmptyIsGood();
    RunKeepsInv(EMPTY_WORLD, ops);
    var w := Run(EMPTY_WORLD, ops);
    forall p, q | Owns(w, p, z) && Owns(w, q, z) ensures p == q && w.Live(z) { OnePlace(w, p, q, z); }
    if w.Live(z) {
      HasOwner(w, z);
      if f :| w.FrameOwns(f, z) {
        assert Owns(w, WrapperOf(f), z);
      } else {
        var m :| w.MessageOwns(m, z);
        var i :| 0 <= i < |w.Native(m)| && w.Native(m)[i] == z;
        assert Owns(w, PositionIn(m, i), z);
      }
    }
  }

  lemma OnePlace(w: World, p: Place, q: Place, z: nat)
    requires Inv(w) && Owns(w, p, z) && Owns(w, q, z)
    ensures p == q && w.Live(z)
  {
    match (p, q)
    case (WrapperOf(f), WrapperOf(g)) =>
      OneFrame(w, f, g, z);
      OwningFrame(w, f);
    case (PositionIn(m, _), PositionIn(n, _)) =>
      OneMessage(w, m, n, z);
      OwningMessage(w, m);
    case (WrapperOf(f), PositionIn(m, _)) => FrameOrMessage(w, f, m, z);
    case (PositionIn(m, _), WrapperOf(f)) => FrameOrMessage(w, f, m, z);
  }

  /** Along any run nothing is released a second time, and a release is never taken back. */
  lemma {:induction false} ReleasedOnce(w: World, ops: seq<Op>)
    requires Inv(w) && GoodRun(w, ops)
    ensures forall z :: Run(w, ops).freed[z] + Run(w, ops).sent[z] <= 1
    ensures Grows(w, Run(w, ops))
    decreases |ops|
  {
    if ops != [] {
      DisciplineSuffices(w, ops[0]);
      CallEffect(w, ops[0]);
      ReleasedOnce(Do(w, ops[0]).world, ops[1..]);
    } else {
      AtMostOnce(w);
    }
  }

  lemma AtMostOnce(w: World)
    requires Inv(w)
    ensures forall z :: w.freed[z] + w.sent[z] <= 1
    ensures forall z :: w.freed[z] + w.sent[z] == 1 ==> z in w.data
  {
    var own: Ledger :| Agrees(w, own);
    forall z: nat ensures w.freed[z] + w.sent[z] <= 1 && (w.freed[z] + w.sent[z] == 1 ==> z in w.data) {
      assert ZframeOk(w, own, z);
    }
  }

  /** Once every wrapper has been collected, every zframe ever created was freed once or handed over once. */
  lemma NothingLeaks(ops: seq<Op>, z: nat)
    requires GoodRun(EMPTY_WORLD, ops)
    requires Run(EMPTY_WORLD, ops).frames == map[] && Run(EMPTY_WORLD, ops).messages == map[]
    ensures var w := Run(EMPTY_WORLD, ops); z < w.zframeCount <==> w.freed[z] + w.sent[z] == 1
  {
    EmptyIsGood();
    RunKeepsInv(EMPTY_WORLD, ops);
    var w := Run(EMPTY_WORLD, ops);
    var own: Ledger :| Agrees(w, own);
    assert ZframeOk(w, own, z);
  }

  // ---------------------------------------------------------------------------------------------------------
  // gone?
  // ---------------------------------------------------------------------------------------------------------

  /** `gone?` says no exactly when the zframe behind a frame is neither freed nor sent. */
  lemma GoneIsExact(ops: seq<Op>, f: nat)
    requires GoodRun(EMPTY_WORLD, ops)
    requires HasFrame(Run(EMPTY_WORLD, ops), f) && Usable(Run(EMPTY_WORLD, ops), f)
    ensures var w := Run(EMPTY_WORLD, ops);
            FrameGone(w, f).outcome ==
            Return(Bool(!(w.frames[f].frame.Some? && w.Live(w.frames[f].frame.value))))
  {
    EmptyIsGood();
    RunKeepsInv(EMPTY_WORLD, ops);
    AccessibleIsLive(Run(EMPTY_WORLD, ops), f);
  }

  /** One write to the message's flag makes every frame of the message gone at once, and no other frame. */
  lemma MessageTakesItsFrames(w: World, op: Op, f: nat)
    requires Inv(w) && Enabled(w, op) && Disciplined(w, op)
    requires op.OpDestroyMessage? || (op.OpSendMessage? && op.open)
    requires w.messages[op.m].owned && HasFrame(w, f) && Usable(w, f)
    ensures FrameGone(Do(w, op).world, f).outcome ==
            (if f in w.Listed(op.m) then Return(Bool(true)) else FrameGone(w, f).outcome)
  {
    OwningMessage(w, op.m);
    HeldMessage(w, op.m);
    if f in w.Listed(op.m) {
      var i :| 0 <= i < |w.Listed(op.m)| && w.Listed(op.m)[i] == f;
      assert Mirrors(w, op.m, i);
    } else if !w.frames[f].owned && w.frames[f].message == Some(op.m) {
      AttachedIsListed(w, f, op.m);
    }
  }

  // ---------------------------------------------------------------------------------------------------------
  // Garbage collection
  // ---------------------------------------------------------------------------------------------------------

  datatype Garbage = FrameObject(f: nat) | MessageObject(m: nat)

  ghost predicate Collectable(w: World, x: Garbage) {
    match x
    case FrameObject(f) => f in w.frames && !w.Reachable(f)
    case MessageObject(m) => m in w.messages && m !in w.heldMessages
  }

  function Finalize(w: World, x: Garbage): World
    requires match x case FrameObject(f) => f in w.frames case MessageObject(m) => m in w.messages
  {
    match x
    case FrameObject(f) => FinalizeFrame(w, f)
    case MessageObject(m) => FinalizeMessage(w, m)
  }

  /** What a finaliser finds itself responsible for. */
  ghost predicate Answers(w: World, x: Garbage, z: nat) {
    match x case FrameObject(f) => w.FrameOwns(f, z) case MessageObject(m) => w.MessageOwns(m, z)
  }

  ghost function Doomed(w: World, xs: set<Garbage>): set<nat> {
    set z, x | z in w.data && x in xs && Answers(w, x, z) :: z
  }

  /** The world after a set of objects is gone, whatever the order. */
  ghost function Swept(w: World, xs: set<Garbage>): World {
    w.(frames := w.frames - (set x | x in xs && x.FrameObject? :: x.f),
       messages := w.messages - (set x | x in xs && x.MessageObject? :: x.m),
       freed := w.freed + multiset(Doomed(w, xs)))
  }

  /** The finalisers run one after the other; each finds its object still there and still unreachable. */
  ghost predicate CanFinalize(w: World, order: seq<Garbage>)
    decreases |order|
  {
    order != [] ==> Collectable(w, order[0]) && CanFinalize(Finalize(w, order[0]), order[1..])
  }

  ghost function FinalizeAll(w: World, order: seq<Garbage>): World
    requires CanFinalize(w, order)
    decreases |order|
  {
    if order == [] then w else FinalizeAll(Finalize(w, order[0]), order[1..])
  }

  ghost function Elements(order: seq<Garbage>): set<Garbage> {
    set x | x in order
  }

  lemma FinalizeKeepsInv(w: World, x: Garbage)
    requires Inv(w) && Collectable(w, x)
    ensures Inv(Finalize(w, x))
  {
    match x
    case FrameObject(f) => FinalizeFrameKeepsInv(w, f);
    case MessageObject(m) => FinalizeMessageKeepsInv(w, m);
  }

  lemma FinalizeFrameIsSweep(w: World, f: nat)
    requires Inv(w) && Collectable(w, FrameObject(f))
    ensures FinalizeFrame(w, f) == Swept(w, {FrameObject(f)})
  {
    var w1, w2 := FinalizeFrame(w, f), Swept(w, {FrameObject(f)});
    if w.frames[f].owned {
      OwningFrame(w, f);
      assert Doomed(w, {FrameObject(f)}) == {w.frames[f].frame.value};
    } else {
      assert Doomed(w, {FrameObject(f)}) == {};
    }
    assert w1.freed == w2.freed;
    assert w1.frames == w2.frames;
    assert w1.messages == w2.messages;
  }

  lemma DoomedByMessage(w: World, m: nat)
    requires Inv(w) && m in w.messages
    ensures multiset(Doomed(w, {MessageObject(m)})) == if w.messages[m].owned then multiset(w.Native(m)) else multiset{}
  {
    var doomed: set<nat> := Doomed(w, {MessageObject(m)});
    var responsible: multiset<nat> := multiset(doomed);
    if w.messages[m].owned {
      OwningMessage(w, m);
      forall z: nat ensures multiset(w.Native(m))[z] == responsible[z] {
        assert z in doomed <==> z in w.Native(m);
        NoDupCounts(w.Native(m), z);
      }
      assert multiset(w.Native(m)) == responsible;
    } else {
      assert doomed == {};
    }
  }

  lemma FinalizeMessageIsSweep(w: World, m: nat)
    requires Inv(w) && Collectable(w, MessageObject(m))
    ensures FinalizeMessage(w, m) == Swept(w, {MessageObject(m)})
  {
    var w1, w2 := FinalizeMessage(w, m), Swept(w, {MessageObject(m)});
    DoomedByMessage(w, m);
    assert w1.freed == w2.freed;
    assert w1.frames == w2.frames;
    assert w1.messages == w2.messages;
  }

  /** One finaliser frees what its object owns and removes the object; the rest stands as it was. */
  lemma FinalizeIsSweep(w: World, x: Garbage)
    requires Inv(w) && Collectable(w, x)
    ensures Finalize(w, x) == Swept(w, {x})
  {
    match x
    case FrameObject(f) => FinalizeFrameIsSweep(w, f);
    case MessageObject(m) => FinalizeMessageIsSweep(w, m);
  }

  /** Sweeping in two parts is sweeping at once. */
  lemma SweepTwice(w: World, x: Garbage, rest: set<Garbage>)
    requires Inv(w) && x !in rest
    ensures Swept(Swept(w, {x}), rest) == Swept(w, {x} + rest)
  {
    DoomedTwice(w, x, rest);
    var w1, w2 := Swept(Swept(w, {x}), rest), Swept(w, {x} + rest);
    assert w1.frames == w2.frames;
    assert w1.messages == w2.messages;
    assert w1.freed == w2.freed;
  }

  /** No zframe is freed by both parts. */
  lemma DoomedTwice(w: World, x: Garbage, rest: set<Garbage>)
    requires Inv(w) && x !in rest
    ensures multiset(Doomed(w, {x})) + multiset(Doomed(Swept(w, {x}), rest)) == multiset(Doomed(w, {x} + rest))
  {
    var w' := Swept(w, {x});
    forall z, y | y in rest && z in w.data ensures Answers(w', y, z) == Answers(w, y, z) {}
    assert Doomed(w', rest) == Doomed(w, rest);
    assert Doomed(w, {x} + rest) == Doomed(w, {x}) + Doomed(w, rest);
    forall z | z in Doomed(w, {x}) ensures z !in Doomed(w, rest) {
      forall y | y in rest && Answers(w, y, z) ensures x == y { OneResponsible(w, x, y, z); }
    }
  }

  lemma OneResponsible(w: World, x: Garbage, y: Garbage, z: nat)
    requires Inv(w) && Answers(w, x, z) && Answers(w, y, z)
    ensures x == y
  {
    match (x, y)
    case (FrameObject(f), FrameObject(g)) => OneFrame(w, f, g, z);
    case (MessageObject(m), MessageObject(n)) => OneMessage(w, m, n, z);
    case (FrameObject(f), MessageObject(m)) => FrameOrMessage(w, f, m, z);
    case (MessageObject(m), FrameObject(f)) => FrameOrMessage(w, f, m, z);
  }

  /** A finaliser makes no other unreachable object reachable. */
  lemma StillCollectable(w: World, x: Garbage, y: Garbage)
    requires Inv(w) && Collectable(w, x) && Collectable(w, y) && x != y
    ensures Collectable(Finalize(w, x), y)
  {
  }

  lemma SweepNothing(w: World)
    ensures Swept(w, {}) == w
  {
    var w' := Swept(w, {});
    assert Doomed(w, {}) == {};
    assert w'.frames == w.frames && w'.messages == w.messages && w'.freed == w.freed;
  }

  /** Any order of finalising a set of unreachable objects can go ahead, and ends in the same world. */
  lemma {:induction false} FinalizersCommute(w: World, order: seq<Garbage>)
    requires Inv(w) && NoDup(order) && forall x :: x in order ==> Collectable(w, x)
    ensures CanFinalize(w, order)
    ensures FinalizeAll(w, order) == Swept(w, Elements(order))
    ensures Inv(FinalizeAll(w, order))
    decreases |order|
  {
    if order == [] {
      SweepNothing(w);
    } else {
      var x, rest := order[0], order[1..];
      assert x in order;
      forall y | y in rest ensures y != x && Collectable(Finalize(w, x), y) {
        assert y in order;
        StillCollectable(w, x, y);
      }
      FinalizeKeepsInv(w, x);
      FinalizersCommute(Finalize(w, x), rest);
      FinalizeIsSweep(w, x);
      SweepTwice(w, x, Elements(rest));
      assert order == [x] + rest && Elements(order) == {x} + Elements(rest);
    }
  }

  /** When the program has let go of everything, finalising all wrappers, in any order, leaves every zframe that
      was ever created released exactly once. */
  lemma FinalSweepReleasesEverything(w: World, order: seq<Garbage>, z: nat)
    requires Inv(w) && w.heldFrames == {} && w.heldMessages == {} && NoDup(order)
    requires forall f :: f in w.frames <==> FrameObject(f) in order
    requires forall m :: m in w.messages <==> MessageObject(m) in order
    ensures CanFinalize(w, order)
    ensures z < w.zframeCount <==> FinalizeAll(w, order).freed[z] + FinalizeAll(w, order).sent[z] == 1
  {
    forall x | x in order ensures Collectable(w, x) {}
    FinalizersCommute(w, order);
    var w' := FinalizeAll(w, order);
    assert w'.frames == map[] && w'.messages == map[];
    var own: Ledger :| Agrees(w', own);
    assert ZframeOk(w', own, z);
  }

  /** No run lets the collector take a frame object that a held message lists. */
  lemma ListedFramesSurvive(ops: seq<Op>, m: nat, f: nat)
    requires GoodRun(EMPTY_WORLD, ops) && HasMessage(Run(EMPTY_WORLD, ops), m) && f in Run(EMPTY_WORLD, ops).Listed(m)
    ensures f in Run(EMPTY_WORLD, ops).frames
  {
    EmptyIsGood();
    RunKeepsInv(EMPTY_WORLD, ops);
    HeldMessage(Run(EMPTY_WORLD, ops), m);
  }
}
