/**
 The entry of a process in the map of contexts, when `Context.new` raises.
 */
module ContextEntry {
  import opened Wrappers
  import opened Lifecycle
  import opened LifecycleRuns
  import A = LifecycleAnswers

  /** A call of `Context.new` that raises changes nothing exactly when the process had a context already, or the thread
      count can be set: the count is looked at only after the context has been entered. */
  lemma RefusalIsCleanIff(w: Net, threads: Threads, einval: bool)
    ensures NewContext(w, threads, einval).Done?
    ensures var r := NewContext(w, threads, einval);
            (r.answer.Raised? ==> r.net == w) <==>
              || w.pid in w.entry
              || threads.NoCount?
              || (threads.Count? && 0 <= threads.n <= INT_MAX && !einval)
  {
    if w.pid !in w.entry { assert w.pid in NewContext(w, threads, einval).net.entry; }
  }

  /** What a caller can see to before the call, whatever the library will say to the count. */
  lemma RefusalIsCleanWhateverIsReported(w: Net, threads: Threads)
    ensures (forall einval :: NewContext(w, threads, einval).Done?
                              && (NewContext(w, threads, einval).answer.Raised? ==>
                                    NewContext(w, threads, einval).net == w))
            <==> w.pid in w.entry || threads.NoCount?
  {
    RefusalIsCleanIff(w, threads, false);
    RefusalIsCleanIff(w, threads, true);
  }

  /** The first call of a process, with a count that cannot be set, raises; so does a second call with a good one. */
  lemma RefusedButEntered(threads: Threads)
    requires threads in {Count(-1), Count(INT_MAX + 1), NotACount}
    ensures NewContext(NO_NET, threads, false).Done? && NewContext(NO_NET, threads, false).answer == Raised
    ensures var w := NewContext(NO_NET, threads, false).net;
            && w != NO_NET && w.OpenContext(0) && w.entry == map[0 := 0]
            && NewContext(w, Count(1), false) == Done(w, Raised)
  {
    RefusalIsCleanIff(NO_NET, threads, false);
    var w := NewContext(NO_NET, threads, false).net;
    assert w.pid in w.entry;
  }

  lemma StaysOpenIff(w: Net, op: Op, c: nat)
    requires Inv(w) && Enabled(w, op) && w.OpenContext(c)
    ensures Do(w, op).Done? && (Do(w, op).net.OpenContext(c) <==> !A.Frees(w, op, c))
  {
    A.DoesComeTo(w, op);
    if op != OpCollectContext(c) { assert A.ContextRight(w, op, Do(w, op).net, c); }
    assert CtxOk(w, c);
  }

  predicate NeverFrees(w: Net, ops: seq<Op>, c: nat)
    requires CanRun(w, ops)
    decreases |ops|
  {
    ops != [] ==> !A.Frees(w, ops[0], c) && (Do(w, ops[0]).Done? ==> NeverFrees(Do(w, ops[0]).net, ops[1..], c))
  }

  lemma {:induction false} OpenUntilFreed(w: Net, ops: seq<Op>, c: nat)
    requires Inv(w) && CanRun(w, ops) && w.OpenContext(c)
    ensures Run(w, ops).Some? && (Run(w, ops).value.OpenContext(c) <==> NeverFrees(w, ops, c))
    decreases |ops|
  {
    if ops != [] {
      StepKeepsInv(w, ops[0]);
      StaysOpenIff(w, ops[0], c);
      if A.Frees(w, ops[0], c) {
        assert CtxOk(w, c);
        EntriesChangeOnlyByTheirContext(w, ops[0], 0, c);
        GoneForGood(Do(w, ops[0]).net, ops[1..], c);
      } else {
        OpenUntilFreed(Do(w, ops[0]).net, ops[1..], c);
      }
    }
  }

  lemma {:induction false} GoneForGood(w: Net, ops: seq<Op>, c: nat)
    requires Inv(w) && CanRun(w, ops) && !w.OpenContext(c) && c < w.contextCount
    ensures Run(w, ops).Some? && !Run(w, ops).value.OpenContext(c)
    decreases |ops|
  {
    if ops != [] {
      StepKeepsInv(w, ops[0]);
      EntriesChangeOnlyByTheirContext(w, ops[0], 0, c);
      GoneForGood(Do(w, ops[0]).net, ops[1..], c);
    }
  }

  /** After a call refused for its count the process is stuck with a context nobody was given: along any run, its entry
      names that very context exactly as long as nothing has freed it, and until then every further call of
      `Context.new` in the process raises and changes nothing. */
  lemma RefusedUntilFreed(w: Net, threads: Threads, einval: bool, ops: seq<Op>)
    requires Inv(w) && w.pid !in w.entry && Unsettable(threads, einval)
    requires CanRun(NewContext(w, threads, einval).net, ops)
    ensures NewContext(w, threads, einval).answer == Raised
    ensures var w0 := NewContext(w, threads, einval).net;
            && Run(w0, ops).Some?
            && var w' := Run(w0, ops).value;
               && (NeverFrees(w0, ops, w.contextCount) <==>
                     w.pid in w'.entry && w'.entry[w.pid] == w.contextCount)
               && (NeverFrees(w0, ops, w.contextCount) && w'.pid == w.pid ==>
                     forall more, report :: NewContext(w', more, report) == Done(w', Raised))
  {
    var w0, c := NewContext(w, threads, einval).net, w.contextCount;
    NewContextKeepsInv(w, threads, einval);
    OpenUntilFreed(w0, ops, c);
    RunKeepsInv(w0, ops);
    PidStays(w0, ops, c);
    var w' := Run(w0, ops).value;
    if w'.OpenContext(c) { assert CtxOk(w', c); }
    if w.pid in w'.entry { assert EntryOk(w', w.pid); }
  }

  /** Contexts keep the process that made them, and none comes back under an old name. */
  ghost predicate KeepsPids(w: Net, w': Net) {
    && w.contextCount <= w'.contextCount
    && forall c: nat :: c in w'.contexts && c < w.contextCount ==>
         c in w.contexts && w'.contexts[c].pid == w.contexts[c].pid
  }

  lemma StepKeepsPids(w: Net, op: Op)
    requires Inv(w) && Enabled(w, op)
    ensures Do(w, op).Done? && KeepsPids(w, Do(w, op).net)
  {
    A.DoesComeTo(w, op);
    var w' := Do(w, op).net;
    forall c: nat | c in w'.contexts && c < w.contextCount
      ensures c in w.contexts && w'.contexts[c].pid == w.contexts[c].pid
    {
      assert A.ContextRight(w, op, w', c);
    }
  }

  lemma {:induction false} PidStays(w: Net, ops: seq<Op>, c: nat)
    requires Inv(w) && CanRun(w, ops) && c < w.contextCount
    ensures Run(w, ops).Some?
    ensures c in Run(w, ops).value.contexts ==>
              c in w.contexts && Run(w, ops).value.contexts[c].pid == w.contexts[c].pid
    decreases |ops|
  {
    if ops != [] {
      StepKeepsInv(w, ops[0]);
      StepKeepsPids(w, ops[0]);
      PidStays(Do(w, ops[0]).net, ops[1..], c);
    }
  }
}
