/**
 Seen from outside, a message is a plain sequence of byte strings: any run of calls, on this and on other objects,
 gives the results of the same run on the sequence.
 */
module MessageSequence {
  import opened Lists
  import opened Wrappers
  import opened Ownership
  import opened OwnershipSteps
  import opened OwnershipMoves
  import opened OwnershipDiscipline
  import opened OwnershipEffects
  import opened OwnershipRuns

  // ---------------------------------------------------------------------------------------------------------
  // The plain sequence
  // ---------------------------------------------------------------------------------------------------------

  datatype Content = Alive(parts: seq<Bytes>) | Gone

  datatype Call =
    | Prepend(x: Bytes)
    | Append(x: Bytes)
    | Take
    | TakeText
    | Delete(i: nat)
    | Envelope(x: Bytes)       // wrap
    | OpenEnvelope             // unwrap
    | Write(i: nat, x: Bytes)  // reset of an attached frame
    | Count
    | All
    | Copy                     // dup
    | AskGone
    | Refuse                   // a call about this message whose other argument will not do
    | End                      // destroy, send, or collected
    | Elsewhere                // a call that is not about this message

  /** nil, true, false, a string, a number, strings, an exception, and a read through a bad pointer. */
  datatype Answer = Nothing | Done | No | Text(x: Bytes) | Size(n: nat) | Texts(xs: seq<Bytes>) | Refused | Crashed

  datatype Reply = Reply(content: Content, answer: Answer)

  /** Where the first NUL stands, or the length if there is none. */
  function FirstNul(s: Bytes): (n: nat)
    ensures n <= |s| && (forall i :: 0 <= i < n ==> s[i] != 0) && (n < |s| ==> s[n] == 0)
  {
    if s == [] || s[0] == 0 then 0 else 1 + FirstNul(s[1..])
  }

  function Apply(c: Content, call: Call): Reply {
    match c case Gone => ApplyGone(call) case Alive(s) => ApplyAlive(s, call)
  }

  /** A message that is gone counts nil, says that it is gone, and refuses everything else. */
  function ApplyGone(call: Call): Reply {
    match call
    case Count => Reply(Gone, Nothing)
    case AskGone => Reply(Gone, Done)
    case Elsewhere => Reply(Gone, Nothing)
    case _ => Reply(Gone, Refused)
  }

  function ApplyAlive(s: seq<Bytes>, call: Call): Reply {
    match call
    case Prepend(x) => Reply(Alive([x] + s), Done)
    case Append(x) => Reply(Alive(s + [x]), Done)
    case Take => if s == [] then Reply(Alive(s), Nothing) else Reply(Alive(s[1..]), Text(s[0]))
    case TakeText => if s == [] then Reply(Alive(s), Nothing) else Reply(Alive(s[1..]), Text(s[0][..FirstNul(s[0])]))
    case Delete(i) => Reply(Alive(if i < |s| then Without(s, i) else s), Nothing)
    case Envelope(x) => Reply(Alive([x, []] + s), Nothing)
    case OpenEnvelope =>
      if s == [] then Reply(Alive(s), Nothing)
      else Reply(Alive(if |s| > 1 && s[1] == [] then s[2..] else s[1..]), Text(s[0]))
    case Write(i, x) => Reply(Alive(if i < |s| then s[i := x] else s), Nothing)
    case Count => Reply(Alive(s), Size(|s|))
    case All => Reply(Alive(s), Texts(s))
    case Copy => Reply(Alive(s), Texts(s))
    case AskGone => Reply(Alive(s), No)
    case Refuse => Reply(Alive(s), Refused)
    case End => Reply(Gone, Nothing)
    case Elsewhere => Reply(Alive(s), Nothing)
  }

  /** A C string is what stands before the first NUL: no less, no more, and no NUL in it. */
  lemma {:induction false} CStringEndsAtNul(s: Bytes)
    ensures CString(s) == s[..FirstNul(s)]
    ensures CString(s) <= s && 0 !in CString(s)
    ensures |CString(s)| < |s| ==> s[|CString(s)|] == 0
  {
    if s != [] && s[0] != 0 {
      CStringEndsAtNul(s[1..]);
      assert s[..FirstNul(s)] == [s[0]] + s[1..][..FirstNul(s[1..])];
    }
  }

  /** popstr answers the whole frame exactly when the frame holds no NUL. */
  lemma {:induction false} CStringIsWhole(s: Bytes)
    ensures CString(s) == s <==> 0 !in s
  {
    if s != [] && s[0] != 0 {
      CStringIsWhole(s[1..]);
      assert s == [s[0]] + s[1..];
    }
  }

  // ---------------------------------------------------------------------------------------------------------
  // The message as a sequence
  // ---------------------------------------------------------------------------------------------------------

  ghost function DataOf(w: World, f: nat): Bytes {
    if f in w.frames && w.frames[f].frame.Some? && w.frames[f].frame.value in w.data
    then w.data[w.frames[f].frame.value] else []
  }

  ghost function Parts(w: World, m: nat): (s: seq<Bytes>)
    requires m in w.messages
    ensures |s| == |w.Native(m)|
  {
    seq(|w.Native(m)|, i requires 0 <= i < |w.Native(m)| =>
      if w.Native(m)[i] in w.data then w.data[w.Native(m)[i]] else [])
  }

  ghost function View(w: World, m: nat): Content {
    if w.OwnedMessage(m) then Alive(Parts(w, m)) else Gone
  }

  /** What a call means for message `m`. */
  ghost function Meaning(w: World, m: nat, op: Op): Call
    requires m in w.messages && Enabled(w, op)
  {
    match op
    case OpPush(n, f) => if n != m then Elsewhere else if w.frames[f].owned then Prepend(DataOf(w, f)) else Refuse
    case OpAdd(n, f) => if n != m then Elsewhere else if w.frames[f].owned then Append(DataOf(w, f)) else Refuse
    case OpPushStr(n, x) => if n == m then Prepend(x) else Elsewhere
    case OpAddStr(n, x) => if n == m then Append(x) else Elsewhere
    case OpPop(n) => if n == m then Take else Elsewhere
    case OpPopStr(n) => if n == m then TakeText else Elsewhere
    case OpRemove(n, f) =>
      if n != m then Elsewhere
      else if !w.frames[f].owned && f in w.Listed(m) then Delete(IndexOf(w.Listed(m), f)) else Delete(|w.Native(m)|)
    case OpWrap(n, f) => if n != m then Elsewhere else if w.frames[f].owned then Envelope(DataOf(w, f)) else Refuse
    case OpUnwrap(n) => if n == m then OpenEnvelope else Elsewhere
    case OpResetFrame(f, x) =>
      if !w.frames[f].owned && w.frames[f].message == Some(m) && f in w.Listed(m)
      then Write(IndexOf(w.Listed(m), f), x) else Elsewhere
    case OpSize(n) => if n == m then Count else Elsewhere
    case OpToArray(n) => if n == m then All else Elsewhere
    case OpDupMessage(n) => if n == m then Copy else Elsewhere
    case OpMessageGone(n) => if n == m then AskGone else Elsewhere
    case OpDestroyMessage(n) => if n == m then End else Elsewhere
    case OpSendMessage(n, open, _, _) => if n != m then Elsewhere else if open then End else Refuse
    case OpCollectMessage(n) => if n == m && w.messages[m].owned then End else Elsewhere
    case _ => Elsewhere
  }

  /** What the program sees of a returned value. */
  ghost function Seen(w: World, outcome: Outcome): Answer {
    match outcome
    case Raise(_) => Refused
    case Fault(_) => Crashed
    case Return(Bool(true)) => Done
    case Return(Bool(false)) => No
    case Return(Str(s)) => Text(s)
    case Return(FrameRef(f)) => Text(DataOf(w, f))
    case Return(Num(n)) => if n >= 0 then Size(n) else Nothing
    case Return(FrameRefs(fs)) => Texts(seq(|fs|, i requires 0 <= i < |fs| => DataOf(w, fs[i])))
    case Return(MessageRef(d)) => if d in w.messages then Texts(Parts(w, d)) else Nothing
    case Return(Nil) => Nothing
  }

  lemma SameParts(w: World, w': World, m: nat)
    requires Inv(w) && w.OwnedMessage(m) && m in w'.messages && w'.Native(m) == w.Native(m) && KeepsData(w, w')
    ensures Parts(w', m) == Parts(w, m)
  {
    OwningMessage(w, m);
    forall i | 0 <= i < |w.Native(m)| ensures Parts(w', m)[i] == Parts(w, m)[i] {
      assert w.Live(w.Native(m)[i]);
    }
  }

  ghost predicate Refines(w: World, m: nat, op: Op)
    requires Enabled(w, op) && m in w.messages
  {
    var call := Meaning(w, m, op);
    var reply := Apply(View(w, m), call);
    && View(Do(w, op).world, m) == reply.content
    && (call != Elsewhere ==> Seen(Do(w, op).world, Do(w, op).outcome) == reply.answer)
  }

  lemma PushRefines(w: World, m: nat, op: Op)
    requires Inv(w) && Enabled(w, op) && Disciplined(w, op) && w.OwnedMessage(m)
    requires (op.OpPush? || op.OpAdd?) && op.m == m
    ensures Refines(w, m, op)
  {
    OwningMessage(w, m);
    if w.frames[op.f].owned {
      OwningFrame(w, op.f);
      var w', z := Do(w, op).world, w.frames[op.f].frame.value;
      assert w'.Native(m) == if op.OpPush? then [z] + w.Native(m) else w.Native(m) + [z];
      assert Parts(w', m) == if op.OpPush? then [w.data[z]] + Parts(w, m) else Parts(w, m) + [w.data[z]];
    }
  }

  lemma PushStringRefines(w: World, m: nat, op: Op)
    requires Inv(w) && Enabled(w, op) && Disciplined(w, op) && w.OwnedMessage(m)
    requires (op.OpPushStr? || op.OpAddStr?) && op.m == m
    ensures Refines(w, m, op)
  {
    OwningMessage(w, m);
    Fresh(w);
    var w', z := Do(w, op).world, w.zframeCount;
    assert w'.Native(m) == if op.OpPushStr? then [z] + w.Native(m) else w.Native(m) + [z];
    assert forall i :: 0 <= i < |w.Native(m)| ==> w.Live(w.Native(m)[i]);
    assert Parts(w', m) == if op.OpPushStr? then [op.bytes] + Parts(w, m) else Parts(w, m) + [op.bytes];
  }

  lemma TakeRefines(w: World, m: nat, op: Op)
    requires Inv(w) && Enabled(w, op) && Disciplined(w, op) && w.OwnedMessage(m)
    requires (op.OpPop? || op.OpPopStr?) && op.m == m
    ensures Refines(w, m, op)
  {
    if w.Native(m) != [] {
      EntryAt(w, m, 0);
      CStringEndsAtNul(Parts(w, m)[0]);
      var w' := Do(w, op).world;
      assert w'.Native(m) == w.Native(m)[1..] && w'.data == w.data;
      assert Parts(w', m) == Parts(w, m)[1..];
    }
  }

  /** Removing a frame that is in no message changes nothing at all. */
  lemma RemoveOwnedIsNothing(w: World, m: nat, f: nat)
    requires Inv(w) && HasMessage(w, m) && HasFrame(w, f) && w.messages[m].owned && w.frames[f].owned
    ensures f !in w.Listed(m) && Remove(w, m, f).world == w
  {
    OwningMessage(w, m);
    OwningFrame(w, f);
    var z := w.frames[f].frame.value;
    forall i | 0 <= i < |w.Listed(m)| ensures w.Listed(m)[i] != f { assert Mirrors(w, m, i); }
    FrameOrMessage(w, f, m, z);
    assert z !in w.Native(m);
    RemoveFirstAbsent(w.Native(m), z);
    RemoveFirstAbsent(w.Listed(m), f);
    assert w.messages[m := w.messages[m]] == w.messages;
    assert w.frames[f := w.frames[f]] == w.frames;
  }

  lemma RemoveIs(w: World, m: nat, f: nat)
    requires Inv(w) && HasMessage(w, m) && HasFrame(w, f) && w.messages[m].owned
    requires !w.frames[f].owned && w.frames[f].message == Some(m)
    ensures f in w.Listed(m) && IndexOf(w.Listed(m), f) < |w.Native(m)|
    ensures var w' := Remove(w, m, f).world;
            m in w'.messages && w'.data == w.data && w'.Native(m) == Without(w.Native(m), IndexOf(w.Listed(m), f))
  {
    AttachedIsListed(w, f, m);
    OwningMessage(w, m);
    var i := IndexOf(w.Listed(m), f);
    EntryAt(w, m, i);
    RemoveFirstAt(w.Native(m), i);
  }

  lemma PartsWithout(w: World, w': World, m: nat, i: nat)
    requires m in w.messages && m in w'.messages && i < |w.Native(m)|
    requires w'.data == w.data && w'.Native(m) == Without(w.Native(m), i)
    ensures Parts(w', m) == Without(Parts(w, m), i)
  {
  }

  lemma RemoveRefines(w: World, m: nat, op: Op)
    requires Inv(w) && Enabled(w, op) && Disciplined(w, op) && w.OwnedMessage(m)
    requires op.OpRemove? && op.m == m
    ensures Refines(w, m, op)
  {
    if w.frames[op.f].owned {
      RemoveOwnedIsNothing(w, m, op.f);
    } else {
      RemoveIs(w, m, op.f);
      PartsWithout(w, Do(w, op).world, m, IndexOf(w.Listed(m), op.f));
    }
  }

  lemma WrapRefines(w: World, m: nat, op: Op)
    requires Inv(w) && Enabled(w, op) && Disciplined(w, op) && w.OwnedMessage(m)
    requires op.OpWrap? && op.m == m
    ensures Refines(w, m, op)
  {
    OwningMessage(w, m);
    Fresh(w);
    if w.frames[op.f].owned {
      OwningFrame(w, op.f);
      var w' := Do(w, op).world;
      var z := w.frames[op.f].frame.value;
      assert w'.Native(m) == [z] + ([w.zframeCount] + w.Native(m));
      assert w'.data == w.data[w.zframeCount := []];
      PartsOfEnvelope(w, w', m, z);
    }
  }

  lemma PartsOfEnvelope(w: World, w': World, m: nat, z: nat)
    requires Inv(w) && w.OwnedMessage(m) && m in w'.messages && w.Live(z)
    requires w'.Native(m) == [z] + ([w.zframeCount] + w.Native(m)) && w'.data == w.data[w.zframeCount := []]
    ensures Parts(w', m) == [w.data[z], []] + Parts(w, m)
  {
    OwningMessage(w, m);
    Fresh(w);
    forall i | 0 <= i < |w.Native(m)| ensures Parts(w', m)[i + 2] == Parts(w, m)[i] {
      assert w.Live(w.Native(m)[i]);
    }
  }

  /** What unwrap does to a message with at least two frames. */
  lemma UnwrapIs(w: World, m: nat)
    requires Inv(w) && HasMessage(w, m) && w.messages[m].owned && |w.Native(m)| >= 2
    ensures w.Listed(m) != []
    ensures var w' := Unwrap(w, m).world;
            && Unwrap(w, m).outcome == Return(FrameRef(w.Listed(m)[0]))
            && w'.data == w.data && m in w'.messages
            && w'.Native(m) == w.Native(m)[if Parts(w, m)[1] == [] then 2 else 1..]
            && DataOf(w', w.Listed(m)[0]) == Parts(w, m)[0]
  {
    EntryAt(w, m, 0);
    EntryAt(w, m, 1);
  }

  lemma UnwrapRefines(w: World, m: nat, op: Op)
    requires Inv(w) && Enabled(w, op) && Disciplined(w, op) && w.OwnedMessage(m)
    requires op.OpUnwrap? && op.m == m
    ensures Refines(w, m, op)
  {
    UnwrapIs(w, m);
    assert Parts(Do(w, op).world, m) == Parts(w, m)[if Parts(w, m)[1] == [] then 2 else 1..];
  }

  lemma QueryRefines(w: World, m: nat, op: Op)
    requires Inv(w) && Enabled(w, op) && Disciplined(w, op) && w.OwnedMessage(m)
    requires (op.OpSize? || op.OpToArray?) && op.m == m
    ensures Refines(w, m, op)
  {
    OwningMessage(w, m);
    HeldMessage(w, m);
    var w' := Do(w, op).world;
    assert w'.Native(m) == w.Native(m);
    SameParts(w, w', m);
    forall i | 0 <= i < |w.Listed(m)| ensures DataOf(w', w.Listed(m)[i]) == Parts(w, m)[i] {
      assert Mirrors(w, m, i);
    }
    if op.OpToArray? {
      assert Seen(w', Do(w, op).outcome).xs == Parts(w, m);
    }
  }

  /** Writing into a frame changes exactly the message it is attached to, at its place. */
  lemma ResetRefines(w: World, m: nat, op: Op)
    requires Inv(w) && Enabled(w, op) && Disciplined(w, op) && w.OwnedMessage(m)
    requires op.OpResetFrame?
    ensures Refines(w, m, op)
  {
    var f, w' := op.f, Do(w, op).world;
    AccessibleIsLive(w, f);
    OwningMessage(w, m);
    assert w'.Native(m) == w.Native(m);
    if FrameGuard(w, f) != Pass {
      SameParts(w, w', m);
    } else if w.frames[f].owned {
      var z := w.frames[f].frame.value;
      FrameOrMessage(w, f, m, z);
      assert z !in w.Native(m);
      assert Parts(w', m) == Parts(w, m);
    } else {
      var n, i := Position(w, f);
      var z := w.Native(n)[i];
      OwningMessage(w, n);
      if n == m {
        var j := IndexOf(w.Listed(m), f);
        assert Mirrors(w, m, j);
        assert forall k :: 0 <= k < |w.Native(m)| && k != j ==> w.Native(m)[k] != z;
        assert Parts(w', m) == Parts(w, m)[j := op.bytes];
      } else {
        assert z !in w.Native(m) by { if z in w.Native(m) { OneMessage(w, m, n, z); assert false; } }
        assert Parts(w', m) == Parts(w, m);
      }
    }
  }

  /** A call on the message whose other argument will not do raises and changes nothing. */
  lemma RefuseRefines(w: World, m: nat, op: Op)
    requires Enabled(w, op) && Disciplined(w, op) && w.OwnedMessage(m) && Meaning(w, m, op) == Refuse
    ensures Refines(w, m, op)
  {
  }

  lemma EndRefines(w: World, m: nat, op: Op)
    requires Enabled(w, op) && w.OwnedMessage(m) && Meaning(w, m, op) == End
    ensures Refines(w, m, op)
  {
  }

  lemma CopyRefines(w: World, m: nat, op: Op)
    requires Inv(w) && Enabled(w, op) && w.OwnedMessage(m) && (op.OpDupMessage? || op.OpMessageGone?) && op.m == m
    ensures Refines(w, m, op)
  {
    if op.OpDupMessage? { DupShares(w, m); }
  }

  /** Every other call leaves the message alone. */
  lemma ElsewhereRefines(w: World, m: nat, op: Op)
    requires Inv(w) && Enabled(w, op) && w.OwnedMessage(m) && Meaning(w, m, op) == Elsewhere && !op.OpResetFrame?
    ensures Refines(w, m, op)
  {
    Fresh(w);
    CallEffect(w, op);
    assert Target(op) != Some(m);
    SameParts(w, Do(w, op).world, m);
  }

  /** A message that is gone stays gone, and refuses. */
  lemma GoneRefines(w: World, m: nat, op: Op)
    requires Inv(w) && Enabled(w, op) && m in w.messages && !w.messages[m].owned
    ensures Refines(w, m, op)
  {
    Fresh(w);
    CallEffect(w, op);
    assert View(Do(w, op).world, m) == Gone;
    if Meaning(w, m, op) != Elsewhere { GoneAnswers(w, m, op); }
  }

  lemma GoneAnswers(w: World, m: nat, op: Op)
    requires Enabled(w, op) && m in w.messages && !w.messages[m].owned && Meaning(w, m, op) != Elsewhere
    ensures Seen(Do(w, op).world, Do(w, op).outcome) == ApplyGone(Meaning(w, m, op)).answer
  {
  }

  lemma StepRefines(w: World, m: nat, op: Op)
    requires Inv(w) && Enabled(w, op) && Disciplined(w, op) && m in w.messages
    ensures Refines(w, m, op)
  {
    if !w.messages[m].owned {
      GoneRefines(w, m, op);
    } else if op.OpResetFrame? {
      ResetRefines(w, m, op);
    } else {
      match Meaning(w, m, op)
      case Elsewhere => ElsewhereRefines(w, m, op);
      case Refuse => RefuseRefines(w, m, op);
      case End => EndRefines(w, m, op);
      case Copy => CopyRefines(w, m, op);
      case AskGone => CopyRefines(w, m, op);
      case Prepend(_) => if op.OpPush? { PushRefines(w, m, op); } else { PushStringRefines(w, m, op); }
      case Append(_) => if op.OpAdd? { PushRefines(w, m, op); } else { PushStringRefines(w, m, op); }
      case Take => TakeRefines(w, m, op);
      case TakeText => TakeRefines(w, m, op);
      case Delete(_) => RemoveRefines(w, m, op);
      case Envelope(_) => WrapRefines(w, m, op);
      case OpenEnvelope => UnwrapRefines(w, m, op);
      case _ => QueryRefines(w, m, op);
    }
  }

  // ---------------------------------------------------------------------------------------------------------
  // Runs
  // ---------------------------------------------------------------------------------------------------------

  /** The calls of a run, as they look from message `m`. */
  ghost function Meanings(w: World, m: nat, ops: seq<Op>): seq<Call>
    requires GoodRun(w, ops)
    decreases |ops|
  {
    if ops == [] then []
    else [if m in w.messages then Meaning(w, m, ops[0]) else Elsewhere] + Meanings(Do(w, ops[0]).world, m, ops[1..])
  }

  /** The answers the program saw to the calls about message `m`. */
  ghost function AnswersSeen(w: World, m: nat, ops: seq<Op>): seq<Answer>
    requires GoodRun(w, ops)
    decreases |ops|
  {
    if ops == [] then []
    else
      var step := Do(w, ops[0]);
      [if m in w.messages && Meaning(w, m, ops[0]) != Elsewhere then Seen(step.world, step.outcome) else Nothing]
      + AnswersSeen(step.world, m, ops[1..])
  }

  /** The same calls on a plain sequence: what is left, and what was answered. */
  function Replay(c: Content, calls: seq<Call>): (Content, seq<Answer>)
    decreases |calls|
  {
    if calls == [] then (c, [])
    else
      var reply := Apply(c, calls[0]);
      var (rest, answers) := Replay(reply.content, calls[1..]);
      (rest, [reply.answer] + answers)
  }

  lemma ReplayFirst(c: Content, call: Call, later: seq<Call>)
    ensures var reply := Apply(c, call);
            Replay(c, [call] + later)
            == (Replay(reply.content, later).0, [reply.answer] + Replay(reply.content, later).1)
  {
    assert ([call] + later)[1..] == later;
  }

  /** A message that was made stays what it is, or stays gone, while others come and go. */
  lemma StepOfRun(w: World, m: nat, op: Op)
    requires Inv(w) && Enabled(w, op) && Disciplined(w, op) && m < w.messageCount
    ensures Inv(Do(w, op).world) && m < Do(w, op).world.messageCount
    ensures m in w.messages ==> Refines(w, m, op)
    ensures m !in w.messages ==> m !in Do(w, op).world.messages
  {
    CallEffect(w, op);
    DisciplineSuffices(w, op);
    if m in w.messages { StepRefines(w, m, op); }
  }

  /** Any run, over all objects and with the collector at work, looks to one message like a run of a sequence, from
      beginning to end and after the end. */
  lemma {:induction false} RunRefines(w: World, m: nat, ops: seq<Op>)
    requires Inv(w) && GoodRun(w, ops) && m < w.messageCount
    ensures Replay(View(w, m), Meanings(w, m, ops)) == (View(Run(w, ops), m), AnswersSeen(w, m, ops))
    decreases |ops|
  {
    if ops != [] {
      var w' := Do(w, ops[0]).world;
      StepOfRun(w, m, ops[0]);
      RunRefines(w', m, ops[1..]);
      var later := Meanings(w', m, ops[1..]);
      var call := if m in w.messages then Meaning(w, m, ops[0]) else Elsewhere;
      assert Meanings(w, m, ops) == [call] + later;
      ReplayFirst(View(w, m), call, later);
    }
  }

  // ---------------------------------------------------------------------------------------------------------
  // Messages made from native ones
  // ---------------------------------------------------------------------------------------------------------

  /** Message `m` of world `w'`, made in world `w`, has these parts in order, and one new frame object for each
      zframe, none of them owning, all of them pointing back to it. */
  ghost predicate HoldsNewly(w: World, w': World, m: nat, parts: seq<Bytes>) {
    && m !in w.messages && m in w'.messages && m in w'.heldMessages
    && w'.messages[m] ==
       MessageW(Some(From(w.zframeCount, |parts|)), Some(From(w.frameCount, |parts|)), true)
    && Parts(w', m) == parts
    && forall i :: 0 <= i < |parts| ==> NewlyWrapped(w, w', m, i)
  }

  /** The i-th new zframe and the i-th new frame object: the one wraps the other and owns nothing. */
  ghost predicate NewlyWrapped(w: World, w': World, m: nat, i: nat) {
    var z, f := w.zframeCount + i, w.frameCount + i;
    z !in w.data && f !in w.frames && f in w'.frames && w'.frames[f] == FrameW(Some(z), Some(m), false)
  }

  /** What becomes of the parts of a received, decoded or duplicated message. */
  lemma NewMessageShape(w: World, parts: seq<Bytes>)
    requires Inv(w)
    ensures HoldsNewly(w, NewMessage(w, parts).world, w.messageCount, parts)
  {
    Fresh(w);
    NewParts(w, parts);
    forall i | 0 <= i < |parts| ensures NewlyWrapped(w, NewMessage(w, parts).world, w.messageCount, i) {
      NewPartAt(w, parts, i);
    }
  }

  lemma NewParts(w: World, parts: seq<Bytes>)
    requires Inv(w)
    ensures Parts(NewMessage(w, parts).world, w.messageCount) == parts
  {
    NewLists(w, parts);
    forall i | 0 <= i < |parts| ensures Parts(NewMessage(w, parts).world, w.messageCount)[i] == parts[i] {
      NewPartAt(w, parts, i);
    }
  }

  lemma NewLists(w: World, parts: seq<Bytes>)
    requires Inv(w)
    ensures var w', m := NewMessage(w, parts).world, w.messageCount;
            && m !in w.messages && w'.OwnedMessage(m) && m in w'.heldMessages
            && |w'.Listed(m)| == |w'.Native(m)| == |parts|
            && (forall i :: 0 <= i < |parts| ==> w'.Listed(m)[i] == w.frameCount + i)
            && (forall i :: 0 <= i < |parts| ==> w'.Native(m)[i] == w.zframeCount + i)
  {
    Fresh(w);
  }

  lemma NewPartAt(w: World, parts: seq<Bytes>, i: nat)
    requires i < |parts|
    ensures var w', z, f := AllocMessage(w, parts), w.zframeCount + i, w.frameCount + i;
            && z in w'.data && w'.data[z] == parts[i]
            && f in w'.frames && w'.frames[f] == FrameW(Some(z), Some(w.messageCount), false)
  {
    assert w.zframeCount + i in From(w.zframeCount, |parts|) && w.frameCount + i in From(w.frameCount, |parts|);
  }

  /** ZMQ::Message(*parts): an empty message and one addstr for each part. */
  function BuildMessage(w: World, m: nat, parts: seq<Bytes>): World
    requires m in w.messages
    decreases |parts|
  {
    if parts == [] then w
    else
      var w' := BuildMessage(w, m, parts[..|parts| - 1]);
      if m in w'.messages then PushString(w', m, parts[|parts| - 1], false).world else w'
  }

  /** Building a message from Ruby and wrapping a native one with the same parts end in the same world. */
  lemma {:induction false} BuildIsAlloc(w: World, parts: seq<Bytes>)
    ensures BuildMessage(AllocMessage(w, []), w.messageCount, parts) == AllocMessage(w, parts)
    decreases |parts|
  {
    if parts != [] {
      var front, last := parts[..|parts| - 1], parts[|parts| - 1];
      assert parts == front + [last];
      BuildIsAlloc(w, front);
      AllocAppends(w, front, last);
    }
  }

  /** dup copies the contents and shares neither zframes nor frame objects with the original. */
  lemma DupShares(w: World, m: nat)
    requires Inv(w) && HasMessage(w, m) && w.messages[m].owned
    ensures var w', d := DupMessage(w, m).world, w.messageCount;
            && DupMessage(w, m).outcome == Return(MessageRef(d)) && d != m
            && w'.OwnedMessage(d) && w'.OwnedMessage(m)
            && Parts(w', d) == Parts(w, m) && Parts(w', m) == Parts(w, m)
            && (forall z :: z in w'.Native(d) ==> z !in w'.Native(m))
            && (forall f :: f in w'.Listed(d) ==> f !in w'.Listed(m))
  {
    OwningMessage(w, m);
    HeldMessage(w, m);
    Fresh(w);
    ContentsOfLive(w, w.Native(m));
    var parts := Contents(w, w.Native(m)).value;
    assert parts == Parts(w, m);
    NewMessageShape(w, parts);
    var w', d := DupMessage(w, m).world, w.messageCount;
    assert w'.Native(m) == w.Native(m) && w'.Listed(m) == w.Listed(m);
    SameParts(w, w', m);
  }

  /** After a dup, a run that is not about one of the two messages does not change it, whatever it does to the other. */
  lemma DupIndependent(w: World, m: nat, ops: seq<Op>, kept: nat)
    requires Inv(w) && HasMessage(w, m) && w.messages[m].owned
    requires GoodRun(DupMessage(w, m).world, ops)
    requires kept == m || kept == w.messageCount
    requires forall call :: call in Meanings(DupMessage(w, m).world, kept, ops) ==> call == Elsewhere
    ensures View(Run(DupMessage(w, m).world, ops), kept) == Alive(Parts(w, m))
  {
    var w' := DupMessage(w, m).world;
    Fresh(w);
    DupShares(w, m);
    DisciplineSuffices(w, OpDupMessage(m));
    RunRefines(w', kept, ops);
    ReplayElsewhere(View(w', kept), Meanings(w', kept, ops));
  }

  lemma {:induction false} ReplayElsewhere(c: Content, calls: seq<Call>)
    requires forall call :: call in calls ==> call == Elsewhere
    ensures Replay(c, calls).0 == c
  {
    if calls != [] {
      assert calls[0] in calls && forall call :: call in calls[1..] ==> call in calls;
      ReplayElsewhere(c, calls[1..]);
    }
  }

  // ---------------------------------------------------------------------------------------------------------
  // wrap and unwrap
  // ---------------------------------------------------------------------------------------------------------

  /** wrap then unwrap gives back the same frame object, owning; the message and its list are as before; nothing
      is left over but the delimiter, which was created and freed once. */
  lemma WrapUnwrap(w: World, m: nat, f: nat)
    requires Inv(w) && HasMessage(w, m) && HasFrame(w, f) && w.messages[m].owned && w.frames[f].owned
    ensures Wrap(w, m, f).outcome == Return(Nil)
    ensures m in Wrap(w, m, f).world.messages
    ensures var step := Unwrap(Wrap(w, m, f).world, m);
            && step.outcome == Return(FrameRef(f))
            && step.world.messages == w.messages
            && step.world.frames - {w.frameCount} == w.frames
            && step.world.heldFrames == w.heldFrames && w.frameCount !in w.heldFrames
            && step.world.data == w.data[w.zframeCount := []]
            && step.world.freed == w.freed + multiset{w.zframeCount} && step.world.sent == w.sent
  {
    OwningFrame(w, f);
    OwningMessage(w, m);
    Fresh(w);
    AtMostOnce(w);
    var z := w.frames[f].frame.value;
    var wrapped := Wrap(w, m, f).world;
    assert w.messages[m] == MessageW(Some(w.Native(m)), Some(w.Listed(m)), true);
    assert wrapped.Native(m) == [z] + ([w.zframeCount] + w.Native(m));
    assert wrapped.Listed(m) == [f] + ([w.frameCount] + w.Listed(m));
    assert Tail(wrapped.Native(m)) == [w.zframeCount] + w.Native(m);
    assert Tail(Tail(wrapped.Native(m))) == w.Native(m);
    assert Tail(wrapped.Listed(m)) == [w.frameCount] + w.Listed(m);
    assert Tail(Tail(wrapped.Listed(m))) == w.Listed(m);
    var w' := Unwrap(wrapped, m).world;
    assert wrapped.Live(w.zframeCount);
    assert w'.messages == w.messages;
    assert w'.frames - {w.frameCount} == w.frames;
  }
}
