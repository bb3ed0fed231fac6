/**
 context.c and the socket calls of socket.c as they are written: wrapper structs updated in place, a list of sockets
 to a context that is drained by popping, a map from process to context. `net` is the whole state as one value; every
 call is proved to do what the function of that name in `Lifecycle` says, and never to follow a dead pointer.
 */
module LifecycleRuntime {
  import opened Lists
  import opened Wrappers
  import L = Lifecycle
  import R = LifecycleRuns

  /** `zmq_ctx_wrapper` */
  class ContextWrapper {
    const id: nat
    const pid: nat
    var native: bool
    var destroyed: bool
    var sockets: Option<seq<SocketWrapper>>

    constructor (id: nat, pid: nat)
      ensures this.id == id && this.pid == pid && native && !destroyed && sockets == Some([])
    {
      this.id, this.pid := id, pid;
      native, destroyed, sockets := true, false, Some([]);
    }

    ghost function Value(): L.Ctx
      reads this
    {
      L.Ctx(native, destroyed, pid, match sockets case Some(list) => Some(Ids(list)) case None => None)
    }
  }

  /** `zmq_sock_wrapper`; the context is null for a socket that a beacon made. */
  class SocketWrapper {
    const id: nat
    const context: ContextWrapper?
    var hasCtx: bool
    var native: bool
    var destroyed: bool
    var state: L.SocketState
    var endpoints: seq<string>

    constructor (id: nat, context: ContextWrapper?, hasCtx: bool)
      ensures this.id == id && this.context == context && this.hasCtx == hasCtx
      ensures native && !destroyed && state == L.Pending && endpoints == []
    {
      this.id, this.context, this.hasCtx := id, context, hasCtx;
      native, destroyed, state, endpoints := true, false, L.Pending, [];
    }

    ghost function Value(): L.Sock
      reads this
    {
      L.Sock(if context == null then None else Some(context.id), hasCtx, native, destroyed, state, endpoints)
    }
  }

  function Ids(list: seq<SocketWrapper>): (ids: seq<nat>)
    ensures |ids| == |list| && forall i :: 0 <= i < |list| ==> ids[i] == list[i].id
  {
    Each((s: SocketWrapper) => s.id, list)
  }

  class Process {
    ghost var net: L.Net

    var contexts: map<nat, ContextWrapper>
    var socks: map<nat, SocketWrapper>
    var entry: map<nat, ContextWrapper>
    var pid: nat
    var contextCount: nat
    var socketCount: nat
    var closed: multiset<nat>
    var terminated: multiset<nat>
    var strays: multiset<nat>

    constructor ()
      ensures Valid() && net == L.NO_NET
    {
      contexts, socks, entry := map[], map[], map[];
      pid, contextCount, socketCount := 0, 0, 0;
      closed, terminated, strays := multiset{}, multiset{}, multiset{};
      net := L.NO_NET;
      new;
      R.AnyOrderIsSafe([]);
    }

    /** The fields are what `net` says, and what every run of `Lifecycle` keeps holds of it. */
    ghost predicate Valid()
      reads this, contexts.Values, socks.Values
    {
      Agrees() && R.Inv(net)
    }

    ghost predicate Agrees()
      reads this, contexts.Values, socks.Values
    {
      && pid == net.pid && contextCount == net.contextCount && closed == net.closed && terminated == net.terminated
      && strays == net.strays
      && contexts.Keys == net.contexts.Keys && socks.Keys == net.socks.Keys && entry.Keys == net.entry.Keys
      && (forall p: nat :: p in entry ==> entry[p].id == net.entry[p])
      && NamedUpTo(net.born, socketCount)
      && (forall i: nat {:trigger ContextAgrees(i)} :: i in contexts ==> ContextAgrees(i))
      && (forall i: nat {:trigger SocketAgrees(i)} :: i in socks ==> SocketAgrees(i))
    }

    /** Every wrapper object that is there. */
    ghost function Objects(): set<object>
      reads this`contexts, this`socks
    {
      (set i | i in contexts :: contexts[i] as object) + (set i | i in socks :: socks[i] as object)
    }

    ghost predicate ContextAgrees(i: nat)
      requires i in contexts
      reads this, contexts[i]
    {
      var c := contexts[i];
      && i < contextCount && c.id == i && i in net.contexts && c.Value() == net.contexts[i]
      && (c.sockets.Some? ==> forall s :: s in c.sockets.value ==> Lists(s))
    }

    ghost predicate SocketAgrees(i: nat)
      requires i in socks
      reads this, socks[i]
    {
      var s := socks[i];
      && i < socketCount && s.id == i && i in net.socks && s.Value() == net.socks[i]
      && (s.context != null ==> Points(s.context))
    }

    /** A pointer goes to the wrapper of that id, unless that wrapper has been freed. */
    ghost predicate Points(c: ContextWrapper)
      reads this`contexts, this`contextCount
    {
      c.id < contextCount && (c.id in contexts ==> contexts[c.id] == c)
    }

    ghost predicate Lists(s: SocketWrapper)
      reads this`socks, this`socketCount
    {
      s.id < socketCount && (s.id in socks ==> socks[s.id] == s)
    }

    predicate Has(s: SocketWrapper)
      reads this`socks
    {
      s.id in socks && socks[s.id] == s
    }

    predicate HasContext(c: ContextWrapper)
      reads this`contexts
    {
      c.id in contexts && contexts[c.id] == c
    }

    lemma ReadSocket(s: SocketWrapper)
      requires Agrees() && Has(s)
      ensures s.id in net.socks && s.Value() == net.socks[s.id] && Lists(s)
      ensures s.context != null ==> Points(s.context)
    {
      assert SocketAgrees(s.id);
    }

    lemma ReadContext(c: ContextWrapper)
      requires Agrees() && HasContext(c)
      ensures c.id in net.contexts && c.Value() == net.contexts[c.id] && Points(c)
      ensures c.sockets.Some? ==> forall s :: s in c.sockets.value ==> Lists(s)
    {
      assert ContextAgrees(c.id);
    }

    // -------------------------------------------------------------------------------------------------------
    // Struct writes and native calls, one at a time
    // -------------------------------------------------------------------------------------------------------

    /** The four writes that end `rb_czmq_context_destroy_socket`. */
    method ShutSocket(s: SocketWrapper)
      requires Agrees() && Has(s) && s.id in net.socks
      modifies this`net, s
      ensures Agrees() && net == L.SetSock(old(net), s.id, L.Shut(old(net).socks[s.id]))
    {
      ReadSocket(s);
      s.destroyed, s.hasCtx, s.native, s.state := true, false, false, L.Disconnected;
      net := L.SetSock(net, s.id, L.Shut(net.socks[s.id]));
      forall i: nat | i in contexts ensures ContextAgrees(i) { assert old(ContextAgrees(i)); }
      forall i: nat | i in socks ensures SocketAgrees(i) { assert old(SocketAgrees(i)); }
    }

    method WriteState(s: SocketWrapper, state: L.SocketState)
      requires Agrees() && Has(s) && s.id in net.socks
      modifies this`net, s`state
      ensures Agrees() && net == L.SetSock(old(net), s.id, old(net).socks[s.id].(state := state))
    {
      ReadSocket(s);
      s.state := state;
      net := L.SetSock(net, s.id, net.socks[s.id].(state := state));
      forall i: nat | i in contexts ensures ContextAgrees(i) { assert old(ContextAgrees(i)); }
      forall i: nat | i in socks ensures SocketAgrees(i) { assert old(SocketAgrees(i)); }
    }

    method WriteEndpoints(s: SocketWrapper, endpoints: seq<string>)
      requires Agrees() && Has(s) && s.id in net.socks
      modifies this`net, s`endpoints
      ensures Agrees() && net == L.SetSock(old(net), s.id, old(net).socks[s.id].(endpoints := endpoints))
    {
      ReadSocket(s);
      s.endpoints := endpoints;
      net := L.SetSock(net, s.id, net.socks[s.id].(endpoints := endpoints));
      forall i: nat | i in contexts ensures ContextAgrees(i) { assert old(ContextAgrees(i)); }
      forall i: nat | i in socks ensures SocketAgrees(i) { assert old(SocketAgrees(i)); }
    }

    method WriteContext(c: ContextWrapper, native: bool, destroyed: bool, sockets: Option<seq<SocketWrapper>>)
      requires Agrees() && HasContext(c) && (sockets.Some? ==> forall s :: s in sockets.value ==> Lists(s))
      modifies this`net, c
      ensures Agrees() && net == L.SetCtx(old(net), c.id, c.Value())
      ensures c.native == native && c.destroyed == destroyed && c.sockets == sockets
    {
      c.native, c.destroyed, c.sockets := native, destroyed, sockets;
      net := L.SetCtx(net, c.id, c.Value());
      forall i: nat | i in contexts ensures ContextAgrees(i) { assert old(ContextAgrees(i)); }
      forall i: nat | i in socks ensures SocketAgrees(i) { assert old(SocketAgrees(i)); }
    }

    /** zlist_push: the new socket becomes the first of its context's list. */
    method ZlistPush(c: ContextWrapper, s: SocketWrapper)
      requires Agrees() && HasContext(c) && c.sockets.Some? && Lists(s)
      requires c.id in net.contexts && net.contexts[c.id].sockets.Some?
      modifies this`net, c
      ensures Agrees()
      ensures var ctx := old(net).contexts[c.id];
              net == L.SetCtx(old(net), c.id, ctx.(sockets := Some([s.id] + ctx.sockets.value)))
    {
      ReadContext(c);
      assert Ids([s] + c.sockets.value) == [s.id] + Ids(c.sockets.value);
      WriteContext(c, c.native, c.destroyed, Some([s] + c.sockets.value));
    }

    /** zsocket_destroy */
    method ZsocketDestroy(s: SocketWrapper)
      requires Agrees()
      modifies this`net, this`closed
      ensures Agrees() && net == old(net).(closed := old(net).closed + multiset{s.id})
    {
      closed := closed + multiset{s.id};
      net := net.(closed := closed);
      forall i: nat | i in contexts ensures ContextAgrees(i) { assert old(ContextAgrees(i)); }
      forall i: nat | i in socks ensures SocketAgrees(i) { assert old(SocketAgrees(i)); }
    }

    /** zctx_destroy */
    method ZctxDestroy(c: ContextWrapper)
      requires Agrees()
      modifies this`net, this`terminated
      ensures Agrees() && net == old(net).(terminated := old(net).terminated + multiset{c.id})
    {
      terminated := terminated + multiset{c.id};
      net := net.(terminated := terminated);
      forall i: nat | i in contexts ensures ContextAgrees(i) { assert old(ContextAgrees(i)); }
      forall i: nat | i in socks ensures SocketAgrees(i) { assert old(SocketAgrees(i)); }
    }

    method ClearEntry(p: nat)
      requires Agrees()
      modifies this`net, this`entry
      ensures Agrees() && net == old(net).(entry := old(net).entry - {p})
    {
      entry := entry - {p};
      net := net.(entry := net.entry - {p});
      forall i: nat | i in contexts ensures ContextAgrees(i) { assert old(ContextAgrees(i)); }
      forall i: nat | i in socks ensures SocketAgrees(i) { assert old(SocketAgrees(i)); }
    }

    method EraseContext(c: ContextWrapper)
      requires Agrees() && HasContext(c)
      modifies this`net, this`contexts
      ensures Agrees() && net == old(net).(contexts := old(net).contexts - {c.id})
      ensures fresh(Objects() - old(Objects()))
    {
      contexts := contexts - {c.id};
      net := net.(contexts := net.contexts - {c.id});
      forall i: nat | i in contexts ensures ContextAgrees(i) { assert old(ContextAgrees(i)); }
      forall i: nat | i in socks ensures SocketAgrees(i) { assert old(SocketAgrees(i)); }
    }

    method EraseSocket(s: SocketWrapper)
      requires Agrees() && Has(s)
      modifies this`net, this`socks
      ensures Agrees() && net == old(net).(socks := old(net).socks - {s.id})
      ensures fresh(Objects() - old(Objects()))
    {
      socks := socks - {s.id};
      net := net.(socks := net.socks - {s.id});
      forall i: nat | i in contexts ensures ContextAgrees(i) { assert old(ContextAgrees(i)); }
      forall i: nat | i in socks ensures SocketAgrees(i) { assert old(SocketAgrees(i)); }
    }

    /** `rb_czmq_socket_alloc`: a wrapper for a new native socket. */
    method SocketAlloc(context: ContextWrapper?, hasCtx: bool) returns (s: SocketWrapper)
      requires Agrees() && (context != null ==> Points(context))
      modifies this`net, this`socks, this`socketCount
      ensures Agrees() && fresh(s) && Has(s) && s.id == old(socketCount) && s.id !in old(net).born && Lists(s)
      ensures var c := if context == null then None else Some(context.id);
              net == L.SetSock(old(net), s.id, L.Sock(c, hasCtx, true, false, L.Pending, []))
                     .(born := old(net).born[s.id := c])
      ensures fresh(Objects() - old(Objects()))
    {
      s := new SocketWrapper(socketCount, context, hasCtx);
      socks := socks[s.id := s];
      socketCount := socketCount + 1;
      net := L.SetSock(net, s.id, s.Value()).(born := net.born[s.id := s.Value().context]);
      forall i: nat | i in contexts ensures ContextAgrees(i) { assert old(ContextAgrees(i)); }
      forall i: nat | i in socks ensures SocketAgrees(i) { if i != s.id { assert old(SocketAgrees(i)); } }
    }

    // -------------------------------------------------------------------------------------------------------
    // context.c
    // -------------------------------------------------------------------------------------------------------

    /** zlist_remove: takes the first entry equal to `s` out, if there is one. */
    method ZlistRemove(list: seq<SocketWrapper>, s: SocketWrapper) returns (r: seq<SocketWrapper>)
      requires forall x :: x in list && x.id == s.id ==> x == s
      ensures Ids(r) == RemoveFirst(Ids(list), s.id) && forall x :: x in r ==> x in list
    {
      var i := 0;
      while i < |list| && list[i] != s
        invariant i <= |list|
        invariant s.id !in Ids(list)[..i]
      {
        assert list[i] in list;
        assert Ids(list)[..i + 1] == Ids(list)[..i] + [list[i].id];
        i := i + 1;
      }
      if i < |list| {
        r := list[..i] + list[i + 1..];
        assert Ids(r) == Ids(list)[..i] + Ids(list)[i + 1..];
        RemoveFirstIs(Ids(list), s.id, i);
      } else {
        r := list;
        assert Ids(list)[..i] == Ids(list);
        RemoveFirstAbsent(Ids(list), s.id);
      }
    }

    /** `rb_czmq_context_destroy_socket` */
    method DestroySocket(s: SocketWrapper)
      requires Agrees() && Has(s) && L.DestroySocket(net, s.id).Some?
      modifies this`net, this`closed, s, contexts.Values
      ensures Agrees() && Some(net) == L.DestroySocket(old(net), s.id)
    {
      ReadSocket(s);
      if s.context != null && s.hasCtx && !s.destroyed {
        var ctx := s.context;
        ReadContext(ctx);
        var left := ZlistRemove(ctx.sockets.value, s);
        WriteContext(ctx, ctx.native, ctx.destroyed, Some(left));
        if s.native { ZsocketDestroy(s); }
      }
      ShutSocket(s);
    }

    /** One turn of the drain loop: pop a socket and destroy it. */
    method DrainOne(c: ContextWrapper)
      requires Agrees() && HasContext(c) && L.Drain(net, c.id).Some?
      requires c.sockets.Some? && c.sockets.value != []
      modifies this`net, this`closed, contexts.Values, socks.Values
      ensures Agrees() && L.Drain(net, c.id) == old(L.Drain(net, c.id))
      ensures c.sockets.Some? && |c.sockets.value| < old(|c.sockets.value|)
    {
      ReadContext(c);
      var s := c.sockets.value[0];
      assert s in c.sockets.value;
      ghost var was := net;
      R.DrainUnfolds(net, c.id);
      WriteContext(c, c.native, c.destroyed, Some(c.sockets.value[1..]));
      assert Ids(c.sockets.value) == was.contexts[c.id].sockets.value[1..];
      DestroySocket(s);
      ReadContext(c);
    }

    /** The drain loop of `rb_czmq_free_ctx`: until the list is empty. */
    method Drain(c: ContextWrapper)
      requires Agrees() && HasContext(c) && L.Drain(net, c.id).Some?
      modifies this`net, this`closed, contexts.Values, socks.Values
      ensures Agrees() && Some(net) == L.Drain(old(net), c.id)
    {
      ReadContext(c);
      while c.sockets.value != []
        invariant Agrees() && c.id in net.contexts && c.sockets.Some?
        invariant L.Drain(net, c.id) == old(L.Drain(net, c.id))
        decreases |c.sockets.value|
      {
        DrainOne(c);
      }
      ReadContext(c);
    }

    /** `rb_czmq_free_ctx` */
    method FreeContext(c: ContextWrapper)
      requires Agrees() && HasContext(c) && L.FreeContext(net, c.id).Some?
      modifies this`net, this`closed, this`terminated, this`entry, contexts.Values, socks.Values
      ensures Agrees() && Some(net) == L.FreeContext(old(net), c.id) && HasContext(c)
    {
      Drain(c);
      ReadContext(c);
      if c.pid == pid { ZctxDestroy(c); }
      ClearEntry(c.pid);
      WriteContext(c, false, true, None);
    }

    /** A wrapper for a new native context. */
    method ContextAlloc() returns (c: ContextWrapper)
      requires Agrees()
      modifies this`net, this`contexts, this`contextCount
      ensures Agrees() && fresh(c) && HasContext(c) && c.id == old(contextCount) && c.pid == pid
      ensures net == L.SetCtx(old(net), c.id, L.Ctx(true, false, pid, Some([]))).(contextCount := c.id + 1)
      ensures fresh(Objects() - old(Objects()))
    {
      c := new ContextWrapper(contextCount, pid);
      contexts := contexts[c.id := c];
      contextCount := contextCount + 1;
      net := L.SetCtx(net, c.id, L.Ctx(true, false, pid, Some([]))).(contextCount := contextCount);
      forall i: nat | i in contexts ensures ContextAgrees(i) { if i != c.id { assert old(ContextAgrees(i)); } }
      forall i: nat | i in socks ensures SocketAgrees(i) { assert old(SocketAgrees(i)); }
    }

    method EnterContext(c: ContextWrapper)
      requires Agrees() && HasContext(c)
      modifies this`net, this`entry
      ensures Agrees() && net == old(net).(entry := old(net).entry[pid := c.id])
    {
      entry := entry[pid := c];
      net := net.(entry := net.entry[pid := c.id]);
      forall i: nat | i in contexts ensures ContextAgrees(i) { assert old(ContextAgrees(i)); }
      forall i: nat | i in socks ensures SocketAgrees(i) { assert old(SocketAgrees(i)); }
    }

    /** A new context, entered as that of the process. */
    method EnterNew() returns (c: ContextWrapper)
      requires Agrees()
      modifies this`net, this`contexts, this`entry, this`contextCount
      ensures Agrees() && fresh(c) && HasContext(c) && c.id == old(contextCount)
      ensures net == L.SetCtx(old(net), c.id, L.Ctx(true, false, pid, Some([])))
                     .(entry := old(net).entry[pid := c.id], contextCount := c.id + 1)
      ensures fresh(Objects() - old(Objects()))
    {
      c := ContextAlloc();
      EnterContext(c);
    }

    /** `ZMQ::Context.new` */
    method NewContext(threads: L.Threads, einval: bool) returns (r: L.Answer, c: ContextWrapper?)
      requires Valid()
      modifies this`net, this`contexts, this`entry, this`contextCount
      ensures Valid() && L.Done(net, r) == L.NewContext(old(net), threads, einval)
      ensures r.Made? ==> c != null && fresh(c) && HasContext(c) && c.id == r.id
      ensures fresh(Objects() - old(Objects()))
    {
      R.NewContextKeepsInv(net, threads, einval);
      if pid in entry { return L.Raised, null; }
      c := EnterNew();
      r := if L.Unsettable(threads, einval) then L.Raised else L.Made(c.id);
      assert L.Done(net, r) == L.NewContext(old(net), threads, einval);
    }

    method DestroyContext(c: ContextWrapper) returns (r: L.Answer)
      requires Valid() && HasContext(c)
      modifies this`net, this`closed, this`terminated, this`entry, contexts.Values, socks.Values
      ensures Valid() && L.Done(net, r) == L.DestroyContext(old(net), c.id)
    {
      ReadContext(c);
      if c.destroyed || c.pid != pid { return L.Raised; }
      R.FreeContextKeepsInv(net, c.id);
      FreeContext(c);
      r := L.Nil;
    }

    /** `rb_czmq_free_ctx_gc` */
    method CollectContext(c: ContextWrapper)
      requires Valid() && HasContext(c)
      modifies this`net, this`contexts, this`closed, this`terminated, this`entry, contexts.Values, socks.Values
      ensures Valid() && L.Done(net, L.Nil) == L.CollectContext(old(net), c.id)
      ensures fresh(Objects() - old(Objects()))
    {
      R.CollectContextKeepsInv(net, c.id);
      FreeIfOpen(c);
      EraseContext(c);
    }

    method FreeIfOpen(c: ContextWrapper)
      requires Valid() && HasContext(c)
      modifies this`net, this`closed, this`terminated, this`entry, contexts.Values, socks.Values
      ensures Agrees() && HasContext(c)
      ensures Some(net) == if old(c.native && !c.destroyed) then L.FreeContext(old(net), c.id) else Some(old(net))
      ensures old(c.id in net.contexts && c.native == net.contexts[c.id].native
                  && c.destroyed == net.contexts[c.id].destroyed)
    {
      ReadContext(c);
      if c.native && !c.destroyed {
        R.FreeContextKeepsInv(net, c.id);
        FreeContext(c);
      }
    }

    /** The native socket is there, and no wrapper will be. */
    method Stray(c: ContextWrapper)
      requires Agrees()
      modifies this`net, this`strays
      ensures Agrees() && net == old(net).(strays := old(net).strays + multiset{c.id})
    {
      strays := strays + multiset{c.id};
      net := net.(strays := strays);
      forall i: nat | i in contexts ensures ContextAgrees(i) { assert old(ContextAgrees(i)); }
      forall i: nat | i in socks ensures SocketAgrees(i) { assert old(SocketAgrees(i)); }
    }

    /** `ctx.socket(type)` */
    method NewSocket(c: ContextWrapper, socketType: L.SocketType) returns (r: L.Answer, s: SocketWrapper?)
      requires Valid() && HasContext(c)
      modifies this`net, this`socks, this`socketCount, this`strays, c
      ensures Valid() && old(socketCount) !in old(net).born
      ensures L.Done(net, r) == L.NewSocket(old(net), c.id, old(socketCount), socketType)
      ensures r.Made? ==> s != null && fresh(s) && Has(s) && s.id == r.id
      ensures fresh(Objects() - old(Objects()))
    {
      ReadContext(c);
      R.NewSocketKeepsInv(net, c.id, socketCount, socketType);
      if c.destroyed || c.pid != pid || socketType.NoType? { return L.Raised, null; }
      if socketType.Unclassed? {
        Stray(c);
        return L.Raised, null;
      }
      assert R.CtxOk(net, c.id);
      s := SocketAlloc(c, c.native);
      ReadContext(c);
      ZlistPush(c, s);
      r := L.Made(s.id);
    }

    /** `ZMQ::Beacon#pipe` */
    method NewPipe() returns (r: L.Answer, s: SocketWrapper)
      requires Valid()
      modifies this`net, this`socks, this`socketCount
      ensures Valid() && old(socketCount) !in old(net).born
      ensures L.Done(net, r) == L.NewPipe(old(net), old(socketCount)) && fresh(s) && Has(s)
      ensures fresh(Objects() - old(Objects()))
    {
      R.NewPipeKeepsInv(net, socketCount);
      s := SocketAlloc(null, false);
      ghost var alloced := net.socks[s.id];
      WriteState(s, L.Bound);
      R.SetTwice(old(net), s.id, alloced, net.socks[s.id]);
      assert net == L.NewPipe(old(net), old(socketCount)).net;
      r := L.Made(s.id);
    }

    /** `sock.close` */
    method Close(s: SocketWrapper, sameThread: bool) returns (r: L.Answer)
      requires Valid() && Has(s)
      modifies this`net, this`closed, s, contexts.Values
      ensures Valid() && L.Done(net, r) == L.Close(old(net), s.id, sameThread)
    {
      ReadSocket(s);
      R.CloseKeepsInv(net, s.id, sameThread);
      if s.destroyed || !sameThread { return L.Raised; }
      WriteState(s, L.Disconnected);
      DestroySocket(s);
      r := L.Nil;
    }

    /** `rb_czmq_free_sock_gc` */
    method CollectSocket(s: SocketWrapper)
      requires Valid() && Has(s)
      modifies this`net, this`socks, this`closed, s, contexts.Values
      ensures Valid() && L.Done(net, L.Nil) == L.CollectSocket(old(net), s.id)
      ensures fresh(Objects() - old(Objects()))
    {
      ReadSocket(s);
      R.CollectSocketKeepsInv(net, s.id);
      DestroySocket(s);
      EraseSocket(s);
    }

    // -------------------------------------------------------------------------------------------------------
    // Endpoints
    // -------------------------------------------------------------------------------------------------------

    /** The state of an open socket. */
    method SetState(s: SocketWrapper, state: L.SocketState)
      requires Valid() && Has(s) && net.Open(s.id)
      modifies this`net, s`state
      ensures Valid() && net == L.SetSock(old(net), s.id, old(net).socks[s.id].(state := state))
    {
      R.RestateKeepsInv(net, s.id, state, net.socks[s.id].endpoints);
      WriteState(s, state);
    }

    /** The endpoints of an open socket. */
    method SetEndpoints(s: SocketWrapper, endpoints: seq<string>)
      requires Valid() && Has(s) && net.Open(s.id)
      modifies this`net, s`endpoints
      ensures Valid() && net == L.SetSock(old(net), s.id, old(net).socks[s.id].(endpoints := endpoints))
    {
      R.RestateKeepsInv(net, s.id, net.socks[s.id].state, endpoints);
      WriteEndpoints(s, endpoints);
    }

    /** `sock.bind` and `sock.connect` */
    method Attach(s: SocketWrapper, sameThread: bool, state: L.SocketState, verdict: Verdict, last: Option<string>)
      returns (r: L.Answer)
      requires Valid() && Has(s)
      modifies this`net, s
      ensures Valid() && L.Done(net, r) == L.Attach(old(net), s.id, sameThread, state, verdict, last)
    {
      ReadSocket(s);
      if s.destroyed || !sameThread { return L.Raised; }
      if !verdict.Accepted? { return if verdict.TryAgain? then L.False else L.Raised; }
      var endpoints := s.endpoints;
      ghost var before := net;
      ghost var bound := before.socks[s.id].(state := state);
      SetState(s, state);
      match last
      case None => r := L.Raised;
      case Some(e) =>
        SetEndpoints(s, endpoints + [e]);
        R.SetTwice(before, s.id, bound, bound.(endpoints := endpoints + [e]));
        r := L.True;
    }

    /** `sock.disconnect` and `sock.unbind` */
    method Detach(s: SocketWrapper, sameThread: bool, endpoint: string, verdict: Verdict) returns (r: L.Answer)
      requires Valid() && Has(s)
      modifies this`net, s
      ensures Valid() && L.Done(net, r) == L.Detach(old(net), s.id, sameThread, endpoint, verdict)
    {
      ReadSocket(s);
      if s.destroyed || !sameThread { return L.Raised; }
      if !verdict.Accepted? { return if verdict.TryAgain? then L.False else L.Raised; }
      var left := ArrayDelete(s.endpoints, endpoint);
      ghost var before := net;
      ghost var detached := before.socks[s.id].(endpoints := left);
      SetEndpoints(s, left);
      if |left| == 0 {
        SetState(s, L.Disconnected);
        R.SetTwice(before, s.id, detached, detached.(state := L.Disconnected));
      }
      r := L.True;
    }

    /** The guard of every send and receive. */
    method Admitted(s: SocketWrapper, sameThread: bool) returns (b: bool)
      requires Valid() && Has(s)
      ensures b == L.Admitted(net, s.id, sameThread)
    {
      ReadSocket(s);
      b := !s.destroyed && (s.state.Bound? || s.state.Connected?) && sameThread;
    }

    /** fork: the run goes on in the child, under its own process id. */
    method Fork(child: nat)
      requires Valid()
      modifies this`net, this`pid
      ensures Valid() && L.Done(net, L.Nil) == L.Do(old(net), L.OpFork(child))
    {
      R.BystandersKeepInv(net, child, net.strays);
      pid := child;
      net := net.(pid := child);
      forall i: nat | i in contexts ensures ContextAgrees(i) { assert old(ContextAgrees(i)); }
      forall i: nat | i in socks ensures SocketAgrees(i) { assert old(SocketAgrees(i)); }
    }

    // -------------------------------------------------------------------------------------------------------
    // Runs of calls
    // -------------------------------------------------------------------------------------------------------

    function ContextAt(i: nat): (c: ContextWrapper)
      requires Agrees() && i in contexts
      reads this, contexts.Values, socks.Values
      ensures HasContext(c) && c.id == i && c in Objects()
    {
      assert ContextAgrees(i);
      contexts[i]
    }

    function SocketAt(i: nat): (s: SocketWrapper)
      requires Agrees() && i in socks
      reads this, contexts.Values, socks.Values
      ensures Has(s) && s.id == i && s in Objects()
    {
      assert SocketAgrees(i);
      socks[i]
    }

    method PerformSocket(op: L.Op) returns (r: L.Answer)
      requires Valid() && L.Enabled(net, op)
      requires op.OpClose? || op.OpCollectSocket? || op.OpBind? || op.OpConnect? || op.OpUnbind? || op.OpDisconnect?
      modifies this, Objects()
      ensures Valid() && L.Done(net, r) == L.Do(old(net), op) && fresh(Objects() - old(Objects()))
    {
      var s := SocketAt(op.s);
      match op
      case OpClose(_, sameThread) => r := Close(s, sameThread);
      case OpCollectSocket(_) => CollectSocket(s); r := L.Nil;
      case OpBind(_, sameThread, verdict, last) => r := Attach(s, sameThread, L.Bound, verdict, last);
      case OpConnect(_, sameThread, verdict, last) => r := Attach(s, sameThread, L.Connected, verdict, last);
      case OpUnbind(_, sameThread, verdict, endpoint) => r := Detach(s, sameThread, endpoint, verdict);
      case OpDisconnect(_, sameThread, verdict, endpoint) => r := Detach(s, sameThread, endpoint, verdict);
    }

    method PerformCreation(op: L.Op) returns (r: L.Answer)
      requires Valid() && L.Enabled(net, op) && NamesNext(net, op)
      requires op.OpNewContext? || op.OpNewSocket? || op.OpNewPipe?
      modifies this, Objects()
      ensures Valid() && L.Done(net, r) == L.Do(old(net), op) && fresh(Objects() - old(Objects()))
    {
      match op
      case OpNewContext(threads, einval) =>
        var c;
        r, c := NewContext(threads, einval);
      case OpNewSocket(c, _, socketType) =>
        var s;
        r, s := NewSocket(ContextAt(c), socketType);
      case OpNewPipe(_) =>
        var s;
        r, s := NewPipe();
    }

    method PerformContext(op: L.Op) returns (r: L.Answer)
      requires Valid() && L.Enabled(net, op)
      requires op.OpDestroyContext? || op.OpCollectContext? || op.OpFork?
      modifies this, Objects()
      ensures Valid() && L.Done(net, r) == L.Do(old(net), op) && fresh(Objects() - old(Objects()))
    {
      match op
      case OpDestroyContext(c) => r := DestroyContext(ContextAt(c));
      case OpCollectContext(c) => CollectContext(ContextAt(c)); r := L.Nil;
      case OpFork(child) => Fork(child); r := L.Nil;
    }

    /** One call of the program, or one finaliser, on the objects. */
    method Perform(op: L.Op) returns (r: L.Answer)
      requires Valid() && L.Enabled(net, op) && NamesNext(net, op)
      modifies this, Objects()
      ensures Valid() && L.Done(net, r) == L.Do(old(net), op) && fresh(Objects() - old(Objects()))
    {
      if op.OpClose? || op.OpCollectSocket? || op.OpBind? || op.OpConnect? || op.OpUnbind? || op.OpDisconnect? {
        r := PerformSocket(op);
      } else if op.OpNewContext? || op.OpNewSocket? || op.OpNewPipe? {
        r := PerformCreation(op);
      } else {
        r := PerformContext(op);
      }
    }

    /** Any run of calls and finalisers, in any order, on the objects: no dead pointer is followed, and they end in the
        state the run ends in. */
    method PerformAll(ops: seq<L.Op>) returns (answers: seq<L.Answer>)
      requires Valid() && R.CanRun(net, ops) && NamesInOrder(net, ops)
      modifies this, Objects()
      ensures Valid() && Some(net) == R.Run(old(net), ops) && |answers| == |ops|
      decreases |ops|
    {
      if ops == [] { return []; }
      R.StepKeepsInv(net, ops[0]);
      var first := Perform(ops[0]);
      var others := PerformAll(ops[1..]);
      answers := [first] + others;
    }
  }

  ghost predicate NamedUpTo(born: map<nat, Option<nat>>, n: nat) {
    forall s: nat :: s in born <==> s < n
  }

  /** A new socket is named by the first number that no socket has had. */
  ghost predicate NamesNext(w: L.Net, op: L.Op) {
    op.OpNewSocket? || op.OpNewPipe? ==> op.s !in w.born && forall x: nat :: x < op.s ==> x in w.born
  }

  ghost predicate NamesInOrder(w: L.Net, ops: seq<L.Op>)
    requires R.CanRun(w, ops)
    decreases |ops|
  {
    ops != [] ==> NamesNext(w, ops[0]) && (L.Do(w, ops[0]).Done? ==> NamesInOrder(L.Do(w, ops[0]).net, ops[1..]))
  }
}
