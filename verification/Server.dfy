/** The manager's loop (internal/cm/server.go): one transition for each message, and the drain of
    the invalidation buffer. */
module Server {
  import opened CmTypes
  import opened History
  import opened ManagerState
  import opened Cache
  import opened HttpSender

  datatype Config = Config(batchCallInvalidation: bool, loopVariable: LoopVariable)

  /** `held` is the channel of invalidation requests waiting for the ticker. */
  datatype Manager<R> = Manager(
    history: seq<HistoryItem>,
    keyDeps: map<Key, CallsAndCallers>,
    callDeps: map<CallArgs, CallsAndCallers>,
    cache: map<CallArgs, R>,
    held: seq<seq<CallArgs>>)

  function Initial<R>(): Manager<R> {
    Manager([], map[], map[], map[], [])
  }

  /** A message with the reading of the collection timer, or a tick with the order in which the
      merged calls were listed. */
  datatype Input<R> = Receive(request: Request<R>, gcDue: bool) | Tick(order: seq<CallArgs>)

  function Merged(held: seq<seq<CallArgs>>): set<CallArgs> {
    set r, c | r in held && c in r :: c
  }

  /** In batch mode an empty list of calls is buffered like any other, and the drain ignores it. */
  predicate Accepted<R>(cfg: Config, request: Request<R>) {
    WellFormed(request) || (cfg.batchCallInvalidation && request.InvalidateCallsRequest?)
  }

  ghost predicate Allowed<R>(cfg: Config, m: Manager<R>, input: Input<R>) {
    match input
    case Receive(request, _) => Accepted(cfg, request)
    case Tick(order) => Enumerates(order, Merged(m.held))
  }

  predicate Valid<R>(m: Manager<R>, end: Request<R>)
    requires end.EndRequest?
  {
    ScanVerdict(m.history, end.callArgs, Elements(end.keyDeps), Elements(end.callDeps))
  }

  function InvalidateCalls<R>(v: LoopVariable, m: Manager<R>, calls: seq<CallArgs>): Manager<R> {
    m.(history := m.history + LoggedAll(InvEvents(v, calls)),
       callDeps := m.callDeps - Elements(calls),
       cache := m.cache - Elements(calls))
  }

  function InvalidateCallsSends<R>(m: Manager<R>, calls: seq<CallArgs>): seq<Outgoing<R>> {
    if AnyIndexed(m.callDeps, calls) then [HttpSendInvalidateCall(Gather(m.callDeps, calls))] else []
  }

  function Next<R>(cfg: Config, m: Manager<R>, input: Input<R>): Manager<R>
    requires Allowed(cfg, m, input)
  {
    match input
    case Receive(StartRequest(ca), _) => m.(history := AppendCall(m.history, ca))
    case Receive(EndRequest(ca, caller, keys, calls, ret), gcDue) =>
      var h := AfterEnd(m.history, ca, gcDue);
      if Valid(m, input.request)
      then m.(history := h, keyDeps := Store(m.keyDeps, caller, ca, keys), callDeps := Store(m.callDeps, caller, ca, calls))
      else m.(history := h)
    case Receive(InvalidateKeyRequest(k, _), _) =>
      m.(history := m.history + [Logged(WriteKey(k))], keyDeps := m.keyDeps - {k})
    case Receive(InvalidateCallsRequest(calls), _) =>
      if cfg.batchCallInvalidation then m.(held := m.held + [calls]) else InvalidateCalls(cfg.loopVariable, m, calls)
    case Receive(SaveCallsRequest(_, _), _) => m.(cache := Deliver(input.request, m.cache))
    case Tick(order) =>
      if order == [] then m.(held := []) else InvalidateCalls(cfg.loopVariable, m, order).(held := [])
  }

  function Sends<R>(cfg: Config, m: Manager<R>, input: Input<R>): (outs: seq<Outgoing<R>>)
    ensures forall i :: 0 <= i < |outs| ==> ListsMatch(outs[i])
  {
    match input
    case Receive(EndRequest(ca, caller, keys, calls, ret), _) =>
      if Valid(m, input.request) then [HttpSendSaveCalls(caller, [ca], [ret])] else []
    case Receive(InvalidateKeyRequest(k, _), _) =>
      if k in m.keyDeps then [HttpSendInvalidateCall(m.keyDeps[k])] else []
    case Receive(InvalidateCallsRequest(calls), _) =>
      if cfg.batchCallInvalidation then [] else InvalidateCallsSends(m, calls)
    case Receive(_, _) => []
    case Tick(order) => InvalidateCallsSends(m, order)
  }

  // ---------- The object ----------

  class CacheManager<R(!new)> {
    const cfg: Config
    const state: State
    const cacheClient: CacheStore<R>
    var invalidateBuffer: seq<seq<CallArgs>>
    var httpQueue: seq<Outgoing<R>>

    ghost function Value(): Manager<R>
      reads this, state, cacheClient
    {
      Manager(state.history, state.keyDeps, state.callDeps, cacheClient.entries, invalidateBuffer)
    }

    constructor (cfg: Config)
      ensures this.cfg == cfg && Value() == Initial() && httpQueue == []
      ensures fresh(state) && fresh(cacheClient)
    {
      this.cfg := cfg;
      state := new State();
      cacheClient := new CacheStore<R>();
      invalidateBuffer, httpQueue := [], [];
    }

    /** One pass of the endless loop. */
    method ProcessOne(request: Request<R>, gcDue: bool)
      requires Accepted(cfg, request)
      modifies this, state, cacheClient
      ensures Value() == Next(cfg, old(Value()), Receive(request, gcDue))
      ensures httpQueue == old(httpQueue) + Sends(cfg, old(Value()), Receive(request, gcDue))
    {
      match request
      case StartRequest(ca) =>
        state.AppendCall(ca);
      case EndRequest(ca, caller, keys, calls, ret) =>
        var valid := state.ValidCall(ca, keys, calls, gcDue);
        if valid {
          httpQueue := httpQueue + [HttpSendSaveCalls(caller, [ca], [ret])];
          state.StoreDeps(caller, ca, keys, calls);
        }
      case InvalidateKeyRequest(k, _) =>
        state.AppendWrite(k);
        var saved, found := state.PopKeyDeps(k);
        if found {
          httpQueue := httpQueue + [HttpSendInvalidateCall(saved)];
        }
      case InvalidateCallsRequest(calls) =>
        if cfg.batchCallInvalidation {
          invalidateBuffer := invalidateBuffer + [calls];
        } else {
          InvalidateNow(calls);
        }
      case SaveCallsRequest(cas, rets) =>
        cacheClient.SaveCalls(cas, rets);
    }

    method InvalidateNow(calls: seq<CallArgs>)
      requires calls != []
      modifies this`httpQueue, state, cacheClient
      ensures Value() == InvalidateCalls(cfg.loopVariable, old(Value()), calls)
      ensures httpQueue == old(httpQueue) + InvalidateCallsSends(old(Value()), calls)
    {
      state.AppendInvCalls(cfg.loopVariable, calls);
      var callDeps, found := state.PopCallDeps(calls);
      if found {
        httpQueue := httpQueue + [HttpSendInvalidateCall(callDeps)];
      }
      cacheClient.RemoveCalls(calls);
    }

    /** Take requests from the channel until it is empty. */
    method DrainBuffer() returns (mergedCalls: set<CallArgs>)
      modifies this`invalidateBuffer
      ensures invalidateBuffer == [] && mergedCalls == Merged(old(invalidateBuffer))
    {
      ghost var held, i := invalidateBuffer, 0;
      mergedCalls := {};
      while invalidateBuffer != []
        invariant 0 <= i <= |held| && invalidateBuffer == held[i..] && mergedCalls == Merged(held[..i])
        decreases |invalidateBuffer|
      {
        var req := invalidateBuffer[0];
        invalidateBuffer := invalidateBuffer[1..];
        var calls := SliceToSet(req);
        mergedCalls := mergedCalls + calls;
        MergedOneMore(held, i);
        i := i + 1;
      }
      assert held[..|held|] == held;
    }

    method ProcessInvalidateBuffer() returns (ghost order: seq<CallArgs>)
      modifies this, state, cacheClient
      ensures Allowed(cfg, old(Value()), Tick(order))
      ensures Value() == Next(cfg, old(Value()), Tick(order))
      ensures httpQueue == old(httpQueue) + Sends(cfg, old(Value()), Tick(order))
    {
      var mergedCalls := DrainBuffer();
      var mergedCallSlice := ToList(mergedCalls);
      order := mergedCallSlice;
      if |mergedCallSlice| > 0 {
        InvalidateNow(mergedCallSlice);
      }
    }
  }

  lemma MergedOneMore(held: seq<seq<CallArgs>>, i: nat)
    requires i < |held|
    ensures Merged(held[..i + 1]) == Merged(held[..i]) + Elements(held[i])
  {
    assert forall r :: r in held[..i + 1] <==> r in held[..i] || r == held[i];
  }
}
