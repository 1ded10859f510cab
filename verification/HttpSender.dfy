/** The sender (internal/cm/httpsender.go): a last-wins buffer between the manager and the
    managers of the calling services. */
module HttpSender {
  import opened CmTypes
  import opened Cache

  datatype Outgoing<R> =
    | HttpSendSaveCalls(caller: ServiceName, callArgsList: seq<CallArgs>, returnVals: seq<R>)
    | HttpSendInvalidateCall(invSet: CallsAndCallers)

  datatype BufferElement<R> = BufferElement(invSet: set<CallArgs>, saveMap: map<CallArgs, R>)

  type Buffer<R> = map<ServiceName, BufferElement<R>>

  predicate ListsMatch<R>(out: Outgoing<R>) {
    out.HttpSendSaveCalls? ==> |out.callArgsList| <= |out.returnVals|
  }

  function ElementOf<R>(b: Buffer<R>, caller: ServiceName): BufferElement<R> {
    if caller in b then b[caller] else BufferElement({}, map[])
  }

  function WithSaves<R>(el: BufferElement<R>, saves: map<CallArgs, R>): BufferElement<R> {
    BufferElement(el.invSet - saves.Keys, el.saveMap + saves)
  }

  function WithInvs<R>(el: BufferElement<R>, calls: set<CallArgs>): BufferElement<R> {
    BufferElement(el.invSet + calls, el.saveMap - calls)
  }

  function AddRequest<R>(b: Buffer<R>, out: Outgoing<R>): Buffer<R>
    requires ListsMatch(out)
  {
    match out
    case HttpSendSaveCalls(caller, cas, rets) => b[caller := WithSaves(ElementOf(b, caller), PairUp(cas, rets))]
    case HttpSendInvalidateCall(invSet) =>
      map c | c in b.Keys + invSet.Keys :: if c in invSet then WithInvs(ElementOf(b, c), invSet[c]) else b[c]
  }

  /** What flushing an element does to its caller's cache. */
  function ApplyElement<R>(el: BufferElement<R>, cache: map<CallArgs, R>): map<CallArgs, R> {
    (cache - el.invSet) + el.saveMap
  }

  /** What a request would do to the cache of `caller` if it were delivered on its own. */
  function ApplyOutgoing<R>(out: Outgoing<R>, caller: ServiceName, cache: map<CallArgs, R>): map<CallArgs, R>
    requires ListsMatch(out)
  {
    match out
    case HttpSendSaveCalls(c, cas, rets) => if c == caller then cache + PairUp(cas, rets) else cache
    case HttpSendInvalidateCall(invSet) => if caller in invSet then cache - invSet[caller] else cache
  }

  function ApplyAllOutgoing<R>(outs: seq<Outgoing<R>>, caller: ServiceName, cache: map<CallArgs, R>): map<CallArgs, R>
    requires forall i :: 0 <= i < |outs| ==> ListsMatch(outs[i])
  {
    if outs == [] then cache else ApplyOutgoing(Last(outs), caller, ApplyAllOutgoing(Front(outs), caller, cache))
  }

  predicate Disjoint<R>(b: Buffer<R>) {
    forall c :: c in b ==> b[c].invSet !! b[c].saveMap.Keys
  }

  lemma AddKeepsDisjoint<R>(b: Buffer<R>, out: Outgoing<R>)
    requires Disjoint(b) && ListsMatch(out)
    ensures Disjoint(AddRequest(b, out))
  {}

  /** Buffering a request and flushing later has the effect of delivering it last, on its own. */
  lemma AddCoalesces<R>(b: Buffer<R>, out: Outgoing<R>, caller: ServiceName, cache: map<CallArgs, R>)
    requires ListsMatch(out)
    ensures ApplyElement(ElementOf(AddRequest(b, out), caller), cache) ==
            ApplyOutgoing(out, caller, ApplyElement(ElementOf(b, caller), cache))
  {
    var el := ElementOf(b, caller);
    match out {
      case HttpSendSaveCalls(c, cas, rets) =>
        var saves := PairUp(cas, rets);
        assert (cache - (el.invSet - saves.Keys)) + (el.saveMap + saves) == ((cache - el.invSet) + el.saveMap) + saves;
      case HttpSendInvalidateCall(invSet) =>
        if caller in invSet {
          var calls := invSet[caller];
          assert (cache - (el.invSet + calls)) + (el.saveMap - calls) == ((cache - el.invSet) + el.saveMap) - calls;
        }
    }
  }

  // ---------- Flushing ----------

  ghost predicate IsInvMessage<R>(msgs: seq<Request<R>>, invSet: set<CallArgs>) {
    if invSet == {} then msgs == []
    else |msgs| == 1 && msgs[0].InvalidateCallsRequest? && Enumerates(msgs[0].calls, invSet)
  }

  ghost predicate IsSaveMessage<R>(msgs: seq<Request<R>>, saveMap: map<CallArgs, R>) {
    if saveMap == map[] then msgs == []
    else
      && |msgs| == 1 && msgs[0].SaveCallsRequest?
      && Enumerates(msgs[0].callArgsList, saveMap.Keys) && |msgs[0].returnVals| == |msgs[0].callArgsList|
      && forall i :: 0 <= i < |msgs[0].callArgsList| ==> msgs[0].returnVals[i] == saveMap[msgs[0].callArgsList[i]]
  }

  /** The messages a flush sends for one element: the invalidations, then the saves. */
  ghost predicate IsFlush<R(!new)>(msgs: seq<Request<R>>, el: BufferElement<R>) {
    exists invs: seq<Request<R>>, saves: seq<Request<R>> ::
      msgs == invs + saves && IsInvMessage(invs, el.invSet) && IsSaveMessage(saves, el.saveMap)
  }

  lemma {:induction false} PairUpRebuilds<R>(cas: seq<CallArgs>, rets: seq<R>, saveMap: map<CallArgs, R>)
    requires |cas| <= |rets|
    requires forall i :: 0 <= i < |cas| ==> cas[i] in saveMap && rets[i] == saveMap[cas[i]]
    ensures PairUp(cas, rets) == map c | c in cas :: saveMap[c]
  {
    if cas != [] {
      PairUpRebuilds(Front(cas), rets, saveMap);
      assert forall c :: c in cas <==> c in Front(cas) || c == Last(cas);
    }
  }

  lemma SaveMessageDelivers<R>(saves: seq<Request<R>>, saveMap: map<CallArgs, R>, cache: map<CallArgs, R>)
    requires IsSaveMessage(saves, saveMap)
    ensures AllWellFormed(saves) && DeliverAll(saves, cache) == cache + saveMap
  {
    if saveMap != map[] {
      var cas, rets := saves[0].callArgsList, saves[0].returnVals;
      var some :| some in saveMap;
      assert some in Elements(cas);
      forall i | 0 <= i < |cas| ensures cas[i] in saveMap {
        assert cas[i] in Elements(cas);
      }
      PairUpRebuilds(cas, rets, saveMap);
      assert (map c | c in cas :: saveMap[c]) == saveMap by {
        assert forall c :: c in cas <==> c in Elements(cas);
      }
      assert Front(saves) == [] && Last(saves) == saves[0];
      assert DeliverAll(Front(saves), cache) == cache;
    }
  }

  lemma InvMessageDelivers<R>(invs: seq<Request<R>>, invSet: set<CallArgs>, cache: map<CallArgs, R>)
    requires IsInvMessage(invs, invSet)
    ensures AllWellFormed(invs) && DeliverAll(invs, cache) == cache - invSet
  {
    if invSet != {} {
      var some :| some in invSet;
      assert some in Elements(invs[0].calls);
      assert Front(invs) == [] && Last(invs) == invs[0];
      assert DeliverAll(Front(invs), cache) == cache;
    }
  }

  /** A flush hands the caller exactly what was buffered, in whatever order the maps are listed. */
  lemma FlushDelivers<R(!new)>(msgs: seq<Request<R>>, el: BufferElement<R>, cache: map<CallArgs, R>)
    requires IsFlush(msgs, el)
    ensures AllWellFormed(msgs) && DeliverAll(msgs, cache) == ApplyElement(el, cache)
  {
    var invs: seq<Request<R>>, saves: seq<Request<R>> :|
      msgs == invs + saves && IsInvMessage(invs, el.invSet) && IsSaveMessage(saves, el.saveMap);
    InvMessageDelivers(invs, el.invSet, cache);
    SaveMessageDelivers(saves, el.saveMap, DeliverAll(invs, cache));
    DeliverAllConcat(invs, saves, cache);
  }

  /** The two messages of an element can be sent in either order. */
  lemma FlushOrderIrrelevant<R>(invs: seq<Request<R>>, saves: seq<Request<R>>, el: BufferElement<R>, cache: map<CallArgs, R>)
    requires IsInvMessage(invs, el.invSet) && IsSaveMessage(saves, el.saveMap) && el.invSet !! el.saveMap.Keys
    ensures AllWellFormed(invs + saves) && AllWellFormed(saves + invs)
    ensures DeliverAll(saves + invs, cache) == DeliverAll(invs + saves, cache)
  {
    InvMessageDelivers(invs, el.invSet, cache);
    SaveMessageDelivers(saves, el.saveMap, DeliverAll(invs, cache));
    DeliverAllConcat(invs, saves, cache);
    SaveMessageDelivers(saves, el.saveMap, cache);
    InvMessageDelivers(invs, el.invSet, DeliverAll(saves, cache));
    DeliverAllConcat(saves, invs, cache);
    assert (cache - el.invSet) + el.saveMap == (cache + el.saveMap) - el.invSet;
  }

  // ---------- The sender loop: any requests, any flush schedule ----------

  const HTTP_BATCH_LIMIT: nat := 1

  datatype SenderEvent<R> = Received(out: Outgoing<R>) | TimedOut

  datatype SenderState<R> = SenderState(buffer: Buffer<R>, sinceLastFlush: nat, sent: seq<(ServiceName, Request<R>)>)

  function SentTo<R>(sent: seq<(ServiceName, Request<R>)>, caller: ServiceName): seq<Request<R>> {
    if sent == [] then []
    else SentTo(Front(sent), caller) + if Last(sent).0 == caller then [Last(sent).1] else []
  }

  /** Every element has been sent to its caller, and nothing else. */
  ghost predicate Flushed<R(!new)>(b: Buffer<R>, before: seq<(ServiceName, Request<R>)>, after: seq<(ServiceName, Request<R>)>) {
    forall c :: FlushedAs(ElementOf(b, c), SentTo(before, c), SentTo(after, c))
  }

  ghost predicate FlushedAs<R(!new)>(el: BufferElement<R>, before: seq<Request<R>>, after: seq<Request<R>>) {
    exists msgs: seq<Request<R>> :: IsFlush(msgs, el) && after == before + msgs
  }

  ghost predicate SenderStep<R(!new)>(s: SenderState<R>, ev: SenderEvent<R>, s': SenderState<R>) {
    var b := if ev.Received? && ListsMatch(ev.out) then AddRequest(s.buffer, ev.out) else s.buffer;
    && (ev.Received? ==> ListsMatch(ev.out))
    && if ev.Received? && s.sinceLastFlush + 1 <= HTTP_BATCH_LIMIT
       then s' == SenderState(b, s.sinceLastFlush + 1, s.sent)
       else s'.buffer == map[] && s'.sinceLastFlush == 0 && Flushed(b, s.sent, s'.sent)
  }

  ghost predicate SenderRun<R(!new)>(states: seq<SenderState<R>>, evs: seq<SenderEvent<R>>) {
    && |states| == |evs| + 1 && states[0] == SenderState(map[], 0, [])
    && forall i :: 0 <= i < |evs| ==> SenderStep(states[i], evs[i], states[i + 1])
  }

  function Received<R>(evs: seq<SenderEvent<R>>): seq<Outgoing<R>> {
    if evs == [] then []
    else Received(Front(evs)) + if Last(evs).Received? then [Last(evs).out] else []
  }

  /** What a caller's cache will be once the messages sent and the buffer have reached it. */
  ghost predicate Faithful<R(!new)>(s: SenderState<R>, outs: seq<Outgoing<R>>, caller: ServiceName, cache: map<CallArgs, R>) {
    && (forall i :: 0 <= i < |outs| ==> ListsMatch(outs[i]))
    && AllWellFormed(SentTo(s.sent, caller))
    && ApplyElement(ElementOf(s.buffer, caller), DeliverAll(SentTo(s.sent, caller), cache)) == ApplyAllOutgoing(outs, caller, cache)
  }

  lemma FlushIsFaithful<R(!new)>(b: Buffer<R>, s: SenderState<R>, s': SenderState<R>, outs: seq<Outgoing<R>>, caller: ServiceName, cache: map<CallArgs, R>)
    requires Faithful(s.(buffer := b), outs, caller, cache)
    requires s'.buffer == map[] && Flushed(b, s.sent, s'.sent)
    ensures Faithful(s', outs, caller, cache)
  {
    var before, el := SentTo(s.sent, caller), ElementOf(b, caller);
    assert FlushedAs(el, before, SentTo(s'.sent, caller));
    var msgs: seq<Request<R>> :| IsFlush(msgs, el) && SentTo(s'.sent, caller) == before + msgs;
    FlushDelivers(msgs, el, DeliverAll(before, cache));
    DeliverAllConcat(before, msgs, cache);
    NothingBuffered(s'.buffer, caller, DeliverAll(before + msgs, cache));
  }

  lemma NothingBuffered<R>(b: Buffer<R>, caller: ServiceName, cache: map<CallArgs, R>)
    requires caller !in b
    ensures ApplyElement(ElementOf(b, caller), cache) == cache
  {
    assert (cache - {}) + map[] == cache;
  }

  /** At every moment, for every caller and whatever its cache first held: what was sent, then the
      buffer, amount to the requests received so far, applied one by one in arrival order. */
  lemma {:induction false} SenderRunIsFaithful<R(!new)>(states: seq<SenderState<R>>, evs: seq<SenderEvent<R>>, caller: ServiceName, cache: map<CallArgs, R>)
    requires SenderRun(states, evs)
    ensures Faithful(Last(states), Received(evs), caller, cache)
    ensures Disjoint(Last(states).buffer)
  {
    if evs == [] {
      NothingBuffered(Last(states).buffer, caller, cache);
    } else {
      var s, ev := states[|evs| - 1], Last(evs);
      assert Last(Front(states)) == s && SenderStep(s, ev, Last(states));
      SenderRunIsFaithful(Front(states), Front(evs), caller, cache);
      var b := if ev.Received? then AddRequest(s.buffer, ev.out) else s.buffer;
      var outs := Received(evs);
      if ev.Received? {
        AddCoalesces(s.buffer, ev.out, caller, DeliverAll(SentTo(s.sent, caller), cache));
        AddKeepsDisjoint(s.buffer, ev.out);
        assert Front(outs) == Received(Front(evs)) && Last(outs) == ev.out;
      } else {
        assert outs == Received(Front(evs));
      }
      if Last(states).buffer == map[] && Flushed(b, s.sent, Last(states).sent) {
        FlushIsFaithful(b, s, Last(states), outs, caller, cache);
      }
    }
  }

  /** So when the last event flushed, each caller's cache is that of the uncoalesced requests. */
  lemma CoalescingInvisible<R(!new)>(states: seq<SenderState<R>>, evs: seq<SenderEvent<R>>, caller: ServiceName, cache: map<CallArgs, R>)
    requires SenderRun(states, evs) && Last(states).buffer == map[]
    ensures AllWellFormed(SentTo(Last(states).sent, caller))
    ensures forall i :: 0 <= i < |Received(evs)| ==> ListsMatch(Received(evs)[i])
    ensures DeliverAll(SentTo(Last(states).sent, caller), cache) == ApplyAllOutgoing(Received(evs), caller, cache)
  {
    SenderRunIsFaithful(states, evs, caller, cache);
    NothingBuffered(Last(states).buffer, caller, DeliverAll(SentTo(Last(states).sent, caller), cache));
  }

  // ---------- When the sender flushes ----------

  predicate AllListsMatch<R>(outs: seq<Outgoing<R>>) {
    forall i :: 0 <= i < |outs| ==> ListsMatch(outs[i])
  }

  lemma RunPrefix<R(!new)>(states: seq<SenderState<R>>, evs: seq<SenderEvent<R>>, n: nat)
    requires SenderRun(states, evs) && n <= |evs|
    ensures SenderRun(states[..n + 1], evs[..n])
  {
    forall i | 0 <= i < n ensures SenderStep(states[..n + 1][i], evs[..n][i], states[..n + 1][i + 1]) {
      assert SenderStep(states[i], evs[i], states[i + 1]);
    }
  }

  /** After a timeout nothing is kept back: each caller has been sent all that was received for it. */
  lemma TimeoutSendsAll<R(!new)>(states: seq<SenderState<R>>, evs: seq<SenderEvent<R>>, i: nat, caller: ServiceName, cache: map<CallArgs, R>)
    requires SenderRun(states, evs) && i < |evs| && evs[i].TimedOut?
    ensures AllWellFormed(SentTo(states[i + 1].sent, caller))
    ensures AllListsMatch(Received(evs[..i + 1]))
    ensures DeliverAll(SentTo(states[i + 1].sent, caller), cache) == ApplyAllOutgoing(Received(evs[..i + 1]), caller, cache)
  {
    assert SenderStep(states[i], evs[i], states[i + 1]);
    RunPrefix(states, evs, i + 1);
    assert Last(states[..i + 2]) == states[i + 1];
    CoalescingInvisible(states[..i + 2], evs[..i + 1], caller, cache);
  }

  /** An odd number of requests was received since the last timeout. */
  predicate OddSinceTimeout<R>(evs: seq<SenderEvent<R>>) {
    evs != [] && Last(evs).Received? && !OddSinceTimeout(Front(evs))
  }

  /** A request is kept when it is the first since a flush; anything else empties the buffer. */
  lemma StepFlushes<R(!new)>(s: SenderState<R>, ev: SenderEvent<R>, s': SenderState<R>)
    requires SenderStep(s, ev, s')
    ensures if ev.Received? && s.sinceLastFlush == 0 then s'.sinceLastFlush == 1 && s'.sent == s.sent
            else s'.sinceLastFlush == 0 && s'.buffer == map[]
  {}

  lemma RunStep<R(!new)>(states: seq<SenderState<R>>, evs: seq<SenderEvent<R>>, i: nat)
    requires SenderRun(states, evs) && i < |evs|
    ensures if evs[i].Received? && states[i].sinceLastFlush == 0 then states[i + 1].sinceLastFlush == 1 && states[i + 1].sent == states[i].sent
            else states[i + 1].sinceLastFlush == 0 && states[i + 1].buffer == map[]
  {
    StepFlushes(states[i], evs[i], states[i + 1]);
  }

  lemma {:induction false} CountsInTwos<R(!new)>(states: seq<SenderState<R>>, evs: seq<SenderEvent<R>>, i: nat)
    requires SenderRun(states, evs) && i <= |evs|
    ensures states[i].sinceLastFlush == if OddSinceTimeout(evs[..i]) then 1 else 0
  {
    if i > 0 {
      CountsInTwos(states, evs, i - 1);
      RunStep(states, evs, i - 1);
      OneMoreEvent(evs, i - 1);
    }
  }

  lemma OneMoreEvent<R>(evs: seq<SenderEvent<R>>, i: nat)
    requires i < |evs|
    ensures OddSinceTimeout(evs[..i + 1]) <==> evs[i].Received? && !OddSinceTimeout(evs[..i])
  {
    assert Front(evs[..i + 1]) == evs[..i];
  }

  /** Every second request since the last timeout empties the buffer; the one before sends nothing. */
  lemma EverySecondRequestFlushes<R(!new)>(states: seq<SenderState<R>>, evs: seq<SenderEvent<R>>, i: nat)
    requires SenderRun(states, evs) && i < |evs| && evs[i].Received?
    ensures if OddSinceTimeout(evs[..i + 1]) then states[i + 1].sent == states[i].sent else states[i + 1].buffer == map[]
  {
    CountsInTwos(states, evs, i);
    RunStep(states, evs, i);
    OneMoreEvent(evs, i);
  }

  /** So of any two requests in a row one empties the buffer. */
  lemma OneOfTwoFlushes<R(!new)>(states: seq<SenderState<R>>, evs: seq<SenderEvent<R>>, i: nat)
    requires SenderRun(states, evs) && i + 1 < |evs| && evs[i].Received? && evs[i + 1].Received?
    ensures states[i + 1].buffer == map[] || states[i + 2].buffer == map[]
  {
    EverySecondRequestFlushes(states, evs, i);
    EverySecondRequestFlushes(states, evs, i + 1);
    OneMoreEvent(evs, i + 1);
  }

  // ---------- The object and its loop ----------

  class HttpSender<R(!new)> {
    var callers: map<ServiceName, BufferElement<R>>
    var sinceLastFlush: nat
    var sent: seq<(ServiceName, Request<R>)>

    ghost function State(): SenderState<R>
      reads this
    {
      SenderState(callers, sinceLastFlush, sent)
    }

    constructor ()
      ensures State() == SenderState(map[], 0, [])
    {
      callers, sinceLastFlush, sent := map[], 0, [];
    }

    method AddSaveCallsRequest(caller: ServiceName, cas: seq<CallArgs>, rets: seq<R>)
      requires |cas| <= |rets|
      modifies this`callers
      ensures callers == AddRequest(old(callers), HttpSendSaveCalls(caller, cas, rets))
    {
      var el := AddSaves(ElementOf(callers, caller), cas, rets);
      callers := callers[caller := el];
    }

    static method AddSaves(el: BufferElement<R>, cas: seq<CallArgs>, rets: seq<R>) returns (out: BufferElement<R>)
      requires |cas| <= |rets|
      ensures out == WithSaves(el, PairUp(cas, rets))
    {
      out := el;
      assert el.invSet - {} == el.invSet && el.saveMap + map[] == el.saveMap;
      for i := 0 to |cas|
        invariant out.invSet == el.invSet - PairUp(cas[..i], rets).Keys
        invariant out.saveMap == el.saveMap + PairUp(cas[..i], rets)
      {
        assert Front(cas[..i + 1]) == cas[..i];
        out := BufferElement(out.invSet - {cas[i]}, out.saveMap[cas[i] := rets[i]]);
      }
      assert cas[..|cas|] == cas;
    }

    method AddInvalidateRequest(invSet: CallsAndCallers)
      modifies this`callers
      ensures callers == AddRequest(old(callers), HttpSendInvalidateCall(invSet))
    {
      var left := invSet.Keys;
      while left != {}
        invariant left <= invSet.Keys
        invariant callers.Keys == old(callers).Keys + (invSet.Keys - left)
        invariant forall c :: c in callers ==>
          callers[c] == if c in invSet && c !in left then WithInvs(ElementOf(old(callers), c), invSet[c]) else old(callers)[c]
      {
        var caller :| caller in left;
        assert ElementOf(callers, caller) == ElementOf(old(callers), caller);
        var el := AddCalls(ElementOf(callers, caller), invSet[caller]);
        callers := callers[caller := el];
        left := left - {caller};
      }
    }

    static method AddCalls(el: BufferElement<R>, calls: set<CallArgs>) returns (out: BufferElement<R>)
      ensures out == WithInvs(el, calls)
    {
      out := el;
      var left := calls;
      assert el.invSet + {} == el.invSet && el.saveMap - {} == el.saveMap;
      while left != {}
        invariant left <= calls
        invariant out == WithInvs(el, calls - left)
      {
        var ca :| ca in left;
        out := BufferElement(out.invSet + {ca}, out.saveMap - {ca});
        left := left - {ca};
        assert out == WithInvs(el, calls - left);
      }
      assert calls - {} == calls;
    }

    method FlushBuffer()
      modifies this`callers, this`sent
      ensures callers == map[] && Flushed(old(callers), old(sent), sent)
    {
      ghost var b, before := callers, sent;
      NothingFlushed(b, before);
      while callers != map[]
        invariant PartlyFlushed(b, before, callers, sent)
        decreases callers.Keys
      {
        ghost var left, soFar := callers, sent;
        var caller :| caller in callers;
        var el := callers[caller];
        callers := callers - {caller};
        SendElement(caller, el);
        OneMoreFlushed(b, before, left, soFar, caller, sent);
      }
      AllFlushed(b, before, sent);
    }

    method SendElement(caller: ServiceName, el: BufferElement<R>)
      modifies this`sent
      ensures FlushedAs(el, SentTo(old(sent), caller), SentTo(sent, caller))
      ensures forall c :: c != caller ==> SentTo(sent, c) == SentTo(old(sent), c)
    {
      var msgs := Messages(el);
      ghost var before := sent;
      sent := sent + Addressed(caller, msgs);
      forall c ensures SentTo(sent, c) == SentTo(before, c) + if c == caller then msgs else [] {
        SentToOne(before, caller, msgs, c);
      }
    }

    static method Messages(el: BufferElement<R>) returns (msgs: seq<Request<R>>)
      ensures IsFlush(msgs, el)
    {
      var invs: seq<Request<R>>, saves: seq<Request<R>> := [], [];
      var invList := ToList(el.invSet);
      if |invList| > 0 {
        invs := [InvalidateCallsRequest(invList)];
      }
      assert IsInvMessage(invs, el.invSet) by {
        if el.invSet != {} { var ca :| ca in el.invSet; assert ca in Elements(invList); }
        if invList != [] { assert invList[0] in Elements(invList); }
      }
      var cas, rets := SaveMapToLists(el.saveMap);
      if |cas| > 0 {
        saves := [SaveCallsRequest(cas, rets)];
      }
      assert IsSaveMessage(saves, el.saveMap) by {
        if el.saveMap != map[] { var ca :| ca in el.saveMap; assert ca in Elements(cas); }
        if cas != [] { assert cas[0] in Elements(cas); }
      }
      msgs := invs + saves;
    }

    /** One pass of the endless loop. */
    method Iterate(ev: SenderEvent<R>)
      requires ev.Received? ==> ListsMatch(ev.out)
      modifies this
      ensures SenderStep(old(State()), ev, State())
    {
      match ev
      case Received(out) =>
        match out {
          case HttpSendSaveCalls(caller, cas, rets) => AddSaveCallsRequest(caller, cas, rets);
          case HttpSendInvalidateCall(invSet) => AddInvalidateRequest(invSet);
        }
        sinceLastFlush := sinceLastFlush + 1;
        if sinceLastFlush > HTTP_BATCH_LIMIT {
          FlushBuffer();
          sinceLastFlush := 0;
        }
      case TimedOut =>
        FlushBuffer();
        sinceLastFlush := 0;
    }
  }

  /** `left` has still to be flushed; the rest of `b` has been sent. */
  ghost predicate PartlyFlushed<R(!new)>(b: Buffer<R>, before: seq<(ServiceName, Request<R>)>, left: Buffer<R>, after: seq<(ServiceName, Request<R>)>) {
    forall c :: if c in left then ElementOf(b, c) == left[c] && SentTo(after, c) == SentTo(before, c)
                else FlushedAs(ElementOf(b, c), SentTo(before, c), SentTo(after, c))
  }

  lemma NothingFlushed<R(!new)>(b: Buffer<R>, before: seq<(ServiceName, Request<R>)>)
    ensures PartlyFlushed(b, before, b, before)
  {
    forall c | c !in b ensures FlushedAs(ElementOf(b, c), SentTo(before, c), SentTo(before, c)) {
      NothingToFlush<R>();
      assert SentTo(before, c) == SentTo(before, c) + [];
    }
  }

  lemma AllFlushed<R(!new)>(b: Buffer<R>, before: seq<(ServiceName, Request<R>)>, after: seq<(ServiceName, Request<R>)>)
    requires PartlyFlushed(b, before, map[], after)
    ensures Flushed(b, before, after)
  {}

  lemma OneMoreFlushed<R(!new)>(b: Buffer<R>, before: seq<(ServiceName, Request<R>)>, left: Buffer<R>, soFar: seq<(ServiceName, Request<R>)>,
                                caller: ServiceName, after: seq<(ServiceName, Request<R>)>)
    requires PartlyFlushed(b, before, left, soFar) && caller in left
    requires FlushedAs(left[caller], SentTo(soFar, caller), SentTo(after, caller))
    requires forall c :: c != caller ==> SentTo(after, c) == SentTo(soFar, c)
    ensures PartlyFlushed(b, before, left - {caller}, after)
  {}

  lemma NothingToFlush<R(!new)>()
    ensures IsFlush<R>([], BufferElement({}, map[]))
  {
    var none: seq<Request<R>> := [];
    assert IsInvMessage(none, {}) && IsSaveMessage(none, map[]);
    assert none == none + none;
  }

  function Addressed<R>(caller: ServiceName, msgs: seq<Request<R>>): seq<(ServiceName, Request<R>)> {
    seq(|msgs|, i requires 0 <= i < |msgs| => (caller, msgs[i]))
  }

  lemma {:induction false} SentToOne<R>(before: seq<(ServiceName, Request<R>)>, caller: ServiceName, msgs: seq<Request<R>>, c: ServiceName)
    ensures SentTo(before + Addressed(caller, msgs), c) == SentTo(before, c) + if c == caller then msgs else []
  {
    var all := before + Addressed(caller, msgs);
    if msgs == [] {
      assert all == before;
    } else {
      SentToOne(before, caller, Front(msgs), c);
      assert Front(all) == before + Addressed(caller, Front(msgs)) && Last(all) == (caller, Last(msgs));
      assert msgs == Front(msgs) + [Last(msgs)];
    }
  }

  method SaveMapToLists<R>(saveMap: map<CallArgs, R>) returns (cas: seq<CallArgs>, rets: seq<R>)
    ensures Enumerates(cas, saveMap.Keys) && |rets| == |cas|
    ensures forall i :: 0 <= i < |cas| ==> cas[i] in saveMap && rets[i] == saveMap[cas[i]]
  {
    cas, rets := [], [];
    var left := saveMap.Keys;
    while left != {}
      invariant left <= saveMap.Keys && Enumerates(cas, saveMap.Keys - left) && |rets| == |cas|
      invariant forall i :: 0 <= i < |cas| ==> cas[i] in saveMap && rets[i] == saveMap[cas[i]]
    {
      var ca :| ca in left;
      EnumeratesOneMore(cas, saveMap.Keys - left, ca);
      assert saveMap.Keys - left + {ca} == saveMap.Keys - (left - {ca});
      cas, rets := cas + [ca], rets + [saveMap[ca]];
      left := left - {ca};
    }
  }
}
