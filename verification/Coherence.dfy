/** A service, its store, its manager and its callers' caches as one system of independent steps,
    and the proof that what the callers will see is coherent with the store. */
module Coherence {
  import opened CmTypes
  import opened History
  import opened PlainLog
  import opened ManagerState
  import opened Cache
  import opened HttpSender
  import opened Server
  import opened Runs
  import opened Pipeline

  /** A read of a key returned its value after that many writes. */
  datatype Observation = Observation(key: Key, version: nat)

  /** A return value, with the reads of the service's own store that it was computed from. */
  datatype Response = Response(body: string, basis: set<Observation>)

  /** A read-only call being handled for another service. */
  datatype ActiveCall = ActiveCall(ca: CallArgs, caller: ServiceName, keyDeps: set<Key>, callDeps: set<CallArgs>, seen: set<Observation>)

  /** `owed` are the writes whose notification has not been sent yet. The manager's state is that
      after `inputs`, all it has processed. */
  datatype System = System(
    versions: map<Key, nat>,
    owed: multiset<Key>,
    active: map<CallId, ActiveCall>,
    wq: seq<Request<Response>>,
    inputs: seq<Input<Response>>,
    pipe: Pipe<Response>)

  datatype Action =
    | Write(key: Key)
    | Notify(key: Key, fromCM: bool)
    | Begin(id: CallId, ca: CallArgs, caller: ServiceName)
    | RecordKey(id: CallId, key: Key)
    | RecordCall(id: CallId, call: CallArgs)
    | Read(id: CallId, key: Key)
    | Finish(id: CallId, keys: seq<Key>, calls: seq<CallArgs>, body: string)
    | Peer(req: Request<Response>)
    | Process(gcDue: bool)
    | ManagerTick(order: seq<CallArgs>)
    | Move(step: PipeAction<Response>)

  function Version(versions: map<Key, nat>, k: Key): nat {
    if k in versions then versions[k] else 0
  }

  function Start(): System {
    System(map[], multiset{}, map[], [], [], Pipe([], map[], map[]))
  }

  /** H1: no call begins with the arguments of one still active. */
  predicate FreshArguments(s: System, ca: CallArgs) {
    !Handling(s.active, ca)
  }

  predicate Handling(active: map<CallId, ActiveCall>, ca: CallArgs) {
    exists id :: id in active && active[id].ca == ca
  }

  /** What the code can do. */
  ghost predicate Possible(cfg: Config, s: System, a: Action)
    requires Legal(cfg, s.inputs)
  {
    match a
    case Write(_) => true
    case Notify(k, _) => k in s.owed
    case Begin(id, _, _) => id !in s.active
    case RecordKey(id, _) => id in s.active
    case RecordCall(id, _) => id in s.active
    case Read(id, k) => id in s.active && k in s.active[id].keyDeps
    case Finish(id, keys, calls, _) =>
      id in s.active && Enumerates(keys, s.active[id].keyDeps) && Enumerates(calls, s.active[id].callDeps)
    case Peer(req) => !req.StartRequest? && !req.EndRequest?
    case Process(_) => s.wq != [] && Accepted(cfg, s.wq[0])
    case ManagerTick(order) => Allowed(cfg, After(cfg, s.inputs), Tick(order))
    case Move(step) => PipeEnabled(s.pipe, step)
  }

  ghost predicate Enabled(cfg: Config, s: System, a: Action)
    requires Legal(cfg, s.inputs)
  {
    MayHappen(cfg, iset{}, s, a)
  }

  /** Only arguments in `overlap` may be those of several active calls; with none, this is H1. */
  ghost predicate MayHappen(cfg: Config, overlap: iset<CallArgs>, s: System, a: Action)
    requires Legal(cfg, s.inputs)
  {
    Possible(cfg, s, a) && (a.Begin? ==> FreshArguments(s, a.ca) || a.ca in overlap)
  }

  function Enqueue(s: System, req: Request<Response>): System {
    s.(wq := s.wq + [req])
  }

  ghost function ManagerInput(cfg: Config, s: System, input: Input<Response>): System
    requires Legal(cfg, s.inputs)
  {
    s.(inputs := s.inputs + [input], pipe := s.pipe.(outbox := s.pipe.outbox + Sends(cfg, After(cfg, s.inputs), input)))
  }

  ghost function Step(cfg: Config, s: System, a: Action): System
    requires Legal(cfg, s.inputs) && Possible(cfg, s, a)
  {
    match a
    case Write(k) => s.(versions := s.versions[k := Version(s.versions, k) + 1], owed := s.owed + multiset{k})
    case Notify(k, fromCM) => Enqueue(s.(owed := s.owed - multiset{k}), InvalidateKeyRequest(k, fromCM))
    case Begin(id, ca, caller) => Enqueue(s.(active := s.active[id := ActiveCall(ca, caller, {}, {}, {})]), StartRequest(ca))
    case RecordKey(id, k) =>
      var call := s.active[id];
      s.(active := s.active[id := call.(keyDeps := call.keyDeps + {k})])
    case RecordCall(id, c) =>
      var call := s.active[id];
      s.(active := s.active[id := call.(callDeps := call.callDeps + {c})])
    case Read(id, k) =>
      var call := s.active[id];
      s.(active := s.active[id := call.(seen := call.seen + {Observation(k, Version(s.versions, k))})])
    case Finish(id, keys, calls, body) =>
      var call := s.active[id];
      Enqueue(s.(active := s.active - {id}), EndRequest(call.ca, call.caller, keys, calls, Response(body, call.seen)))
    case Peer(req) => Enqueue(s, req)
    case Process(gcDue) => ManagerInput(cfg, s.(wq := s.wq[1..]), Receive(s.wq[0], gcDue))
    case ManagerTick(order) => ManagerInput(cfg, s, Tick(order))
    case Move(step) => s.(pipe := PipeNext(s.pipe, step))
  }

  // ---------- The chronicle: what the service sent, in order, processed or not ----------

  /** The log without the invalidated calls, which can be logged later than they were received. */
  function KeyView(log: seq<Entry>): seq<Entry> {
    if log == [] then []
    else KeyView(Front(log)) + if Last(log).Happened? && Last(log).event.InvCall? then [] else [Last(log)]
  }

  function PreviewOf(req: Request<Response>): seq<Entry> {
    match req
    case StartRequest(ca) => [Started(ca)]
    case EndRequest(ca, _, _, _, _) => [Ended(ca)]
    case InvalidateKeyRequest(k, _) => [Happened(WriteKey(k))]
    case _ => []
  }

  function Preview(wq: seq<Request<Response>>): seq<Entry> {
    if wq == [] then [] else Preview(Front(wq)) + PreviewOf(Last(wq))
  }

  function Processed(cfg: Config, s: System): seq<Entry> {
    KeyView(LogOf(cfg, s.inputs))
  }

  function Chronicle(cfg: Config, s: System): seq<Entry> {
    Processed(cfg, s) + Preview(s.wq)
  }

  lemma {:induction false} PreviewConcat(a: seq<Request<Response>>, b: seq<Request<Response>>)
    ensures Preview(a + b) == Preview(a) + Preview(b)
  {
    if b == [] {
      assert a + b == a;
    } else {
      PreviewConcat(a, Front(b));
      assert Front(a + b) == a + Front(b) && Last(a + b) == Last(b);
      assert Preview(a) + Preview(Front(b)) + PreviewOf(Last(b)) == Preview(a) + Preview(b);
    }
  }

  lemma PreviewOne(req: Request<Response>)
    ensures Preview([req]) == PreviewOf(req)
  {
    assert Front([req]) == [];
  }

  lemma {:induction false} KeyViewConcat(a: seq<Entry>, b: seq<Entry>)
    ensures KeyView(a + b) == KeyView(a) + KeyView(b)
  {
    if b == [] {
      assert a + b == a;
    } else {
      KeyViewConcat(a, Front(b));
      assert Front(a + b) == a + Front(b);
    }
  }

  lemma {:induction false} KeyViewOfInvs(v: LoopVariable, calls: seq<CallArgs>, n: nat)
    requires n <= |calls|
    ensures KeyView(HappenedAll(InvEvents(v, calls))[..n]) == []
  {
    if n > 0 {
      KeyViewOfInvs(v, calls, n - 1);
      assert Front(HappenedAll(InvEvents(v, calls))[..n]) == HappenedAll(InvEvents(v, calls))[..n - 1];
    }
  }

  lemma KeyViewOfEntries(cfg: Config, input: Input<Response>)
    ensures KeyView(Entries(cfg, input)) == if input.Receive? then PreviewOf(input.request) else []
  {
    var es := Entries(cfg, input);
    if input.Receive? && (input.request.StartRequest? || input.request.EndRequest? || input.request.InvalidateKeyRequest?) {
      assert |es| == 1 && Front(es) == [];
    } else {
      var calls := ProcessedCalls(cfg, input);
      KeyViewOfInvs(cfg.loopVariable, calls, |calls|);
      assert es[..|calls|] == es;
    }
  }

  lemma {:induction false} KeyViewKeeps(log: seq<Entry>, ca: CallArgs, k: Key)
    ensures WriteKey(k) in SinceStart(log, ca) <==> WriteKey(k) in SinceStart(KeyView(log), ca)
    ensures Outstanding(log) == Outstanding(KeyView(log))
    ensures OneAtATime(log) <==> OneAtATime(KeyView(log))
  {
    if log != [] {
      KeyViewKeeps(Front(log), ca, k);
      if KeyView(log) != KeyView(Front(log)) {
        assert Front(KeyView(log)) == KeyView(Front(log));
      }
    }
  }

  lemma {:induction false} OneAtATimePrefix(a: seq<Entry>, b: seq<Entry>)
    requires OneAtATime(a + b)
    ensures OneAtATime(a)
    ensures b != [] && b[0].Ended? ==> b[0].ca in Outstanding(a)
  {
    if b == [] {
      assert a + b == a;
    } else {
      assert Front(a + b) == a + Front(b);
      OneAtATimePrefix(a, Front(b));
      if |b| == 1 { assert a + Front(b) == a; }
    }
  }

  // ---------- The invariant ----------

  predicate Settled(versions: map<Key, nat>, owed: multiset<Key>, o: Observation) {
    o.version == Version(versions, o.key) || o.key in owed
  }

  predicate InvQueued(wq: seq<Request<Response>>, k: Key) {
    exists i :: 0 <= i < |wq| && wq[i].InvalidateKeyRequest? && wq[i].key == k
  }

  /** A stale read of an active call: its write is owed, or was notified after the call's Start. */
  ghost predicate ActiveOk(versions: map<Key, nat>, owed: multiset<Key>, chronicle: seq<Entry>, call: ActiveCall) {
    && call.ca in Outstanding(chronicle)
    && forall o :: o in call.seen ==>
      o.key in call.keyDeps && (Settled(versions, owed, o) || WriteKey(o.key) in SinceStart(chronicle, call.ca))
  }

  /** The same for a finished call whose End waits in the queue: `before` is the chronicle up to
      the End, `after` the queue behind it. */
  ghost predicate EndOk(versions: map<Key, nat>, owed: multiset<Key>, before: seq<Entry>, end: Request<Response>, after: seq<Request<Response>>) {
    end.EndRequest? ==>
      forall o :: o in end.returnVal.basis ==>
        && o.key in end.keyDeps
        && (Settled(versions, owed, o) || WriteKey(o.key) in SinceStart(before, end.callArgs) || InvQueued(after, o.key))
  }

  ghost predicate QueueOk(versions: map<Key, nat>, owed: multiset<Key>, processed: seq<Entry>, wq: seq<Request<Response>>) {
    forall p :: 0 <= p < |wq| ==> EndOk(versions, owed, processed + Preview(wq[..p]), wq[p], wq[p + 1..])
  }

  /** An entry that callers will see: it is indexed under each key it was computed from, and if it
      is stale in that key, the write's notification is owed or queued. */
  ghost predicate EntryOk(versions: map<Key, nat>, owed: multiset<Key>, wq: seq<Request<Response>>, index: map<Key, CallsAndCallers>,
                          caller: ServiceName, ca: CallArgs, resp: Response) {
    forall o :: o in resp.basis ==>
      IndexLists(index, o.key, caller, ca) && (Settled(versions, owed, o) || InvQueued(wq, o.key))
  }

  ghost predicate WellOrdered(cfg: Config, s: System) {
    && Legal(cfg, s.inputs) && PipeOk(s.pipe)
    && OneAtATime(Chronicle(cfg, s))
    && Accounted(s.active, Outstanding(Chronicle(cfg, s)))
  }

  /** Every outstanding call is being handled, and no two active calls have equal arguments. */
  ghost predicate Accounted(active: map<CallId, ActiveCall>, outstanding: set<CallArgs>) {
    && (forall ca :: ca in outstanding ==> Handling(active, ca))
    && (forall i, j :: i in active && j in active && i != j ==> active[i].ca != active[j].ca)
  }

  ghost predicate CallsOk(cfg: Config, s: System) {
    && (forall id :: id in s.active ==> ActiveOk(s.versions, s.owed, Chronicle(cfg, s), s.active[id]))
    && QueueOk(s.versions, s.owed, Processed(cfg, s), s.wq)
  }

  ghost predicate CachesOk(cfg: Config, s: System)
    requires Legal(cfg, s.inputs) && PipeOk(s.pipe)
  {
    forall c, ca :: ca in Eventual(s.pipe, c) ==>
      EntryOk(s.versions, s.owed, s.wq, After(cfg, s.inputs).keyDeps, c, ca, Eventual(s.pipe, c)[ca])
  }

  ghost predicate Invariant(cfg: Config, s: System) {
    WellOrdered(cfg, s) && CallsOk(cfg, s) && CachesOk(cfg, s)
  }

  // ---------- Sending a message to the manager ----------

  /** What may become unsettled when `req` is sent is exactly what `req` notifies. */
  ghost predicate StillSettled(versions: map<Key, nat>, owed: multiset<Key>, owed': multiset<Key>, req: Request<Response>) {
    forall o :: Settled(versions, owed, o) ==>
      Settled(versions, owed', o) || (req.InvalidateKeyRequest? && req.key == o.key)
  }

  lemma ExtendChronicle(log: seq<Entry>, req: Request<Response>, ca: CallArgs)
    ensures SinceStart(log + PreviewOf(req), ca) == if req == StartRequest(ca) then [] else
              SinceStart(log, ca) + if req.InvalidateKeyRequest? then [WriteKey(req.key)] else []
    ensures Outstanding(log + PreviewOf(req)) ==
            if req.StartRequest? then Outstanding(log) + {req.callArgs}
            else if req.EndRequest? then Outstanding(log) - {req.callArgs} else Outstanding(log)
    ensures OneAtATime(log + PreviewOf(req)) <==>
            && OneAtATime(log)
            && (req.StartRequest? ==> req.callArgs !in Outstanding(log))
            && (req.EndRequest? ==> req.callArgs in Outstanding(log))
  {
    if PreviewOf(req) == [] {
      assert log + PreviewOf(req) == log;
    } else {
      assert Front(log + PreviewOf(req)) == log;
    }
  }

  lemma ActiveStaysOk(versions: map<Key, nat>, owed: multiset<Key>, owed': multiset<Key>, chronicle: seq<Entry>, req: Request<Response>, call: ActiveCall)
    requires ActiveOk(versions, owed, chronicle, call) && StillSettled(versions, owed, owed', req)
    requires req.StartRequest? || req.EndRequest? ==> req.callArgs != call.ca
    ensures ActiveOk(versions, owed', chronicle + PreviewOf(req), call)
  {
    ExtendChronicle(chronicle, req, call.ca);
  }

  lemma QueuedStays(wq: seq<Request<Response>>, req: Request<Response>, k: Key)
    ensures InvQueued(wq, k) || (req.InvalidateKeyRequest? && req.key == k) ==> InvQueued(wq + [req], k)
  {
    assert (wq + [req])[|wq|] == req;
    assert forall i :: 0 <= i < |wq| ==> (wq + [req])[i] == wq[i];
  }

  lemma EndStaysOk(versions: map<Key, nat>, owed: multiset<Key>, owed': multiset<Key>, before: seq<Entry>, end: Request<Response>,
                   after: seq<Request<Response>>, req: Request<Response>)
    requires EndOk(versions, owed, before, end, after) && StillSettled(versions, owed, owed', req)
    ensures EndOk(versions, owed', before, end, after + [req])
  {
    forall k ensures InvQueued(after, k) || (req.InvalidateKeyRequest? && req.key == k) ==> InvQueued(after + [req], k) {
      QueuedStays(after, req, k);
    }
  }

  lemma EntriesStayOk(cfg: Config, s: System, s': System, req: Request<Response>)
    requires Legal(cfg, s.inputs) && PipeOk(s.pipe) && CachesOk(cfg, s)
    requires s'.inputs == s.inputs && s'.pipe == s.pipe && s'.versions == s.versions && s'.wq == s.wq + [req]
    requires StillSettled(s.versions, s.owed, s'.owed, req)
    ensures CachesOk(cfg, s')
  {
    forall k ensures InvQueued(s.wq, k) || (req.InvalidateKeyRequest? && req.key == k) ==> InvQueued(s'.wq, k) {
      QueuedStays(s.wq, req, k);
    }
  }

  lemma QueuedEndStaysOk(versions: map<Key, nat>, owed: multiset<Key>, owed': multiset<Key>, processed: seq<Entry>,
                         wq: seq<Request<Response>>, req: Request<Response>, p: nat)
    requires p < |wq| && EndOk(versions, owed, processed + Preview(wq[..p]), wq[p], wq[p + 1..])
    requires StillSettled(versions, owed, owed', req)
    ensures var wq' := wq + [req]; EndOk(versions, owed', processed + Preview(wq'[..p]), wq'[p], wq'[p + 1..])
  {
    var wq' := wq + [req];
    assert wq'[..p] == wq[..p] && wq'[p] == wq[p] && wq'[p + 1..] == wq[p + 1..] + [req];
    EndStaysOk(versions, owed, owed', processed + Preview(wq[..p]), wq[p], wq[p + 1..], req);
  }

  lemma QueueGrows(versions: map<Key, nat>, owed: multiset<Key>, owed': multiset<Key>, processed: seq<Entry>,
                   wq: seq<Request<Response>>, req: Request<Response>)
    requires QueueOk(versions, owed, processed, wq) && StillSettled(versions, owed, owed', req)
    requires EndOk(versions, owed', processed + Preview(wq), req, [])
    ensures QueueOk(versions, owed', processed, wq + [req])
  {
    var wq' := wq + [req];
    forall p | 0 <= p < |wq'| ensures EndOk(versions, owed', processed + Preview(wq'[..p]), wq'[p], wq'[p + 1..]) {
      if p < |wq| {
        QueuedEndStaysOk(versions, owed, owed', processed, wq, req, p);
      } else {
        assert wq'[..p] == wq && wq'[p] == req && wq'[p + 1..] == [];
      }
    }
  }

  ghost predicate SendsOnly(s: System, s': System, req: Request<Response>) {
    && s'.inputs == s.inputs && s'.pipe == s.pipe && s'.versions == s.versions && s'.wq == s.wq + [req]
    && StillSettled(s.versions, s.owed, s'.owed, req)
  }

  lemma ChronicleGrows(cfg: Config, s: System, s': System, req: Request<Response>)
    requires s'.inputs == s.inputs && s'.wq == s.wq + [req]
    ensures Chronicle(cfg, s') == Chronicle(cfg, s) + PreviewOf(req)
  {
    PreviewConcat(s.wq, [req]);
    PreviewOne(req);
    assert Processed(cfg, s') == Processed(cfg, s);
    var processed := Processed(cfg, s);
    assert processed + (Preview(s.wq) + PreviewOf(req)) == processed + Preview(s.wq) + PreviewOf(req);
  }

  /** What the calls and queued Ends promise is kept, for all calls but those the message begins or ends. */
  lemma SendKeepsCalls(cfg: Config, s: System, s': System, req: Request<Response>)
    requires CallsOk(cfg, s) && SendsOnly(s, s', req)
    requires EndOk(s.versions, s'.owed, Chronicle(cfg, s), req, [])
    requires forall id :: id in s'.active ==>
               if id in s.active then s'.active[id] == s.active[id] && (req.StartRequest? || req.EndRequest? ==> req.callArgs != s.active[id].ca)
               else ActiveOk(s'.versions, s'.owed, Chronicle(cfg, s) + PreviewOf(req), s'.active[id])
    ensures CallsOk(cfg, s')
  {
    ChronicleGrows(cfg, s, s', req);
    QueueGrows(s.versions, s.owed, s'.owed, Processed(cfg, s), s.wq, req);
    forall id | id in s'.active ensures ActiveOk(s'.versions, s'.owed, Chronicle(cfg, s'), s'.active[id]) {
      if id in s.active {
        ActiveStaysOk(s.versions, s.owed, s'.owed, Chronicle(cfg, s), req, s.active[id]);
      }
    }
  }

  /** Nothing that was settled is unsettled by more versions, each of them owed. */
  ghost predicate NothingUnsettled(s: System, s': System) {
    && s' == s.(versions := s'.versions, owed := s'.owed)
    && forall o :: Settled(s.versions, s.owed, o) ==> Settled(s'.versions, s'.owed, o)
  }

  lemma WriteKeepsCalls(cfg: Config, s: System, s': System)
    requires CallsOk(cfg, s) && NothingUnsettled(s, s')
    ensures CallsOk(cfg, s')
  {
    assert Chronicle(cfg, s') == Chronicle(cfg, s) && Processed(cfg, s') == Processed(cfg, s);
    forall id | id in s'.active ensures ActiveOk(s'.versions, s'.owed, Chronicle(cfg, s'), s'.active[id]) {
      assert ActiveOk(s.versions, s.owed, Chronicle(cfg, s), s.active[id]);
    }
  }

  lemma WriteKeepsCaches(cfg: Config, s: System, s': System)
    requires Legal(cfg, s.inputs) && PipeOk(s.pipe) && CachesOk(cfg, s) && NothingUnsettled(s, s')
    ensures CachesOk(cfg, s')
  {}

  lemma WriteKeeps(cfg: Config, s: System, k: Key)
    requires Invariant(cfg, s)
    ensures Invariant(cfg, Step(cfg, s, Write(k)))
  {
    var s' := Step(cfg, s, Write(k));
    assert Chronicle(cfg, s') == Chronicle(cfg, s);
    WriteKeepsCalls(cfg, s, s');
    WriteKeepsCaches(cfg, s, s');
  }

  lemma AccountedBegin(active: map<CallId, ActiveCall>, outstanding: set<CallArgs>, id: CallId, call: ActiveCall)
    requires Accounted(active, outstanding) && id !in active && !Handling(active, call.ca)
    ensures Accounted(active[id := call], outstanding + {call.ca})
  {
    var active' := active[id := call];
    assert active'[id].ca == call.ca;
    forall ca | ca in outstanding ensures Handling(active', ca) {
      var other :| other in active && active[other].ca == ca;
      assert active'[other].ca == ca;
    }
  }

  lemma AccountedFinish(active: map<CallId, ActiveCall>, outstanding: set<CallArgs>, id: CallId)
    requires Accounted(active, outstanding) && id in active
    ensures Accounted(active - {id}, outstanding - {active[id].ca})
  {
    forall ca | ca in outstanding - {active[id].ca} ensures Handling(active - {id}, ca) {
      var other :| other in active && active[other].ca == ca;
      assert (active - {id})[other].ca == ca;
    }
  }

  lemma AccountedStep(active: map<CallId, ActiveCall>, outstanding: set<CallArgs>, id: CallId, call: ActiveCall)
    requires Accounted(active, outstanding) && id in active && call.ca == active[id].ca
    ensures Accounted(active[id := call], outstanding)
  {
    forall ca | ca in outstanding ensures Handling(active[id := call], ca) {
      var other :| other in active && active[other].ca == ca;
      assert active[id := call][other].ca == ca;
    }
  }

  lemma SendKeepsOrder(cfg: Config, s: System, s': System, req: Request<Response>)
    requires WellOrdered(cfg, s) && s'.inputs == s.inputs && s'.pipe == s.pipe && s'.wq == s.wq + [req]
    requires req.StartRequest? ==> req.callArgs !in Outstanding(Chronicle(cfg, s))
    requires req.EndRequest? ==> req.callArgs in Outstanding(Chronicle(cfg, s))
    requires Accounted(s'.active, Outstanding(Chronicle(cfg, s) + PreviewOf(req)))
    ensures WellOrdered(cfg, s')
  {
    ChronicleGrows(cfg, s, s', req);
    ExtendChronicle(Chronicle(cfg, s), req, CallArgs(""));
  }

  /** A message that begins and finishes no call. */
  lemma PlainSendKeeps(cfg: Config, s: System, s': System, req: Request<Response>)
    requires Invariant(cfg, s) && !req.StartRequest? && !req.EndRequest?
    requires s' == Enqueue(s.(owed := s'.owed), req) && StillSettled(s.versions, s.owed, s'.owed, req)
    ensures Invariant(cfg, s')
  {
    SendKeepsCalls(cfg, s, s', req);
    EntriesStayOk(cfg, s, s', req);
    ExtendChronicle(Chronicle(cfg, s), req, CallArgs(""));
    SendKeepsOrder(cfg, s, s', req);
  }

  lemma BeginKeeps(cfg: Config, s: System, id: CallId, ca: CallArgs, caller: ServiceName)
    requires Invariant(cfg, s) && Enabled(cfg, s, Begin(id, ca, caller))
    ensures Invariant(cfg, Step(cfg, s, Begin(id, ca, caller)))
  {
    var s', req := Step(cfg, s, Begin(id, ca, caller)), StartRequest(ca);
    ExtendChronicle(Chronicle(cfg, s), req, ca);
    SendKeepsCalls(cfg, s, s', req);
    EntriesStayOk(cfg, s, s', req);
    AccountedBegin(s.active, Outstanding(Chronicle(cfg, s)), id, s'.active[id]);
    assert ca !in Outstanding(Chronicle(cfg, s));
    SendKeepsOrder(cfg, s, s', req);
  }

  lemma FinishedCallOk(cfg: Config, s: System, id: CallId, keys: seq<Key>, calls: seq<CallArgs>, body: string)
    requires CallsOk(cfg, s) && id in s.active && Enumerates(keys, s.active[id].keyDeps)
    ensures var call := s.active[id];
            EndOk(s.versions, s.owed, Chronicle(cfg, s), EndRequest(call.ca, call.caller, keys, calls, Response(body, call.seen)), [])
  {
    assert ActiveOk(s.versions, s.owed, Chronicle(cfg, s), s.active[id]);
    assert forall k :: k in keys <==> k in Elements(keys);
  }

  lemma FinishKeeps(cfg: Config, s: System, id: CallId, keys: seq<Key>, calls: seq<CallArgs>, body: string)
    requires Invariant(cfg, s) && Enabled(cfg, s, Finish(id, keys, calls, body))
    ensures Invariant(cfg, Step(cfg, s, Finish(id, keys, calls, body)))
  {
    var s', call := Step(cfg, s, Finish(id, keys, calls, body)), s.active[id];
    var req := EndRequest(call.ca, call.caller, keys, calls, Response(body, call.seen));
    assert ActiveOk(s.versions, s.owed, Chronicle(cfg, s), call);
    FinishedCallOk(cfg, s, id, keys, calls, body);
    SendKeepsCalls(cfg, s, s', req);
    EntriesStayOk(cfg, s, s', req);
    ExtendChronicle(Chronicle(cfg, s), req, call.ca);
    AccountedFinish(s.active, Outstanding(Chronicle(cfg, s)), id);
    SendKeepsOrder(cfg, s, s', req);
  }

  /** A step of one active call that sends nothing. */
  lemma CallStepKeeps(cfg: Config, s: System, id: CallId, call: ActiveCall)
    requires Invariant(cfg, s) && id in s.active && call.ca == s.active[id].ca
    requires ActiveOk(s.versions, s.owed, Chronicle(cfg, s), call)
    ensures Invariant(cfg, s.(active := s.active[id := call]))
  {
    var s' := s.(active := s.active[id := call]);
    assert Chronicle(cfg, s') == Chronicle(cfg, s);
    AccountedStep(s.active, Outstanding(Chronicle(cfg, s)), id, call);
  }

  lemma RecordKeeps(cfg: Config, s: System, a: Action)
    requires Invariant(cfg, s) && Enabled(cfg, s, a) && (a.RecordKey? || a.RecordCall? || a.Read?)
    ensures Invariant(cfg, Step(cfg, s, a))
  {
    assert ActiveOk(s.versions, s.owed, Chronicle(cfg, s), s.active[a.id]);
    CallStepKeeps(cfg, s, a.id, Step(cfg, s, a).active[a.id]);
  }

  // ---------- The manager processes a message ----------

  lemma ProcessedAfter(cfg: Config, inputs: seq<Input<Response>>, input: Input<Response>)
    ensures KeyView(LogOf(cfg, inputs + [input])) ==
            KeyView(LogOf(cfg, inputs)) + if input.Receive? then PreviewOf(input.request) else []
  {
    assert Front(inputs + [input]) == inputs;
    KeyViewConcat(LogOf(cfg, inputs), Entries(cfg, input));
    KeyViewOfEntries(cfg, input);
  }

  lemma ValidMeansNoWrite(cfg: Config, inputs: seq<Input<Response>>, end: Request<Response>, k: Key)
    requires Legal(cfg, inputs) && end.EndRequest? && k in end.keyDeps && Valid(After(cfg, inputs), end)
    requires OneAtATime(KeyView(LogOf(cfg, inputs))) && end.callArgs in Outstanding(KeyView(LogOf(cfg, inputs)))
    ensures WriteKey(k) !in SinceStart(KeyView(LogOf(cfg, inputs)), end.callArgs)
  {
    var log := LogOf(cfg, inputs);
    KeyViewKeeps(log, end.callArgs, k);
    RunRepresents(cfg, inputs);
    StackUnderH1(log, end.callArgs);
    VerdictExact(After(cfg, inputs).history, log, end.callArgs, Elements(end.keyDeps), Elements(end.callDeps));
    assert k in Elements(end.keyDeps);
  }

  lemma PreviewShift(processed: seq<Entry>, wq: seq<Request<Response>>, p: nat)
    requires p < |wq|
    ensures processed + PreviewOf(wq[0]) + Preview(wq[1..][..p]) == processed + Preview(wq[..p + 1])
  {
    PreviewOne(wq[0]);
    assert wq[..p + 1] == [wq[0]] + wq[1..][..p];
    PreviewConcat([wq[0]], wq[1..][..p]);
  }

  lemma QueuedEndMovesUp(versions: map<Key, nat>, owed: multiset<Key>, processed: seq<Entry>, wq: seq<Request<Response>>, p: nat)
    requires p + 1 < |wq| && EndOk(versions, owed, processed + Preview(wq[..p + 1]), wq[p + 1], wq[p + 1 + 1..])
    ensures var rest := wq[1..];
            EndOk(versions, owed, processed + PreviewOf(wq[0]) + Preview(rest[..p]), rest[p], rest[p + 1..])
  {
    PreviewShift(processed, wq, p);
    assert wq[1..][p] == wq[p + 1] && wq[1..][p + 1..] == wq[p + 1 + 1..];
  }

  lemma QueueShrinks(versions: map<Key, nat>, owed: multiset<Key>, processed: seq<Entry>, wq: seq<Request<Response>>)
    requires QueueOk(versions, owed, processed, wq) && wq != []
    ensures processed + PreviewOf(wq[0]) + Preview(wq[1..]) == processed + Preview(wq)
    ensures QueueOk(versions, owed, processed + PreviewOf(wq[0]), wq[1..])
  {
    var r, rest := wq[0], wq[1..];
    PreviewShift(processed, wq, |rest|);
    assert rest[..|rest|] == rest && wq[..|wq|] == wq;
    forall p | 0 <= p < |rest|
      ensures EndOk(versions, owed, processed + PreviewOf(r) + Preview(rest[..p]), rest[p], rest[p + 1..])
    {
      var q := p + 1;
      assert EndOk(versions, owed, processed + Preview(wq[..q]), wq[q], wq[q + 1..]);
      QueuedEndMovesUp(versions, owed, processed, wq, p);
    }
  }

  lemma ProcessKeepsCalls(cfg: Config, s: System, s': System, input: Input<Response>)
    requires CallsOk(cfg, s) && input.Receive? && s.wq != [] && s.wq[0] == input.request
    requires s'.versions == s.versions && s'.owed == s.owed && s'.active == s.active
    requires s'.wq == s.wq[1..] && s'.inputs == s.inputs + [input]
    ensures Chronicle(cfg, s') == Chronicle(cfg, s) && CallsOk(cfg, s')
  {
    ProcessedAfter(cfg, s.inputs, input);
    QueueShrinks(s.versions, s.owed, Processed(cfg, s), s.wq);
    assert Chronicle(cfg, s') == Chronicle(cfg, s);
  }

  lemma QueuedBehind(wq: seq<Request<Response>>, k: Key)
    requires wq != [] && InvQueued(wq, k) && !(wq[0].InvalidateKeyRequest? && wq[0].key == k)
    ensures InvQueued(wq[1..], k)
  {
    var i :| 0 <= i < |wq| && wq[i].InvalidateKeyRequest? && wq[i].key == k;
    assert wq[1..][i - 1] == wq[i];
  }

  /** An entry kept through a step of the manager stays as it was. */
  lemma EntryKept(cfg: Config, s: System, input: Input<Response>, wq': seq<Request<Response>>, c: ServiceName, ca: CallArgs, resp: Response)
    requires Legal(cfg, s.inputs) && Allowed(cfg, After(cfg, s.inputs), input)
    requires EntryOk(s.versions, s.owed, s.wq, After(cfg, s.inputs).keyDeps, c, ca, resp)
    requires if input.Receive? then s.wq != [] && s.wq[0] == input.request && wq' == s.wq[1..] else wq' == s.wq
    requires forall o :: o in resp.basis ==> !Invalidates(cfg, input, OnKey(o.key))
    ensures EntryOk(s.versions, s.owed, wq', Next(cfg, After(cfg, s.inputs), input).keyDeps, c, ca, resp)
  {
    forall o | o in resp.basis
      ensures IndexLists(Next(cfg, After(cfg, s.inputs), input).keyDeps, o.key, c, ca)
      ensures InvQueued(s.wq, o.key) ==> InvQueued(wq', o.key)
    {
      IndexStep(cfg, After(cfg, s.inputs), input, OnKey(o.key), c, ca);
      if input.Receive? && InvQueued(s.wq, o.key) {
        QueuedBehind(s.wq, o.key);
      }
    }
  }

  /** What the callers will see after the manager's sends: at most one new entry, and none that was
      indexed under an invalidated key. */
  lemma SentEffect(cfg: Config, m: Manager<Response>, input: Input<Response>, c: ServiceName, cache: map<CallArgs, Response>, ca: CallArgs)
    requires Allowed(cfg, m, input)
    requires ca in ApplyAllOutgoing(Sends(cfg, m, input), c, cache)
    ensures var resp := ApplyAllOutgoing(Sends(cfg, m, input), c, cache)[ca];
            || (ca in cache && resp == cache[ca] && forall k :: Invalidates(cfg, input, OnKey(k)) ==> !IndexLists(m.keyDeps, k, c, ca))
            || (input.Receive? && input.request.EndRequest? && Valid(m, input.request) && input.request.caller == c &&
                input.request.callArgs == ca && input.request.returnVal == resp)
  {
    var outs := Sends(cfg, m, input);
    if outs != [] {
      assert outs == [outs[0]] && Front(outs) == [];
      assert ApplyAllOutgoing(outs, c, cache) == ApplyOutgoing(outs[0], c, cache);
      if outs[0].HttpSendSaveCalls? {
        var end := input.request;
        assert PairUp([end.callArgs], [end.returnVal]) == map[end.callArgs := end.returnVal] by {
          assert Front([end.callArgs]) == [];
        }
      }
    }
  }

  lemma EndInOrder(cfg: Config, s: System)
    requires WellOrdered(cfg, s) && s.wq != [] && s.wq[0].EndRequest?
    ensures OneAtATime(Processed(cfg, s)) && s.wq[0].callArgs in Outstanding(Processed(cfg, s))
  {
    var end := s.wq[0];
    assert s.wq == [end] + s.wq[1..];
    PreviewConcat([end], s.wq[1..]);
    PreviewOne(end);
    OneAtATimePrefix(Processed(cfg, s), Preview(s.wq));
  }

  lemma NewEntryKey(cfg: Config, s: System, gcDue: bool, k: Key)
    requires WellOrdered(cfg, s) && s.wq != [] && s.wq[0].EndRequest? && Valid(After(cfg, s.inputs), s.wq[0]) && k in s.wq[0].keyDeps
    ensures IndexLists(Next(cfg, After(cfg, s.inputs), Receive(s.wq[0], gcDue)).keyDeps, k, s.wq[0].caller, s.wq[0].callArgs)
    ensures WriteKey(k) !in SinceStart(Processed(cfg, s), s.wq[0].callArgs)
  {
    var end := s.wq[0];
    EndInOrder(cfg, s);
    IndexStep(cfg, After(cfg, s.inputs), Receive(end, gcDue), OnKey(k), end.caller, end.callArgs);
    ValidMeansNoWrite(cfg, s.inputs, end, k);
  }

  lemma NewEntryOk(cfg: Config, s: System, end: Request<Response>, gcDue: bool)
    requires Invariant(cfg, s) && s.wq != [] && s.wq[0] == end && end.EndRequest? && Valid(After(cfg, s.inputs), end)
    ensures EntryOk(s.versions, s.owed, s.wq[1..], Next(cfg, After(cfg, s.inputs), Receive(end, gcDue)).keyDeps,
                    end.caller, end.callArgs, end.returnVal)
  {
    assert EndOk(s.versions, s.owed, Processed(cfg, s) + Preview(s.wq[..0]), s.wq[0], s.wq[0 + 1..]);
    assert Processed(cfg, s) + Preview(s.wq[..0]) == Processed(cfg, s);
    forall o | o in end.returnVal.basis
      ensures IndexLists(Next(cfg, After(cfg, s.inputs), Receive(end, gcDue)).keyDeps, o.key, end.caller, end.callArgs)
      ensures WriteKey(o.key) !in SinceStart(Processed(cfg, s), end.callArgs)
    {
      NewEntryKey(cfg, s, gcDue, o.key);
    }
  }

  lemma ManagerKeepsCaches(cfg: Config, s: System, input: Input<Response>, s': System)
    requires Invariant(cfg, s) && Allowed(cfg, After(cfg, s.inputs), input)
    requires if input.Receive? then s.wq != [] && s.wq[0] == input.request && s' == ManagerInput(cfg, s.(wq := s.wq[1..]), input)
             else s' == ManagerInput(cfg, s, input)
    ensures Legal(cfg, s'.inputs) && PipeOk(s'.pipe) && CachesOk(cfg, s')
  {
    var m := After(cfg, s.inputs);
    assert Front(s'.inputs) == s.inputs && Last(s'.inputs) == input;
    assert After(cfg, s'.inputs) == Next(cfg, m, input);
    SendAppends(s.pipe, Sends(cfg, m, input), ServiceName(""));
    forall c, ca | ca in Eventual(s'.pipe, c)
      ensures EntryOk(s'.versions, s'.owed, s'.wq, After(cfg, s'.inputs).keyDeps, c, ca, Eventual(s'.pipe, c)[ca])
    {
      SendAppends(s.pipe, Sends(cfg, m, input), c);
      SentEffect(cfg, m, input, c, Eventual(s.pipe, c), ca);
      var resp := Eventual(s'.pipe, c)[ca];
      if ca in Eventual(s.pipe, c) && resp == Eventual(s.pipe, c)[ca]
         && forall k :: Invalidates(cfg, input, OnKey(k)) ==> !IndexLists(m.keyDeps, k, c, ca) {
        assert EntryOk(s.versions, s.owed, s.wq, m.keyDeps, c, ca, resp);
        EntryKept(cfg, s, input, s'.wq, c, ca, resp);
      } else {
        NewEntryOk(cfg, s, input.request, input.gcDue);
      }
    }
  }

  lemma ProcessKeeps(cfg: Config, s: System, gcDue: bool)
    requires Invariant(cfg, s) && Enabled(cfg, s, Process(gcDue))
    ensures Invariant(cfg, Step(cfg, s, Process(gcDue)))
  {
    var s', input := Step(cfg, s, Process(gcDue)), Receive(s.wq[0], gcDue);
    ManagerKeepsCaches(cfg, s, input, s');
    ProcessKeepsCalls(cfg, s, s', input);
  }

  lemma TickKeeps(cfg: Config, s: System, order: seq<CallArgs>)
    requires Invariant(cfg, s) && Enabled(cfg, s, ManagerTick(order))
    ensures Invariant(cfg, Step(cfg, s, ManagerTick(order)))
  {
    var s', input := Step(cfg, s, ManagerTick(order)), Tick(order);
    ManagerKeepsCaches(cfg, s, input, s');
    ProcessedAfter(cfg, s.inputs, input);
    assert Processed(cfg, s') == Processed(cfg, s);
  }

  lemma MoveKeepsCaches(cfg: Config, s: System, step: PipeAction<Response>)
    requires Legal(cfg, s.inputs) && PipeOk(s.pipe) && CachesOk(cfg, s) && PipeEnabled(s.pipe, step)
    ensures var s' := s.(pipe := PipeNext(s.pipe, step)); PipeOk(s'.pipe) && CachesOk(cfg, s')
  {
    PipeShrinks(s.pipe, step, ServiceName(""));
    forall c ensures Submap(Eventual(PipeNext(s.pipe, step), c), Eventual(s.pipe, c)) {
      PipeShrinks(s.pipe, step, c);
    }
  }

  lemma MoveKeeps(cfg: Config, s: System, step: PipeAction<Response>)
    requires Invariant(cfg, s) && Enabled(cfg, s, Move(step))
    ensures Invariant(cfg, Step(cfg, s, Move(step)))
  {
    var s' := Step(cfg, s, Move(step));
    assert Chronicle(cfg, s') == Chronicle(cfg, s) && Processed(cfg, s') == Processed(cfg, s);
    MoveKeepsCaches(cfg, s, step);
  }

  // ---------- Whole runs ----------

  /** A run of the code from the start; under H1 if `overlap` is empty. */
  ghost predicate LegalRun(cfg: Config, overlap: iset<CallArgs>, actions: seq<Action>)
    decreases |actions|, 0
  {
    actions == [] ||
    (&& LegalRun(cfg, overlap, Front(actions)) && Legal(cfg, At(cfg, overlap, Front(actions)).inputs)
     && MayHappen(cfg, overlap, At(cfg, overlap, Front(actions)), Last(actions)))
  }

  ghost function At(cfg: Config, overlap: iset<CallArgs>, actions: seq<Action>): System
    requires LegalRun(cfg, overlap, actions)
    decreases |actions|, 1
  {
    if actions == [] then Start() else Step(cfg, At(cfg, overlap, Front(actions)), Last(actions))
  }

  lemma StepKeeps(cfg: Config, s: System, a: Action)
    requires Invariant(cfg, s) && Enabled(cfg, s, a)
    ensures Invariant(cfg, Step(cfg, s, a))
  {
    match a
    case Write(k) => WriteKeeps(cfg, s, k);
    case Notify(k, fromCM) => PlainSendKeeps(cfg, s, Step(cfg, s, a), InvalidateKeyRequest(k, fromCM));
    case Peer(req) => PlainSendKeeps(cfg, s, Step(cfg, s, a), req);
    case Begin(id, ca, caller) => BeginKeeps(cfg, s, id, ca, caller);
    case Finish(id, keys, calls, body) => FinishKeeps(cfg, s, id, keys, calls, body);
    case Process(gcDue) => ProcessKeeps(cfg, s, gcDue);
    case ManagerTick(order) => TickKeeps(cfg, s, order);
    case Move(step) => MoveKeeps(cfg, s, step);
    case _ => RecordKeeps(cfg, s, a);
  }

  lemma {:induction false} AlwaysInvariant(cfg: Config, actions: seq<Action>)
    requires LegalRun(cfg, iset{}, actions)
    ensures Invariant(cfg, At(cfg, iset{}, actions))
  {
    if actions == [] {
      var s := Start();
      forall c ensures Eventual(s.pipe, c) == map[] {
        DrainedIsActual(s.pipe, c);
      }
    } else {
      AlwaysInvariant(cfg, Front(actions));
      StepKeeps(cfg, At(cfg, iset{}, Front(actions)), Last(actions));
    }
  }

  /** In every reachable state: an entry that a caller will see, once all that is in flight to it has
      arrived, and that was computed from an outdated version of a key, is one whose invalidation is
      still to come: the notification of a write of that key is owed or queued at the manager. */
  lemma StaleEntriesAreDoomed(cfg: Config, actions: seq<Action>, caller: ServiceName, ca: CallArgs, o: Observation)
    requires LegalRun(cfg, iset{}, actions)
    ensures PipeOk(At(cfg, iset{}, actions).pipe)
    ensures var s := At(cfg, iset{}, actions);
            ca in Eventual(s.pipe, caller) && o in Eventual(s.pipe, caller)[ca].basis ==>
              o.version == Version(s.versions, o.key) || o.key in s.owed || InvQueued(s.wq, o.key)
  {
    AlwaysInvariant(cfg, actions);
  }

  ghost predicate AtRest(s: System) {
    s.owed == multiset{} && s.wq == [] && Drained(s.pipe)
  }

  /** Every entry of every caller was computed from current versions. */
  ghost predicate CachesCurrent(s: System) {
    forall caller, ca, o ::
      ca in SideOf(s.pipe, caller).cache && o in SideOf(s.pipe, caller).cache[ca].basis ==> o.version == Version(s.versions, o.key)
  }

  /** So when no notification is owed and every queue and buffer is drained, each cached entry was
      computed from the current version of every key its service read for it. */
  lemma QuiescentCachesAreCurrent(cfg: Config, actions: seq<Action>)
    requires LegalRun(cfg, iset{}, actions) && AtRest(At(cfg, iset{}, actions))
    ensures CachesCurrent(At(cfg, iset{}, actions))
  {
    var s := At(cfg, iset{}, actions);
    AlwaysInvariant(cfg, actions);
    forall caller, ca, o | ca in SideOf(s.pipe, caller).cache && o in SideOf(s.pipe, caller).cache[ca].basis
      ensures o.version == Version(s.versions, o.key)
    {
      DrainedIsActual(s.pipe, caller);
      StaleEntriesAreDoomed(cfg, actions, caller, ca, o);
    }
  }
}
