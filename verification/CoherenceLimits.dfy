/** Coherence needs H1: a run in which two calls with equal arguments overlap, and which ends, with
    everything drained and notified, in a cache entry that is out of date. */
module CoherenceLimits {
  import opened CmTypes
  import opened History
  import opened Cache
  import opened HttpSender
  import opened Server
  import opened Runs
  import opened Pipeline
  import opened Coherence

  /** Some run in which only calls with the arguments `a` overlap gets to this state. */
  ghost predicate Reachable(cfg: Config, a: CallArgs, s: System) {
    exists actions :: LegalRun(cfg, iset{a}, actions) && At(cfg, iset{a}, actions) == s
  }

  lemma Reach(cfg: Config, a: CallArgs, s: System, act: Action, s': System)
    requires Reachable(cfg, a, s) && Legal(cfg, s.inputs) && Possible(cfg, s, act) && Step(cfg, s, act) == s'
    requires act.Begin? ==> act.ca == a
    ensures Reachable(cfg, a, s')
  {
    var actions :| LegalRun(cfg, iset{a}, actions) && At(cfg, iset{a}, actions) == s;
    assert Front(actions + [act]) == actions && Last(actions + [act]) == act;
    assert LegalRun(cfg, iset{a}, actions + [act]) && At(cfg, iset{a}, actions + [act]) == s';
  }

  lemma StartReachable(cfg: Config, a: CallArgs)
    ensures Reachable(cfg, a, Start())
  {
    assert LegalRun(cfg, iset{a}, []) && At(cfg, iset{a}, []) == Start();
  }

  ghost predicate ManagerAt(cfg: Config, inputs: seq<Input<Response>>, m: Manager<Response>) {
    Legal(cfg, inputs) && After(cfg, inputs) == m
  }

  lemma ManagerExtend(cfg: Config, inputs: seq<Input<Response>>, m: Manager<Response>, input: Input<Response>)
    requires ManagerAt(cfg, inputs, m) && Allowed(cfg, m, input)
    ensures ManagerAt(cfg, inputs + [input], Next(cfg, m, input))
  {
    assert Front(inputs + [input]) == inputs && Last(inputs + [input]) == input;
  }

  function StaleResponse(k: Key, body: string): Response {
    Response(body, {Observation(k, 0)})
  }

  function Messages(k: Key, a: CallArgs, caller: ServiceName, body: string): seq<Request<Response>> {
    [StartRequest(a), InvalidateKeyRequest(k, false), StartRequest(a), EndRequest(a, caller, [k], [], StaleResponse(k, body))]
  }

  function EmptyPipe(): Pipe<Response> {
    Pipe([], map[], map[])
  }

  function Serving(k: Key, a: CallArgs, caller: ServiceName): System {
    System(map[], multiset{}, map[CallId("1") := ActiveCall(a, caller, {k}, {}, {Observation(k, 0)})], [StartRequest(a)], [], EmptyPipe())
  }

  /** The first call begins and reads `k`. */
  lemma FirstCall(cfg: Config, k: Key, a: CallArgs, caller: ServiceName)
    ensures Reachable(cfg, a, Serving(k, a, caller))
  {
    var one := CallId("1");
    StartReachable(cfg, a);
    var s1 := System(map[], multiset{}, map[one := ActiveCall(a, caller, {}, {}, {})], [StartRequest(a)], [], EmptyPipe());
    assert Step(cfg, Start(), Begin(one, a, caller)) == s1;
    Reach(cfg, a, Start(), Begin(one, a, caller), s1);
    assert {} + {k} == {k} && {} + {Observation(k, 0)} == {Observation(k, 0)};
    var s2 := s1.(active := map[one := ActiveCall(a, caller, {k}, {}, {})]);
    assert Step(cfg, s1, RecordKey(one, k)) == s2;
    Reach(cfg, a, s1, RecordKey(one, k), s2);
    assert Step(cfg, s2, Read(one, k)) == Serving(k, a, caller);
    Reach(cfg, a, s2, Read(one, k), Serving(k, a, caller));
  }

  function Written(k: Key, a: CallArgs, caller: ServiceName): System {
    Serving(k, a, caller).(versions := map[k := 1], wq := [StartRequest(a), InvalidateKeyRequest(k, false)])
  }

  function Unnotified(k: Key, a: CallArgs, caller: ServiceName): System {
    Serving(k, a, caller).(versions := map[k := 1], owed := multiset{k})
  }

  /** `k` is written, */
  lemma KeyWritten(cfg: Config, k: Key, a: CallArgs, caller: ServiceName)
    ensures Reachable(cfg, a, Unnotified(k, a, caller))
  {
    FirstCall(cfg, k, a, caller);
    assert Step(cfg, Serving(k, a, caller), Write(k)) == Unnotified(k, a, caller);
    Reach(cfg, a, Serving(k, a, caller), Write(k), Unnotified(k, a, caller));
  }

  /** and notified. */
  lemma KeyNotified(cfg: Config, k: Key, a: CallArgs, caller: ServiceName)
    ensures Reachable(cfg, a, Written(k, a, caller))
  {
    KeyWritten(cfg, k, a, caller);
    assert multiset{k} - multiset{k} == multiset{};
    assert Step(cfg, Unnotified(k, a, caller), Notify(k, false)) == Written(k, a, caller);
    Reach(cfg, a, Unnotified(k, a, caller), Notify(k, false), Written(k, a, caller));
  }

  function Sent(k: Key, a: CallArgs, caller: ServiceName, body: string): System {
    System(map[k := 1], multiset{}, map[CallId("2") := ActiveCall(a, caller, {}, {}, {})], Messages(k, a, caller, body), [], EmptyPipe())
  }

  /** A second call with the same arguments begins, and then the first one ends. */
  lemma SecondCall(cfg: Config, k: Key, a: CallArgs, caller: ServiceName, body: string)
    ensures Reachable(cfg, a, Sent(k, a, caller, body))
  {
    KeyNotified(cfg, k, a, caller);
    var one, two := CallId("1"), CallId("2");
    var s := Written(k, a, caller);
    assert one != two;
    var s1 := s.(active := s.active[two := ActiveCall(a, caller, {}, {}, {})], wq := s.wq + [StartRequest(a)]);
    assert Step(cfg, s, Begin(two, a, caller)) == s1;
    Reach(cfg, a, s, Begin(two, a, caller), s1);
    assert Enumerates([k], {k}) && Enumerates<CallArgs>([], {});
    assert s1.active - {one} == map[two := ActiveCall(a, caller, {}, {}, {})];
    assert Step(cfg, s1, Finish(one, [k], [], body)) == Sent(k, a, caller, body);
    Reach(cfg, a, s1, Finish(one, [k], [], body), Sent(k, a, caller, body));
  }

  /** The four states of the manager's history; the End is judged valid. */
  lemma HistoryPart(k: Key, a: CallArgs)
    ensures AppendCall([], a) == [CallArgSet({a})]
    ensures AppendCall([CallArgSet({a}), Logged(WriteKey(k))], a) == [CallArgSet({a}), Logged(WriteKey(k)), CallArgSet({a})]
    ensures ScanVerdict([CallArgSet({a}), Logged(WriteKey(k)), CallArgSet({a})], a, {k}, {})
  {
    assert {} + {a} == {a};
  }

  function MessageInputs(k: Key, a: CallArgs, caller: ServiceName, body: string, n: nat): seq<Input<Response>>
    requires n <= 4
  {
    seq(n, i requires 0 <= i < n => Receive(Messages(k, a, caller, body)[i], false))
  }

  /** The manager after the first `n` messages, for n <= 3. */
  function ManagerAfter(k: Key, a: CallArgs, n: nat): Manager<Response> {
    var h := [CallArgSet({a}), Logged(WriteKey(k)), CallArgSet({a})];
    Initial<Response>().(history := if n <= 3 then h[..n] else h)
  }

  lemma ManagerNext(cfg: Config, k: Key, a: CallArgs, caller: ServiceName, body: string, n: nat)
    requires n < 3
    ensures Next(cfg, ManagerAfter(k, a, n), Receive(Messages(k, a, caller, body)[n], false)) == ManagerAfter(k, a, n + 1)
    ensures Sends(cfg, ManagerAfter(k, a, n), Receive(Messages(k, a, caller, body)[n], false)) == []
  {
    HistoryPart(k, a);
    var none: map<Key, CallsAndCallers> := map[];
    assert none - {k} == none;
    var h := [CallArgSet({a}), Logged(WriteKey(k)), CallArgSet({a})];
    assert h[..0] == [] && h[..1] == [CallArgSet({a})] && h[..2] == [CallArgSet({a}), Logged(WriteKey(k))] && h[..3] == h;
  }

  lemma {:induction false} ManagerReaches(cfg: Config, k: Key, a: CallArgs, caller: ServiceName, body: string, n: nat)
    requires n <= 3
    ensures ManagerAt(cfg, MessageInputs(k, a, caller, body, n), ManagerAfter(k, a, n))
  {
    if n == 0 {
      assert MessageInputs(k, a, caller, body, 0) == [];
    } else {
      ManagerReaches(cfg, k, a, caller, body, n - 1);
      ManagerNext(cfg, k, a, caller, body, n - 1);
      var inputs, input := MessageInputs(k, a, caller, body, n - 1), Receive(Messages(k, a, caller, body)[n - 1], false);
      assert inputs + [input] == MessageInputs(k, a, caller, body, n);
      ManagerExtend(cfg, inputs, ManagerAfter(k, a, n - 1), input);
    }
  }

  lemma ManagerPart(cfg: Config, k: Key, a: CallArgs, caller: ServiceName, body: string, n: nat)
    requires n < 4
    ensures var inputs, input := MessageInputs(k, a, caller, body, n), Receive(Messages(k, a, caller, body)[n], false);
            && Legal(cfg, inputs)
            && Sends(cfg, After(cfg, inputs), input) == if n < 3 then [] else [HttpSendSaveCalls(caller, [a], [StaleResponse(k, body)])]
  {
    ManagerReaches(cfg, k, a, caller, body, n);
    if n < 3 {
      ManagerNext(cfg, k, a, caller, body, n);
    } else {
      HistoryPart(k, a);
      assert Elements([k]) == {k} && Elements<CallArgs>([]) == {};
    }
  }

  lemma AllProcessed(cfg: Config, k: Key, a: CallArgs, caller: ServiceName, body: string)
    ensures Legal(cfg, MessageInputs(k, a, caller, body, 4))
  {
    ManagerReaches(cfg, k, a, caller, body, 3);
    var inputs, input := MessageInputs(k, a, caller, body, 3), Receive(Messages(k, a, caller, body)[3], false);
    assert inputs + [input] == MessageInputs(k, a, caller, body, 4);
    ManagerExtend(cfg, inputs, ManagerAfter(k, a, 3), input);
  }

  function Processed(k: Key, a: CallArgs, caller: ServiceName, body: string, n: nat): System
    requires n <= 4
  {
    Sent(k, a, caller, body).(
      wq := Messages(k, a, caller, body)[n..],
      inputs := MessageInputs(k, a, caller, body, n),
      pipe := Pipe(if n == 4 then [HttpSendSaveCalls(caller, [a], [StaleResponse(k, body)])] else [], map[], map[]))
  }

  lemma InputsGrow(k: Key, a: CallArgs, caller: ServiceName, body: string, n: nat)
    requires n < 4
    ensures WellFormed(Messages(k, a, caller, body)[n])
    ensures MessageInputs(k, a, caller, body, n) + [Receive(Messages(k, a, caller, body)[n], false)] == MessageInputs(k, a, caller, body, n + 1)
  {}

  lemma ProcessStep(cfg: Config, s: System, s': System)
    requires s.wq != [] && Accepted(cfg, s.wq[0]) && Legal(cfg, s.inputs)
    requires s' == s.(wq := s.wq[1..], inputs := s.inputs + [Receive(s.wq[0], false)],
                      pipe := s.pipe.(outbox := s.pipe.outbox + Sends(cfg, After(cfg, s.inputs), Receive(s.wq[0], false))))
    ensures Possible(cfg, s, Process(false)) && Step(cfg, s, Process(false)) == s'
  {}

  lemma ManagerStep(cfg: Config, k: Key, a: CallArgs, caller: ServiceName, body: string, n: nat)
    requires n < 4
    ensures var s := Processed(k, a, caller, body, n);
            && Legal(cfg, s.inputs) && Possible(cfg, s, Process(false))
            && Step(cfg, s, Process(false)) == Processed(k, a, caller, body, n + 1)
  {
    ManagerPart(cfg, k, a, caller, body, n);
    InputsGrow(k, a, caller, body, n);
    var s, s' := Processed(k, a, caller, body, n), Processed(k, a, caller, body, n + 1);
    assert s.wq[0] == Messages(k, a, caller, body)[n] && s.wq[1..] == s'.wq;
    ProcessStep(cfg, s, s');
  }

  lemma {:induction false} ManagerDone(cfg: Config, k: Key, a: CallArgs, caller: ServiceName, body: string, n: nat)
    requires n <= 4
    ensures Reachable(cfg, a, Processed(k, a, caller, body, n))
  {
    if n == 0 {
      SecondCall(cfg, k, a, caller, body);
      assert Processed(k, a, caller, body, 0) == Sent(k, a, caller, body);
    } else {
      ManagerDone(cfg, k, a, caller, body, n - 1);
      ManagerStep(cfg, k, a, caller, body, n - 1);
      Reach(cfg, a, Processed(k, a, caller, body, n - 1), Process(false), Processed(k, a, caller, body, n));
    }
  }

  function Cached(k: Key, a: CallArgs, caller: ServiceName, body: string): System {
    Processed(k, a, caller, body, 4).(pipe := Pipe([], map[], map[caller := CallerSide([], map[a := StaleResponse(k, body)], {})]))
  }

  lemma SaveIsFlush(a: CallArgs, resp: Response)
    ensures IsFlush([SaveCallsRequest([a], [resp])], BufferElement({}, map[a := resp]))
  {
    var save: seq<Request<Response>> := [SaveCallsRequest([a], [resp])];
    var none: seq<Request<Response>> := [];
    assert a in map[a := resp];
    assert Enumerates([a], map[a := resp].Keys);
    assert IsSaveMessage(save, map[a := resp]) && IsInvMessage(none, {}) && save == none + save;
  }

  lemma MoveReach(cfg: Config, a: CallArgs, s: System, step: PipeAction<Response>)
    requires Reachable(cfg, a, s) && Legal(cfg, s.inputs) && PipeEnabled(s.pipe, step)
    ensures Reachable(cfg, a, s.(pipe := PipeNext(s.pipe, step)))
  {
    Reach(cfg, a, s, Move(step), s.(pipe := PipeNext(s.pipe, step)));
  }

  function Buffered(a: CallArgs, caller: ServiceName, resp: Response): Pipe<Response> {
    Pipe([], map[caller := BufferElement({}, map[a := resp])], map[])
  }

  function Flushed(a: CallArgs, caller: ServiceName, resp: Response): Pipe<Response> {
    Pipe([], map[], map[caller := CallerSide([SaveCallsRequest([a], [resp])], map[], {})])
  }

  lemma PairOfOne(a: CallArgs, resp: Response)
    ensures PairUp([a], [resp]) == map[a := resp]
  {
    assert Front([a]) == [];
  }

  /** The save travels through the sender to the caller's cache. */
  lemma SaveTaken(a: CallArgs, caller: ServiceName, resp: Response)
    ensures var p := Pipe([HttpSendSaveCalls(caller, [a], [resp])], map[], map[]);
            PipeEnabled(p, Take) && PipeNext(p, Take) == Buffered(a, caller, resp)
  {
    PairOfOne(a, resp);
    var none: map<CallArgs, Response> := map[];
    assert none + map[a := resp] == map[a := resp] && {} - map[a := resp].Keys == {};
  }

  lemma SaveFlushed(a: CallArgs, caller: ServiceName, resp: Response)
    ensures var p, step := Buffered(a, caller, resp), Flush(caller, [SaveCallsRequest([a], [resp])]);
            PipeEnabled(p, step) && PipeNext(p, step) == Flushed(a, caller, resp)
  {
    SaveIsFlush(a, resp);
    assert Buffered(a, caller, resp).buffer - {caller} == map[];
  }

  lemma SaveServed(a: CallArgs, caller: ServiceName, resp: Response)
    ensures var p, step := Flushed(a, caller, resp), Serve(caller, false);
            && PipeEnabled(p, step)
            && PipeNext(p, step) == Pipe([], map[], map[caller := CallerSide([], map[a := resp], {})])
  {
    PairOfOne(a, resp);
    var none: map<CallArgs, Response> := map[];
    var req := SaveCallsRequest([a], [resp]);
    assert none + map[a := resp] == map[a := resp];
    assert Deliver(req, none) == map[a := resp] && [req][1..] == [];
    assert ServeOne(CallerSide([req], none, {}), false) == CallerSide([], map[a := resp], {});
  }

  lemma SaveDelivered(cfg: Config, k: Key, a: CallArgs, caller: ServiceName, body: string)
    ensures Reachable(cfg, a, Cached(k, a, caller, body))
  {
    var s, resp := Processed(k, a, caller, body, 4), StaleResponse(k, body);
    ManagerDone(cfg, k, a, caller, body, 4);
    AllProcessed(cfg, k, a, caller, body);
    SaveTaken(a, caller, resp);
    MoveReach(cfg, a, s, Take);
    SaveFlushed(a, caller, resp);
    MoveReach(cfg, a, s.(pipe := Buffered(a, caller, resp)), Flush(caller, [SaveCallsRequest([a], [resp])]));
    SaveServed(a, caller, resp);
    MoveReach(cfg, a, s.(pipe := Flushed(a, caller, resp)), Serve(caller, false));
  }

  // ---------- The second call ends too, and is judged invalid ----------

  function Reading(k: Key, a: CallArgs, caller: ServiceName, body: string, seen: set<Observation>): System {
    Cached(k, a, caller, body).(active := map[CallId("2") := ActiveCall(a, caller, {k}, {}, seen)])
  }

  function SecondEnd(k: Key, a: CallArgs, caller: ServiceName, body: string): Request<Response> {
    EndRequest(a, caller, [k], [], Response(body, {Observation(k, 1)}))
  }

  function Ended(k: Key, a: CallArgs, caller: ServiceName, body: string): System {
    Cached(k, a, caller, body).(active := map[], wq := [SecondEnd(k, a, caller, body)])
  }

  lemma SecondCallReads(cfg: Config, k: Key, a: CallArgs, caller: ServiceName, body: string)
    ensures Legal(cfg, Cached(k, a, caller, body).inputs)
    ensures Reachable(cfg, a, Reading(k, a, caller, body, {Observation(k, 1)}))
  {
    var two := CallId("2");
    SaveDelivered(cfg, k, a, caller, body);
    AllProcessed(cfg, k, a, caller, body);
    assert {} + {k} == {k} && {} + {Observation(k, 1)} == {Observation(k, 1)};
    var s0, s1 := Cached(k, a, caller, body), Reading(k, a, caller, body, {});
    assert s0.active[two := ActiveCall(a, caller, {k}, {}, {})] == s1.active;
    assert Step(cfg, s0, RecordKey(two, k)) == s1;
    Reach(cfg, a, s0, RecordKey(two, k), s1);
    var s2 := Reading(k, a, caller, body, {Observation(k, 1)});
    assert s1.active[two := ActiveCall(a, caller, {k}, {}, {Observation(k, 1)})] == s2.active;
    assert Step(cfg, s1, Read(two, k)) == s2;
    Reach(cfg, a, s1, Read(two, k), s2);
  }

  lemma SecondCallEnds(cfg: Config, k: Key, a: CallArgs, caller: ServiceName, body: string)
    ensures Legal(cfg, Cached(k, a, caller, body).inputs)
    ensures Reachable(cfg, a, Ended(k, a, caller, body))
  {
    SecondCallReads(cfg, k, a, caller, body);
    var s, two := Reading(k, a, caller, body, {Observation(k, 1)}), CallId("2");
    assert Enumerates([k], {k}) && Enumerates<CallArgs>([], {});
    assert s.active - {two} == map[] && s.wq == [];
    assert Step(cfg, s, Finish(two, [k], [], body)) == Ended(k, a, caller, body);
    Reach(cfg, a, s, Finish(two, [k], [], body), Ended(k, a, caller, body));
  }

  /** The first End took the newer marker, so the second is judged from the older one, before the write. */
  lemma SecondEndInvalid(cfg: Config, k: Key, a: CallArgs, caller: ServiceName, body: string)
    ensures Legal(cfg, MessageInputs(k, a, caller, body, 4))
    ensures !Valid(After(cfg, MessageInputs(k, a, caller, body, 4)), SecondEnd(k, a, caller, body))
  {
    AllProcessed(cfg, k, a, caller, body);
    ManagerReaches(cfg, k, a, caller, body, 3);
    var inputs, all := MessageInputs(k, a, caller, body, 3), MessageInputs(k, a, caller, body, 4);
    var input := Receive(Messages(k, a, caller, body)[3], false);
    assert all == inputs + [input];
    assert Front(all) == inputs && Last(all) == input;
    var h := [CallArgSet({a}), Logged(WriteKey(k)), CallArgSet({a})];
    assert h[..3] == h && Front(h) == [CallArgSet({a}), Logged(WriteKey(k))];
    assert After(cfg, all).history == Unmark(h, a) == Front(h) + [CallArgSet({a} - {a})];
    LaterHit(Front(h), CallArgSet({a} - {a}), a, k);
  }

  lemma LaterHit(front: seq<HistoryItem>, last: HistoryItem, a: CallArgs, k: Key)
    requires front != [] && Last(front) == Logged(WriteKey(k)) && last.CallArgSet? && a !in last.cas
    ensures !ScanVerdict(front + [last], a, Elements([k]), Elements([]))
  {
    assert Front(front + [last]) == front && k in Elements([k]);
  }

  function Stale(k: Key, a: CallArgs, caller: ServiceName, body: string): System {
    var s := Ended(k, a, caller, body);
    s.(wq := [], inputs := s.inputs + [Receive(SecondEnd(k, a, caller, body), false)])
  }

  lemma SecondEndProcessed(cfg: Config, k: Key, a: CallArgs, caller: ServiceName, body: string)
    ensures var s := Ended(k, a, caller, body);
            && Legal(cfg, s.inputs) && Possible(cfg, s, Process(false)) && Step(cfg, s, Process(false)) == Stale(k, a, caller, body)
  {
    SecondEndInvalid(cfg, k, a, caller, body);
    var before := Ended(k, a, caller, body);
    assert before.pipe.outbox + [] == before.pipe.outbox;
    ProcessStep(cfg, before, Stale(k, a, caller, body));
  }

  /** For every key, arguments and caller: without H1, a quiescent system, with no write unnotified and
      no call active, can hold a stale entry, and nothing is left that would remove it. */
  lemma WithoutH1StaleForEver(cfg: Config, k: Key, a: CallArgs, caller: ServiceName, body: string) returns (s: System)
    ensures Reachable(cfg, a, s) && AtRest(s) && s.active == map[]
    ensures SideOf(s.pipe, caller).cache == map[a := StaleResponse(k, body)]
    ensures Version(s.versions, k) == 1 && Observation(k, 0) in StaleResponse(k, body).basis
  {
    SecondCallEnds(cfg, k, a, caller, body);
    SecondEndProcessed(cfg, k, a, caller, body);
    s := Stale(k, a, caller, body);
    Reach(cfg, a, Ended(k, a, caller, body), Process(false), s);
  }

  lemma {:induction false} MoreMayOverlap(cfg: Config, some: iset<CallArgs>, more: iset<CallArgs>, actions: seq<Action>)
    requires LegalRun(cfg, some, actions) && some <= more
    ensures LegalRun(cfg, more, actions) && At(cfg, more, actions) == At(cfg, some, actions)
  {
    if actions != [] { MoreMayOverlap(cfg, some, more, Front(actions)); }
  }

  ghost predicate EveryRestCurrent(cfg: Config, overlap: iset<CallArgs>, idle: bool) {
    forall actions :: LegalRun(cfg, overlap, actions) && AtRest(At(cfg, overlap, actions)) &&
                      (idle ==> At(cfg, overlap, actions).active == map[]) ==>
      CachesCurrent(At(cfg, overlap, actions))
  }

  /** For any set of arguments that calls may share while they overlap: every run that comes to rest
      (with no call active, if `idle`) has only current entries in every cache, if and only if the set
      is empty, which is H1. */
  lemma CoherentIffH1(cfg: Config, overlap: iset<CallArgs>, idle: bool)
    ensures EveryRestCurrent(cfg, overlap, idle) <==> overlap == iset{}
  {
    if a :| a in overlap {
      var k, caller := Key(""), ServiceName("");
      var s := WithoutH1StaleForEver(cfg, k, a, caller, "");
      var actions :| LegalRun(cfg, iset{a}, actions) && At(cfg, iset{a}, actions) == s;
      MoreMayOverlap(cfg, iset{a}, overlap, actions);
      assert SideOf(s.pipe, caller).cache[a] == StaleResponse(k, "");
      assert !CachesCurrent(s);
    } else {
      assert overlap == iset{};
      forall actions | LegalRun(cfg, iset{}, actions) && AtRest(At(cfg, iset{}, actions)) ensures CachesCurrent(At(cfg, iset{}, actions)) {
        QuiescentCachesAreCurrent(cfg, actions);
      }
    }
  }
}
