/** What the callers' caches hold, exactly: not only that no entry is out of date, but that every
    entry that should be there is. */
module Exactness {
  import opened CmTypes
  import opened ManagerState
  import opened Cache
  import opened HttpSender
  import opened Server
  import opened Runs
  import opened Pipeline
  import opened Coherence

  // ---------- One step of the manager ----------

  predicate SavedBy<R>(m: Manager<R>, input: Input<R>, caller: ServiceName, ca: CallArgs) {
    && input.Receive? && input.request.EndRequest? && input.request.caller == caller && input.request.callArgs == ca
    && Valid(m, input.request)
  }

  /** Some dependency that the call is indexed under is invalidated. */
  ghost predicate DroppedBy<R>(cfg: Config, m: Manager<R>, input: Input<R>, caller: ServiceName, ca: CallArgs) {
    exists d :: Invalidates(cfg, input, d) && IndexedUnder(m, d, caller, ca)
  }

  ghost predicate Holds<R>(cache: map<CallArgs, R>, ca: CallArgs, v: R) {
    ca in cache && cache[ca] == v
  }

  lemma ApplyOne<R>(out: Outgoing<R>, caller: ServiceName, cache: map<CallArgs, R>)
    requires ListsMatch(out)
    ensures ApplyAllOutgoing([out], caller, cache) == ApplyOutgoing(out, caller, cache)
  {
    assert Front([out]) == [];
  }

  lemma SaveEffect<R>(end: Request<R>, caller: ServiceName, cache: map<CallArgs, R>, ca: CallArgs, v: R)
    requires end.EndRequest?
    ensures Holds(ApplyAllOutgoing([HttpSendSaveCalls(end.caller, [end.callArgs], [end.returnVal])], caller, cache), ca, v)
       <==> if end.caller == caller && end.callArgs == ca then end.returnVal == v else Holds(cache, ca, v)
  {
    ApplyOne(HttpSendSaveCalls(end.caller, [end.callArgs], [end.returnVal]), caller, cache);
    assert Front([end.callArgs]) == [];
    assert PairUp([end.callArgs], [end.returnVal]) == map[end.callArgs := end.returnVal];
  }

  lemma InvalidateEffect<R>(m: Manager<R>, calls: seq<CallArgs>, caller: ServiceName, cache: map<CallArgs, R>, ca: CallArgs, v: R)
    ensures Holds(ApplyAllOutgoing(InvalidateCallsSends(m, calls), caller, cache), ca, v)
       <==> Holds(cache, ca, v) && !exists d :: d in calls && IndexLists(m.callDeps, d, caller, ca)
  {
    GatherLists(m.callDeps, calls, caller, ca);
    if AnyIndexed(m.callDeps, calls) {
      ApplyOne(HttpSendInvalidateCall(Gather(m.callDeps, calls)), caller, cache);
    }
  }

  lemma DroppedByKey<R>(cfg: Config, m: Manager<R>, input: Input<R>, caller: ServiceName, ca: CallArgs)
    requires input.Receive? && input.request.InvalidateKeyRequest?
    ensures DroppedBy(cfg, m, input, caller, ca) <==> IndexLists(m.keyDeps, input.request.key, caller, ca)
  {
    if IndexLists(m.keyDeps, input.request.key, caller, ca) {
      assert Invalidates(cfg, input, OnKey(input.request.key)) && IndexedUnder(m, OnKey(input.request.key), caller, ca);
    }
  }

  lemma DroppedByCalls<R>(cfg: Config, m: Manager<R>, input: Input<R>, caller: ServiceName, ca: CallArgs)
    requires !(input.Receive? && input.request.InvalidateKeyRequest?)
    ensures DroppedBy(cfg, m, input, caller, ca) <==> exists d :: d in ProcessedCalls(cfg, input) && IndexLists(m.callDeps, d, caller, ca)
  {
    if d :| d in ProcessedCalls(cfg, input) && IndexLists(m.callDeps, d, caller, ca) {
      assert Invalidates(cfg, input, OnCall(d)) && IndexedUnder(m, OnCall(d), caller, ca);
    }
  }

  /** A step saves the call, or drops it, or leaves it as it was. */
  lemma StepEffect<R>(cfg: Config, m: Manager<R>, input: Input<R>, caller: ServiceName, cache: map<CallArgs, R>, ca: CallArgs, v: R)
    ensures Holds(ApplyAllOutgoing(Sends(cfg, m, input), caller, cache), ca, v)
       <==> if SavedBy(m, input, caller, ca) then input.request.returnVal == v
            else Holds(cache, ca, v) && !DroppedBy(cfg, m, input, caller, ca)
  {
    if input.Receive? && input.request.InvalidateKeyRequest? {
      DroppedByKey(cfg, m, input, caller, ca);
      if input.request.key in m.keyDeps {
        ApplyOne(HttpSendInvalidateCall(m.keyDeps[input.request.key]), caller, cache);
      }
    } else {
      DroppedByCalls(cfg, m, input, caller, ca);
      match input
      case Receive(EndRequest(_, _, _, _, _), _) =>
        if Valid(m, input.request) { SaveEffect(input.request, caller, cache, ca, v); }
      case Receive(InvalidateCallsRequest(calls), _) => InvalidateEffect(m, calls, caller, cache, ca, v);
      case Tick(order) => InvalidateEffect(m, order, caller, cache, ca, v);
      case _ =>
    }
  }

  // ---------- Whole runs of the manager ----------

  /** The step after `before` is a valid End of the call from the caller. */
  ghost predicate Saves<R>(cfg: Config, before: seq<Input<R>>, input: Input<R>, caller: ServiceName, ca: CallArgs)
    requires Legal(cfg, before)
  {
    SavedBy(After(cfg, before), input, caller, ca)
  }

  /** The step after `before` invalidates some dependency that a valid End of the call from the
      caller listed, and that had not been invalidated since that End. */
  ghost predicate Drops<R>(cfg: Config, before: seq<Input<R>>, input: Input<R>, caller: ServiceName, ca: CallArgs) {
    exists d, i: nat :: Invalidates(cfg, input, d) && CachedAt(cfg, before, i, d, caller, ca)
  }

  /** The call was saved by step `i`, and by no step since, and no step since dropped it. */
  ghost predicate StandsSince<R>(cfg: Config, inputs: seq<Input<R>>, i: nat, caller: ServiceName, ca: CallArgs)
    requires Legal(cfg, inputs)
  {
    if inputs == [] then false
    else if i == |inputs| - 1 then Saves(cfg, Front(inputs), Last(inputs), caller, ca)
    else
      && StandsSince(cfg, Front(inputs), i, caller, ca)
      && !Saves(cfg, Front(inputs), Last(inputs), caller, ca) && !Drops(cfg, Front(inputs), Last(inputs), caller, ca)
  }

  lemma DropsIff<R>(cfg: Config, before: seq<Input<R>>, input: Input<R>, caller: ServiceName, ca: CallArgs)
    requires Legal(cfg, before)
    ensures Drops(cfg, before, input, caller, ca) <==> DroppedBy(cfg, After(cfg, before), input, caller, ca)
  {
    forall d ensures IndexedUnder(After(cfg, before), d, caller, ca) <==> exists i: nat :: CachedAt(cfg, before, i, d, caller, ca) {
      IndexAgreesWithRun(cfg, before, d, caller, ca);
    }
  }

  lemma {:induction false} SentMatch<R>(cfg: Config, inputs: seq<Input<R>>)
    requires Legal(cfg, inputs)
    ensures forall i :: 0 <= i < |SentBy(cfg, inputs)| ==> ListsMatch(SentBy(cfg, inputs)[i])
  {
    if inputs != [] { SentMatch(cfg, Front(inputs)); }
  }

  lemma {:induction false} StandsInside<R>(cfg: Config, inputs: seq<Input<R>>, i: nat, caller: ServiceName, ca: CallArgs)
    requires Legal(cfg, inputs) && StandsSince(cfg, inputs, i, caller, ca)
    ensures i < |inputs| && inputs[i].Receive? && inputs[i].request.EndRequest?
  {
    if i != |inputs| - 1 { StandsInside(cfg, Front(inputs), i, caller, ca); }
  }

  ghost predicate StandsWith<R>(cfg: Config, inputs: seq<Input<R>>, i: nat, caller: ServiceName, ca: CallArgs, v: R)
    requires Legal(cfg, inputs)
  {
    && StandsSince(cfg, inputs, i, caller, ca)
    && i < |inputs| && inputs[i].Receive? && inputs[i].request.EndRequest? && inputs[i].request.returnVal == v
  }

  lemma StandsStep<R>(cfg: Config, inputs: seq<Input<R>>, i: nat, caller: ServiceName, ca: CallArgs, v: R)
    requires inputs != [] && Legal(cfg, inputs)
    ensures StandsWith(cfg, inputs, i, caller, ca, v) <==>
            if i == |inputs| - 1 then Saves(cfg, Front(inputs), Last(inputs), caller, ca) && Last(inputs).request.returnVal == v
            else StandsWith(cfg, Front(inputs), i, caller, ca, v)
                 && !Saves(cfg, Front(inputs), Last(inputs), caller, ca) && !Drops(cfg, Front(inputs), Last(inputs), caller, ca)
  {
    if i != |inputs| - 1 && StandsSince(cfg, Front(inputs), i, caller, ca) {
      StandsInside(cfg, Front(inputs), i, caller, ca);
    }
  }

  /** What the manager has sent a caller amounts to exactly the saves that still stand. */
  lemma {:induction false} SentIsExact<R>(cfg: Config, inputs: seq<Input<R>>, caller: ServiceName, ca: CallArgs, v: R)
    requires Legal(cfg, inputs)
    ensures forall i :: 0 <= i < |SentBy(cfg, inputs)| ==> ListsMatch(SentBy(cfg, inputs)[i])
    ensures Holds(ApplyAllOutgoing(SentBy(cfg, inputs), caller, map[]), ca, v) <==>
            exists i: nat :: StandsWith(cfg, inputs, i, caller, ca, v)
  {
    SentMatch(cfg, inputs);
    if inputs != [] {
      var f, last := Front(inputs), Last(inputs);
      var n, m := |f|, After(cfg, f);
      SentIsExact(cfg, f, caller, ca, v);
      ApplyAllConcat(SentBy(cfg, f), Sends(cfg, m, last), caller, map[]);
      StepEffect(cfg, m, last, caller, ApplyAllOutgoing(SentBy(cfg, f), caller, map[]), ca, v);
      DropsIff(cfg, f, last, caller, ca);
      forall i: nat
        ensures StandsWith(cfg, inputs, i, caller, ca, v) <==>
                if i == n then Saves(cfg, f, last, caller, ca) && last.request.returnVal == v
                else StandsWith(cfg, f, i, caller, ca, v) && !Saves(cfg, f, last, caller, ca) && !Drops(cfg, f, last, caller, ca)
      {
        StandsStep(cfg, inputs, i, caller, ca, v);
      }
      if Saves(cfg, f, last, caller, ca) && last.request.returnVal == v {
        assert StandsWith(cfg, inputs, n, caller, ca, v);
      } else if i: nat :| StandsWith(cfg, f, i, caller, ca, v) {
        StandsInside(cfg, f, i, caller, ca);
        assert StandsWith(cfg, inputs, i, caller, ca, v) <==> !Saves(cfg, f, last, caller, ca) && !Drops(cfg, f, last, caller, ca);
      }
    }
  }

  // ---------- The whole system ----------

  /** The caller's manager removes invalidated calls at once. */
  predicate NeverHolds(actions: seq<Action>, caller: ServiceName) {
    forall i :: 0 <= i < |actions| ==> actions[i] != Move(Serve(caller, true))
  }

  lemma ServeKeeps<R>(side: CallerSide<R>)
    requires side.inbox != [] && AllWellFormed(side.inbox)
    ensures var s' := ServeOne(side, false);
            AllWellFormed(s'.inbox) && s'.held == side.held && (side.held == {} ==> DeliverAll(s'.inbox, s'.cache) == DeliverAll(side.inbox, side.cache))
  {
    var req, rest := side.inbox[0], side.inbox[1..];
    assert side.inbox == [req] + rest;
    assert AllWellFormed(rest) by {
      assert forall i :: 0 <= i < |rest| ==> rest[i] == side.inbox[i + 1];
    }
    DeliverAllConcat([req], rest, side.cache);
    assert Front([req]) == [];
  }

  lemma SideChangeKeeps<R(!new)>(p: Pipe<R>, c: ServiceName, s': CallerSide<R>, caller: ServiceName)
    requires PipeOk(p) && AllWellFormed(s'.inbox) && PipeOk(p.(callers := p.callers[c := s']))
    requires c == caller ==>
               DeliverAll(s'.inbox, s'.cache - s'.held) == DeliverAll(SideOf(p, c).inbox, SideOf(p, c).cache - SideOf(p, c).held)
    ensures Eventual(p.(callers := p.callers[c := s']), caller) == Eventual(p, caller)
  {}

  /** No step of the pipeline takes anything from a caller that does not batch. */
  lemma PipeKeeps<R(!new)>(p: Pipe<R>, a: PipeAction<R>, caller: ServiceName)
    requires PipeOk(p) && PipeEnabled(p, a) && SideOf(p, caller).held == {} && a != Serve(caller, true)
    ensures PipeOk(PipeNext(p, a)) && Eventual(PipeNext(p, a), caller) == Eventual(p, caller)
    ensures SideOf(PipeNext(p, a), caller).held == {}
  {
    PipeShrinks(p, a, caller);
    match a
    case Take => TakeKeeps(p, caller);
    case Flush(c, msgs) => FlushKeeps(p, c, msgs, caller);
    case Serve(c, hold) =>
      if c == caller {
        var side := SideOf(p, c);
        ServeKeeps(side);
        assert side.cache - {} == side.cache && ServeOne(side, false).cache - {} == ServeOne(side, false).cache;
      }
      SideChangeKeeps(p, c, ServeOne(SideOf(p, c), hold), caller);
    case RemoveHeld(c) =>
      var side := SideOf(p, c);
      assert (side.cache - side.held) - {} == side.cache - side.held;
      SideChangeKeeps(p, c, side.(cache := side.cache - side.held, held := {}), caller);
  }

  /** The caller will see exactly what the manager sent. */
  ghost predicate SeesAllSent(cfg: Config, s: System, caller: ServiceName) {
    && Legal(cfg, s.inputs) && PipeOk(s.pipe) && SideOf(s.pipe, caller).held == {}
    && (forall i :: 0 <= i < |SentBy(cfg, s.inputs)| ==> ListsMatch(SentBy(cfg, s.inputs)[i]))
    && Eventual(s.pipe, caller) == ApplyAllOutgoing(SentBy(cfg, s.inputs), caller, map[])
  }

  lemma ManagerStepSeen(cfg: Config, s: System, input: Input<Response>, s': System, caller: ServiceName)
    requires SeesAllSent(cfg, s, caller) && Allowed(cfg, After(cfg, s.inputs), input)
    requires s'.inputs == s.inputs + [input]
    requires s'.pipe == s.pipe.(outbox := s.pipe.outbox + Sends(cfg, After(cfg, s.inputs), input))
    ensures SeesAllSent(cfg, s', caller)
  {
    var outs := Sends(cfg, After(cfg, s.inputs), input);
    assert Front(s'.inputs) == s.inputs && Last(s'.inputs) == input;
    SentMatch(cfg, s'.inputs);
    SendAppends(s.pipe, outs, caller);
    ApplyAllConcat(SentBy(cfg, s.inputs), outs, caller, map[]);
  }

  lemma StepSeen(cfg: Config, s: System, a: Action, caller: ServiceName)
    requires SeesAllSent(cfg, s, caller) && Possible(cfg, s, a) && a != Move(Serve(caller, true))
    ensures SeesAllSent(cfg, Step(cfg, s, a), caller)
  {
    match a
    case Process(gcDue) => ManagerStepSeen(cfg, s, Receive(s.wq[0], gcDue), Step(cfg, s, a), caller);
    case ManagerTick(order) => ManagerStepSeen(cfg, s, Tick(order), Step(cfg, s, a), caller);
    case Move(step) => PipeKeeps(s.pipe, step, caller);
    case _ =>
  }

  lemma {:induction false} AlwaysSeen(cfg: Config, overlap: iset<CallArgs>, actions: seq<Action>, caller: ServiceName)
    requires LegalRun(cfg, overlap, actions) && NeverHolds(actions, caller)
    ensures SeesAllSent(cfg, At(cfg, overlap, actions), caller)
  {
    if actions == [] {
      DrainedIsActual(Start().pipe, caller);
    } else {
      AlwaysSeen(cfg, overlap, Front(actions), caller);
      assert Last(actions) == actions[|actions| - 1];
      StepSeen(cfg, At(cfg, overlap, Front(actions)), Last(actions), caller);
    }
  }

  /** In every reachable state, under H1 or not: a caller that does not batch will see a call with a
      value exactly when the value was returned by the last valid End of that call from it, and no
      dependency that the call was indexed under has been invalidated since. */
  lemma EventualIsExact(cfg: Config, overlap: iset<CallArgs>, actions: seq<Action>, caller: ServiceName, ca: CallArgs, v: Response)
    requires LegalRun(cfg, overlap, actions) && NeverHolds(actions, caller)
    ensures var s := At(cfg, overlap, actions);
            && Legal(cfg, s.inputs) && PipeOk(s.pipe)
            && (Holds(Eventual(s.pipe, caller), ca, v) <==> exists i: nat :: StandsWith(cfg, s.inputs, i, caller, ca, v))
  {
    AlwaysSeen(cfg, overlap, actions, caller);
    SentIsExact(cfg, At(cfg, overlap, actions).inputs, caller, ca, v);
  }

  /** And once the pipeline is drained, its cache holds exactly these. */
  lemma DrainedCacheIsExact(cfg: Config, overlap: iset<CallArgs>, actions: seq<Action>, caller: ServiceName, ca: CallArgs, v: Response)
    requires LegalRun(cfg, overlap, actions) && NeverHolds(actions, caller) && Drained(At(cfg, overlap, actions).pipe)
    ensures var s := At(cfg, overlap, actions);
            && Legal(cfg, s.inputs)
            && (Holds(SideOf(s.pipe, caller).cache, ca, v) <==> exists i: nat :: StandsWith(cfg, s.inputs, i, caller, ca, v))
  {
    EventualIsExact(cfg, overlap, actions, caller, ca, v);
    DrainedIsActual(At(cfg, overlap, actions).pipe, caller);
  }

  // ---------- Callers that batch ----------

  /** The calls lost so far: last saved while an invalidation of theirs was held for the tick. */
  function LostByServing<R>(req: Request<R>, held: set<CallArgs>, lost: set<CallArgs>): set<CallArgs> {
    match req
    case SaveCallsRequest(cas, _) => (lost - Elements(cas)) + (Elements(cas) * held)
    case InvalidateCallsRequest(calls) => lost - Elements(calls)
    case _ => lost
  }

  predicate Serves(a: Action, caller: ServiceName) {
    a.Move? && a.step.Serve? && a.step.caller == caller
  }

  ghost function LostAfter(cfg: Config, overlap: iset<CallArgs>, actions: seq<Action>, caller: ServiceName): set<CallArgs>
    requires LegalRun(cfg, overlap, actions)
  {
    if actions == [] then {}
    else
      var before := LostAfter(cfg, overlap, Front(actions), caller);
      var side := SideOf(At(cfg, overlap, Front(actions)).pipe, caller);
      if Serves(Last(actions), caller) then LostByServing(side.inbox[0], side.held, before) else before
  }

  /** The cache that the same messages would have left, each invalidation removed at once. */
  ghost function Undelayed(cfg: Config, overlap: iset<CallArgs>, actions: seq<Action>, caller: ServiceName): map<CallArgs, Response>
    requires LegalRun(cfg, overlap, actions)
  {
    if actions == [] then map[]
    else
      var before := Undelayed(cfg, overlap, Front(actions), caller);
      var side := SideOf(At(cfg, overlap, Front(actions)).pipe, caller);
      if Serves(Last(actions), caller) then Deliver(side.inbox[0], before) else before
  }

  ghost predicate LessLost<R>(side: CallerSide<R>, undelayed: map<CallArgs, R>, lost: set<CallArgs>) {
    side.cache - side.held == undelayed - lost
  }

  lemma ServeLosesExactly<R>(side: CallerSide<R>, hold: bool, undelayed: map<CallArgs, R>, lost: set<CallArgs>)
    requires side.inbox != [] && WellFormed(side.inbox[0]) && LessLost(side, undelayed, lost)
    ensures LessLost(ServeOne(side, hold), Deliver(side.inbox[0], undelayed), LostByServing(side.inbox[0], side.held, lost))
  {
    var x, y := side.cache - side.held, undelayed - lost;
    match side.inbox[0]
    case SaveCallsRequest(cas, rets) => SaveLosesExactly(side.cache, side.held, undelayed, lost, cas, rets);
    case InvalidateCallsRequest(calls) =>
      var gone := Elements(calls);
      assert side.cache - (side.held + gone) == x - gone == (side.cache - gone) - side.held;
      assert (undelayed - gone) - (lost - gone) == y - gone;
    case _ =>
  }

  lemma SaveLosesExactly<R>(cache: map<CallArgs, R>, held: set<CallArgs>, undelayed: map<CallArgs, R>, lost: set<CallArgs>, cas: seq<CallArgs>, rets: seq<R>)
    requires |cas| <= |rets| && cache - held == undelayed - lost
    ensures (cache + PairUp(cas, rets)) - held == (undelayed + PairUp(cas, rets)) - ((lost - Elements(cas)) + (Elements(cas) * held))
  {
    PairUpKeys(cas, rets);
    var saved, before := PairUp(cas, rets), cache - held;
    var x, y := cache + saved, undelayed + saved;
    var lost' := (lost - Elements(cas)) + (Elements(cas) * held);
    forall c ensures c in x - held <==> c in y - lost'
             ensures c in x - held ==> x[c] == y[c]
    {
      assert c in before <==> c in undelayed - lost;
      if c in before { assert before[c] == undelayed[c]; }
    }
  }

  lemma {:induction false} AlwaysLessLost(cfg: Config, overlap: iset<CallArgs>, actions: seq<Action>, caller: ServiceName)
    requires LegalRun(cfg, overlap, actions)
    ensures LessLost(SideOf(At(cfg, overlap, actions).pipe, caller), Undelayed(cfg, overlap, actions, caller), LostAfter(cfg, overlap, actions, caller))
  {
    if actions == [] {
      var none: map<CallArgs, Response> := map[];
      assert none - {} == none;
    } else {
      AlwaysLessLost(cfg, overlap, Front(actions), caller);
      var s, a := At(cfg, overlap, Front(actions)), Last(actions);
      PipeStepLessLost(cfg, s, a, caller, Undelayed(cfg, overlap, Front(actions), caller), LostAfter(cfg, overlap, Front(actions), caller));
    }
  }

  lemma MoveLessLost(p: Pipe<Response>, step: PipeAction<Response>, caller: ServiceName, undelayed: map<CallArgs, Response>, lost: set<CallArgs>)
    requires PipeEnabled(p, step) && LessLost(SideOf(p, caller), undelayed, lost)
    ensures var side, side' := SideOf(p, caller), SideOf(PipeNext(p, step), caller);
            if Serves(Move(step), caller) then LessLost(side', Deliver(side.inbox[0], undelayed), LostByServing(side.inbox[0], side.held, lost))
            else LessLost(side', undelayed, lost)
  {
    var side := SideOf(p, caller);
    match step
    case Serve(c, hold) =>
      if c == caller { ServeLosesExactly(side, hold, undelayed, lost); }
    case RemoveHeld(c) =>
      if c == caller { assert (side.cache - side.held) - {} == side.cache - side.held; }
    case _ =>
  }

  lemma PipeStepLessLost(cfg: Config, s: System, a: Action, caller: ServiceName, undelayed: map<CallArgs, Response>, lost: set<CallArgs>)
    requires Legal(cfg, s.inputs) && Possible(cfg, s, a) && LessLost(SideOf(s.pipe, caller), undelayed, lost)
    ensures var side, side' := SideOf(s.pipe, caller), SideOf(Step(cfg, s, a).pipe, caller);
            if Serves(a, caller) then LessLost(side', Deliver(side.inbox[0], undelayed), LostByServing(side.inbox[0], side.held, lost))
            else LessLost(side', undelayed, lost)
  {
    if a.Move? { MoveLessLost(s.pipe, a.step, caller, undelayed, lost); }
  }

  // ---------- The same system with a caller that removes at once ----------

  ghost function ShadowPipe(p: Pipe<Response>, caller: ServiceName, undelayed: map<CallArgs, Response>): Pipe<Response> {
    p.(callers := p.callers[caller := CallerSide(SideOf(p, caller).inbox, undelayed, {})])
  }

  ghost function Shadow(s: System, caller: ServiceName, undelayed: map<CallArgs, Response>): System {
    s.(pipe := ShadowPipe(s.pipe, caller, undelayed))
  }

  function AtOnce(a: Action, caller: ServiceName): Action {
    if Serves(a, caller) then Move(Serve(caller, false)) else a
  }

  ghost function WithSide(p: Pipe<Response>, c: ServiceName, side: CallerSide<Response>): Pipe<Response> {
    p.(callers := p.callers[c := side])
  }

  lemma ShadowOfOther(p: Pipe<Response>, caller: ServiceName, undelayed: map<CallArgs, Response>, c: ServiceName, side: CallerSide<Response>)
    requires c != caller
    ensures SideOf(ShadowPipe(p, caller, undelayed), c) == SideOf(p, c)
    ensures ShadowPipe(WithSide(p, c, side), caller, undelayed) == WithSide(ShadowPipe(p, caller, undelayed), c, side)
  {
    var mine := CallerSide(SideOf(p, caller).inbox, undelayed, {});
    assert SideOf(WithSide(p, c, side), caller) == SideOf(p, caller);
    assert p.callers[caller := mine][c := side] == p.callers[c := side][caller := mine];
  }

  lemma ShadowOfOwn(p: Pipe<Response>, caller: ServiceName, undelayed: map<CallArgs, Response>, side: CallerSide<Response>)
    ensures ShadowPipe(WithSide(p, caller, side), caller, undelayed) == WithSide(p, caller, CallerSide(side.inbox, undelayed, {}))
    ensures forall mine :: WithSide(ShadowPipe(p, caller, undelayed), caller, mine) == WithSide(p, caller, mine)
  {}

  lemma ShadowFlush(p: Pipe<Response>, c: ServiceName, msgs: seq<Request<Response>>, caller: ServiceName, undelayed: map<CallArgs, Response>)
    requires PipeEnabled(p, Flush(c, msgs))
    ensures var q := ShadowPipe(p, caller, undelayed);
            PipeEnabled(q, Flush(c, msgs)) && PipeNext(q, Flush(c, msgs)) == ShadowPipe(PipeNext(p, Flush(c, msgs)), caller, undelayed)
  {
    var side := SideOf(p, c).(inbox := SideOf(p, c).inbox + msgs);
    if c == caller {
      ShadowOfOwn(p, c, undelayed, side);
    } else {
      ShadowOfOther(p, caller, undelayed, c, side);
    }
  }

  lemma ShadowServe(p: Pipe<Response>, c: ServiceName, hold: bool, caller: ServiceName, undelayed: map<CallArgs, Response>)
    requires PipeEnabled(p, Serve(c, hold))
    ensures var q, hold' := ShadowPipe(p, caller, undelayed), hold && c != caller;
            && PipeEnabled(q, Serve(c, hold'))
            && PipeNext(q, Serve(c, hold')) == ShadowPipe(PipeNext(p, Serve(c, hold)), caller,
                 if c == caller then Deliver(SideOf(p, c).inbox[0], undelayed) else undelayed)
  {
    var side := ServeOne(SideOf(p, c), hold);
    if c == caller {
      ShadowOfOwn(p, c, undelayed, side);
      ShadowOfOwn(p, c, Deliver(SideOf(p, c).inbox[0], undelayed), side);
    } else {
      ShadowOfOther(p, caller, undelayed, c, side);
    }
  }

  lemma ShadowRemove(p: Pipe<Response>, c: ServiceName, caller: ServiceName, undelayed: map<CallArgs, Response>)
    ensures PipeNext(ShadowPipe(p, caller, undelayed), RemoveHeld(c)) == ShadowPipe(PipeNext(p, RemoveHeld(c)), caller, undelayed)
  {
    var side := SideOf(p, c).(cache := SideOf(p, c).cache - SideOf(p, c).held, held := {});
    if c == caller {
      assert undelayed - {} == undelayed;
      ShadowOfOwn(p, c, undelayed, side);
    } else {
      ShadowOfOther(p, caller, undelayed, c, side);
    }
  }

  lemma ShadowPipeStep(p: Pipe<Response>, step: PipeAction<Response>, caller: ServiceName, undelayed: map<CallArgs, Response>)
    requires PipeEnabled(p, step)
    ensures var q, step' := ShadowPipe(p, caller, undelayed), AtOnce(Move(step), caller).step;
            && PipeEnabled(q, step')
            && PipeNext(q, step') == ShadowPipe(PipeNext(p, step), caller,
                 if Serves(Move(step), caller) then Deliver(SideOf(p, caller).inbox[0], undelayed) else undelayed)
  {
    match step
    case Take =>
    case Flush(c, msgs) => ShadowFlush(p, c, msgs, caller, undelayed);
    case Serve(c, hold) => ShadowServe(p, c, hold, caller, undelayed);
    case RemoveHeld(c) => ShadowRemove(p, c, caller, undelayed);
  }

  lemma ShadowStep(cfg: Config, s: System, a: Action, caller: ServiceName, undelayed: map<CallArgs, Response>)
    requires Legal(cfg, s.inputs) && Possible(cfg, s, a)
    ensures var t := Shadow(s, caller, undelayed);
            && Possible(cfg, t, AtOnce(a, caller))
            && Step(cfg, t, AtOnce(a, caller)) ==
               Shadow(Step(cfg, s, a), caller, if Serves(a, caller) then Deliver(SideOf(s.pipe, caller).inbox[0], undelayed) else undelayed)
  {
    if a.Move? { ShadowPipeStep(s.pipe, a.step, caller, undelayed); }
  }

  lemma {:induction false} ShadowSeesAllSent(cfg: Config, overlap: iset<CallArgs>, actions: seq<Action>, caller: ServiceName)
    requires LegalRun(cfg, overlap, actions)
    ensures SeesAllSent(cfg, Shadow(At(cfg, overlap, actions), caller, Undelayed(cfg, overlap, actions, caller)), caller)
  {
    if actions == [] {
      DrainedIsActual(Shadow(Start(), caller, map[]).pipe, caller);
    } else {
      var f, a := Front(actions), Last(actions);
      var s, u := At(cfg, overlap, f), Undelayed(cfg, overlap, f, caller);
      ShadowSeesAllSent(cfg, overlap, f, caller);
      ShadowStep(cfg, s, a, caller, u);
      StepSeen(cfg, Shadow(s, caller, u), AtOnce(a, caller), caller);
    }
  }

  // ---------- What in-flight messages do to lost calls ----------

  function Touched<R>(req: Request<R>): set<CallArgs> {
    match req
    case SaveCallsRequest(cas, _) => Elements(cas)
    case InvalidateCallsRequest(calls) => Elements(calls)
    case _ => {}
  }

  function LostPast<R>(reqs: seq<Request<R>>, lost: set<CallArgs>): set<CallArgs> {
    if reqs == [] then lost else LostPast(Front(reqs), lost) - Touched(Last(reqs))
  }

  lemma {:induction false} DeliverAllLess<R>(reqs: seq<Request<R>>, cache: map<CallArgs, R>, lost: set<CallArgs>)
    requires AllWellFormed(reqs)
    ensures DeliverAll(reqs, cache - lost) == DeliverAll(reqs, cache) - LostPast(reqs, lost)
  {
    if reqs != [] {
      DeliverAllLess(Front(reqs), cache, lost);
      var x, l := DeliverAll(Front(reqs), cache), LostPast(Front(reqs), lost);
      match Last(reqs)
      case SaveCallsRequest(cas, rets) =>
        PairUpKeys(cas, rets);
        assert (x - l) + PairUp(cas, rets) == (x + PairUp(cas, rets)) - (l - Elements(cas));
      case InvalidateCallsRequest(calls) =>
        assert (x - l) - Elements(calls) == (x - Elements(calls)) - (l - Elements(calls));
      case _ =>
        assert l - {} == l;
    }
  }

  lemma ApplyElementLess<R>(el: BufferElement<R>, cache: map<CallArgs, R>, lost: set<CallArgs>)
    ensures ApplyElement(el, cache - lost) == ApplyElement(el, cache) - (lost - el.invSet - el.saveMap.Keys)
  {}

  function TouchedBy<R>(out: Outgoing<R>, caller: ServiceName): set<CallArgs> {
    match out
    case HttpSendSaveCalls(c, cas, _) => if c == caller then Elements(cas) else {}
    case HttpSendInvalidateCall(invSet) => if caller in invSet then invSet[caller] else {}
  }

  function LostPastQueue<R>(outs: seq<Outgoing<R>>, caller: ServiceName, lost: set<CallArgs>): set<CallArgs> {
    if outs == [] then lost else LostPastQueue(Front(outs), caller, lost) - TouchedBy(Last(outs), caller)
  }

  lemma {:induction false} ApplyAllLess<R>(outs: seq<Outgoing<R>>, caller: ServiceName, cache: map<CallArgs, R>, lost: set<CallArgs>)
    requires forall i :: 0 <= i < |outs| ==> ListsMatch(outs[i])
    ensures ApplyAllOutgoing(outs, caller, cache - lost) == ApplyAllOutgoing(outs, caller, cache) - LostPastQueue(outs, caller, lost)
  {
    if outs != [] {
      ApplyAllLess(Front(outs), caller, cache, lost);
      var x, l := ApplyAllOutgoing(Front(outs), caller, cache), LostPastQueue(Front(outs), caller, lost);
      match Last(outs)
      case HttpSendSaveCalls(c, cas, rets) =>
        PairUpKeys(cas, rets);
        if c == caller {
          assert (x - l) + PairUp(cas, rets) == (x + PairUp(cas, rets)) - (l - Elements(cas));
        } else {
          assert l - {} == l;
        }
      case HttpSendInvalidateCall(invSet) =>
        if caller in invSet {
          assert (x - l) - invSet[caller] == (x - invSet[caller]) - (l - invSet[caller]);
        } else {
          assert l - {} == l;
        }
    }
  }

  /** The lost calls that nothing in flight to the caller saves or invalidates again. */
  function StillLost<R>(p: Pipe<R>, caller: ServiceName, lost: set<CallArgs>): set<CallArgs> {
    var el := ElementOf(p.buffer, caller);
    LostPastQueue(p.outbox, caller, LostPast(SideOf(p, caller).inbox, lost) - el.invSet - el.saveMap.Keys)
  }

  lemma EventualLess(p: Pipe<Response>, caller: ServiceName, undelayed: map<CallArgs, Response>, lost: set<CallArgs>)
    requires PipeOk(p) && PipeOk(ShadowPipe(p, caller, undelayed)) && LessLost(SideOf(p, caller), undelayed, lost)
    ensures Eventual(p, caller) == Eventual(ShadowPipe(p, caller, undelayed), caller) - StillLost(p, caller, lost)
  {
    var side, el := SideOf(p, caller), ElementOf(p.buffer, caller);
    var l := LostPast(side.inbox, lost);
    assert undelayed - {} == undelayed;
    DeliverAllLess(side.inbox, undelayed, lost);
    ApplyElementLess(el, DeliverAll(side.inbox, undelayed), l);
    ApplyAllLess(p.outbox, caller, ApplyElement(el, DeliverAll(side.inbox, undelayed)), l - el.invSet - el.saveMap.Keys);
  }

  lemma ShadowOk(p: Pipe<Response>, caller: ServiceName, undelayed: map<CallArgs, Response>)
    requires PipeOk(ShadowPipe(p, caller, undelayed))
    ensures PipeOk(p)
  {
    var q := ShadowPipe(p, caller, undelayed);
    forall c ensures AllWellFormed(SideOf(p, c).inbox) {
      assert SideOf(p, c).inbox == SideOf(q, c).inbox;
    }
  }

  /** In every reachable state, for every caller, batching or not, or now and then: it will see a call
      with a value exactly when that value still stands and the call is not lost, which it is if it
      was last saved while an invalidation of it was held and nothing in flight concerns it. */
  lemma BatchingEventualIsExact(cfg: Config, overlap: iset<CallArgs>, actions: seq<Action>, caller: ServiceName, ca: CallArgs, v: Response)
    requires LegalRun(cfg, overlap, actions)
    ensures var s := At(cfg, overlap, actions);
            && Legal(cfg, s.inputs) && PipeOk(s.pipe)
            && (Holds(Eventual(s.pipe, caller), ca, v) <==>
                  && ca !in StillLost(s.pipe, caller, LostAfter(cfg, overlap, actions, caller))
                  && exists i: nat :: StandsWith(cfg, s.inputs, i, caller, ca, v))
  {
    var s, u := At(cfg, overlap, actions), Undelayed(cfg, overlap, actions, caller);
    ShadowSeesAllSent(cfg, overlap, actions, caller);
    AlwaysLessLost(cfg, overlap, actions, caller);
    ShadowOk(s.pipe, caller, u);
    EventualLess(s.pipe, caller, u, LostAfter(cfg, overlap, actions, caller));
    SentIsExact(cfg, s.inputs, caller, ca, v);
  }

  /** A caller that never holds loses nothing, so the exactness above is the special case. */
  lemma {:induction false} NeverHoldsLosesNothing(cfg: Config, overlap: iset<CallArgs>, actions: seq<Action>, caller: ServiceName)
    requires LegalRun(cfg, overlap, actions) && NeverHolds(actions, caller)
    ensures LostAfter(cfg, overlap, actions, caller) == {}
  {
    if actions != [] {
      assert NeverHolds(Front(actions), caller);
      NeverHoldsLosesNothing(cfg, overlap, Front(actions), caller);
      AlwaysSeen(cfg, overlap, Front(actions), caller);
    }
  }
}
