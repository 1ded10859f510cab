/** Whole runs of one manager: any messages, any ticks, any schedule of collections. */
module Runs {
  import opened CmTypes
  import opened History
  import opened PlainLog
  import opened ManagerState
  import opened HttpSender
  import opened Server

  ghost predicate Legal<R>(cfg: Config, inputs: seq<Input<R>>)
    decreases |inputs|, 0
  {
    inputs == [] || (Legal(cfg, Front(inputs)) && Allowed(cfg, After(cfg, Front(inputs)), Last(inputs)))
  }

  ghost function After<R>(cfg: Config, inputs: seq<Input<R>>): Manager<R>
    requires Legal(cfg, inputs)
    decreases |inputs|, 1
  {
    if inputs == [] then Initial() else Next(cfg, After(cfg, Front(inputs)), Last(inputs))
  }

  ghost function SentBy<R>(cfg: Config, inputs: seq<Input<R>>): seq<Outgoing<R>>
    requires Legal(cfg, inputs)
  {
    if inputs == [] then []
    else SentBy(cfg, Front(inputs)) + Sends(cfg, After(cfg, Front(inputs)), Last(inputs))
  }

  /** The calls whose invalidation is processed now (in batch mode: at the tick). */
  function ProcessedCalls<R>(cfg: Config, input: Input<R>): seq<CallArgs> {
    match input
    case Receive(InvalidateCallsRequest(calls), _) => if cfg.batchCallInvalidation then [] else calls
    case Tick(order) => order
    case _ => []
  }

  function Raised<R>(cfg: Config, input: Input<R>): seq<Event> {
    match input
    case Receive(InvalidateKeyRequest(k, _), _) => [WriteKey(k)]
    case _ => InvEvents(cfg.loopVariable, ProcessedCalls(cfg, input))
  }

  function Entries<R>(cfg: Config, input: Input<R>): seq<Entry> {
    match input
    case Receive(StartRequest(ca), _) => [Started(ca)]
    case Receive(EndRequest(ca, _, _, _, _), _) => [Ended(ca)]
    case _ => HappenedAll(Raised(cfg, input))
  }

  function LogOf<R>(cfg: Config, inputs: seq<Input<R>>): seq<Entry> {
    if inputs == [] then [] else LogOf(cfg, Front(inputs)) + Entries(cfg, Last(inputs))
  }

  lemma StepRepresents<R>(cfg: Config, m: Manager<R>, input: Input<R>, log: seq<Entry>)
    requires Allowed(cfg, m, input) && Represents(m.history, log)
    ensures Represents(Next(cfg, m, input).history, log + Entries(cfg, input))
  {
    match input {
      case Receive(StartRequest(ca), _) => StartKeeps(m.history, log, ca);
      case Receive(EndRequest(ca, _, _, _, _), gcDue) => EndKeeps(m.history, log, ca, gcDue);
      case Receive(InvalidateKeyRequest(k, _), _) =>
        EventKeeps(m.history, log, WriteKey(k));
        assert HappenedAll([WriteKey(k)]) == [Happened(WriteKey(k))];
      case Receive(SaveCallsRequest(_, _), _) =>
        assert log + Entries(cfg, input) == log;
      case _ =>
        EventsKeep(m.history, log, Raised(cfg, input));
        if Next(cfg, m, input).history == m.history {
          assert Raised(cfg, input) == [];
          assert m.history + LoggedAll([]) == m.history;
        }
    }
  }

  lemma {:induction false} RunRepresents<R>(cfg: Config, inputs: seq<Input<R>>)
    requires Legal(cfg, inputs)
    ensures Represents(After(cfg, inputs).history, LogOf(cfg, inputs))
  {
    if inputs == [] {
      EmptyRepresents();
    } else {
      RunRepresents(cfg, Front(inputs));
      StepRepresents(cfg, After(cfg, Front(inputs)), Last(inputs), LogOf(cfg, Front(inputs)));
    }
  }

  /** On every run under H1, an End is valid exactly when the log has no write of a listed key and
      no invalidation of a listed call since the call's Start. */
  lemma EndValidExactly<R>(cfg: Config, inputs: seq<Input<R>>, end: Request<R>, s: nat)
    requires Legal(cfg, inputs) && end.EndRequest? && OneAtATime(LogOf(cfg, inputs) + [Ended(end.callArgs)])
    requires LatestStart(LogOf(cfg, inputs), end.callArgs, s)
    ensures Valid(After(cfg, inputs), end) <==>
            NoneHit(EventsOf(LogOf(cfg, inputs)[s + 1..]), Elements(end.keyDeps), Elements(end.callDeps))
  {
    var log := LogOf(cfg, inputs);
    assert Front(log + [Ended(end.callArgs)]) == log;
    RunRepresents(cfg, inputs);
    VerdictExactUnderH1(After(cfg, inputs).history, log, end.callArgs, s, Elements(end.keyDeps), Elements(end.callDeps));
  }

  // ---------- Collection is unobservable ----------

  ghost predicate SameMessages<R>(a: seq<Input<R>>, b: seq<Input<R>>) {
    |a| == |b| && forall i :: 0 <= i < |a| ==> SameMessage(a[i], b[i])
  }

  ghost predicate SameMessage<R>(a: Input<R>, b: Input<R>) {
    if a.Receive? then b.Receive? && a.request == b.request else a == b
  }

  /** Every End finds a marker; H1 implies it. */
  ghost predicate EveryEndMatched(log: seq<Entry>) {
    forall i :: 0 <= i < |log| && log[i].Ended? ==> Stack(log[..i], log[i].ca) != []
  }

  lemma {:induction false} OneAtATimeMatches(log: seq<Entry>)
    requires OneAtATime(log)
    ensures EveryEndMatched(log)
  {
    if log != [] {
      OneAtATimeMatches(Front(log));
      assert forall i :: 0 <= i < |log| - 1 ==> Front(log)[..i] == log[..i];
      if Last(log).Ended? {
        StackUnderH1(Front(log), Last(log).ca);
      }
    }
  }

  lemma MatchedPrefix(a: seq<Entry>, b: seq<Entry>)
    requires EveryEndMatched(a + b)
    ensures EveryEndMatched(a)
    ensures b != [] && b[0].Ended? ==> Stack(a, b[0].ca) != []
  {
    assert forall i :: 0 <= i < |a| ==> (a + b)[..i] == a[..i] && (a + b)[i] == a[i];
    assert (a + b)[..|a|] == a;
    if b != [] { assert (a + b)[|a|] == b[0]; }
  }

  ghost predicate SameButHistory<R>(a: Manager<R>, b: Manager<R>) {
    a.keyDeps == b.keyDeps && a.callDeps == b.callDeps && a.cache == b.cache && a.held == b.held
  }

  lemma SameStep<R>(cfg: Config, m1: Manager<R>, m2: Manager<R>, i1: Input<R>, i2: Input<R>)
    requires SameButHistory(m1, m2) && SameMessage(i1, i2) && Allowed(cfg, m1, i1)
    requires i1.Receive? && i1.request.EndRequest? ==> Valid(m1, i1.request) == Valid(m2, i1.request)
    ensures Allowed(cfg, m2, i2) && SameButHistory(Next(cfg, m1, i1), Next(cfg, m2, i2))
    ensures Sends(cfg, m1, i1) == Sends(cfg, m2, i2) && Entries(cfg, i1) == Entries(cfg, i2)
  {
    match i1 {
      case Receive(InvalidateCallsRequest(calls), _) =>
        assert Next(cfg, m1, i1).held == Next(cfg, m2, i2).held;
      case Receive(EndRequest(_, _, _, _, _), _) =>
        assert Valid(m1, i1.request) == Valid(m2, i2.request);
      case _ =>
    }
  }

  /** Two runs on the same messages with different schedules of collections: the same verdicts,
      hence the same Saves and Invalidates, the same indexes and the same cache. */
  lemma {:induction false} CollectionUnobservable<R>(cfg: Config, a: seq<Input<R>>, b: seq<Input<R>>)
    requires Legal(cfg, a) && SameMessages(a, b) && EveryEndMatched(LogOf(cfg, a))
    ensures Legal(cfg, b) && LogOf(cfg, b) == LogOf(cfg, a)
    ensures SameButHistory(After(cfg, a), After(cfg, b)) && SentBy(cfg, a) == SentBy(cfg, b)
  {
    if a != [] {
      var fa, fb := Front(a), Front(b);
      MatchedPrefix(LogOf(cfg, fa), Entries(cfg, Last(a)));
      CollectionUnobservable(cfg, fa, fb);
      var m1, m2 := After(cfg, fa), After(cfg, fb);
      if Last(a).Receive? && Last(a).request.EndRequest? {
        var end := Last(a).request;
        RunRepresents(cfg, fa);
        RunRepresents(cfg, fb);
        CollectionInvisible(m1.history, m2.history, LogOf(cfg, fa), end.callArgs, Elements(end.keyDeps), Elements(end.callDeps));
      }
      SameStep(cfg, m1, m2, Last(a), Last(b));
    }
  }

  // ---------- The reverse indexes agree with the run ----------

  datatype Dependency = OnKey(key: Key) | OnCall(call: CallArgs)

  predicate IndexedUnder<R>(m: Manager<R>, d: Dependency, caller: ServiceName, ca: CallArgs) {
    match d
    case OnKey(k) => IndexLists(m.keyDeps, k, caller, ca)
    case OnCall(c) => IndexLists(m.callDeps, c, caller, ca)
  }

  predicate IsEndListing<R>(input: Input<R>, d: Dependency, caller: ServiceName, ca: CallArgs) {
    && input.Receive? && input.request.EndRequest? && input.request.caller == caller && input.request.callArgs == ca
    && match d case OnKey(k) => k in input.request.keyDeps case OnCall(c) => c in input.request.callDeps
  }

  /** The dependency is invalidated by this step. */
  predicate Invalidates<R>(cfg: Config, input: Input<R>, d: Dependency) {
    match d
    case OnKey(k) => input.Receive? && input.request.InvalidateKeyRequest? && input.request.key == k
    case OnCall(c) => c in ProcessedCalls(cfg, input)
  }

  /** The step after `before` is a valid End that lists the dependency. */
  ghost predicate CachedBy<R>(cfg: Config, before: seq<Input<R>>, input: Input<R>, d: Dependency, caller: ServiceName, ca: CallArgs) {
    IsEndListing(input, d, caller, ca) && Legal(cfg, before) && Valid(After(cfg, before), input.request)
  }

  ghost predicate CachedAt<R>(cfg: Config, inputs: seq<Input<R>>, i: nat, d: Dependency, caller: ServiceName, ca: CallArgs) {
    && i < |inputs| && CachedBy(cfg, inputs[..i], inputs[i], d, caller, ca)
    && forall j :: i < j < |inputs| ==> !Invalidates(cfg, inputs[j], d)
  }

  lemma IndexStep<R>(cfg: Config, m: Manager<R>, input: Input<R>, d: Dependency, caller: ServiceName, ca: CallArgs)
    requires Allowed(cfg, m, input)
    ensures IndexedUnder(Next(cfg, m, input), d, caller, ca) <==>
            || (IndexedUnder(m, d, caller, ca) && !Invalidates(cfg, input, d))
            || (IsEndListing(input, d, caller, ca) && Valid(m, input.request))
  {
    if input.Receive? && input.request.EndRequest? && Valid(m, input.request) {
      var end := input.request;
      match d
      case OnKey(k) => StoreLists(m.keyDeps, end.caller, end.callArgs, end.keyDeps, k, caller, ca);
      case OnCall(c) => StoreLists(m.callDeps, end.caller, end.callArgs, end.callDeps, c, caller, ca);
    }
  }

  lemma CachedAtStep<R>(cfg: Config, inputs: seq<Input<R>>, i: nat, d: Dependency, caller: ServiceName, ca: CallArgs)
    requires inputs != []
    ensures CachedAt(cfg, inputs, i, d, caller, ca) <==>
            || (CachedAt(cfg, Front(inputs), i, d, caller, ca) && !Invalidates(cfg, Last(inputs), d))
            || (i == |inputs| - 1 && CachedBy(cfg, Front(inputs), Last(inputs), d, caller, ca))
  {
    if i < |inputs| - 1 {
      assert Front(inputs)[..i] == inputs[..i];
      assert forall j :: 0 <= j < |inputs| - 1 ==> Front(inputs)[j] == inputs[j];
    } else if i == |inputs| - 1 {
      assert inputs[..i] == Front(inputs);
    }
  }

  /** At every step the index holds (caller, call) under a dependency exactly when some valid End
      of that call from that caller listed it, and it has not been invalidated since. */
  lemma {:induction false} IndexAgreesWithRun<R>(cfg: Config, inputs: seq<Input<R>>, d: Dependency, caller: ServiceName, ca: CallArgs)
    requires Legal(cfg, inputs)
    ensures IndexedUnder(After(cfg, inputs), d, caller, ca) <==> exists i: nat :: CachedAt(cfg, inputs, i, d, caller, ca)
  {
    if inputs != [] {
      var f, last := Front(inputs), Last(inputs);
      IndexAgreesWithRun(cfg, f, d, caller, ca);
      IndexStep(cfg, After(cfg, f), last, d, caller, ca);
      var before, now := IndexedUnder(After(cfg, f), d, caller, ca), IndexedUnder(After(cfg, inputs), d, caller, ca);
      if now {
        var i: nat := |f|;
        if before && !Invalidates(cfg, last, d) {
          i :| CachedAt(cfg, f, i, d, caller, ca);
        }
        CachedAtStep(cfg, inputs, i, d, caller, ca);
      }
      forall i: nat | CachedAt(cfg, inputs, i, d, caller, ca) ensures now {
        CachedAtStep(cfg, inputs, i, d, caller, ca);
      }
    }
  }

  // ---------- What the shared loop variable costs ----------

  lemma {:induction false} SinceStartOfHappened(log: seq<Entry>, es: seq<Event>, ca: CallArgs)
    ensures SinceStart(log + HappenedAll(es), ca) == SinceStart(log, ca) + es
    ensures Outstanding(log + HappenedAll(es)) == Outstanding(log)
    ensures OneAtATime(log + HappenedAll(es)) == OneAtATime(log)
  {
    if es == [] {
      assert log + HappenedAll(es) == log;
    } else {
      SinceStartOfHappened(log, Front(es), ca);
      assert Front(log + HappenedAll(es)) == log + HappenedAll(Front(es));
      assert es == Front(es) + [Last(es)];
    }
  }

  predicate Starts<R>(input: Input<R>, ca: CallArgs) {
    input.Receive? && input.request.StartRequest? && input.request.callArgs == ca
  }

  ghost predicate NoStartAfter<R>(inputs: seq<Input<R>>, ca: CallArgs, i: nat) {
    forall j :: i < j < |inputs| ==> !Starts(inputs[j], ca)
  }

  ghost predicate RaisedSince<R>(cfg: Config, inputs: seq<Input<R>>, ca: CallArgs, e: Event, i: nat) {
    i < |inputs| && e in Raised(cfg, inputs[i]) && NoStartAfter(inputs, ca, i)
  }

  lemma SinceStartStep<R>(cfg: Config, inputs: seq<Input<R>>, ca: CallArgs)
    requires inputs != []
    ensures SinceStart(LogOf(cfg, inputs), ca) ==
            if Starts(Last(inputs), ca) then [] else SinceStart(LogOf(cfg, Front(inputs)), ca) + Raised(cfg, Last(inputs))
  {
    var log, input := LogOf(cfg, Front(inputs)), Last(inputs);
    SinceStartOfHappened(log, Raised(cfg, input), ca);
    if input.Receive? && (input.request.StartRequest? || input.request.EndRequest?) {
      assert Front(LogOf(cfg, inputs)) == log;
    }
  }

  lemma RaisedSinceStep<R>(cfg: Config, inputs: seq<Input<R>>, ca: CallArgs, e: Event, i: nat)
    requires inputs != []
    ensures RaisedSince(cfg, inputs, ca, e, i) <==>
            || (!Starts(Last(inputs), ca) && RaisedSince(cfg, Front(inputs), ca, e, i))
            || (i == |inputs| - 1 && e in Raised(cfg, Last(inputs)))
  {
    assert forall j :: 0 <= j < |inputs| - 1 ==> Front(inputs)[j] == inputs[j];
    if i < |inputs| - 1 && Starts(Last(inputs), ca) {
      assert Starts(inputs[|inputs| - 1], ca);
    }
  }

  lemma {:induction false} LoggedSince<R>(cfg: Config, inputs: seq<Input<R>>, ca: CallArgs, e: Event)
    ensures e in SinceStart(LogOf(cfg, inputs), ca) <==> exists i: nat :: RaisedSince(cfg, inputs, ca, e, i)
  {
    if inputs != [] {
      var f, n := Front(inputs), |inputs| - 1;
      LoggedSince(cfg, f, ca, e);
      SinceStartStep(cfg, inputs, ca);
      forall i: nat ensures RaisedSince(cfg, inputs, ca, e, i) <==>
                            (!Starts(inputs[n], ca) && RaisedSince(cfg, f, ca, e, i)) || (i == n && e in Raised(cfg, inputs[n]))
      {
        RaisedSinceStep(cfg, inputs, ca, e, i);
      }
      assert RaisedSince(cfg, inputs, ca, e, n) <==> e in Raised(cfg, inputs[n]);
    }
  }

  /** What the log would hold if every listed call were logged, as the loop means to. */
  function IntendedLog<R>(cfg: Config, inputs: seq<Input<R>>): seq<Entry> {
    LogOf(cfg.(loopVariable := PerIteration), inputs)
  }

  ghost predicate ListedSince<R>(cfg: Config, inputs: seq<Input<R>>, ca: CallArgs, c: CallArgs, i: nat) {
    i < |inputs| && c in ProcessedCalls(cfg, inputs[i]) && NoStartAfter(inputs, ca, i)
  }

  ghost predicate ListedLast<R>(cfg: Config, inputs: seq<Input<R>>, ca: CallArgs, c: CallArgs, i: nat) {
    ListedSince(cfg, inputs, ca, c, i) && Last(ProcessedCalls(cfg, inputs[i])) == c
  }

  /** Since the Start of `ca`, each call listed in some request came last in some request. */
  ghost predicate EveryListedCallCameLast<R>(cfg: Config, inputs: seq<Input<R>>, ca: CallArgs) {
    forall c, i: nat :: ListedSince(cfg, inputs, ca, c, i) ==> exists j: nat :: ListedLast(cfg, inputs, ca, c, j)
  }

  lemma InvEventsHold(calls: seq<CallArgs>, c: CallArgs)
    ensures InvCall(c) in InvEvents(PerIteration, calls) <==> c in calls
    ensures InvCall(c) in InvEvents(PerLoop, calls) <==> c in calls && Last(calls) == c
    ensures forall k, v :: WriteKey(k) !in InvEvents(v, calls)
  {
    if c in calls {
      var j :| 0 <= j < |calls| && calls[j] == c;
      assert InvEvents(PerIteration, calls)[j] == InvCall(c);
      assert InvEvents(PerLoop, calls)[j] == InvCall(Last(calls));
    }
  }

  lemma CallsLogged<R>(cfg: Config, inputs: seq<Input<R>>, ca: CallArgs, c: CallArgs)
    requires cfg.loopVariable == PerLoop
    ensures InvCall(c) in SinceStart(IntendedLog(cfg, inputs), ca) <==> exists i: nat :: ListedSince(cfg, inputs, ca, c, i)
    ensures InvCall(c) in SinceStart(LogOf(cfg, inputs), ca) <==> exists i: nat :: ListedLast(cfg, inputs, ca, c, i)
  {
    var meant := cfg.(loopVariable := PerIteration);
    LoggedSince(cfg, inputs, ca, InvCall(c));
    LoggedSince(meant, inputs, ca, InvCall(c));
    forall i: nat
      ensures RaisedSince(meant, inputs, ca, InvCall(c), i) <==> ListedSince(cfg, inputs, ca, c, i)
      ensures RaisedSince(cfg, inputs, ca, InvCall(c), i) <==> ListedLast(cfg, inputs, ca, c, i)
    {
      if i < |inputs| {
        InvEventsHold(ProcessedCalls(cfg, inputs[i]), c);
        assert ProcessedCalls(meant, inputs[i]) == ProcessedCalls(cfg, inputs[i]);
      }
    }
  }

  lemma WritesLogged<R>(cfg: Config, inputs: seq<Input<R>>, ca: CallArgs, k: Key)
    ensures WriteKey(k) in SinceStart(IntendedLog(cfg, inputs), ca) <==> WriteKey(k) in SinceStart(LogOf(cfg, inputs), ca)
  {
    var meant := cfg.(loopVariable := PerIteration);
    LoggedSince(cfg, inputs, ca, WriteKey(k));
    LoggedSince(meant, inputs, ca, WriteKey(k));
    forall i: nat
      ensures RaisedSince(meant, inputs, ca, WriteKey(k), i) <==> RaisedSince(cfg, inputs, ca, WriteKey(k), i)
    {
      if i < |inputs| {
        InvEventsHold(ProcessedCalls(cfg, inputs[i]), CallArgs(""));
        InvEventsHold(ProcessedCalls(meant, inputs[i]), CallArgs(""));
      }
    }
  }

  lemma ListedButNotLast<R>(cfg: Config, inputs: seq<Input<R>>, ca: CallArgs) returns (c: CallArgs)
    requires cfg.loopVariable == PerLoop && !EveryListedCallCameLast(cfg, inputs, ca)
    ensures InvCall(c) in SinceStart(IntendedLog(cfg, inputs), ca) && InvCall(c) !in SinceStart(LogOf(cfg, inputs), ca)
  {
    var i: nat;
    c, i :| ListedSince(cfg, inputs, ca, c, i) && !exists j: nat :: ListedLast(cfg, inputs, ca, c, j);
    CallsLogged(cfg, inputs, ca, c);
  }

  lemma ListedMeansLogged<R>(cfg: Config, inputs: seq<Input<R>>, ca: CallArgs, c: CallArgs)
    requires cfg.loopVariable == PerLoop && EveryListedCallCameLast(cfg, inputs, ca)
    ensures InvCall(c) in SinceStart(IntendedLog(cfg, inputs), ca) <==> InvCall(c) in SinceStart(LogOf(cfg, inputs), ca)
  {
    CallsLogged(cfg, inputs, ca, c);
    if i: nat :| ListedSince(cfg, inputs, ca, c, i) {
      var j: nat :| ListedLast(cfg, inputs, ca, c, j);
    }
    assert forall j: nat :: ListedLast(cfg, inputs, ca, c, j) ==> ListedSince(cfg, inputs, ca, c, j);
  }

  lemma SameEventsIff<R>(cfg: Config, inputs: seq<Input<R>>, ca: CallArgs)
    requires cfg.loopVariable == PerLoop
    ensures Elements(SinceStart(LogOf(cfg, inputs), ca)) == Elements(SinceStart(IntendedLog(cfg, inputs), ca))
       <==> EveryListedCallCameLast(cfg, inputs, ca)
  {
    var actual, meant := SinceStart(LogOf(cfg, inputs), ca), SinceStart(IntendedLog(cfg, inputs), ca);
    if EveryListedCallCameLast(cfg, inputs, ca) {
      forall e ensures e in actual <==> e in meant {
        match e
        case WriteKey(k) => WritesLogged(cfg, inputs, ca, k);
        case InvCall(c) => ListedMeansLogged(cfg, inputs, ca, c);
      }
    } else {
      var c := ListedButNotLast(cfg, inputs, ca);
      assert InvCall(c) in Elements(meant) && InvCall(c) !in Elements(actual);
    }
  }

  /** As compiled (Go 1.19), a request of several calls logs only its last one. Under H1 the verdict
      on `ca` still agrees with the log that was meant, for every list of dependencies, exactly
      when each call listed since its Start also came last in a request. */
  lemma SharedVariableHarmlessIff<R>(cfg: Config, inputs: seq<Input<R>>, ca: CallArgs)
    requires Legal(cfg, inputs) && cfg.loopVariable == PerLoop
    requires OneAtATime(LogOf(cfg, inputs)) && ca in Outstanding(LogOf(cfg, inputs))
    ensures (forall keys, calls :: ScanVerdict(After(cfg, inputs).history, ca, keys, calls) ==
                                   NoneHit(SinceStart(IntendedLog(cfg, inputs), ca), keys, calls))
       <==> EveryListedCallCameLast(cfg, inputs, ca)
  {
    var log, h := LogOf(cfg, inputs), After(cfg, inputs).history;
    var actual, meant := SinceStart(log, ca), SinceStart(IntendedLog(cfg, inputs), ca);
    RunRepresents(cfg, inputs);
    StackUnderH1(log, ca);
    SameEventsIff(cfg, inputs, ca);
    SameVerdictsIff(actual, meant);
    forall keys, calls ensures ScanVerdict(h, ca, keys, calls) == NoneHit(actual, keys, calls) {
      VerdictExact(h, log, ca, keys, calls);
    }
    if Elements(actual) != Elements(meant) {
      var keys, calls :| NoneHit(actual, keys, calls) != NoneHit(meant, keys, calls);
      assert ScanVerdict(h, ca, keys, calls) != NoneHit(meant, keys, calls);
    }
  }

  /** A call starts, and one request invalidates `c` and `d`. */
  function TwoInvalidated<R>(x: CallArgs, c: CallArgs, d: CallArgs): seq<Input<R>> {
    [Receive(StartRequest(x), false), Receive(InvalidateCallsRequest([c, d]), false)]
  }

  lemma TwoInvalidatedRun<R>(cfg: Config, x: CallArgs, c: CallArgs, d: CallArgs)
    requires !cfg.batchCallInvalidation && cfg.loopVariable == PerLoop
    ensures Legal<R>(cfg, TwoInvalidated(x, c, d))
    ensures After<R>(cfg, TwoInvalidated(x, c, d)).history == [CallArgSet({x}), Logged(InvCall(d)), Logged(InvCall(d))]
    ensures LogOf<R>(cfg, TwoInvalidated(x, c, d)) == [Started(x), Happened(InvCall(d)), Happened(InvCall(d))]
  {
    var inputs: seq<Input<R>> := TwoInvalidated(x, c, d);
    var first: seq<Input<R>> := [Receive(StartRequest(x), false)];
    assert Front(inputs) == first && Front(first) == [];
    assert {} + {x} == {x};
    var m := Initial<R>();
    assert Legal(cfg, Front(first)) && After(cfg, Front(first)) == m;
    assert Legal(cfg, first) && After(cfg, first) == m.(history := [CallArgSet({x})]);
    assert InvEvents(PerLoop, [c, d]) == [InvCall(d), InvCall(d)];
    assert LogOf(cfg, first) == [Started(x)];
  }

  /** With the shared variable, `c` is not logged, and a call that depends on it ends as valid. */
  lemma SharedVariableHides<R>(cfg: Config, x: CallArgs, c: CallArgs, d: CallArgs, end: Request<R>)
    requires !cfg.batchCallInvalidation && cfg.loopVariable == PerLoop && c != d
    requires end.EndRequest? && end.callArgs == x && end.keyDeps == [] && end.callDeps == [c]
    ensures var inputs: seq<Input<R>> := TwoInvalidated(x, c, d);
            && Legal(cfg, inputs) && OneAtATime(LogOf(cfg, inputs) + [Ended(x)])
            && !EveryListedCallCameLast(cfg, inputs, x)
            && Valid(After(cfg, inputs), end)
            && !NoneHit(SinceStart(IntendedLog(cfg, inputs), x), {}, {c})
  {
    var inputs: seq<Input<R>> := TwoInvalidated(x, c, d);
    TwoInvalidatedRun<R>(cfg, x, c, d);
    var log := LogOf(cfg, inputs);
    assert log + [Ended(x)] == [Started(x), Happened(InvCall(d)), Happened(InvCall(d)), Ended(x)];
    OneAtATimeHere(x, InvCall(d));
    var h := After(cfg, inputs).history;
    assert Elements<Key>([]) == {} && Elements([c]) == {c};
    assert Front(h) == [CallArgSet({x}), Logged(InvCall(d))] && Front(Front(h)) == [CallArgSet({x})];
    assert ScanVerdict(h, x, {}, {c});
    assert ProcessedCalls(cfg, inputs[1]) == [c, d];
    assert ListedSince(cfg, inputs, x, c, 1);
    CallsLogged(cfg, inputs, x, c);
    assert InvCall(c) in SinceStart(IntendedLog(cfg, inputs), x);
  }

  lemma OneAtATimeHere(x: CallArgs, e: Event)
    ensures OneAtATime([Started(x), Happened(e), Happened(e), Ended(x)])
  {
    var log := [Started(x), Happened(e), Happened(e), Ended(x)];
    var l3, l2, l1 := [Started(x), Happened(e), Happened(e)], [Started(x), Happened(e)], [Started(x)];
    assert Front(log) == l3 && Front(l3) == l2 && Front(l2) == l1 && Front(l1) == [];
    assert OneAtATime(Front(l1)) && Outstanding(Front(l1)) == {};
    assert OneAtATime(l1) && Outstanding(l1) == {} + {x} == {x};
  }
}
