/** Batched call invalidation (internal/cm/server.go): what merging and delaying requests changes,
    and what it does not. */
module BatchedDrain {
  import opened CmTypes
  import opened History
  import opened PlainLog
  import opened ManagerState
  import opened Cache
  import opened HttpSender
  import opened Server
  import opened Runs

  // ---------- One by one ----------

  function EachInTurn<R>(v: LoopVariable, m: Manager<R>, rs: seq<seq<CallArgs>>): Manager<R> {
    if rs == [] then m else InvalidateCalls(v, EachInTurn(v, m, Front(rs)), Last(rs))
  }

  function EachSends<R>(v: LoopVariable, m: Manager<R>, rs: seq<seq<CallArgs>>): seq<Outgoing<R>> {
    if rs == [] then []
    else EachSends(v, m, Front(rs)) + InvalidateCallsSends(EachInTurn(v, m, Front(rs)), Last(rs))
  }

  function EachEvents(v: LoopVariable, rs: seq<seq<CallArgs>>): seq<Event> {
    if rs == [] then [] else EachEvents(v, Front(rs)) + InvEvents(v, Last(rs))
  }

  lemma MergedLast(rs: seq<seq<CallArgs>>)
    requires rs != []
    ensures Merged(rs) == Merged(Front(rs)) + Elements(Last(rs))
  {
    MergedOneMore(rs, |rs| - 1);
    assert rs[..|rs|] == rs;
  }

  lemma {:induction false} EachIs<R>(v: LoopVariable, m: Manager<R>, rs: seq<seq<CallArgs>>)
    ensures EachInTurn(v, m, rs) ==
            m.(history := m.history + LoggedAll(EachEvents(v, rs)), callDeps := m.callDeps - Merged(rs), cache := m.cache - Merged(rs))
  {
    if rs == [] {
      assert m.history + LoggedAll([]) == m.history && m.callDeps - {} == m.callDeps && m.cache - {} == m.cache;
    } else {
      EachIs(v, m, Front(rs));
      MergedLast(rs);
      assert m.history + LoggedAll(EachEvents(v, rs)) ==
             m.history + LoggedAll(EachEvents(v, Front(rs))) + LoggedAll(InvEvents(v, Last(rs)));
    }
  }

  /** Some message tells `caller` to drop `ca`. */
  ghost predicate Tells<R>(outs: seq<Outgoing<R>>, caller: ServiceName, ca: CallArgs) {
    exists i :: 0 <= i < |outs| && outs[i].HttpSendInvalidateCall? && Lists(outs[i].invSet, caller, ca)
  }

  lemma OneListTells<R>(m: Manager<R>, calls: seq<CallArgs>, caller: ServiceName, ca: CallArgs)
    ensures Tells(InvalidateCallsSends(m, calls), caller, ca) <==> exists d :: d in calls && IndexLists(m.callDeps, d, caller, ca)
  {
    GatherLists(m.callDeps, calls, caller, ca);
    var outs := InvalidateCallsSends(m, calls);
    if AnyIndexed(m.callDeps, calls) {
      assert outs[0] == HttpSendInvalidateCall(Gather(m.callDeps, calls));
    }
  }

  lemma {:induction false} EachTells<R>(v: LoopVariable, m: Manager<R>, rs: seq<seq<CallArgs>>, caller: ServiceName, ca: CallArgs)
    ensures Tells(EachSends(v, m, rs), caller, ca) <==> exists d :: d in Merged(rs) && IndexLists(m.callDeps, d, caller, ca)
  {
    if rs != [] {
      var f, r := Front(rs), Last(rs);
      EachTells(v, m, f, caller, ca);
      EachIs(v, m, f);
      MergedLast(rs);
      var before, mid := EachSends(v, m, f), EachInTurn(v, m, f);
      var last := InvalidateCallsSends(mid, r);
      OneListTells(mid, r, caller, ca);
      assert Tells(before + last, caller, ca) <==> Tells(before, caller, ca) || Tells(last, caller, ca) by {
        assert forall i :: 0 <= i < |before| ==> (before + last)[i] == before[i];
        assert forall i :: 0 <= i < |last| ==> (before + last)[|before| + i] == last[i];
      }
      forall d ensures d in r && IndexLists(mid.callDeps, d, caller, ca) <==>
                       d in r && d !in Merged(f) && IndexLists(m.callDeps, d, caller, ca) {}
      if d :| d in Merged(rs) && IndexLists(m.callDeps, d, caller, ca) {
        assert d in Merged(f) || (d in r && IndexLists(mid.callDeps, d, caller, ca));
      }
    }
  }

  /** Draining the merged calls leaves the index and the cache of processing the requests one by one
      (and the key index untouched), and each caller is told to drop the same calls in all. */
  lemma DrainEqualsEach<R>(v: LoopVariable, m: Manager<R>, rs: seq<seq<CallArgs>>, order: seq<CallArgs>, caller: ServiceName, ca: CallArgs)
    requires Enumerates(order, Merged(rs))
    ensures SameButHistory(InvalidateCalls(v, m, order), EachInTurn(v, m, rs))
    ensures Tells(InvalidateCallsSends(m, order), caller, ca) <==> Tells(EachSends(v, m, rs), caller, ca)
  {
    EachIs(v, m, rs);
    EachTells(v, m, rs, caller, ca);
    OneListTells(m, order, caller, ca);
    assert forall d :: d in order <==> d in Elements(order);
  }

  // ---------- Histories that no future can tell apart ----------

  lemma {:induction false} ScanConcat(a: seq<HistoryItem>, c: seq<HistoryItem>, ca: CallArgs, keys: set<Key>, calls: set<CallArgs>)
    ensures ScanVerdict(a + c, ca, keys, calls) == (ScanVerdict(c, ca, keys, calls) && (Marked(c, ca) || ScanVerdict(a, ca, keys, calls)))
  {
    if c == [] {
      assert a + c == a;
    } else {
      ScanConcat(a, Front(c), ca, keys, calls);
      assert Front(a + c) == a + Front(c);
      MarkedLast(c, ca);
    }
  }

  lemma MarkedLast(c: seq<HistoryItem>, ca: CallArgs)
    requires c != []
    ensures Marked(c, ca) <==> Marked(Front(c), ca) || (Last(c).CallArgSet? && ca in Last(c).cas)
  {
    assert forall i :: 0 <= i < |c| - 1 ==> c[i] == Front(c)[i];
  }

  lemma MarkedConcat(a: seq<HistoryItem>, c: seq<HistoryItem>, ca: CallArgs)
    ensures Marked(a + c, ca) <==> Marked(a, ca) || Marked(c, ca)
  {
    assert forall i :: 0 <= i < |a| ==> (a + c)[i] == a[i];
    assert forall i :: 0 <= i < |c| ==> (a + c)[|a| + i] == c[i];
  }

  lemma {:induction false} UnmarkConcat(a: seq<HistoryItem>, c: seq<HistoryItem>, ca: CallArgs)
    ensures Unmark(a + c, ca) == if Marked(c, ca) then a + Unmark(c, ca) else Unmark(a, ca) + c
  {
    if c == [] {
      assert a + c == a;
    } else {
      UnmarkConcat(a, Front(c), ca);
      assert Front(a + c) == a + Front(c);
      MarkedLast(c, ca);
    }
  }

  lemma {:induction false} CollectConcat(a: seq<HistoryItem>, c: seq<HistoryItem>)
    ensures Collect(a + c) == if Collect(a) == [] then Collect(c) else Collect(a) + c
  {
    if a == [] {
      assert a + c == c;
    } else {
      assert (a + c)[1..] == a[1..] + c;
      CollectConcat(a[1..], c);
    }
  }

  lemma LoggedAllLast(x: seq<Event>)
    requires x != []
    ensures LoggedAll(x) == LoggedAll(Front(x)) + [Logged(Last(x))] && Front(LoggedAll(x)) == LoggedAll(Front(x))
  {}

  lemma {:induction false} LoggedAllIsPlain(x: seq<Event>, ca: CallArgs, keys: set<Key>, calls: set<CallArgs>)
    ensures ScanVerdict(LoggedAll(x), ca, keys, calls) == NoneHit(x, keys, calls)
    ensures !Marked(LoggedAll(x), ca)
  {
    if x != [] {
      LoggedAllIsPlain(Front(x), ca, keys, calls);
      LoggedAllLast(x);
      assert forall e :: e in x <==> e in Front(x) || e == Last(x);
    }
  }

  lemma {:induction false} LoggedAllCollected(x: seq<Event>, ca: CallArgs)
    ensures Unmark(LoggedAll(x), ca) == LoggedAll(x) && Collect(LoggedAll(x)) == []
  {
    if x != [] {
      LoggedAllCollected(Front(x), ca);
      LoggedAllLast(x);
      CollectConcat(LoggedAll(Front(x)), [Logged(Last(x))]);
      assert [Logged(Last(x))][1..] == [];
    }
  }

  ghost predicate DifferBy(h1: seq<HistoryItem>, h2: seq<HistoryItem>, a: seq<HistoryItem>, x: seq<Event>, y: seq<Event>, b: seq<HistoryItem>) {
    h1 == a + LoggedAll(x) + b && h2 == a + LoggedAll(y) + b && x != [] && y != [] && Elements(x) == Elements(y)
  }

  /** The same history but for the order and repetition of events next to each other. */
  ghost predicate Interchangeable(h1: seq<HistoryItem>, h2: seq<HistoryItem>) {
    h1 == h2 || exists a, x, y, b :: DifferBy(h1, h2, a, x, y, b)
  }

  lemma InterchangeableVerdict(h1: seq<HistoryItem>, h2: seq<HistoryItem>, ca: CallArgs, keys: set<Key>, calls: set<CallArgs>)
    requires Interchangeable(h1, h2)
    ensures ScanVerdict(h1, ca, keys, calls) == ScanVerdict(h2, ca, keys, calls)
  {
    if h1 != h2 {
      var a, x, y, b :| DifferBy(h1, h2, a, x, y, b);
      forall z | z == x || z == y
        ensures ScanVerdict(a + LoggedAll(z) + b, ca, keys, calls) ==
                (ScanVerdict(b, ca, keys, calls) && (Marked(b, ca) || (NoneHit(z, keys, calls) && ScanVerdict(a, ca, keys, calls))))
      {
        ScanConcat(a + LoggedAll(z), b, ca, keys, calls);
        ScanConcat(a, LoggedAll(z), ca, keys, calls);
        LoggedAllIsPlain(z, ca, keys, calls);
      }
      assert forall e :: e in x <==> e in Elements(x);
      assert forall e :: e in y <==> e in Elements(y);
    }
  }

  lemma AppendCallConcat(a: seq<HistoryItem>, z: seq<Event>, b: seq<HistoryItem>, ca: CallArgs)
    requires z != []
    ensures AppendCall(a + LoggedAll(z) + b, ca) == a + LoggedAll(z) + AppendCall(b, ca)
  {
    var h := a + LoggedAll(z) + b;
    if b == [] {
      assert Last(h) == Logged(Last(z));
    } else {
      assert Last(h) == Last(b);
      assert Closed(h) == a + LoggedAll(z) + Closed(b);
    }
  }

  lemma InterchangeableStart(h1: seq<HistoryItem>, h2: seq<HistoryItem>, ca: CallArgs)
    requires Interchangeable(h1, h2)
    ensures Interchangeable(AppendCall(h1, ca), AppendCall(h2, ca))
  {
    if h1 != h2 {
      var a, x, y, b :| DifferBy(h1, h2, a, x, y, b);
      AppendCallConcat(a, x, b, ca);
      AppendCallConcat(a, y, b, ca);
      assert DifferBy(AppendCall(h1, ca), AppendCall(h2, ca), a, x, y, AppendCall(b, ca));
    }
  }

  lemma InterchangeableEvents(h1: seq<HistoryItem>, h2: seq<HistoryItem>, es: seq<Event>)
    requires Interchangeable(h1, h2)
    ensures Interchangeable(h1 + LoggedAll(es), h2 + LoggedAll(es))
  {
    if h1 != h2 {
      var a, x, y, b :| DifferBy(h1, h2, a, x, y, b);
      assert DifferBy(h1 + LoggedAll(es), h2 + LoggedAll(es), a, x, y, b + LoggedAll(es));
    }
  }

  lemma AfterEndConcat(a: seq<HistoryItem>, z: seq<Event>, b: seq<HistoryItem>, ca: CallArgs, gcDue: bool)
    ensures var u, b' := if Marked(b, ca) then a else Unmark(a, ca), if Marked(b, ca) then Unmark(b, ca) else b;
            AfterEnd(a + LoggedAll(z) + b, ca, gcDue) ==
            if gcDue && (Marked(a, ca) || Marked(b, ca)) then
              if Collect(u) == [] then Collect(b') else Collect(u) + LoggedAll(z) + b'
            else u + LoggedAll(z) + b'
  {
    var u, b' := if Marked(b, ca) then a else Unmark(a, ca), if Marked(b, ca) then Unmark(b, ca) else b;
    LoggedAllIsPlain(z, ca, {}, {});
    LoggedAllCollected(z, ca);
    UnmarkConcat(a + LoggedAll(z), b, ca);
    UnmarkConcat(a, LoggedAll(z), ca);
    MarkedConcat(a + LoggedAll(z), b, ca);
    MarkedConcat(a, LoggedAll(z), ca);
    CollectConcat(u + LoggedAll(z), b');
    CollectConcat(u, LoggedAll(z));
  }

  lemma InterchangeableEnd(h1: seq<HistoryItem>, h2: seq<HistoryItem>, ca: CallArgs, gcDue: bool)
    requires Interchangeable(h1, h2)
    ensures Interchangeable(AfterEnd(h1, ca, gcDue), AfterEnd(h2, ca, gcDue))
  {
    if h1 != h2 {
      var a, x, y, b :| DifferBy(h1, h2, a, x, y, b);
      AfterEndConcat(a, x, b, ca, gcDue);
      AfterEndConcat(a, y, b, ca, gcDue);
      var u, b' := if Marked(b, ca) then a else Unmark(a, ca), if Marked(b, ca) then Unmark(b, ca) else b;
      var collected := gcDue && (Marked(a, ca) || Marked(b, ca));
      if !(collected && Collect(u) == []) {
        assert DifferBy(AfterEnd(h1, ca, gcDue), AfterEnd(h2, ca, gcDue), if collected then Collect(u) else u, x, y, b');
      }
    }
  }

  ghost predicate Alike<R>(m1: Manager<R>, m2: Manager<R>) {
    SameButHistory(m1, m2) && Interchangeable(m1.history, m2.history)
  }

  lemma AlikeInvalidate<R>(v: LoopVariable, m1: Manager<R>, m2: Manager<R>, calls: seq<CallArgs>)
    requires Alike(m1, m2)
    ensures Alike(InvalidateCalls(v, m1, calls), InvalidateCalls(v, m2, calls))
    ensures InvalidateCallsSends(m1, calls) == InvalidateCallsSends(m2, calls)
  {
    InterchangeableEvents(m1.history, m2.history, InvEvents(v, calls));
  }

  lemma AlikeEnd<R>(cfg: Config, m1: Manager<R>, m2: Manager<R>, end: Request<R>, gcDue: bool)
    requires Alike(m1, m2) && end.EndRequest?
    ensures Valid(m1, end) == Valid(m2, end)
    ensures Alike(Next(cfg, m1, Receive(end, gcDue)), Next(cfg, m2, Receive(end, gcDue)))
  {
    InterchangeableVerdict(m1.history, m2.history, end.callArgs, Elements(end.keyDeps), Elements(end.callDeps));
    InterchangeableEnd(m1.history, m2.history, end.callArgs, gcDue);
  }

  lemma AlikeStep<R>(cfg: Config, m1: Manager<R>, m2: Manager<R>, input: Input<R>)
    requires Alike(m1, m2) && Allowed(cfg, m1, input)
    ensures Allowed(cfg, m2, input)
    ensures Sends(cfg, m1, input) == Sends(cfg, m2, input) && Alike(Next(cfg, m1, input), Next(cfg, m2, input))
  {
    match input {
      case Receive(StartRequest(ca), _) => InterchangeableStart(m1.history, m2.history, ca);
      case Receive(EndRequest(_, _, _, _, _), gcDue) => AlikeEnd(cfg, m1, m2, input.request, gcDue);
      case Receive(InvalidateKeyRequest(k, _), _) =>
        InterchangeableEvents(m1.history, m2.history, [WriteKey(k)]);
        assert LoggedAll([WriteKey(k)]) == [Logged(WriteKey(k))];
      case Receive(InvalidateCallsRequest(calls), _) => AlikeInvalidate(cfg.loopVariable, m1, m2, calls);
      case Receive(SaveCallsRequest(_, _), _) =>
      case Tick(order) => AlikeInvalidate(cfg.loopVariable, m1, m2, order);
    }
  }

  /** All that is sent from now on, up to the first input that is not allowed. */
  ghost function Future<R>(cfg: Config, m: Manager<R>, inputs: seq<Input<R>>): seq<Outgoing<R>>
    decreases |inputs|
  {
    if inputs == [] || !Allowed(cfg, m, inputs[0]) then []
    else Sends(cfg, m, inputs[0]) + Future(cfg, Next(cfg, m, inputs[0]), inputs[1..])
  }

  lemma {:induction false} AlikeFuture<R>(cfg: Config, m1: Manager<R>, m2: Manager<R>, inputs: seq<Input<R>>)
    requires Alike(m1, m2)
    ensures Future(cfg, m1, inputs) == Future(cfg, m2, inputs)
    decreases |inputs|
  {
    if inputs != [] && Allowed(cfg, m1, inputs[0]) {
      AlikeStep(cfg, m1, m2, inputs[0]);
      AlikeFuture(cfg, Next(cfg, m1, inputs[0]), Next(cfg, m2, inputs[0]), inputs[1..]);
    }
  }

  /** The two ways log the same events: always, with a variable of its own for each pass; with the
      shared one, when the last calls of the requests are just the last call of the merged list. */
  ghost predicate SameEventsLogged(v: LoopVariable, rs: seq<seq<CallArgs>>, order: seq<CallArgs>) {
    v.PerLoop? && order != [] ==> forall r :: r in rs && r != [] ==> Last(r) == Last(order)
  }

  lemma {:induction false} EachEventsAre(v: LoopVariable, rs: seq<seq<CallArgs>>, e: Event)
    ensures e in EachEvents(v, rs) <==> exists r :: r in rs && e in InvEvents(v, r)
  {
    if rs != [] {
      EachEventsAre(v, Front(rs), e);
      assert forall r :: r in rs <==> r in Front(rs) || r == Last(rs);
    }
  }

  lemma SameEventsLoggedIff(v: LoopVariable, rs: seq<seq<CallArgs>>, order: seq<CallArgs>)
    requires Enumerates(order, Merged(rs))
    ensures Elements(InvEvents(v, order)) == Elements(EachEvents(v, rs)) <==> SameEventsLogged(v, rs, order)
  {
    var once, each := InvEvents(v, order), EachEvents(v, rs);
    assert forall c :: c in order <==> c in Elements(order);
    forall e ensures e in each <==> exists r :: r in rs && e in InvEvents(v, r) {
      EachEventsAre(v, rs, e);
    }
    forall r, c
      ensures InvCall(c) in InvEvents(v, r) <==> c in r && (v.PerLoop? ==> Last(r) == c)
    {
      InvEventsHold(r, c);
    }
    assert forall r, k :: WriteKey(k) !in InvEvents(v, r);
    if SameEventsLogged(v, rs, order) {
      forall e ensures e in Elements(once) <==> e in Elements(each) {
        if e.InvCall? && e in once {
          var r :| r in rs && e.call in r;
          assert v.PerLoop? ==> Last(r) == Last(order);
          assert e in InvEvents(v, r);
        }
        if e.InvCall? && e in each {
          var r :| r in rs && e in InvEvents(v, r);
          assert e.call in r && e.call in Merged(rs);
        }
      }
    } else {
      var r :| r in rs && r != [] && Last(r) != Last(order);
      assert InvCall(Last(r)) in InvEvents(v, r);
      assert InvCall(Last(r)) in Elements(each) && InvCall(Last(r)) !in Elements(once);
    }
  }

  lemma NoElements<T>(s: seq<T>)
    ensures Elements(s) == {} <==> s == []
  {
    if s != [] { assert s[0] in Elements(s); }
  }

  /** When the same events are logged, no continuation (any messages, ticks and collections) can
      tell the drain from the one-by-one processing. */
  lemma DrainUnobservable<R>(cfg: Config, m: Manager<R>, rs: seq<seq<CallArgs>>, order: seq<CallArgs>, inputs: seq<Input<R>>)
    requires Enumerates(order, Merged(rs)) && SameEventsLogged(cfg.loopVariable, rs, order)
    ensures Future(cfg, InvalidateCalls(cfg.loopVariable, m, order), inputs) == Future(cfg, EachInTurn(cfg.loopVariable, m, rs), inputs)
  {
    var v := cfg.loopVariable;
    var drained, turned := InvalidateCalls(v, m, order), EachInTurn(v, m, rs);
    EachIs(v, m, rs);
    SameEventsLoggedIff(v, rs, order);
    var x, y := InvEvents(v, order), EachEvents(v, rs);
    assert Elements(x) == Elements(y);
    NoElements(x);
    NoElements(y);
    if x != [] {
      assert DifferBy(drained.history, turned.history, m.history, x, y, []);
    }
    AlikeFuture(cfg, drained, turned, inputs);
  }

  /** The condition cannot be dropped: for a call that has just started, the verdicts after the two
      ways agree for every list of dependencies only if the same events are logged. */
  lemma DrainVerdictsAgreeIff<R>(v: LoopVariable, m: Manager<R>, rs: seq<seq<CallArgs>>, order: seq<CallArgs>, ca: CallArgs)
    requires Enumerates(order, Merged(rs)) && ca in OpenSet(m.history)
    ensures (forall keys, calls :: ScanVerdict(InvalidateCalls(v, m, order).history, ca, keys, calls) ==
                                   ScanVerdict(EachInTurn(v, m, rs).history, ca, keys, calls))
       <==> SameEventsLogged(v, rs, order)
  {
    var x, y := InvEvents(v, order), EachEvents(v, rs);
    EachIs(v, m, rs);
    var once, each := InvalidateCalls(v, m, order).history, EachInTurn(v, m, rs).history;
    forall keys, calls
      ensures ScanVerdict(once, ca, keys, calls) == NoneHit(x, keys, calls)
      ensures ScanVerdict(each, ca, keys, calls) == NoneHit(y, keys, calls)
    {
      ScanConcat(m.history, LoggedAll(x), ca, keys, calls);
      LoggedAllIsPlain(x, ca, keys, calls);
      ScanConcat(m.history, LoggedAll(y), ca, keys, calls);
      LoggedAllIsPlain(y, ca, keys, calls);
    }
    SameVerdictsIff(x, y);
    SameEventsLoggedIff(v, rs, order);
    if Elements(x) != Elements(y) {
      var keys, calls :| NoneHit(x, keys, calls) != NoneHit(y, keys, calls);
      assert ScanVerdict(once, ca, keys, calls) != ScanVerdict(each, ca, keys, calls);
    }
  }

  /** Two requests of one call each, drained in either order with the shared variable: only the last
      call is logged, so a call that has just started and depends on the other one is valid after
      the drain, and not after one-by-one processing. */
  lemma DrainHides<R>(m: Manager<R>, c: CallArgs, d: CallArgs, x: CallArgs)
    requires c != d && x in OpenSet(m.history)
    ensures Enumerates([d, c], Merged([[c], [d]])) && !SameEventsLogged(PerLoop, [[c], [d]], [d, c])
    ensures ScanVerdict(InvalidateCalls(PerLoop, m, [d, c]).history, x, {}, {d})
    ensures !ScanVerdict(EachInTurn(PerLoop, m, [[c], [d]]).history, x, {}, {d})
  {
    var rs, order := [[c], [d]], [d, c];
    assert [c] in rs && [d] in rs && c in [c] && d in [d];
    assert Last([d]) != Last(order);
    var x1, x2 := InvEvents(PerLoop, order), EachEvents(PerLoop, rs);
    EachIs(PerLoop, m, rs);
    ScanConcat(m.history, LoggedAll(x1), x, {}, {d});
    LoggedAllIsPlain(x1, x, {}, {d});
    ScanConcat(m.history, LoggedAll(x2), x, {}, {d});
    LoggedAllIsPlain(x2, x, {}, {d});
    EachEventsAre(PerLoop, rs, InvCall(d));
    InvEventsHold([d], d);
    InvEventsHold(order, d);
    assert InvCall(d) in x2;
    assert m.history != [] && x in Last(m.history).cas;
  }

  // ---------- Delayed removal ----------

  /** A message for the manager that removes at once: it panics on the empty lists that the other
      one buffers and ignores. */
  predicate ForBoth<R>(input: Input<R>) {
    input.Receive? && WellFormed(input.request)
  }

  function Messages<R>(inputs: seq<Input<R>>): seq<Input<R>> {
    if inputs == [] then []
    else Messages(Front(inputs)) + if ForBoth(Last(inputs)) then [Last(inputs)] else []
  }

  /** `lost` are the calls last saved while an invalidation of theirs was held for the tick. */
  function LostNext<R>(m: Manager<R>, lost: set<CallArgs>, input: Input<R>): set<CallArgs> {
    match input
    case Receive(SaveCallsRequest(cas, _), _) => (lost - Elements(cas)) + (Elements(cas) * Merged(m.held))
    case Receive(InvalidateCallsRequest(calls), _) => lost - Elements(calls)
    case _ => lost
  }

  ghost function SavedWhileHeld<R>(cfg: Config, inputs: seq<Input<R>>): set<CallArgs>
    requires Legal(cfg, inputs)
  {
    if inputs == [] then {}
    else LostNext(After(cfg, Front(inputs)), SavedWhileHeld(cfg, Front(inputs)), Last(inputs))
  }

  /** `b` removes at the tick, `u` at once; they agree but for what is held and what was lost. */
  ghost predicate Behind<R>(b: Manager<R>, u: Manager<R>, lost: set<CallArgs>) {
    b.cache - Merged(b.held) == u.cache - lost
  }

  lemma DelayedSave<R>(b: Manager<R>, u: Manager<R>, lost: set<CallArgs>, cas: seq<CallArgs>, rets: seq<R>)
    requires |cas| <= |rets| && Behind(b, u, lost)
    ensures Behind(b.(cache := b.cache + PairUp(cas, rets)), u.(cache := u.cache + PairUp(cas, rets)),
                   (lost - Elements(cas)) + (Elements(cas) * Merged(b.held)))
  {
    PairUpKeys(cas, rets);
    var saved, before := PairUp(cas, rets), b.cache - Merged(b.held);
    var b', u' := b.cache + saved, u.cache + saved;
    var lost' := (lost - Elements(cas)) + (Elements(cas) * Merged(b.held));
    forall c ensures c in b' - Merged(b.held) <==> c in u' - lost'
             ensures c in b' - Merged(b.held) ==> b'[c] == u'[c]
    {
      assert c in before <==> c in u.cache - lost;
      if c in before { assert before[c] == u.cache[c]; }
    }
  }

  lemma DelayedInvalidate<R>(b: Manager<R>, u: Manager<R>, lost: set<CallArgs>, calls: seq<CallArgs>)
    requires Behind(b, u, lost)
    ensures Behind(b.(held := b.held + [calls]), u.(cache := u.cache - Elements(calls)), lost - Elements(calls))
  {
    MergedLast(b.held + [calls]);
    assert Front(b.held + [calls]) == b.held;
    var x, y := b.cache - Merged(b.held), u.cache - lost;
    assert b.cache - (Merged(b.held) + Elements(calls)) == x - Elements(calls);
    assert (u.cache - Elements(calls)) - (lost - Elements(calls)) == y - Elements(calls);
  }

  lemma DelayedDrain<R>(b: Manager<R>, order: seq<CallArgs>)
    requires Enumerates(order, Merged(b.held))
    ensures (b.cache - Elements(order)) - Merged([]) == b.cache - Merged(b.held)
    ensures order == [] ==> b.cache - Merged([]) == b.cache - Merged(b.held)
  {
    assert Merged([]) == {};
  }

  lemma DelayStep<R>(cfg: Config, b: Manager<R>, u: Manager<R>, lost: set<CallArgs>, input: Input<R>)
    requires cfg.batchCallInvalidation && Allowed(cfg, b, input) && Behind(b, u, lost)
    ensures Behind(Next(cfg, b, input),
                   if ForBoth(input) then Next(cfg.(batchCallInvalidation := false), u, input) else u, LostNext(b, lost, input))
  {
    match input {
      case Receive(SaveCallsRequest(cas, rets), _) => DelayedSave(b, u, lost, cas, rets);
      case Receive(InvalidateCallsRequest(calls), _) =>
        DelayedInvalidate(b, u, lost, calls);
        if calls == [] { assert u.cache - Elements<CallArgs>([]) == u.cache; }
      case Receive(_, _) =>
      case Tick(order) => DelayedDrain(b, order);
    }
  }

  /** For any messages and ticks: what the batching manager's cache will hold after the next tick is
      the cache of a manager that removes at once, less the calls last saved while held. So delay
      only loses entries, and which ones is exact. */
  lemma {:induction false} DelayOnlyLoses<R>(cfg: Config, inputs: seq<Input<R>>)
    requires Legal(cfg, inputs) && cfg.batchCallInvalidation
    ensures Legal(cfg.(batchCallInvalidation := false), Messages(inputs))
    ensures After(cfg, inputs).cache - Merged(After(cfg, inputs).held) ==
            After(cfg.(batchCallInvalidation := false), Messages(inputs)).cache - SavedWhileHeld(cfg, inputs)
  {
    if inputs != [] {
      var f, last := Front(inputs), Last(inputs);
      DelayOnlyLoses(cfg, f);
      if ForBoth(last) {
        assert Front(Messages(inputs)) == Messages(f) && Last(Messages(inputs)) == last;
      } else {
        assert Messages(inputs) == Messages(f);
      }
      DelayStep(cfg, After(cfg, f), After(cfg.(batchCallInvalidation := false), Messages(f)), SavedWhileHeld(cfg, f), last);
    } else {
      assert Merged([]) == {};
    }
  }
}
