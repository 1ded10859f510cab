/** What a run of one manager comes to, told by the messages alone: what its cache holds, what is held
    for the next tick, and which Ends are valid. */
module MessageRuns {
  import opened CmTypes
  import opened History
  import opened PlainLog
  import opened Cache
  import opened Server
  import opened Runs

  // ---------- What is held for the tick ----------

  /** Message `i` asks for the invalidation of `c`. */
  predicate Listed<R>(inputs: seq<Input<R>>, i: nat, c: CallArgs) {
    i < |inputs| && inputs[i].Receive? && inputs[i].request.InvalidateCallsRequest? && c in inputs[i].request.calls
  }

  /** `c` was listed, and no tick has come since. */
  ghost predicate ListedSinceTick<R>(inputs: seq<Input<R>>, c: CallArgs) {
    exists i: nat :: Listed(inputs, i, c) && forall j :: i < j < |inputs| ==> !inputs[j].Tick?
  }

  lemma ListedStep<R>(inputs: seq<Input<R>>, c: CallArgs)
    requires inputs != []
    ensures ListedSinceTick(inputs, c) <==>
            || Listed(inputs, |inputs| - 1, c)
            || (!Last(inputs).Tick? && ListedSinceTick(Front(inputs), c))
  {
    var f, n := Front(inputs), |inputs| - 1;
    if i: nat :| Listed(inputs, i, c) && forall j :: i < j < |inputs| ==> !inputs[j].Tick? {
      if i < n {
        assert inputs[n] == Last(inputs);
        assert Listed(f, i, c) && forall j :: i < j < |f| ==> !f[j].Tick?;
      }
    }
    if !Last(inputs).Tick? && ListedSinceTick(f, c) {
      var i: nat :| Listed(f, i, c) && forall j :: i < j < |f| ==> !f[j].Tick?;
      assert Listed(inputs, i, c);
      forall j | i < j < |inputs| ensures !inputs[j].Tick? {
        if j < n { assert inputs[j] == f[j]; }
      }
    }
  }

  lemma HeldOneMore(held: seq<seq<CallArgs>>, calls: seq<CallArgs>, c: CallArgs)
    ensures c in Merged(held + [calls]) <==> c in Merged(held) || c in calls
  {
    if c in Merged(held) {
      var r :| r in held && c in r;
      assert r in held + [calls];
    }
    if c in calls { assert calls in held + [calls]; }
  }

  /** On every run, what is held is exactly what was listed since the last tick, and nothing unless
      the manager batches. */
  lemma {:induction false} HeldIsListedSinceTick<R>(cfg: Config, inputs: seq<Input<R>>, c: CallArgs)
    requires Legal(cfg, inputs)
    ensures c in Merged(After(cfg, inputs).held) <==> cfg.batchCallInvalidation && ListedSinceTick(inputs, c)
  {
    if inputs != [] {
      HeldIsListedSinceTick(cfg, Front(inputs), c);
      ListedStep(inputs, c);
      var m, last := After(cfg, Front(inputs)), Last(inputs);
      if last.Receive? && last.request.InvalidateCallsRequest? {
        HeldOneMore(m.held, last.request.calls, c);
      }
    }
  }

  // ---------- What is removed, and logged ----------

  /** At step `i` the invalidation of `c` takes effect: at once, or at the tick if the manager batches. */
  ghost predicate Removes<R>(cfg: Config, inputs: seq<Input<R>>, i: nat, c: CallArgs) {
    i < |inputs| &&
    if cfg.batchCallInvalidation then inputs[i].Tick? && ListedSinceTick(inputs[..i], c) else Listed(inputs, i, c)
  }

  /** A tick comes with the calls listed since the last one, no more and no less. */
  lemma RemovedNow<R>(cfg: Config, inputs: seq<Input<R>>, c: CallArgs)
    requires inputs != [] && Legal(cfg, inputs)
    ensures Removes(cfg, inputs, |inputs| - 1, c) <==> c in ProcessedCalls(cfg, Last(inputs))
  {
    assert inputs[..|inputs| - 1] == Front(inputs);
    HeldIsListedSinceTick(cfg, Front(inputs), c);
    if Last(inputs).Tick? {
      assert c in Last(inputs).order <==> c in Elements(Last(inputs).order);
    }
  }

  lemma {:induction false} LegalPrefix<R>(cfg: Config, inputs: seq<Input<R>>, n: nat)
    requires Legal(cfg, inputs) && n <= |inputs|
    ensures Legal(cfg, inputs[..n])
  {
    if n < |inputs| {
      LegalPrefix(cfg, Front(inputs), n);
      assert Front(inputs)[..n] == inputs[..n];
    } else {
      assert inputs[..n] == inputs;
    }
  }

  lemma RemovedAt<R>(cfg: Config, inputs: seq<Input<R>>, i: nat, c: CallArgs)
    requires Legal(cfg, inputs) && i < |inputs|
    ensures Removes(cfg, inputs, i, c) <==> c in ProcessedCalls(cfg, inputs[i])
  {
    var upTo := inputs[..i + 1];
    LegalPrefix(cfg, inputs, i + 1);
    RemovedNow(cfg, upTo, c);
    assert upTo[..i] == inputs[..i] && Last(upTo) == inputs[i];
    assert Listed(upTo, i, c) <==> Listed(inputs, i, c);
  }

  /** A step logs exactly the invalidations that take effect at it, if each pass of the loop has a
      variable of its own. */
  lemma LoggedAsRemoved<R>(cfg: Config, inputs: seq<Input<R>>, i: nat, c: CallArgs)
    requires Legal(cfg, inputs) && i < |inputs| && cfg.loopVariable == PerIteration
    ensures InvCall(c) in Raised(cfg, inputs[i]) <==> Removes(cfg, inputs, i, c)
  {
    RemovedAt(cfg, inputs, i, c);
    InvEventsHold(ProcessedCalls(cfg, inputs[i]), c);
  }

  // ---------- What the manager's own cache holds ----------

  predicate Saves<R>(inputs: seq<Input<R>>, i: nat, ca: CallArgs) {
    i < |inputs| && inputs[i].Receive? && inputs[i].request.SaveCallsRequest? && ca in inputs[i].request.callArgsList
  }

  /** `j` is the last place where the list has `ca`. */
  predicate LastPlace(cas: seq<CallArgs>, ca: CallArgs, j: nat) {
    j < |cas| && cas[j] == ca && forall l :: j < l < |cas| ==> cas[l] != ca
  }

  /** Message `i` saves `v` for `ca`: at the last place where it lists `ca`. */
  ghost predicate SavesValue<R>(inputs: seq<Input<R>>, i: nat, ca: CallArgs, v: R) {
    && i < |inputs| && inputs[i].Receive? && inputs[i].request.SaveCallsRequest?
    && exists j: nat ::
         && LastPlace(inputs[i].request.callArgsList, ca, j)
         && j < |inputs[i].request.returnVals| && inputs[i].request.returnVals[j] == v
  }

  /** Message `i` saves `v` for `ca`, and nothing since has saved or removed it. */
  ghost predicate LastSaved<R>(cfg: Config, inputs: seq<Input<R>>, i: nat, ca: CallArgs, v: R) {
    SavesValue(inputs, i, ca, v) && forall j :: i < j < |inputs| ==> !Saves(inputs, j, ca) && !Removes(cfg, inputs, j, ca)
  }

  lemma LastPlaceStep(cas: seq<CallArgs>, ca: CallArgs, j: nat)
    requires cas != []
    ensures LastPlace(cas, ca, j) <==> if Last(cas) == ca then j == |cas| - 1 else LastPlace(Front(cas), ca, j)
  {
    assert forall l :: 0 <= l < |cas| - 1 ==> Front(cas)[l] == cas[l];
  }

  lemma {:induction false} PairUpAt<R>(cas: seq<CallArgs>, rets: seq<R>, ca: CallArgs, v: R)
    requires |cas| <= |rets|
    ensures ca in PairUp(cas, rets) && PairUp(cas, rets)[ca] == v <==>
            exists j: nat :: LastPlace(cas, ca, j) && j < |rets| && rets[j] == v
  {
    if cas != [] {
      PairUpAt(Front(cas), rets, ca, v);
      forall j: nat ensures LastPlace(cas, ca, j) <==> if Last(cas) == ca then j == |cas| - 1 else LastPlace(Front(cas), ca, j) {
        LastPlaceStep(cas, ca, j);
      }
      if Last(cas) == ca && rets[|cas| - 1] == v { assert LastPlace(cas, ca, |cas| - 1); }
    }
  }

  lemma RemovesInside<R>(cfg: Config, inputs: seq<Input<R>>, i: nat, c: CallArgs)
    requires inputs != [] && i < |inputs| - 1
    ensures Removes(cfg, inputs, i, c) <==> Removes(cfg, Front(inputs), i, c)
    ensures Saves(inputs, i, c) <==> Saves(Front(inputs), i, c)
  {
    assert Front(inputs)[..i] == inputs[..i];
  }

  lemma LastSavedStep<R>(cfg: Config, inputs: seq<Input<R>>, i: nat, ca: CallArgs, v: R)
    requires inputs != []
    ensures LastSaved(cfg, inputs, i, ca, v) <==>
            if i == |inputs| - 1 then SavesValue(inputs, i, ca, v)
            else LastSaved(cfg, Front(inputs), i, ca, v) && !Saves(inputs, |inputs| - 1, ca) && !Removes(cfg, inputs, |inputs| - 1, ca)
  {
    var f, n := Front(inputs), |inputs| - 1;
    if i < n {
      assert SavesValue(inputs, i, ca, v) <==> SavesValue(f, i, ca, v);
      forall j: nat | i < j < n
        ensures Removes(cfg, inputs, j, ca) <==> Removes(cfg, f, j, ca)
        ensures Saves(inputs, j, ca) <==> Saves(f, j, ca)
      {
        RemovesInside(cfg, inputs, j, ca);
      }
    }
  }

  /** One step: a save sets, a removal clears, anything else keeps. */
  lemma CacheStep<R>(cfg: Config, inputs: seq<Input<R>>, ca: CallArgs, v: R)
    requires inputs != [] && Legal(cfg, inputs)
    ensures var before, after := After(cfg, Front(inputs)).cache, After(cfg, inputs).cache;
            ca in after && after[ca] == v <==>
            if Saves(inputs, |inputs| - 1, ca) then SavesValue(inputs, |inputs| - 1, ca, v)
            else ca in before && before[ca] == v && !Removes(cfg, inputs, |inputs| - 1, ca)
  {
    var last := Last(inputs);
    RemovedNow(cfg, inputs, ca);
    if last.Receive? && last.request.SaveCallsRequest? {
      PairUpAt(last.request.callArgsList, last.request.returnVals, ca, v);
      PairUpKeys(last.request.callArgsList, last.request.returnVals);
    } else if last.Tick? {
      assert ca in last.order <==> ca in Elements(last.order);
    } else if last.request.InvalidateCallsRequest? {
      assert ca in last.request.calls <==> ca in Elements(last.request.calls);
    }
  }

  /** On every run: the manager's cache holds a call with a value exactly when some message saved that
      value for it, the last listed if listed twice, and no later message or tick saved or removed it. */
  lemma {:induction false} CacheHoldsLastSave<R>(cfg: Config, inputs: seq<Input<R>>, ca: CallArgs, v: R)
    requires Legal(cfg, inputs)
    ensures ca in After(cfg, inputs).cache && After(cfg, inputs).cache[ca] == v <==>
            exists i: nat :: LastSaved(cfg, inputs, i, ca, v)
  {
    if inputs != [] {
      var f, n := Front(inputs), |inputs| - 1;
      CacheHoldsLastSave(cfg, f, ca, v);
      CacheStep(cfg, inputs, ca, v);
      forall i: nat
        ensures LastSaved(cfg, inputs, i, ca, v) <==>
                if i == n then SavesValue(inputs, n, ca, v)
                else LastSaved(cfg, f, i, ca, v) && !Saves(inputs, n, ca) && !Removes(cfg, inputs, n, ca)
      {
        LastSavedStep(cfg, inputs, i, ca, v);
      }
      if SavesValue(inputs, n, ca, v) {
        assert Saves(inputs, n, ca);
        assert LastSaved(cfg, inputs, n, ca, v);
      }
    }
  }

  // ---------- Which Ends are valid ----------

  predicate WritesKey<R>(inputs: seq<Input<R>>, i: nat, k: Key) {
    i < |inputs| && inputs[i].Receive? && inputs[i].request.InvalidateKeyRequest? && inputs[i].request.key == k
  }

  /** Since the latest Start of the call, a listed key was written or a listed call invalidated. */
  ghost predicate HitSinceStart<R>(cfg: Config, inputs: seq<Input<R>>, end: Request<R>)
    requires end.EndRequest?
  {
    || (exists i: nat, k :: WritesKey(inputs, i, k) && k in end.keyDeps && NoStartAfter(inputs, end.callArgs, i))
    || (exists i: nat, c :: Removes(cfg, inputs, i, c) && c in end.callDeps && NoStartAfter(inputs, end.callArgs, i))
  }

  lemma KeyRaised<R>(cfg: Config, input: Input<R>, k: Key)
    ensures WriteKey(k) in Raised(cfg, input) <==> input.Receive? && input.request.InvalidateKeyRequest? && input.request.key == k
  {
    InvEventsHold(ProcessedCalls(cfg, input), CallArgs(""));
  }

  lemma KeyEvents<R>(cfg: Config, inputs: seq<Input<R>>, ca: CallArgs, k: Key)
    ensures WriteKey(k) in SinceStart(LogOf(cfg, inputs), ca) <==>
            exists i: nat :: WritesKey(inputs, i, k) && NoStartAfter(inputs, ca, i)
  {
    LoggedSince(cfg, inputs, ca, WriteKey(k));
    forall i: nat
      ensures RaisedSince(cfg, inputs, ca, WriteKey(k), i) <==> WritesKey(inputs, i, k) && NoStartAfter(inputs, ca, i)
    {
      if i < |inputs| { KeyRaised(cfg, inputs[i], k); }
    }
  }

  lemma CallEvents<R>(cfg: Config, inputs: seq<Input<R>>, ca: CallArgs, c: CallArgs)
    requires Legal(cfg, inputs) && cfg.loopVariable == PerIteration
    ensures InvCall(c) in SinceStart(LogOf(cfg, inputs), ca) <==>
            exists i: nat :: Removes(cfg, inputs, i, c) && NoStartAfter(inputs, ca, i)
  {
    LoggedSince(cfg, inputs, ca, InvCall(c));
    forall i: nat
      ensures RaisedSince(cfg, inputs, ca, InvCall(c), i) <==> Removes(cfg, inputs, i, c) && NoStartAfter(inputs, ca, i)
    {
      if i < |inputs| { LoggedAsRemoved(cfg, inputs, i, c); }
    }
  }

  /** On every run under H1, told by the messages alone, for the loop variable that was meant: the End
      of a call is valid exactly when, since the call's latest Start, no message wrote a key it lists
      and no invalidation of a call it lists took effect. */
  lemma EndValidByMessages<R>(cfg: Config, inputs: seq<Input<R>>, end: Request<R>)
    requires Legal(cfg, inputs) && cfg.loopVariable == PerIteration
    requires end.EndRequest? && OneAtATime(LogOf(cfg, inputs)) && end.callArgs in Outstanding(LogOf(cfg, inputs))
    ensures Valid(After(cfg, inputs), end) <==> !HitSinceStart(cfg, inputs, end)
  {
    var log, ca := LogOf(cfg, inputs), end.callArgs;
    RunRepresents(cfg, inputs);
    StackUnderH1(log, ca);
    VerdictExact(After(cfg, inputs).history, log, ca, Elements(end.keyDeps), Elements(end.callDeps));
    var events := SinceStart(log, ca);
    NoneHitMeans(events, Elements(end.keyDeps), Elements(end.callDeps));
    forall k ensures WriteKey(k) in events <==> exists i: nat :: WritesKey(inputs, i, k) && NoStartAfter(inputs, ca, i) {
      KeyEvents(cfg, inputs, ca, k);
    }
    forall c ensures InvCall(c) in events <==> exists i: nat :: Removes(cfg, inputs, i, c) && NoStartAfter(inputs, ca, i) {
      CallEvents(cfg, inputs, ca, c);
    }
    HitParts(cfg, inputs, end, events);
  }

  lemma HitParts<R>(cfg: Config, inputs: seq<Input<R>>, end: Request<R>, events: seq<Event>)
    requires end.EndRequest?
    requires forall k :: WriteKey(k) in events <==> exists i: nat :: WritesKey(inputs, i, k) && NoStartAfter(inputs, end.callArgs, i)
    requires forall c :: InvCall(c) in events <==> exists i: nat :: Removes(cfg, inputs, i, c) && NoStartAfter(inputs, end.callArgs, i)
    ensures HitSinceStart(cfg, inputs, end) <==>
            (exists k :: k in end.keyDeps && WriteKey(k) in events) || (exists c :: c in end.callDeps && InvCall(c) in events)
  {
    if k :| k in end.keyDeps && WriteKey(k) in events {
      var i: nat :| WritesKey(inputs, i, k) && NoStartAfter(inputs, end.callArgs, i);
    }
    if c :| c in end.callDeps && InvCall(c) in events {
      var i: nat :| Removes(cfg, inputs, i, c) && NoStartAfter(inputs, end.callArgs, i);
    }
    if i: nat, k :| WritesKey(inputs, i, k) && k in end.keyDeps && NoStartAfter(inputs, end.callArgs, i) {
      assert WriteKey(k) in events;
    }
    if i: nat, c :| Removes(cfg, inputs, i, c) && c in end.callDeps && NoStartAfter(inputs, end.callArgs, i) {
      assert InvCall(c) in events;
    }
  }
}
