/** The service's side of the protocol (pkg/wrappers, pkg/state): which messages a handler's reads,
    lookups and writes cause, and the dependency sets kept for each call being handled. */
module ServiceWrappers {
  import opened CmTypes

  datatype Dep = KeyDep(key: Key) | CallDep(call: CallArgs)

  datatype Context = Context(id: CallId, callArgs: CallArgs, caller: ServiceName, readOnly: bool)

  const CLIENT := ServiceName("client")

  predicate Tracked(ctx: Context) {
    ctx.readOnly && ctx.caller != CLIENT
  }

  type Deps = map<CallId, set<Dep>>

  datatype Event =
    | ReqStart(ctx: Context)
    | PreRead(ctx: Context, key: Key)
    | PreCall(ctx: Context, call: CallArgs)
    | ReqEnd(ctx: Context)

  /** Recording or popping an id that was not initialized fails an assertion in the source. */
  predicate Possible(d: Deps, ev: Event) {
    Tracked(ev.ctx) && !ev.ReqStart? ==> ev.ctx.id in d
  }

  function Update(d: Deps, ev: Event): Deps
    requires Possible(d, ev)
  {
    if !Tracked(ev.ctx) then d
    else match ev
      case ReqStart(ctx) => d[ctx.id := {}]
      case PreRead(ctx, k) => d[ctx.id := d[ctx.id] + {KeyDep(k)}]
      case PreCall(ctx, c) => d[ctx.id := d[ctx.id] + {CallDep(c)}]
      case ReqEnd(ctx) => d - {ctx.id}
  }

  /** Any interleaving of the events of concurrent calls. */
  predicate Run(evs: seq<Event>)
    decreases |evs|, 0
  {
    evs == [] || (Run(Front(evs)) && Possible(DepsAfter(Front(evs)), Last(evs)))
  }

  function DepsAfter(evs: seq<Event>): Deps
    requires Run(evs)
    decreases |evs|, 1
  {
    if evs == [] then map[] else Update(DepsAfter(Front(evs)), Last(evs))
  }

  // ---------- What is captured ----------

  predicate Records(ev: Event, id: CallId, dep: Dep) {
    && Tracked(ev.ctx) && ev.ctx.id == id
    && match dep
       case KeyDep(k) => ev == PreRead(ev.ctx, k)
       case CallDep(c) => ev == PreCall(ev.ctx, c)
  }

  predicate Resets(ev: Event, id: CallId) {
    Tracked(ev.ctx) && ev.ctx.id == id && (ev.ReqStart? || ev.ReqEnd?)
  }

  ghost predicate RecordedAt(evs: seq<Event>, i: nat, id: CallId, dep: Dep) {
    i < |evs| && Records(evs[i], id, dep) && forall j :: i < j < |evs| ==> !Resets(evs[j], id)
  }

  ghost predicate StartedAt(evs: seq<Event>, i: nat, id: CallId) {
    i < |evs| && Resets(evs[i], id) && evs[i].ReqStart? && forall j :: i < j < |evs| ==> !Resets(evs[j], id)
  }

  lemma RecordedStep(evs: seq<Event>, i: nat, id: CallId, dep: Dep)
    requires evs != []
    ensures RecordedAt(evs, i, id, dep) <==>
            || (RecordedAt(Front(evs), i, id, dep) && !Resets(Last(evs), id))
            || (i == |evs| - 1 && Records(Last(evs), id, dep))
    ensures StartedAt(evs, i, id) <==>
            || (StartedAt(Front(evs), i, id) && !Resets(Last(evs), id))
            || (i == |evs| - 1 && Resets(Last(evs), id) && Last(evs).ReqStart?)
  {
    assert forall j :: 0 <= j < |evs| - 1 ==> Front(evs)[j] == evs[j];
  }

  /** The set kept for an id exists from its start to its end, and holds exactly the keys read and
      calls looked up under that id since then, whatever other calls did in between. */
  lemma {:induction false} CaptureExact(evs: seq<Event>, id: CallId, dep: Dep)
    requires Run(evs)
    ensures id in DepsAfter(evs) <==> exists i: nat :: StartedAt(evs, i, id)
    ensures id in DepsAfter(evs) ==> (dep in DepsAfter(evs)[id] <==> exists i: nat :: RecordedAt(evs, i, id, dep))
  {
    if evs != [] {
      var f, n := Front(evs), |evs| - 1;
      CaptureExact(f, id, dep);
      forall i: nat
        ensures RecordedAt(evs, i, id, dep) <==> (RecordedAt(f, i, id, dep) && !Resets(evs[n], id)) || (i == n && Records(evs[n], id, dep))
        ensures StartedAt(evs, i, id) <==> (StartedAt(f, i, id) && !Resets(evs[n], id)) || (i == n && Resets(evs[n], id) && evs[n].ReqStart?)
      {
        RecordedStep(evs, i, id, dep);
      }
      assert Records(evs[n], id, dep) ==> RecordedAt(evs, n, id, dep);
      assert Resets(evs[n], id) && evs[n].ReqStart? ==> StartedAt(evs, n, id);
    }
  }

  function KeysOf(deps: set<Dep>): set<Key> {
    set d | d in deps && d.KeyDep? :: d.key
  }

  function CallsOf(deps: set<Dep>): set<CallArgs> {
    set d | d in deps && d.CallDep? :: d.call
  }

  // ---------- What is sent ----------

  /** An End lists each dependency of the call once, split by kind. */
  ghost predicate EndOf<R>(d: Deps, ctx: Context, req: Request<R>) {
    && ctx.id in d && req.EndRequest? && req.callArgs == ctx.callArgs && req.caller == ctx.caller
    && Enumerates(req.keyDeps, KeysOf(d[ctx.id])) && Enumerates(req.callDeps, CallsOf(d[ctx.id]))
  }

  ghost predicate SentFor<R>(d: Deps, ev: Event, reqs: seq<Request<R>>) {
    if Tracked(ev.ctx) && ev.ReqStart? then reqs == [StartRequest(ev.ctx.callArgs)]
    else if Tracked(ev.ctx) && ev.ReqEnd? then |reqs| == 1 && EndOf(d, ev.ctx, reqs[0])
    else reqs == []
  }

  function SentCount(evs: seq<Event>): nat {
    if evs == [] then 0
    else SentCount(Front(evs)) + if Tracked(Last(evs).ctx) && (Last(evs).ReqStart? || Last(evs).ReqEnd?) then 1 else 0
  }

  /** `sent` are the Starts and Ends of the run, in order. */
  ghost predicate RunSends<R>(evs: seq<Event>, sent: seq<Request<R>>)
    requires Run(evs)
  {
    if evs == [] then sent == []
    else
      var n := SentCount(Front(evs));
      n <= |sent| && RunSends(Front(evs), sent[..n]) && SentFor(DepsAfter(Front(evs)), Last(evs), sent[n..])
  }

  /** No duplicates, and exactly the keys read and calls looked up under the id since its start. */
  ghost predicate ListsCaptured<R>(evs: seq<Event>, id: CallId, end: Request<R>)
    requires end.EndRequest?
  {
    && (forall k :: k in end.keyDeps <==> exists i: nat :: RecordedAt(evs, i, id, KeyDep(k)))
    && (forall c :: c in end.callDeps <==> exists i: nat :: RecordedAt(evs, i, id, CallDep(c)))
    && (forall i, j :: 0 <= i < j < |end.keyDeps| ==> end.keyDeps[i] != end.keyDeps[j])
    && (forall i, j :: 0 <= i < j < |end.callDeps| ==> end.callDeps[i] != end.callDeps[j])
  }

  lemma EndListsCaptured<R>(evs: seq<Event>, ctx: Context, end: Request<R>)
    requires Run(evs) && EndOf(DepsAfter(evs), ctx, end)
    ensures ListsCaptured(evs, ctx.id, end)
  {
    var deps := DepsAfter(evs)[ctx.id];
    forall dep ensures dep in deps <==> exists i: nat :: RecordedAt(evs, i, ctx.id, dep) {
      CaptureExact(evs, ctx.id, dep);
    }
    forall k ensures k in end.keyDeps <==> KeyDep(k) in deps {
      assert k in end.keyDeps <==> k in Elements(end.keyDeps);
      assert KeyDep(k) in deps ==> k in KeysOf(deps);
    }
    forall c ensures c in end.callDeps <==> CallDep(c) in deps {
      assert c in end.callDeps <==> c in Elements(end.callDeps);
      assert CallDep(c) in deps ==> c in CallsOf(deps);
    }
  }

  /** On every run, however calls interleave: each end of an eligible call sends one message, an End
      of that call, which lists each key read and each call looked up since its start once, and
      nothing else; and no other Ends are sent. */
  lemma {:induction false} EndsAreExact<R>(evs: seq<Event>, sent: seq<Request<R>>, e: nat)
    requires Run(evs) && RunSends(evs, sent) && e < |evs| && evs[e].ReqEnd? && Tracked(evs[e].ctx)
    ensures SentCount(evs[..e]) < |sent| == SentCount(evs)
    ensures var end, ctx := sent[SentCount(evs[..e])], evs[e].ctx;
            && end.EndRequest? && end.callArgs == ctx.callArgs && end.caller == ctx.caller
            && ListsCaptured(evs[..e], ctx.id, end)
  {
    var f, n := Front(evs), SentCount(Front(evs));
    if e == |evs| - 1 {
      assert evs[..e] == f && sent[n..][0] == sent[n];
      EndListsCaptured(f, evs[e].ctx, sent[n]);
      if f != [] { RunSendsCount(f, sent[..n]); }
    } else {
      assert f[..e] == evs[..e];
      EndsAreExact(f, sent[..n], e);
    }
  }

  lemma {:induction false} RunSendsCount<R>(evs: seq<Event>, sent: seq<Request<R>>)
    requires Run(evs) && RunSends(evs, sent)
    ensures |sent| == SentCount(evs)
  {
    if evs != [] { RunSendsCount(Front(evs), sent[..SentCount(Front(evs))]); }
  }

  /** And every End on the way was sent for such an end. */
  lemma {:induction false} EveryEndHasItsCall<R>(evs: seq<Event>, sent: seq<Request<R>>, p: nat)
    requires Run(evs) && RunSends(evs, sent) && p < |sent| && sent[p].EndRequest?
    ensures exists e: nat :: e < |evs| && evs[e].ReqEnd? && Tracked(evs[e].ctx) && SentCount(evs[..e]) == p
  {
    RunSendsCount(evs, sent);
    var f, n := Front(evs), SentCount(Front(evs));
    if p < n {
      EveryEndHasItsCall(f, sent[..n], p);
      var e: nat :| e < |f| && f[e].ReqEnd? && Tracked(f[e].ctx) && SentCount(f[..e]) == p;
      assert f[..e] == evs[..e] && f[e] == evs[e];
    } else {
      assert sent[n..][0] == sent[p];
      assert evs[..|evs| - 1] == f;
    }
  }

  // ---------- Which events matter ----------

  /** The messages that event `i` sent. */
  ghost function SentAt<R>(evs: seq<Event>, sent: seq<Request<R>>, i: nat): seq<Request<R>>
    requires i < |evs| && SentCount(evs[..i]) <= SentCount(evs[..i + 1]) <= |sent|
  {
    sent[SentCount(evs[..i])..SentCount(evs[..i + 1])]
  }

  lemma {:induction false} SentCountGrows(evs: seq<Event>, i: nat)
    requires i <= |evs|
    ensures SentCount(evs[..i]) <= SentCount(evs)
  {
    if i < |evs| {
      SentCountGrows(Front(evs), i);
      assert Front(evs)[..i] == evs[..i];
    } else {
      assert evs[..i] == evs;
    }
  }

  lemma {:induction false} RunPrefix<R>(evs: seq<Event>, sent: seq<Request<R>>, i: nat)
    requires Run(evs) && RunSends(evs, sent) && i <= |evs|
    ensures SentCount(evs[..i]) <= |sent| && Run(evs[..i]) && RunSends(evs[..i], sent[..SentCount(evs[..i])])
  {
    RunSendsCount(evs, sent);
    if i < |evs| {
      var f, n := Front(evs), SentCount(Front(evs));
      RunPrefix(f, sent[..n], i);
      assert f[..i] == evs[..i];
      SentCountGrows(f, i);
      assert sent[..n][..SentCount(evs[..i])] == sent[..SentCount(evs[..i])];
    } else {
      assert evs[..i] == evs && sent[..|sent|] == sent;
    }
  }

  /** On every run: an event sends a message, and just one, if and only if it starts or ends a read-only
      request of a caller that is not the client; a Start carries the call's arguments. */
  lemma ReadersStartsAndEndsSend<R>(evs: seq<Event>, sent: seq<Request<R>>, i: nat)
    requires Run(evs) && RunSends(evs, sent) && i < |evs|
    ensures SentCount(evs[..i]) <= SentCount(evs[..i + 1]) <= |sent|
    ensures var ev := evs[i];
            if (ev.ReqStart? || ev.ReqEnd?) && ev.ctx.readOnly && ev.ctx.caller.text != "client"
            then |SentAt(evs, sent, i)| == 1 && (ev.ReqStart? ==> SentAt(evs, sent, i)[0] == StartRequest(ev.ctx.callArgs))
            else SentAt(evs, sent, i) == []
  {
    RunPrefix(evs, sent, i + 1);
    var upTo, n, m := evs[..i + 1], SentCount(evs[..i]), SentCount(evs[..i + 1]);
    assert Front(upTo) == evs[..i] && Last(upTo) == evs[i];
    assert sent[..m][n..] == sent[n..m];
    if Tracked(evs[i].ctx) && evs[i].ReqStart? { assert sent[n..m] == [StartRequest(evs[i].ctx.callArgs)]; }
  }

  /** Event `i` starts a read-only request of that id for a caller that is not the client, and no such
      request of the id has started or ended since. */
  predicate OpenedAt(evs: seq<Event>, i: nat, id: CallId) {
    && i < |evs| && evs[i].ReqStart? && evs[i].ctx.id == id && evs[i].ctx.readOnly && evs[i].ctx.caller.text != "client"
    && forall j :: i < j < |evs| && (evs[j].ReqStart? || evs[j].ReqEnd?) && evs[j].ctx.id == id ==>
         !(evs[j].ctx.readOnly && evs[j].ctx.caller.text != "client")
  }

  /** On every run, dependencies are kept for exactly these ids. */
  lemma KeptForReaders(evs: seq<Event>, id: CallId)
    requires Run(evs)
    ensures id in DepsAfter(evs) <==> exists i: nat :: OpenedAt(evs, i, id)
  {
    CaptureExact(evs, id, KeyDep(Key("")));
    forall i: nat ensures OpenedAt(evs, i, id) <==> StartedAt(evs, i, id) {}
  }

  function Recorded(d: Deps, ctx: Context, keys: seq<Key>): Deps
    requires Tracked(ctx) ==> ctx.id in d
  {
    if Tracked(ctx) then d[ctx.id := d[ctx.id] + set k | k in keys :: KeyDep(k)] else d
  }

  lemma RecordedOneMore(d: Deps, ctx: Context, keys: seq<Key>)
    requires keys != [] && (Tracked(ctx) ==> ctx.id in d)
    ensures Update(Recorded(d, ctx, Front(keys)), PreRead(ctx, Last(keys))) == Recorded(d, ctx, keys)
  {
    assert forall k :: k in keys <==> k in Front(keys) || k == Last(keys);
    var before := set k | k in Front(keys) :: KeyDep(k);
    assert before + {KeyDep(Last(keys))} == set k | k in keys :: KeyDep(k);
    if Tracked(ctx) {
      assert d[ctx.id] + before + {KeyDep(Last(keys))} == d[ctx.id] + (before + {KeyDep(Last(keys))});
    }
  }

  // ---------- The order of store accesses and messages ----------

  datatype Access<R> =
    | Noted(id: CallId, dep: Dep)
    | ReadStore(ctx: Context, keys: seq<Key>)
    | WroteStore(written: set<Key>)
    | SentRequest(req: Request<R>)

  function Sendings<R>(reqs: seq<Request<R>>): seq<Access<R>> {
    seq(|reqs|, i requires 0 <= i < |reqs| => SentRequest(reqs[i]))
  }

  function Recordings<R>(ctx: Context, keys: seq<Key>): seq<Access<R>> {
    if Tracked(ctx) then seq(|keys|, i requires 0 <= i < |keys| => Noted(ctx.id, KeyDep(keys[i]))) else []
  }

  function Notifications<R>(keys: seq<Key>): seq<Request<R>> {
    seq(|keys|, i requires 0 <= i < |keys| => InvalidateKeyRequest(keys[i], false))
  }

  lemma OneMoreRecording<R>(ctx: Context, keys: seq<Key>, i: nat)
    requires i < |keys|
    ensures Recordings<R>(ctx, keys[..i + 1]) == Recordings(ctx, keys[..i]) + Recordings(ctx, [keys[i]])
  {}

  // ---------- The object: dependency map, store, and the messages sent to the manager ----------

  class Service<V, R> {
    var deps: Deps
    var store: map<Key, V>
    var sent: seq<Request<R>>
    ghost var trace: seq<Access<R>>

    constructor ()
      ensures deps == map[] && store == map[] && sent == [] && trace == []
    {
      deps, store, sent, trace := map[], map[], [], [];
    }

    // The four things that reach outside the service, or its dependency map.

    method Send(req: Request<R>)
      modifies this`sent, this`trace
      ensures sent == old(sent) + [req] && trace == old(trace) + [SentRequest(req)]
    {
      sent, trace := sent + [req], trace + [SentRequest(req)];
    }

    method WriteStore(kvs: map<Key, V>)
      modifies this`store, this`trace
      ensures store == old(store) + kvs && trace == old(trace) + [WroteStore(kvs.Keys)]
    {
      store, trace := store + kvs, trace + [WroteStore(kvs.Keys)];
    }

    method FetchAll(ctx: Context, keys: seq<Key>) returns (values: map<Key, V>)
      modifies this`trace
      ensures values == map k | k in keys && k in store :: store[k]
      ensures trace == old(trace) + [ReadStore(ctx, keys)]
    {
      values, trace := map k | k in keys && k in store :: store[k], trace + [ReadStore(ctx, keys)];
    }

    method Record(id: CallId, dep: Dep)
      requires id in deps
      modifies this`deps, this`trace
      ensures deps == old(deps)[id := old(deps)[id] + {dep}] && trace == old(trace) + [Noted(id, dep)]
    {
      deps, trace := deps[id := deps[id] + {dep}], trace + [Noted(id, dep)];
    }

    method PreReqStart(ctx: Context)
      modifies this`deps, this`sent, this`trace
      ensures deps == Update(old(deps), ReqStart(ctx))
      ensures |sent| >= |old(sent)| && sent[..|old(sent)|] == old(sent)
      ensures SentFor(old(deps), ReqStart(ctx), sent[|old(sent)|..])
      ensures trace == old(trace) + Sendings(sent[|old(sent)|..])
    {
      if Tracked(ctx) {
        deps := deps[ctx.id := {}];
        Send(StartRequest(ctx.callArgs));
      }
    }

    method PreReadKey(ctx: Context, key: Key)
      requires Possible(deps, PreRead(ctx, key))
      modifies this`deps, this`trace
      ensures deps == Update(old(deps), PreRead(ctx, key))
      ensures trace == old(trace) + Recordings(ctx, [key])
    {
      if Tracked(ctx) {
        Record(ctx.id, KeyDep(key));
      }
    }

    method PreCallLookup(ctx: Context, call: CallArgs)
      requires Possible(deps, PreCall(ctx, call))
      modifies this`deps, this`trace
      ensures deps == Update(old(deps), PreCall(ctx, call))
      ensures trace == old(trace) + if Tracked(ctx) then [Noted(ctx.id, CallDep(call))] else []
    {
      if Tracked(ctx) {
        Record(ctx.id, CallDep(call));
      }
    }

    /** One End with each dependency of the call once, split by kind; the other ids are untouched. */
    method PreReqEnd(ctx: Context, ret: R)
      requires Possible(deps, ReqEnd(ctx))
      modifies this`deps, this`sent, this`trace
      ensures deps == Update(old(deps), ReqEnd(ctx))
      ensures |sent| >= |old(sent)| && sent[..|old(sent)|] == old(sent)
      ensures SentFor(old(deps), ReqEnd(ctx), sent[|old(sent)|..])
      ensures Tracked(ctx) ==> Last(sent).EndRequest? && Last(sent).returnVal == ret
      ensures trace == old(trace) + Sendings(sent[|old(sent)|..])
    {
      if Tracked(ctx) {
        var keys, calls := PopDeps(ctx.id);
        Send(EndRequest(ctx.callArgs, ctx.caller, keys, calls, ret));
      }
    }

    method PopDeps(id: CallId) returns (keys: seq<Key>, calls: seq<CallArgs>)
      requires id in deps
      modifies this`deps
      ensures deps == old(deps) - {id}
      ensures Enumerates(keys, KeysOf(old(deps)[id])) && Enumerates(calls, CallsOf(old(deps)[id]))
    {
      var all := deps[id];
      var left := all;
      deps := deps - {id};
      keys, calls := [], [];
      while left != {}
        invariant left <= all && deps == old(deps) - {id}
        invariant Enumerates(keys, KeysOf(all - left)) && Enumerates(calls, CallsOf(all - left))
      {
        var d :| d in left;
        var done := all - left;
        left := left - {d};
        assert all - left == done + {d};
        match d {
          case KeyDep(k) =>
            assert KeysOf(done + {d}) == KeysOf(done) + {k} && CallsOf(done + {d}) == CallsOf(done);
            assert KeyDep(k) !in done;
            EnumeratesOneMore(keys, KeysOf(done), k);
            keys := keys + [k];
          case CallDep(c) =>
            assert CallsOf(done + {d}) == CallsOf(done) + {c} && KeysOf(done + {d}) == KeysOf(done);
            assert CallDep(c) !in done;
            EnumeratesOneMore(calls, CallsOf(done), c);
            calls := calls + [c];
        }
      }
      assert all - {} == all;
    }

    method PostWrite(key: Key)
      modifies this`sent, this`trace
      ensures sent == old(sent) + [InvalidateKeyRequest(key, false)]
      ensures trace == old(trace) + [SentRequest(InvalidateKeyRequest(key, false))]
    {
      Send(InvalidateKeyRequest(key, false));
    }

    /** The dependency is recorded before the store is read, found or not. */
    method GetState(ctx: Context, key: Key, absent: V) returns (value: V, found: bool)
      requires Possible(deps, PreRead(ctx, key))
      modifies this`deps, this`trace
      ensures deps == Update(old(deps), PreRead(ctx, key))
      ensures found == (key in store) && value == if found then store[key] else absent
      ensures trace == old(trace) + Recordings(ctx, [key]) + [ReadStore(ctx, [key])]
    {
      PreReadKey(ctx, key);
      var fetched := FetchAll(ctx, [key]);
      found := key in fetched;
      value := if found then fetched[key] else absent;
    }

    /** All keys are recorded first; one missing key fails the whole read, and stays recorded. Redis
        refuses to read no key at all, which panics. */
    method GetBulkState(ctx: Context, keys: seq<Key>) returns (values: seq<V>, found: bool)
      requires keys != [] && (Tracked(ctx) ==> ctx.id in deps)
      modifies this`deps, this`trace
      ensures deps == Recorded(old(deps), ctx, keys)
      ensures found <==> forall k :: k in keys ==> k in store
      ensures found ==> |values| == |keys| && forall i :: 0 <= i < |keys| ==> values[i] == store[keys[i]]
      ensures trace == old(trace) + Recordings(ctx, keys) + [ReadStore(ctx, keys)]
    {
      assert (set k | k in keys[..0] :: KeyDep(k)) == {};
      assert Tracked(ctx) ==> deps[ctx.id] + {} == deps[ctx.id];
      for i := 0 to |keys|
        invariant deps == Recorded(old(deps), ctx, keys[..i])
        invariant trace == old(trace) + Recordings(ctx, keys[..i])
      {
        assert Front(keys[..i + 1]) == keys[..i];
        RecordedOneMore(old(deps), ctx, keys[..i + 1]);
        OneMoreRecording<R>(ctx, keys, i);
        PreReadKey(ctx, keys[i]);
      }
      assert keys[..|keys|] == keys;
      var fetched := FetchAll(ctx, keys);
      values := [];
      for i := 0 to |keys|
        invariant |values| == i && forall j :: 0 <= j < i ==> keys[j] in store && values[j] == store[keys[j]]
      {
        if keys[i] !in fetched { return [], false; }
        values := values + [fetched[keys[i]]];
      }
      found := true;
    }

    /** The store is written first, then the write is notified. */
    method SetState(key: Key, value: V)
      modifies this`store, this`sent, this`trace
      ensures store == old(store)[key := value]
      ensures sent == old(sent) + [InvalidateKeyRequest(key, false)]
      ensures trace == old(trace) + [WroteStore({key}), SentRequest(InvalidateKeyRequest(key, false))]
    {
      assert map[key := value].Keys == {key};
      WriteStore(map[key := value]);
      PostWrite(key);
    }

    /** All keys are written at once, and then each is notified once. */
    method SetBulkState(kvs: map<Key, V>) returns (ghost order: seq<Key>)
      modifies this`store, this`sent, this`trace
      ensures store == old(store) + kvs
      ensures Enumerates(order, kvs.Keys)
      ensures sent == old(sent) + Notifications(order)
      ensures trace == old(trace) + [WroteStore(kvs.Keys)] + Sendings(Notifications(order))
    {
      WriteStore(kvs);
      var left := kvs.Keys;
      order := [];
      while left != {}
        invariant left <= kvs.Keys && store == old(store) + kvs && Enumerates(order, kvs.Keys - left)
        invariant sent == old(sent) + Notifications(order)
        invariant trace == old(trace) + [WroteStore(kvs.Keys)] + Sendings(Notifications(order))
      {
        var k :| k in left;
        EnumeratesOneMore(order, kvs.Keys - left, k);
        assert kvs.Keys - left + {k} == kvs.Keys - (left - {k});
        OneMoreNotification<R>(order, k);
        order := order + [k];
        left := left - {k};
        PostWrite(k);
      }
    }
  }

  lemma OneMoreNotification<R>(keys: seq<Key>, k: Key)
    ensures Notifications<R>(keys + [k]) == Notifications(keys) + [InvalidateKeyRequest(k, false)]
    ensures Sendings(Notifications<R>(keys + [k])) == Sendings(Notifications(keys)) + [SentRequest(InvalidateKeyRequest(k, false))]
  {}
}
