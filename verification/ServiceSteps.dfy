/** The service's wrappers and store operations as actions of the whole system: what they do, in the
    order in which they do it, is what the coherence proof takes a service to do. */
module ServiceSteps {
  import opened CmTypes
  import opened Server
  import opened Runs
  import opened Coherence
  import W = ServiceWrappers

  // ---------- Wrappers ----------

  /** The dependency map holds what the system keeps for its active calls. */
  ghost predicate Matches(d: W.Deps, s: System) {
    && d.Keys == s.active.Keys
    && forall id :: id in d ==> W.KeysOf(d[id]) == s.active[id].keyDeps && W.CallsOf(d[id]) == s.active[id].callDeps
  }

  /** The action that an event of an eligible request is, and the End that it sends if it ends one. */
  function ActionOf(ev: W.Event, reqs: seq<Request<Response>>): Action {
    match ev
    case ReqStart(ctx) => Begin(ctx.id, ctx.callArgs, ctx.caller)
    case PreRead(ctx, k) => RecordKey(ctx.id, k)
    case PreCall(ctx, c) => RecordCall(ctx.id, c)
    case ReqEnd(ctx) =>
      if reqs != [] && reqs[0].EndRequest? then Finish(ctx.id, reqs[0].keyDeps, reqs[0].callDeps, reqs[0].returnVal.body)
      else Finish(ctx.id, [], [], "")
  }

  lemma KeyAdded(deps: set<W.Dep>, k: Key)
    ensures W.KeysOf(deps + {W.KeyDep(k)}) == W.KeysOf(deps) + {k} && W.CallsOf(deps + {W.KeyDep(k)}) == W.CallsOf(deps)
  {}

  lemma CallAdded(deps: set<W.Dep>, c: CallArgs)
    ensures W.CallsOf(deps + {W.CallDep(c)}) == W.CallsOf(deps) + {c} && W.KeysOf(deps + {W.CallDep(c)}) == W.KeysOf(deps)
  {}

  /** Every event of an eligible request, with a new id at its start and its own arguments and reads at
      its end, is an action of the system: possible, leaving the same dependencies, and putting in the
      manager's queue exactly the messages that the event sends. */
  lemma EventIsAction(cfg: Config, d: W.Deps, s: System, ev: W.Event, reqs: seq<Request<Response>>)
    requires Legal(cfg, s.inputs) && Matches(d, s) && W.Tracked(ev.ctx) && W.Possible(d, ev) && W.SentFor(d, ev, reqs)
    requires ev.ReqStart? ==> ev.ctx.id !in d
    requires ev.ReqEnd? ==> s.active[ev.ctx.id].ca == ev.ctx.callArgs && s.active[ev.ctx.id].caller == ev.ctx.caller
    requires ev.ReqEnd? ==> reqs[0].returnVal.basis == s.active[ev.ctx.id].seen
    ensures var a := ActionOf(ev, reqs);
            && Possible(cfg, s, a)
            && Step(cfg, s, a).wq == s.wq + reqs
            && Matches(W.Update(d, ev), Step(cfg, s, a))
  {
    match ev
    case ReqStart(ctx) =>
      var none: set<W.Dep> := {};
      assert W.KeysOf(none) == {} && W.CallsOf(none) == {};
    case PreRead(ctx, k) => KeyAdded(d[ctx.id], k);
    case PreCall(ctx, c) => CallAdded(d[ctx.id], c);
    case ReqEnd(ctx) =>
      assert reqs == [reqs[0]] && reqs[0] == EndRequest(ctx.callArgs, ctx.caller, reqs[0].keyDeps, reqs[0].callDeps, reqs[0].returnVal);
  }

  // ---------- Store operations, by their traces ----------

  ghost predicate CanDo(cfg: Config, s: System, actions: seq<Action>)
    requires Legal(cfg, s.inputs)
    decreases |actions|
  {
    actions == [] ||
    (Possible(cfg, s, actions[0]) && Legal(cfg, Step(cfg, s, actions[0]).inputs) && CanDo(cfg, Step(cfg, s, actions[0]), actions[1..]))
  }

  ghost function DoAll(cfg: Config, s: System, actions: seq<Action>): System
    requires Legal(cfg, s.inputs) && CanDo(cfg, s, actions)
    decreases |actions|
  {
    if actions == [] then s else DoAll(cfg, Step(cfg, s, actions[0]), actions[1..])
  }

  function Writes(keys: seq<Key>): seq<Action> {
    seq(|keys|, i requires 0 <= i < |keys| => Write(keys[i]))
  }

  function Notifies(keys: seq<Key>): seq<Action> {
    seq(|keys|, i requires 0 <= i < |keys| => Notify(keys[i], false))
  }

  function RecordsOf(id: CallId, keys: seq<Key>): seq<Action> {
    seq(|keys|, i requires 0 <= i < |keys| => RecordKey(id, keys[i]))
  }

  function ReadsOf(id: CallId, keys: seq<Key>): seq<Action> {
    seq(|keys|, i requires 0 <= i < |keys| => Read(id, keys[i]))
  }

  lemma CanDoFirst(cfg: Config, s: System, a: Action, rest: seq<Action>)
    requires Legal(cfg, s.inputs) && Possible(cfg, s, a) && Legal(cfg, Step(cfg, s, a).inputs) && CanDo(cfg, Step(cfg, s, a), rest)
    ensures CanDo(cfg, s, [a] + rest) && DoAll(cfg, s, [a] + rest) == DoAll(cfg, Step(cfg, s, a), rest)
  {
    assert ([a] + rest)[0] == a && ([a] + rest)[1..] == rest;
  }

  lemma TakeFirst(keys: seq<Key>, owed: multiset<Key>)
    requires keys != [] && multiset(keys) <= owed
    ensures keys[0] in owed && multiset(keys[1..]) <= owed - multiset{keys[0]}
  {
    var k := keys[0];
    assert keys == [k] + keys[1..];
    assert multiset(keys) == multiset{k} + multiset(keys[1..]);
  }

  lemma AddLast(keys: seq<Key>, owed: multiset<Key>, k: Key)
    requires multiset(keys) <= owed
    ensures multiset(keys + [k]) <= owed + multiset{k}
  {
    assert multiset(keys + [k]) == multiset(keys) + multiset{k};
  }

  lemma NotifyFirst(cfg: Config, s: System, keys: seq<Key>)
    requires Legal(cfg, s.inputs) && keys != [] && multiset(keys) <= s.owed
    ensures Possible(cfg, s, Notify(keys[0], false))
    ensures var s' := Step(cfg, s, Notify(keys[0], false));
            s'.inputs == s.inputs && multiset(keys[1..]) <= s'.owed && s'.wq == s.wq + W.Notifications([keys[0]])
  {
    TakeFirst(keys, s.owed);
  }

  lemma WriteFirst(cfg: Config, s: System, k: Key, more: seq<Key>)
    requires Legal(cfg, s.inputs) && multiset(more) <= s.owed
    ensures var s' := Step(cfg, s, Write(k)); s'.inputs == s.inputs && s'.wq == s.wq && multiset(more + [k]) <= s'.owed
  {
    AddLast(more, s.owed, k);
  }

  lemma Joined(keys: seq<Key>, more: seq<Key>)
    requires keys != []
    ensures (more + [keys[0]]) + keys[1..] == more + keys
    ensures Writes(keys) + Notifies(more + keys) == [Write(keys[0])] + (Writes(keys[1..]) + Notifies(more + keys))
    ensures Notifies(keys) == [Notify(keys[0], false)] + Notifies(keys[1..])
    ensures W.Notifications<Response>(keys) == W.Notifications([keys[0]]) + W.Notifications(keys[1..])
  {}

  lemma Regrouped(wq: seq<Request<Response>>, keys: seq<Key>)
    ensures keys == [] ==> wq + W.Notifications(keys) == wq
    ensures keys != [] ==> wq + W.Notifications([keys[0]]) + W.Notifications(keys[1..]) == wq + W.Notifications(keys)
  {}

  ghost predicate CanNotify(cfg: Config, s: System, keys: seq<Key>)
    requires Legal(cfg, s.inputs)
  {
    CanDo(cfg, s, Notifies(keys)) && DoAll(cfg, s, Notifies(keys)).wq == s.wq + W.Notifications(keys)
  }

  lemma CanNotifyFirst(cfg: Config, s: System, s': System, keys: seq<Key>)
    requires Legal(cfg, s.inputs) && keys != [] && Possible(cfg, s, Notify(keys[0], false)) && s' == Step(cfg, s, Notify(keys[0], false))
    requires s'.inputs == s.inputs && s'.wq == s.wq + W.Notifications([keys[0]]) && CanNotify(cfg, s', keys[1..])
    ensures CanNotify(cfg, s, keys)
  {
    CanDoFirst(cfg, s, Notify(keys[0], false), Notifies(keys[1..]));
    Joined(keys, []);
    Regrouped(s.wq, keys);
  }

  /** The notifications of keys that are owed can follow each other in any order. */
  lemma {:induction false} OwedCanBeNotified(cfg: Config, s: System, keys: seq<Key>)
    requires Legal(cfg, s.inputs) && multiset(keys) <= s.owed
    ensures CanNotify(cfg, s, keys)
    decreases |keys|
  {
    if keys == [] {
      Regrouped(s.wq, keys);
    } else {
      NotifyFirst(cfg, s, keys);
      OwedCanBeNotified(cfg, Step(cfg, s, Notify(keys[0], false)), keys[1..]);
      CanNotifyFirst(cfg, s, Step(cfg, s, Notify(keys[0], false)), keys);
    }
  }

  /** What a write operation leaves in its trace, the keys written and then each notified once, is a
      sequence of possible actions in every state, and puts the messages it sends in the manager's
      queue; `more` are written already. */
  lemma {:induction false} WritesThenNotifies(cfg: Config, s: System, keys: seq<Key>, more: seq<Key>)
    requires Legal(cfg, s.inputs) && multiset(more) <= s.owed
    ensures CanDo(cfg, s, Writes(keys) + Notifies(more + keys))
    ensures DoAll(cfg, s, Writes(keys) + Notifies(more + keys)).wq == s.wq + W.Notifications(more + keys)
    decreases |keys|
  {
    if keys == [] {
      assert Writes(keys) + Notifies(more + keys) == Notifies(more) && more + keys == more;
      OwedCanBeNotified(cfg, s, more);
    } else {
      var k, rest := keys[0], keys[1..];
      WriteFirst(cfg, s, k, more);
      Joined(keys, more);
      WritesThenNotifies(cfg, Step(cfg, s, Write(k)), rest, more + [k]);
      CanDoFirst(cfg, s, Write(k), Writes(rest) + Notifies(more + keys));
    }
  }

  /** The other way round it is not: nothing is notified that was not written before. */
  lemma NotifyFirstImpossible(cfg: Config, s: System, k: Key)
    requires Legal(cfg, s.inputs) && k !in s.owed
    ensures !CanDo(cfg, s, Notifies([k]) + Writes([k]))
  {
    assert (Notifies([k]) + Writes([k]))[0] == Notify(k, false);
  }

  lemma {:induction false} ReadsAfterRecords(cfg: Config, s: System, id: CallId, keys: seq<Key>)
    requires Legal(cfg, s.inputs) && id in s.active && forall k :: k in keys ==> k in s.active[id].keyDeps
    ensures CanDo(cfg, s, ReadsOf(id, keys))
    decreases |keys|
  {
    if keys != [] {
      ReadsAfterRecords(cfg, Step(cfg, s, Read(id, keys[0])), id, keys[1..]);
      CanDoFirst(cfg, s, Read(id, keys[0]), ReadsOf(id, keys[1..]));
      assert ReadsOf(id, keys) == [Read(id, keys[0])] + ReadsOf(id, keys[1..]);
    }
  }

  ghost predicate AllRecorded(s: System, id: CallId, keys: seq<Key>) {
    id in s.active && forall k :: k in keys ==> k in s.active[id].keyDeps
  }

  lemma RecordFirst(cfg: Config, s: System, id: CallId, done: seq<Key>, k: Key)
    requires Legal(cfg, s.inputs) && AllRecorded(s, id, done)
    ensures Possible(cfg, s, RecordKey(id, k))
    ensures var s' := Step(cfg, s, RecordKey(id, k)); s'.inputs == s.inputs && AllRecorded(s', id, done + [k])
  {}

  lemma RecordsJoined(id: CallId, done: seq<Key>, keys: seq<Key>)
    requires keys != []
    ensures (done + [keys[0]]) + keys[1..] == done + keys
    ensures RecordsOf(id, keys) + ReadsOf(id, done + keys) == [RecordKey(id, keys[0])] + (RecordsOf(id, keys[1..]) + ReadsOf(id, done + keys))
  {}

  /** What a read operation of an active call leaves in its trace, all keys recorded and then read, is a
      sequence of possible actions; `done` are recorded already. */
  lemma {:induction false} RecordsThenReads(cfg: Config, s: System, id: CallId, done: seq<Key>, keys: seq<Key>)
    requires Legal(cfg, s.inputs) && AllRecorded(s, id, done)
    ensures CanDo(cfg, s, RecordsOf(id, keys) + ReadsOf(id, done + keys))
    decreases |keys|
  {
    if keys == [] {
      assert done + keys == done && RecordsOf(id, keys) + ReadsOf(id, done) == ReadsOf(id, done);
      ReadsAfterRecords(cfg, s, id, done);
    } else {
      RecordFirst(cfg, s, id, done, keys[0]);
      RecordsJoined(id, done, keys);
      RecordsThenReads(cfg, Step(cfg, s, RecordKey(id, keys[0])), id, done + [keys[0]], keys[1..]);
      CanDoFirst(cfg, s, RecordKey(id, keys[0]), RecordsOf(id, keys[1..]) + ReadsOf(id, done + keys));
    }
  }

  /** A read before its record is not. */
  lemma ReadFirstImpossible(cfg: Config, s: System, id: CallId, k: Key)
    requires Legal(cfg, s.inputs) && id in s.active && k !in s.active[id].keyDeps
    ensures !CanDo(cfg, s, [Read(id, k), RecordKey(id, k)])
  {}
}
