/** A service of several shards that share one store: each has its own manager, and a manager forwards
    every original key invalidation to all the others before it processes it. */
module ShardedCoherence {
  import opened CmTypes
  import opened Server
  import opened Runs
  import opened Pipeline
  import opened Coherence

  /** One shard. `forwarded` are the shards that the invalidation at the head of the queue has been
      posted to; the posts of one invalidation interleave with everything else. */
  datatype Shard = Shard(
    owed: multiset<Key>,
    active: map<CallId, ActiveCall>,
    wq: seq<Request<Response>>,
    inputs: seq<Input<Response>>,
    pipe: Pipe<Response>,
    forwarded: set<nat>)

  datatype Cluster = Cluster(versions: map<Key, nat>, shards: seq<Shard>)

  datatype ClusterAction = Local(i: nat, a: Action) | Forward(i: nat, to: nat)

  /** What one shard knows. */
  function View(s: Cluster, i: nat): System
    requires i < |s.shards|
  {
    var sh := s.shards[i];
    System(s.versions, sh.owed, sh.active, sh.wq, sh.inputs, sh.pipe)
  }

  function AsShard(t: System, forwarded: set<nat>): Shard {
    Shard(t.owed, t.active, t.wq, t.inputs, t.pipe, forwarded)
  }

  predicate IsOriginal(req: Request<Response>) {
    req.InvalidateKeyRequest? && !req.fromCM
  }

  predicate ForwardedToAll(s: Cluster, i: nat)
    requires i < |s.shards|
  {
    forall j: nat :: j < |s.shards| && j != i ==> j in s.shards[i].forwarded
  }

  /** Under H1 for each manager. Key invalidations come from the services and by forwarding only. */
  ghost predicate MayStep(cfg: Config, s: Cluster, ca: ClusterAction) {
    match ca
    case Local(i, a) =>
      && i < |s.shards| && Legal(cfg, s.shards[i].inputs) && Enabled(cfg, View(s, i), a)
      && (a.Notify? ==> !a.fromCM)
      && (a.Peer? ==> !a.req.InvalidateKeyRequest?)
      && (a.Process? && IsOriginal(s.shards[i].wq[0]) ==> ForwardedToAll(s, i))
    case Forward(i, j) =>
      && i < |s.shards| && j < |s.shards| && i != j && j !in s.shards[i].forwarded
      && s.shards[i].wq != [] && IsOriginal(s.shards[i].wq[0])
  }

  ghost function ClusterStep(cfg: Config, s: Cluster, ca: ClusterAction): Cluster
    requires MayStep(cfg, s, ca)
  {
    match ca
    case Local(i, a) =>
      var t := Step(cfg, View(s, i), a);
      Cluster(t.versions, s.shards[i := AsShard(t, if a.Process? then {} else s.shards[i].forwarded)])
    case Forward(i, j) =>
      var from, to := s.shards[i], s.shards[j];
      s.(shards := s.shards[i := from.(forwarded := from.forwarded + {j})]
                           [j := to.(wq := to.wq + [InvalidateKeyRequest(from.wq[0].key, true)])])
  }

  function StartCluster(n: nat): Cluster {
    Cluster(map[], seq(n, _ => AsShard(Start(), {})))
  }

  ghost predicate ClusterRun(cfg: Config, n: nat, actions: seq<ClusterAction>)
    decreases |actions|, 0
  {
    actions == [] || (ClusterRun(cfg, n, Front(actions)) && MayStep(cfg, ClusterAt(cfg, n, Front(actions)), Last(actions)))
  }

  ghost function ClusterAt(cfg: Config, n: nat, actions: seq<ClusterAction>): Cluster
    requires ClusterRun(cfg, n, actions)
    decreases |actions|, 1
  {
    if actions == [] then StartCluster(n) else ClusterStep(cfg, ClusterAt(cfg, n, Front(actions)), Last(actions))
  }

  // ---------- What the whole cluster still owes one shard ----------

  function Originals(wq: seq<Request<Response>>): multiset<Key> {
    if wq == [] then multiset{}
    else Originals(Front(wq)) + if IsOriginal(Last(wq)) then multiset{Last(wq).key} else multiset{}
  }

  /** The part of shard `i`'s queue that it has still to forward to `j`. */
  function NotForwarded(sh: Shard, j: nat): seq<Request<Response>> {
    if j in sh.forwarded && sh.wq != [] then sh.wq[1..] else sh.wq
  }

  function Debt(sh: Shard, i: nat, j: nat): multiset<Key> {
    if i == j then sh.owed else sh.owed + Originals(NotForwarded(sh, j))
  }

  function Debts(shards: seq<Shard>, j: nat): multiset<Key> {
    if shards == [] then multiset{} else Debts(Front(shards), j) + Debt(Last(shards), |shards| - 1, j)
  }

  /** One shard as a system of its own: the rest of the cluster shows only in what is owed. */
  function Alone(s: Cluster, j: nat, owed: multiset<Key>): System
    requires j < |s.shards|
  {
    View(s, j).(owed := owed)
  }

  lemma {:induction false} OriginalsConcat(a: seq<Request<Response>>, b: seq<Request<Response>>)
    ensures Originals(a + b) == Originals(a) + Originals(b)
  {
    if b == [] {
      assert a + b == a;
    } else {
      OriginalsConcat(a, Front(b));
      assert Front(a + b) == a + Front(b) && Last(a + b) == Last(b);
      SumAssoc(Originals(a), Originals(Front(b)), if IsOriginal(Last(b)) then multiset{Last(b).key} else multiset{});
    }
  }

  lemma SumAssoc(p: multiset<Key>, q: multiset<Key>, r: multiset<Key>)
    ensures (p + q) + r == p + (q + r)
  {}

  lemma OriginalsOne(req: Request<Response>)
    ensures Originals([req]) == if IsOriginal(req) then multiset{req.key} else multiset{}
  {
    assert Front([req]) == [];
  }

  lemma OriginalsHead(wq: seq<Request<Response>>)
    requires wq != []
    ensures Originals(wq) == Originals(wq[1..]) + if IsOriginal(wq[0]) then multiset{wq[0].key} else multiset{}
  {
    assert wq == [wq[0]] + wq[1..];
    OriginalsConcat([wq[0]], wq[1..]);
    OriginalsOne(wq[0]);
  }

  lemma SumWith(p: multiset<Key>, q: multiset<Key>, l: multiset<Key>, x: multiset<Key>, y: multiset<Key>)
    requires p + x == q + y
    ensures (p + l) + x == (q + l) + y
  {
    assert (p + l) + x == (p + x) + l;
  }

  lemma SumSwap(p: multiset<Key>, x: multiset<Key>, y: multiset<Key>)
    ensures (p + y) + x == (p + x) + y
  {}

  lemma SumCancel(p: multiset<Key>, q: multiset<Key>, x: multiset<Key>)
    requires p + x == q + x
    ensures p == q
  {
    forall k ensures p[k] == q[k] {
      assert (p + x)[k] == (q + x)[k];
    }
  }

  /** Replacing one summand `x` by one with `k` more, or less. */
  lemma SumMore(p: multiset<Key>, q: multiset<Key>, x: multiset<Key>, k: Key)
    requires p + x == q + (x + multiset{k})
    ensures p == q + multiset{k}
  {
    assert q + (x + multiset{k}) == (q + multiset{k}) + x;
    SumCancel(p, q + multiset{k}, x);
  }

  lemma SumLess(p: multiset<Key>, q: multiset<Key>, x: multiset<Key>, k: Key)
    requires k in x && p + x == q + (x - multiset{k})
    ensures p == q - multiset{k} && k in q
  {
    var y := x - multiset{k};
    assert x == y + multiset{k};
    SumMore(q, p, y, k);
  }

  lemma MovedOver(owed: multiset<Key>, rest: multiset<Key>, k: Key)
    requires k in owed
    ensures (owed - multiset{k}) + (rest + multiset{k}) == owed + rest
  {}

  lemma {:induction false} DebtsUpdate(shards: seq<Shard>, i: nat, sh: Shard, j: nat)
    requires i < |shards|
    ensures Debts(shards[i := sh], j) + Debt(shards[i], i, j) == Debts(shards, j) + Debt(sh, i, j)
  {
    var shards', n := shards[i := sh], |shards| - 1;
    if i == n {
      assert Front(shards') == Front(shards);
      SumSwap(Debts(Front(shards), j), Debt(shards[i], i, j), Debt(sh, i, j));
    } else {
      assert Front(shards') == Front(shards)[i := sh];
      DebtsUpdate(Front(shards), i, sh, j);
      SumWith(Debts(Front(shards'), j), Debts(Front(shards), j), Debt(Last(shards), n, j), Debt(shards[i], i, j), Debt(sh, i, j));
    }
  }

  lemma {:induction false} DebtIsOwed(shards: seq<Shard>, i: nat, j: nat, k: Key)
    requires i < |shards| && k in Debt(shards[i], i, j)
    ensures k in Debts(shards, j)
  {
    if i < |shards| - 1 { DebtIsOwed(Front(shards), i, j, k); }
  }

  // ---------- How a step of one shard looks from each shard ----------

  ghost predicate HeadFirst(s: Cluster) {
    forall i: nat :: i < |s.shards| && s.shards[i].forwarded != {} ==> s.shards[i].wq != []
  }

  /** A message put in shard `i`'s queue is owed to the others if it is an original. */
  lemma DebtAfterSend(sh: Shard, i: nat, j: nat, req: Request<Response>)
    requires i != j && (sh.forwarded != {} ==> sh.wq != [])
    ensures Originals(NotForwarded(sh.(wq := sh.wq + [req]), j)) ==
            Originals(NotForwarded(sh, j)) + if IsOriginal(req) then multiset{req.key} else multiset{}
  {
    OriginalsConcat(NotForwarded(sh, j), [req]);
    OriginalsOne(req);
    if j in sh.forwarded {
      assert (sh.wq + [req])[1..] == sh.wq[1..] + [req];
    }
  }

  /** A message processed had been forwarded, if it was an original. */
  lemma DebtAfterProcess(sh: Shard, i: nat, j: nat)
    requires sh.wq != [] && (IsOriginal(sh.wq[0]) ==> j in sh.forwarded)
    ensures Originals(NotForwarded(sh.(wq := sh.wq[1..], forwarded := {}), j)) == Originals(NotForwarded(sh, j))
  {
    OriginalsHead(sh.wq);
  }

  /** The message that an action puts in the shard's own queue. */
  function Sent(t: System, a: Action): seq<Request<Response>> {
    match a
    case Notify(k, fromCM) => [InvalidateKeyRequest(k, fromCM)]
    case Begin(_, ca, _) => [StartRequest(ca)]
    case Finish(id, keys, calls, body) =>
      if id !in t.active then []
      else [EndRequest(t.active[id].ca, t.active[id].caller, keys, calls, Response(body, t.active[id].seen))]
    case Peer(req) => [req]
    case _ => []
  }

  function OwedAfter(owed: multiset<Key>, a: Action): multiset<Key> {
    if a.Write? then owed + multiset{a.key} else if a.Notify? then owed - multiset{a.key} else owed
  }

  lemma QueueAfter(cfg: Config, t: System, a: Action)
    requires Legal(cfg, t.inputs) && Enabled(cfg, t, a)
    ensures Step(cfg, t, a).wq == if a.Process? then t.wq[1..] else t.wq + Sent(t, a)
    ensures Step(cfg, t, a).owed == OwedAfter(t.owed, a)
  {}

  lemma ViewAfter(cfg: Config, s: Cluster, i: nat, a: Action)
    requires MayStep(cfg, s, Local(i, a))
    ensures var s' := ClusterStep(cfg, s, Local(i, a));
            && |s'.shards| == |s.shards| && View(s', i) == Step(cfg, View(s, i), a)
            && s'.shards[i].forwarded == (if a.Process? then {} else s.shards[i].forwarded)
            && s'.shards == s.shards[i := s'.shards[i]]
            && s'.versions == if a.Write? then s.versions[a.key := Version(s.versions, a.key) + 1] else s.versions
  {}

  /** What shard `i` owes shard `j` changes only with a write. */
  lemma SentDebt(sh: Shard, owed: multiset<Key>, i: nat, j: nat, req: Request<Response>)
    requires i != j && (sh.forwarded != {} ==> sh.wq != [])
    requires if IsOriginal(req) then req.key in sh.owed && owed == sh.owed - multiset{req.key} else owed == sh.owed
    ensures Debt(sh.(owed := owed, wq := sh.wq + [req]), i, j) == Debt(sh, i, j)
  {
    DebtAfterSend(sh, i, j, req);
    assert NotForwarded(sh.(owed := owed, wq := sh.wq + [req]), j) == NotForwarded(sh.(wq := sh.wq + [req]), j);
    if IsOriginal(req) { MovedOver(sh.owed, Originals(NotForwarded(sh, j)), req.key); }
  }

  lemma ProcessedDebt(sh: Shard, i: nat, j: nat)
    requires i != j && sh.wq != [] && (IsOriginal(sh.wq[0]) ==> j in sh.forwarded)
    ensures Debt(sh.(wq := sh.wq[1..], forwarded := {}), i, j) == Debt(sh, i, j)
  {
    DebtAfterProcess(sh, i, j);
  }

  lemma WrittenDebt(sh: Shard, i: nat, j: nat, k: Key)
    ensures Debt(sh.(owed := sh.owed + multiset{k}), i, j) == Debt(sh, i, j) + multiset{k}
  {
    assert NotForwarded(sh.(owed := sh.owed + multiset{k}), j) == NotForwarded(sh, j);
    SumSwap(sh.owed, Originals(NotForwarded(sh, j)), multiset{k});
  }

  lemma DebtParts(x: Shard, y: Shard, i: nat, j: nat)
    requires x.owed == y.owed && x.wq == y.wq && x.forwarded == y.forwarded
    ensures Debt(x, i, j) == Debt(y, i, j)
  {}

  lemma OtherDebt(sh: Shard, sh': Shard, i: nat, a: Action, sent: seq<Request<Response>>, j: nat)
    requires i != j && (sh.forwarded != {} ==> sh.wq != []) && (a.Process? ==> sh.wq != [] && (IsOriginal(sh.wq[0]) ==> j in sh.forwarded))
    requires sh'.owed == OwedAfter(sh.owed, a) && (a.Notify? ==> a.key in sh.owed)
    requires if a.Process? then sh'.wq == sh.wq[1..] && sh'.forwarded == {} else sh'.wq == sh.wq + sent && sh'.forwarded == sh.forwarded
    requires if a.Notify? then sent == [InvalidateKeyRequest(a.key, false)] else |sent| <= 1 && (sent != [] ==> !IsOriginal(sent[0]))
    requires a.Write? ==> sent == []
    ensures Debt(sh', i, j) == if a.Write? then Debt(sh, i, j) + multiset{a.key} else Debt(sh, i, j)
  {
    if a.Process? {
      ProcessedDebt(sh, i, j);
      DebtParts(sh', sh.(wq := sh.wq[1..], forwarded := {}), i, j);
    } else if sent != [] {
      assert sent == [sent[0]];
      SentDebt(sh, sh'.owed, i, j, sent[0]);
      DebtParts(sh', sh.(owed := sh'.owed, wq := sh.wq + [sent[0]]), i, j);
    } else if a.Write? {
      WrittenDebt(sh, i, j, a.key);
      DebtParts(sh', sh.(owed := sh.owed + multiset{a.key}), i, j);
    } else {
      DebtParts(sh', sh, i, j);
    }
  }

  lemma ForwardedDebt(s: Cluster, i: nat, to: nat, j: nat)
    requires i < |s.shards| && i != to && to !in s.shards[i].forwarded && s.shards[i].wq != [] && IsOriginal(s.shards[i].wq[0])
    ensures var from := s.shards[i];
            Debt(from, i, j) ==
            Debt(from.(forwarded := from.forwarded + {to}), i, j) + if j == to then multiset{from.wq[0].key} else multiset{}
  {
    OriginalsHead(s.shards[i].wq);
  }

  lemma ReceivedDebt(sh: Shard, to: nat, j: nat, k: Key)
    requires sh.forwarded != {} ==> sh.wq != []
    ensures Debt(sh.(wq := sh.wq + [InvalidateKeyRequest(k, true)]), to, j) == Debt(sh, to, j)
  {
    if j != to { DebtAfterSend(sh, to, j, InvalidateKeyRequest(k, true)); }
  }

  // ---------- Each shard runs as a system of its own ----------

  /** The system stays as it is, or takes one step under H1. */
  ghost predicate Follows(cfg: Config, t: System, t': System) {
    t' == t || exists a :: Legal(cfg, t.inputs) && Enabled(cfg, t, a) && t' == Step(cfg, t, a)
  }

  /** Steps do not look at what is owed, except a notification. */
  lemma OwedAside(cfg: Config, t: System, owed: multiset<Key>, a: Action)
    requires Legal(cfg, t.inputs) && Enabled(cfg, t, a) && (a.Notify? ==> a.key in owed)
    ensures Enabled(cfg, t.(owed := owed), a)
    ensures Step(cfg, t.(owed := owed), a) == Step(cfg, t, a).(owed := OwedAfter(owed, a))
  {}

  lemma OwnDebts(cfg: Config, s: Cluster, i: nat, a: Action)
    requires MayStep(cfg, s, Local(i, a))
    ensures Debts(ClusterStep(cfg, s, Local(i, a)).shards, i) == OwedAfter(Debts(s.shards, i), a)
  {
    var sh' := ClusterStep(cfg, s, Local(i, a)).shards[i];
    ViewAfter(cfg, s, i, a);
    QueueAfter(cfg, View(s, i), a);
    DebtsUpdate(s.shards, i, sh', i);
    assert Debt(sh', i, i) == OwedAfter(s.shards[i].owed, a) && Debt(s.shards[i], i, i) == s.shards[i].owed;
    var before, after, own := Debts(s.shards, i), Debts(s.shards[i := sh'], i), s.shards[i].owed;
    if a.Write? {
      SumMore(after, before, own, a.key);
    } else if a.Notify? {
      SumLess(after, before, own, a.key);
    } else {
      SumCancel(after, before, own);
    }
  }

  lemma OtherDebts(cfg: Config, s: Cluster, i: nat, a: Action, j: nat)
    requires MayStep(cfg, s, Local(i, a)) && HeadFirst(s) && j < |s.shards| && i != j
    ensures Debts(ClusterStep(cfg, s, Local(i, a)).shards, j) ==
            if a.Write? then Debts(s.shards, j) + multiset{a.key} else Debts(s.shards, j)
  {
    var sh' := ClusterStep(cfg, s, Local(i, a)).shards[i];
    ViewAfter(cfg, s, i, a);
    QueueAfter(cfg, View(s, i), a);
    OtherDebt(s.shards[i], sh', i, a, Sent(View(s, i), a), j);
    DebtsUpdate(s.shards, i, sh', j);
    var before, after, debt := Debts(s.shards, j), Debts(s.shards[i := sh'], j), Debt(s.shards[i], i, j);
    if a.Write? {
      SumMore(after, before, debt, a.key);
    } else {
      SumCancel(after, before, debt);
    }
  }

  lemma WriteFollows(cfg: Config, t: System, k: Key)
    requires Legal(cfg, t.inputs)
    ensures Follows(cfg, t, t.(versions := t.versions[k := Version(t.versions, k) + 1], owed := t.owed + multiset{k}))
  {
    assert Enabled(cfg, t, Write(k));
    assert Step(cfg, t, Write(k)) == t.(versions := t.versions[k := Version(t.versions, k) + 1], owed := t.owed + multiset{k});
  }

  /** The two shards that a post changes. */
  function Posted(from: Shard, to: nat): Shard {
    from.(forwarded := from.forwarded + {to})
  }

  function Receiving(sh: Shard, k: Key): Shard {
    sh.(wq := sh.wq + [InvalidateKeyRequest(k, true)])
  }

  lemma FromDebts(s: Cluster, i: nat, to: nat, j: nat)
    requires i < |s.shards| && i != to && to !in s.shards[i].forwarded && s.shards[i].wq != [] && IsOriginal(s.shards[i].wq[0])
    ensures Debts(s.shards, j) ==
            Debts(s.shards[i := Posted(s.shards[i], to)], j) + if j == to then multiset{s.shards[i].wq[0].key} else multiset{}
  {
    var from := s.shards[i];
    var before, after, debt := Debts(s.shards, j), Debts(s.shards[i := Posted(from, to)], j), Debt(Posted(from, to), i, j);
    ForwardedDebt(s, i, to, j);
    DebtsUpdate(s.shards, i, Posted(from, to), j);
    if j == to {
      var k := from.wq[0].key;
      assert Debt(from, i, j) == debt + multiset{k};
      SumMore(before, after, debt, k);
    } else {
      SumCancel(before, after, debt);
    }
  }

  lemma ToDebts(shards: seq<Shard>, to: nat, k: Key, j: nat)
    requires to < |shards| && (shards[to].forwarded != {} ==> shards[to].wq != [])
    ensures Debts(shards[to := Receiving(shards[to], k)], j) == Debts(shards, j)
  {
    ReceivedDebt(shards[to], to, j, k);
    DebtsUpdate(shards, to, Receiving(shards[to], k), j);
    SumCancel(Debts(shards[to := Receiving(shards[to], k)], j), Debts(shards, j), Debt(shards[to], to, j));
  }

  lemma ForwardDebts(s: Cluster, i: nat, to: nat, j: nat)
    requires HeadFirst(s) && i < |s.shards| && to < |s.shards| && j < |s.shards|
    requires i != to && to !in s.shards[i].forwarded && s.shards[i].wq != [] && IsOriginal(s.shards[i].wq[0])
    ensures var k, mid := s.shards[i].wq[0].key, s.shards[i := Posted(s.shards[i], to)];
            Debts(s.shards, j) == Debts(mid[to := Receiving(s.shards[to], k)], j) + if j == to then multiset{k} else multiset{}
  {
    FromDebts(s, i, to, j);
    ToDebts(s.shards[i := Posted(s.shards[i], to)], to, s.shards[i].wq[0].key, j);
  }

  lemma NotifyFollows(cfg: Config, t: System, k: Key)
    requires Legal(cfg, t.inputs) && k in t.owed
    ensures Follows(cfg, t, t.(wq := t.wq + [InvalidateKeyRequest(k, true)], owed := t.owed - multiset{k}))
  {
    assert Enabled(cfg, t, Notify(k, true));
    assert Step(cfg, t, Notify(k, true)) == t.(wq := t.wq + [InvalidateKeyRequest(k, true)], owed := t.owed - multiset{k});
  }

  lemma Taken(p: multiset<Key>, q: multiset<Key>, k: Key)
    requires q == p + multiset{k}
    ensures k in q && p == q - multiset{k}
  {}

  /** What is owed to shard `j` after a step, from what was owed before. */
  function OwedStep(s: Cluster, ca: ClusterAction, j: nat, owed: multiset<Key>): multiset<Key> {
    match ca
    case Local(i, a) => if i == j then OwedAfter(owed, a) else if a.Write? then owed + multiset{a.key} else owed
    case Forward(i, to) =>
      if j == to && i < |s.shards| && s.shards[i].wq != [] && IsOriginal(s.shards[i].wq[0])
      then owed - multiset{s.shards[i].wq[0].key} else owed
  }

  /** What a step takes off was owed. */
  predicate CanTake(s: Cluster, ca: ClusterAction, j: nat, owed: multiset<Key>) {
    match ca
    case Local(i, a) => i == j && a.Notify? ==> a.key in owed
    case Forward(i, to) =>
      j == to && i < |s.shards| && s.shards[i].wq != [] && IsOriginal(s.shards[i].wq[0]) ==> s.shards[i].wq[0].key in owed
  }

  lemma DebtsStep(cfg: Config, s: Cluster, ca: ClusterAction, j: nat)
    requires MayStep(cfg, s, ca) && HeadFirst(s) && j < |s.shards|
    ensures CanTake(s, ca, j, Debts(s.shards, j))
    ensures Debts(ClusterStep(cfg, s, ca).shards, j) == OwedStep(s, ca, j, Debts(s.shards, j))
  {
    match ca
    case Local(i, a) =>
      if i == j {
        OwnDebts(cfg, s, i, a);
        if a.Notify? { DebtIsOwed(s.shards, i, i, a.key); }
      } else {
        OtherDebts(cfg, s, i, a, j);
      }
    case Forward(i, to) =>
      ForwardDebts(s, i, to, j);
      if j == to { Taken(Debts(ClusterStep(cfg, s, ca).shards, j), Debts(s.shards, j), s.shards[i].wq[0].key); }
  }

  lemma LocalFollows(cfg: Config, s: Cluster, i: nat, a: Action, j: nat, owed: multiset<Key>)
    requires MayStep(cfg, s, Local(i, a)) && j < |s.shards| && Legal(cfg, s.shards[j].inputs) && CanTake(s, Local(i, a), j, owed)
    ensures |ClusterStep(cfg, s, Local(i, a)).shards| == |s.shards|
    ensures Follows(cfg, Alone(s, j, owed), Alone(ClusterStep(cfg, s, Local(i, a)), j, OwedStep(s, Local(i, a), j, owed)))
  {
    ViewAfter(cfg, s, i, a);
    if i == j {
      OwedAside(cfg, View(s, i), owed, a);
    } else if a.Write? {
      WriteFollows(cfg, Alone(s, j, owed), a.key);
    }
  }

  /** A forwarded invalidation is, for the shard it is posted to, a notification it was owed. */
  lemma ForwardFollows(cfg: Config, s: Cluster, i: nat, to: nat, j: nat, owed: multiset<Key>)
    requires MayStep(cfg, s, Forward(i, to)) && j < |s.shards| && Legal(cfg, s.shards[j].inputs) && CanTake(s, Forward(i, to), j, owed)
    ensures |ClusterStep(cfg, s, Forward(i, to)).shards| == |s.shards|
    ensures Follows(cfg, Alone(s, j, owed), Alone(ClusterStep(cfg, s, Forward(i, to)), j, OwedStep(s, Forward(i, to), j, owed)))
  {
    if j == to { NotifyFollows(cfg, Alone(s, j, owed), s.shards[i].wq[0].key); }
  }

  lemma AloneFollows(cfg: Config, s: Cluster, ca: ClusterAction, j: nat, owed: multiset<Key>)
    requires MayStep(cfg, s, ca) && j < |s.shards| && Legal(cfg, s.shards[j].inputs) && CanTake(s, ca, j, owed)
    ensures |ClusterStep(cfg, s, ca).shards| == |s.shards|
    ensures Follows(cfg, Alone(s, j, owed), Alone(ClusterStep(cfg, s, ca), j, OwedStep(s, ca, j, owed)))
  {
    match ca
    case Local(i, a) => LocalFollows(cfg, s, i, a, j, owed);
    case Forward(i, to) => ForwardFollows(cfg, s, i, to, j, owed);
  }

  lemma HeadStaysFirst(cfg: Config, s: Cluster, ca: ClusterAction)
    requires MayStep(cfg, s, ca) && HeadFirst(s)
    ensures HeadFirst(ClusterStep(cfg, s, ca))
  {}

  lemma {:induction false} NothingOwed(shards: seq<Shard>, j: nat)
    requires forall i :: 0 <= i < |shards| ==> shards[i].owed == multiset{} && shards[i].wq == []
    ensures Debts(shards, j) == multiset{}
  {
    if shards != [] { NothingOwed(Front(shards), j); }
  }

  ghost predicate Reached(cfg: Config, t: System) {
    exists actions :: LegalRun(cfg, iset{}, actions) && At(cfg, iset{}, actions) == t
  }

  lemma ReachedStart(cfg: Config)
    ensures Reached(cfg, Start())
  {
    assert LegalRun(cfg, iset{}, []) && At(cfg, iset{}, []) == Start();
  }

  lemma ReachedNext(cfg: Config, t: System, a: Action)
    requires Reached(cfg, t) && Legal(cfg, t.inputs) && Enabled(cfg, t, a)
    ensures Reached(cfg, Step(cfg, t, a))
  {
    var actions :| LegalRun(cfg, iset{}, actions) && At(cfg, iset{}, actions) == t;
    assert Front(actions + [a]) == actions && Last(actions + [a]) == a;
    assert LegalRun(cfg, iset{}, actions + [a]);
    assert At(cfg, iset{}, actions + [a]) == Step(cfg, t, a);
  }

  lemma ReachedFollows(cfg: Config, t: System, t': System)
    requires Reached(cfg, t) && Follows(cfg, t, t')
    ensures Reached(cfg, t')
  {
    if t' != t {
      var a :| Legal(cfg, t.inputs) && Enabled(cfg, t, a) && t' == Step(cfg, t, a);
      ReachedNext(cfg, t, a);
    }
  }

  lemma ReachedLegal(cfg: Config, t: System)
    requires Reached(cfg, t)
    ensures Legal(cfg, t.inputs)
  {
    var actions :| LegalRun(cfg, iset{}, actions) && At(cfg, iset{}, actions) == t;
    AlwaysInvariant(cfg, actions);
  }

  lemma StartAlone(n: nat, j: nat)
    requires j < n
    ensures HeadFirst(StartCluster(n)) && Alone(StartCluster(n), j, Debts(StartCluster(n).shards, j)) == Start()
  {
    NothingOwed(StartCluster(n).shards, j);
  }

  /** Every run of the cluster is, for each of its shards, a run of one shard on its own. */
  lemma {:induction false} EachShardRuns(cfg: Config, n: nat, actions: seq<ClusterAction>, j: nat)
    requires ClusterRun(cfg, n, actions) && j < n
    ensures var s := ClusterAt(cfg, n, actions); |s.shards| == n && HeadFirst(s) && Reached(cfg, Alone(s, j, Debts(s.shards, j)))
  {
    if actions == [] {
      StartAlone(n, j);
      ReachedStart(cfg);
    } else {
      EachShardRuns(cfg, n, Front(actions), j);
      var s, ca := ClusterAt(cfg, n, Front(actions)), Last(actions);
      var owed := Debts(s.shards, j);
      HeadStaysFirst(cfg, s, ca);
      DebtsStep(cfg, s, ca, j);
      ReachedLegal(cfg, Alone(s, j, owed));
      AloneFollows(cfg, s, ca, j, owed);
      ReachedFollows(cfg, Alone(s, j, owed), Alone(ClusterStep(cfg, s, ca), j, OwedStep(s, ca, j, owed)));
    }
  }

  // ---------- Coherence of every shard's callers ----------

  lemma {:induction false} OwedBySome(shards: seq<Shard>, j: nat, k: Key) returns (i: nat)
    requires k in Debts(shards, j)
    ensures i < |shards| && (k in shards[i].owed || InvQueued(shards[i].wq, k))
  {
    if k in Debt(Last(shards), |shards| - 1, j) {
      i := |shards| - 1;
      if k !in shards[i].owed { OriginalIsQueued(shards[i].wq, NotForwarded(shards[i], j), k); }
    } else {
      i := OwedBySome(Front(shards), j, k);
    }
  }

  lemma {:induction false} OriginalAt(wq: seq<Request<Response>>, k: Key) returns (p: nat)
    requires k in Originals(wq)
    ensures p < |wq| && wq[p].InvalidateKeyRequest? && wq[p].key == k
  {
    if IsOriginal(Last(wq)) && Last(wq).key == k {
      p := |wq| - 1;
    } else {
      p := OriginalAt(Front(wq), k);
    }
  }

  lemma OriginalIsQueued(wq: seq<Request<Response>>, part: seq<Request<Response>>, k: Key)
    requires k in Originals(part) && (part == wq || (wq != [] && part == wq[1..]))
    ensures InvQueued(wq, k)
  {
    var p := OriginalAt(part, k);
    if part != wq { assert wq[p + 1] == part[p]; }
  }

  /** In every reachable state of the cluster: an entry that a caller of shard `j` will see, once all in
      flight to it has arrived, and that was computed from an outdated version of a key, is one whose
      invalidation is still to come: a notification of the key is owed at some shard, or queued at
      some manager. */
  lemma ShardedStaleEntriesAreDoomed(cfg: Config, n: nat, actions: seq<ClusterAction>, j: nat, caller: ServiceName, ca: CallArgs, o: Observation)
    requires ClusterRun(cfg, n, actions) && j < n
    ensures var s := ClusterAt(cfg, n, actions);
            && |s.shards| == n && PipeOk(s.shards[j].pipe)
            && (ca in Eventual(s.shards[j].pipe, caller) && o in Eventual(s.shards[j].pipe, caller)[ca].basis ==>
                  || o.version == Version(s.versions, o.key)
                  || exists i :: 0 <= i < n && (o.key in s.shards[i].owed || InvQueued(s.shards[i].wq, o.key)))
  {
    EachShardRuns(cfg, n, actions, j);
    var s := ClusterAt(cfg, n, actions);
    var local :| LegalRun(cfg, iset{}, local) && At(cfg, iset{}, local) == Alone(s, j, Debts(s.shards, j));
    StaleEntriesAreDoomed(cfg, local, caller, ca, o);
    if o.key in Debts(s.shards, j) {
      var i := OwedBySome(s.shards, j, o.key);
    }
  }

  /** So when the whole cluster is at rest, every caller of every shard has only current entries,
      whichever shard wrote the keys they were computed from. */
  lemma ShardedCachesAreCurrent(cfg: Config, n: nat, actions: seq<ClusterAction>, j: nat)
    requires ClusterRun(cfg, n, actions) && j < n
    ensures var s := ClusterAt(cfg, n, actions);
            && |s.shards| == n
            && ((forall i: nat :: i < n ==> AtRest(View(s, i))) ==> CachesCurrent(View(s, j)))
  {
    EachShardRuns(cfg, n, actions, j);
    var s := ClusterAt(cfg, n, actions);
    if forall i: nat :: i < n ==> AtRest(View(s, i)) {
      forall i | 0 <= i < n ensures s.shards[i].owed == multiset{} && s.shards[i].wq == [] {
        assert AtRest(View(s, i));
      }
      NothingOwed(s.shards, j);
      assert AtRest(View(s, j)) && Alone(s, j, Debts(s.shards, j)) == View(s, j);
      var local :| LegalRun(cfg, iset{}, local) && At(cfg, iset{}, local) == Alone(s, j, Debts(s.shards, j));
      QuiescentCachesAreCurrent(cfg, local);
    }
  }
}
