/** The manager's mutable state (internal/cm/state.go): the history, and the two reverse indexes
    from a dependency to the calls that were cached from it. */
module ManagerState {
  import opened CmTypes
  import opened History

  // ---------- Reverse indexes, as values ----------

  predicate IndexLists<D>(index: map<D, CallsAndCallers>, d: D, caller: ServiceName, ca: CallArgs) {
    d in index && Lists(index[d], caller, ca)
  }

  function AddCalls(cac: CallsAndCallers, caller: ServiceName, calls: set<CallArgs>): CallsAndCallers {
    cac[caller := (if caller in cac then cac[caller] else {}) + calls]
  }

  function Union(a: CallsAndCallers, b: CallsAndCallers): CallsAndCallers {
    map c | c in a.Keys + b.Keys :: (if c in a then a[c] else {}) + (if c in b then b[c] else {})
  }

  function Store<D>(index: map<D, CallsAndCallers>, caller: ServiceName, ca: CallArgs, deps: seq<D>): map<D, CallsAndCallers> {
    if deps == [] then index
    else
      var before, d := Store(index, caller, ca, Front(deps)), Last(deps);
      before[d := AddCalls(if d in before then before[d] else map[], caller, {ca})]
  }

  /** All that the index holds under the listed dependencies, each counted once. */
  function Gather<D>(index: map<D, CallsAndCallers>, deps: seq<D>): CallsAndCallers {
    if deps == [] then map[]
    else
      var before, d := Gather(index, Front(deps)), Last(deps);
      if d in index && d !in Front(deps) then Union(before, index[d]) else before
  }

  predicate AnyIndexed<D>(index: map<D, CallsAndCallers>, deps: seq<D>) {
    exists d :: d in deps && d in index
  }

  lemma {:induction false} StoreLists<D>(index: map<D, CallsAndCallers>, caller: ServiceName, ca: CallArgs, deps: seq<D>, d: D, c: ServiceName, a: CallArgs)
    ensures IndexLists(Store(index, caller, ca, deps), d, c, a) <==>
            IndexLists(index, d, c, a) || (d in deps && c == caller && a == ca)
  {
    if deps != [] {
      StoreLists(index, caller, ca, Front(deps), d, c, a);
      assert d in deps <==> d in Front(deps) || d == Last(deps);
    }
  }

  lemma {:induction false} GatherLists<D>(index: map<D, CallsAndCallers>, deps: seq<D>, c: ServiceName, a: CallArgs)
    ensures Lists(Gather(index, deps), c, a) <==> exists d :: d in deps && IndexLists(index, d, c, a)
  {
    if deps != [] {
      GatherLists(index, Front(deps), c, a);
      assert forall d :: d in deps <==> d in Front(deps) || d == Last(deps);
    }
  }

  // ---------- The object ----------

  /** What one pass of the backward scan looks at. */
  lemma ScanStep(h: seq<HistoryItem>, i: nat, ca: CallArgs, keys: set<Key>, calls: set<CallArgs>)
    requires i < |h|
    ensures ScanVerdict(h[..i + 1], ca, keys, calls) <==>
            || (h[i].CallArgSet? && ca in h[i].cas)
            || (!(h[i].Logged? && Hits(h[i].event, keys, calls)) && ScanVerdict(h[..i], ca, keys, calls))
  {
    assert Front(h[..i + 1]) == h[..i] && Last(h[..i + 1]) == h[i];
  }

  /** Where the scan stops is where the marker is deleted. */
  lemma {:induction false} UnmarkNewest(h: seq<HistoryItem>, i: nat, ca: CallArgs)
    requires i < |h| && h[i].CallArgSet? && ca in h[i].cas
    requires forall j :: i < j < |h| && h[j].CallArgSet? ==> ca !in h[j].cas
    ensures Marked(h, ca) && Unmark(h, ca) == h[i := CallArgSet(h[i].cas - {ca})]
  {
    if i < |h| - 1 { UnmarkNewest(Front(h), i, ca); }
  }

  lemma {:induction false} UnmarkNothing(h: seq<HistoryItem>, ca: CallArgs)
    requires !Marked(h, ca)
    ensures Unmark(h, ca) == h
  {
    if h != [] {
      assert forall j :: 0 <= j < |h| - 1 ==> Front(h)[j] == h[j];
      UnmarkNothing(Front(h), ca);
    }
  }

  class State {
    var history: seq<HistoryItem>
    var keyDeps: map<Key, CallsAndCallers>
    var callDeps: map<CallArgs, CallsAndCallers>

    constructor ()
      ensures history == [] && keyDeps == map[] && callDeps == map[]
    {
      history, keyDeps, callDeps := [], map[], map[];
    }

    method AppendCall(ca: CallArgs)
      modifies this`history
      ensures history == History.AppendCall(old(history), ca)
    {
      assert {} + {ca} == {ca};
      if |history| == 0 {
        history := history + [CallArgSet({ca})];
      } else {
        match history[|history| - 1]
        case CallArgSet(cas) => history := history[|history| - 1 := CallArgSet(cas + {ca})];
        case Logged(_) => history := history + [CallArgSet({ca})];
      }
    }

    method AppendWrite(k: Key)
      modifies this`history
      ensures history == old(history) + [Logged(WriteKey(k))]
    {
      history := history + [Logged(WriteKey(k))];
    }

    /** `for _, ca := range calls { appendInvCall(&ca) }`: with one variable for the whole loop,
        the items of earlier passes point to it too, so each pass changes them all. */
    method AppendInvCalls(v: LoopVariable, calls: seq<CallArgs>)
      modifies this`history
      ensures history == old(history) + LoggedAll(InvEvents(v, calls))
    {
      ghost var before := history;
      for i := 0 to |calls|
        invariant history == before + LoggedAll(InvEvents(v, calls[..i]))
      {
        if v == PerLoop {
          history := history[..|history| - i] + seq(i, _ => Logged(InvCall(calls[i])));
        }
        history := history + [Logged(InvCall(calls[i]))];
        assert history == before + LoggedAll(InvEvents(v, calls[..i + 1]));
      }
      assert calls[..|calls|] == calls;
    }

    /** `gcDue` is the reading of the five-second timer. */
    method ValidCall(ca: CallArgs, keyDepList: seq<Key>, callDepList: seq<CallArgs>, gcDue: bool) returns (valid: bool)
      modifies this`history
      ensures valid == ScanVerdict(old(history), ca, Elements(keyDepList), Elements(callDepList))
      ensures history == AfterEnd(old(history), ca, gcDue)
    {
      var h := history;
      var keys := SliceToSet(keyDepList);
      var calls := SliceToSet(callDepList);
      valid := true;
      var i := |h| - 1;
      assert h[..|h|] == h;
      while i >= 0
        invariant -1 <= i < |h| && history == h == old(history)
        invariant ScanVerdict(h, ca, keys, calls) == (valid && ScanVerdict(h[..i + 1], ca, keys, calls))
        invariant forall j :: i < j < |h| && h[j].CallArgSet? ==> ca !in h[j].cas
      {
        ScanStep(h, i, ca, keys, calls);
        match h[i] {
          case Logged(e) =>
            if Hits(e, keys, calls) { valid := false; }
          case CallArgSet(cas) =>
            if ca in cas {
              history := h[i := CallArgSet(cas - {ca})];
              UnmarkNewest(h, i, ca);
              if gcDue { DropPrefix(); }
              return;
            }
        }
        i := i - 1;
      }
      assert h[..0] == [];
      UnmarkNothing(h, ca);
    }

    method DropPrefix()
      modifies this`history
      ensures history == Collect(old(history))
    {
      var j := 0;
      while j < |history|
        invariant 0 <= j <= |history| && history == old(history)
        invariant Collect(history) == Collect(history[j..])
      {
        if history[j].CallArgSet? && history[j].cas != {} { break; }
        assert history[j..][1..] == history[j + 1..];
        j := j + 1;
      }
      history := history[j..];
    }

    method StoreDeps(caller: ServiceName, ca: CallArgs, keys: seq<Key>, calls: seq<CallArgs>)
      modifies this`keyDeps, this`callDeps
      ensures keyDeps == Store(old(keyDeps), caller, ca, keys)
      ensures callDeps == Store(old(callDeps), caller, ca, calls)
    {
      keyDeps := StoreEach(keyDeps, caller, ca, keys);
      callDeps := StoreEach(callDeps, caller, ca, calls);
    }

    method PopKeyDeps(key: Key) returns (deps: CallsAndCallers, ok: bool)
      modifies this`keyDeps
      ensures ok == (key in old(keyDeps)) && deps == (if ok then old(keyDeps)[key] else map[])
      ensures keyDeps == old(keyDeps) - {key}
    {
      ok := key in keyDeps;
      deps := map[];
      if ok {
        deps := keyDeps[key];
        keyDeps := keyDeps - {key};
      }
    }

    method PopCallDeps(calls: seq<CallArgs>) returns (total: CallsAndCallers, notEmpty: bool)
      modifies this`callDeps
      ensures total == Gather(old(callDeps), calls) && notEmpty == AnyIndexed(old(callDeps), calls)
      ensures callDeps == old(callDeps) - Elements(calls)
    {
      total, notEmpty := map[], false;
      for i := 0 to |calls|
        invariant total == Gather(old(callDeps), calls[..i]) && notEmpty == AnyIndexed(old(callDeps), calls[..i])
        invariant callDeps == old(callDeps) - Elements(calls[..i])
      {
        assert Front(calls[..i + 1]) == calls[..i];
        assert forall d :: d in calls[..i + 1] <==> d in calls[..i] || d == calls[i];
        if calls[i] in callDeps {
          notEmpty := true;
          total := UnionInto(total, callDeps[calls[i]]);
          callDeps := callDeps - {calls[i]};
        }
      }
      assert calls[..|calls|] == calls;
    }
  }

  method SliceToSet<T(==)>(slice: seq<T>) returns (s: set<T>)
    ensures s == Elements(slice)
  {
    s := {};
    for i := 0 to |slice|
      invariant s == Elements(slice[..i])
    {
      s := s + {slice[i]};
    }
    assert slice[..|slice|] == slice;
  }

  method StoreEach<D(==)>(index: map<D, CallsAndCallers>, caller: ServiceName, ca: CallArgs, deps: seq<D>) returns (out: map<D, CallsAndCallers>)
    ensures out == Store(index, caller, ca, deps)
  {
    out := index;
    for i := 0 to |deps|
      invariant out == Store(index, caller, ca, deps[..i])
    {
      assert Front(deps[..i + 1]) == deps[..i];
      out := out[deps[i] := AddCalls(if deps[i] in out then out[deps[i]] else map[], caller, {ca})];
    }
    assert deps[..|deps|] == deps;
  }

  method UnionInto(a: CallsAndCallers, b: CallsAndCallers) returns (u: CallsAndCallers)
    ensures u == Union(a, b)
  {
    u := a;
    var left := b.Keys;
    UnionWithNothing(a);
    assert b - left == map[];
    while left != {}
      invariant left <= b.Keys && u == Union(a, b - left)
    {
      var c :| c in left;
      UnionOneMore(a, b, left, c);
      u := AddCalls(u, c, b[c]);
      left := left - {c};
    }
    assert b - {} == b;
  }

  lemma UnionWithNothing(a: CallsAndCallers)
    ensures Union(a, map[]) == a
  {
    assert forall c :: c in a ==> a[c] + {} == a[c];
  }

  lemma UnionOneMore(a: CallsAndCallers, b: CallsAndCallers, left: set<ServiceName>, c: ServiceName)
    requires c in left && left <= b.Keys
    ensures AddCalls(Union(a, b - left), c, b[c]) == Union(a, b - (left - {c}))
  {
    var x, y := AddCalls(Union(a, b - left), c, b[c]), Union(a, b - (left - {c}));
    assert x.Keys == y.Keys;
    forall d | d in x ensures x[d] == y[d] {
      if d == c && c in a { assert Union(a, b - left)[c] == a[c] + {} == a[c]; }
    }
  }
}
