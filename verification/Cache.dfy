/** The cache shared by a service and its manager (pkg/cm/cache.go), as a map. */
module Cache {
  import opened CmTypes

  /** The map built from parallel lists; a later pair replaces an earlier one. */
  function PairUp<R>(cas: seq<CallArgs>, rets: seq<R>): map<CallArgs, R>
    requires |cas| <= |rets|
  {
    if cas == [] then map[]
    else PairUp(Front(cas), rets)[Last(cas) := rets[|cas| - 1]]
  }

  lemma {:induction false} PairUpKeys<R>(cas: seq<CallArgs>, rets: seq<R>)
    requires |cas| <= |rets|
    ensures PairUp(cas, rets).Keys == Elements(cas)
  {
    if cas != [] {
      PairUpKeys(Front(cas), rets);
      assert forall c :: c in cas <==> c in Front(cas) || c == Last(cas);
    }
  }

  /** Redis refuses a DEL or MSET without keys, and a missing return value is an index out of
      range: the manager panics on a message that is not well formed. */
  predicate WellFormed<R>(req: Request<R>) {
    && (req.InvalidateCallsRequest? ==> req.calls != [])
    && (req.SaveCallsRequest? ==> 0 < |req.callArgsList| <= |req.returnVals|)
  }

  /** What a message from another manager does to this manager's cache at once. */
  function Deliver<R>(req: Request<R>, cache: map<CallArgs, R>): map<CallArgs, R>
    requires WellFormed(req)
  {
    match req
    case SaveCallsRequest(cas, rets) => cache + PairUp(cas, rets)
    case InvalidateCallsRequest(calls) => cache - Elements(calls)
    case _ => cache
  }

  predicate AllWellFormed<R>(reqs: seq<Request<R>>) {
    forall i :: 0 <= i < |reqs| ==> WellFormed(reqs[i])
  }

  function DeliverAll<R>(reqs: seq<Request<R>>, cache: map<CallArgs, R>): map<CallArgs, R>
    requires AllWellFormed(reqs)
  {
    if reqs == [] then cache else Deliver(Last(reqs), DeliverAll(Front(reqs), cache))
  }

  lemma {:induction false} DeliverAllConcat<R>(a: seq<Request<R>>, b: seq<Request<R>>, cache: map<CallArgs, R>)
    requires AllWellFormed(a) && AllWellFormed(b)
    ensures AllWellFormed(a + b) && DeliverAll(a + b, cache) == DeliverAll(b, DeliverAll(a, cache))
  {
    if b == [] {
      assert a + b == a;
    } else {
      DeliverAllConcat(a, Front(b), cache);
      assert Front(a + b) == a + Front(b);
    }
  }

  class CacheStore<R> {
    var entries: map<CallArgs, R>

    constructor ()
      ensures entries == map[]
    {
      entries := map[];
    }

    method Get(ca: CallArgs, absent: R) returns (ret: R, hit: bool)
      ensures hit <==> ca in entries
      ensures ret == if hit then entries[ca] else absent
    {
      hit := ca in entries;
      ret := if hit then entries[ca] else absent;
    }

    method RemoveCalls(calls: seq<CallArgs>)
      requires calls != []
      modifies this
      ensures entries == old(entries) - Elements(calls)
    {
      for i := 0 to |calls|
        invariant entries == old(entries) - Elements(calls[..i])
      {
        entries := entries - {calls[i]};
      }
      assert calls[..|calls|] == calls;
    }

    method SaveCalls(cas: seq<CallArgs>, rets: seq<R>)
      requires 0 < |cas| <= |rets|
      modifies this
      ensures entries == old(entries) + PairUp(cas, rets)
    {
      var callMap: map<CallArgs, R> := map[];
      for i := 0 to |cas|
        invariant callMap == PairUp(cas[..i], rets)
      {
        assert Front(cas[..i + 1]) == cas[..i];
        callMap := callMap[cas[i] := rets[i]];
      }
      assert cas[..|cas|] == cas;
      entries := entries + callMap;
    }
  }
}
