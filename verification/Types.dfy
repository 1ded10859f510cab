/** Identifiers and requests of the cache manager (pkg/cm/cm.go), and a few sequence helpers. */
module CmTypes {

  datatype CallArgs = CallArgs(text: string)

  datatype ServiceName = ServiceName(text: string)

  datatype Key = Key(text: string)

  datatype CallId = CallId(text: string)

  /** The manager never looks inside a return value, so its type is a parameter. */
  datatype Request<R> =
    | StartRequest(callArgs: CallArgs)
    | EndRequest(callArgs: CallArgs, caller: ServiceName, keyDeps: seq<Key>, callDeps: seq<CallArgs>, returnVal: R)
    | InvalidateKeyRequest(key: Key, fromCM: bool)
    | InvalidateCallsRequest(calls: seq<CallArgs>)
    | SaveCallsRequest(callArgsList: seq<CallArgs>, returnVals: seq<R>)

  /** Which variable `&ca` denotes in `for _, ca := range calls`: one cell for the whole loop
      (Go before 1.22, what go.mod selects) or a new cell for each pass (Go 1.22 and later). */
  datatype LoopVariable = PerLoop | PerIteration

  /** Per calling service, the calls of its that are concerned. */
  type CallsAndCallers = map<ServiceName, set<CallArgs>>

  predicate Lists(cac: CallsAndCallers, caller: ServiceName, ca: CallArgs) {
    caller in cac && ca in cac[caller]
  }

  function Elements<T>(s: seq<T>): set<T> {
    set x | x in s
  }

  function Front<T>(s: seq<T>): seq<T>
    requires s != []
  {
    s[..|s| - 1]
  }

  function Last<T>(s: seq<T>): T
    requires s != []
  {
    s[|s| - 1]
  }

  /** The list holds each member of the set once. */
  ghost predicate Enumerates<T>(list: seq<T>, s: set<T>) {
    Elements(list) == s && forall i, j :: 0 <= i < j < |list| ==> list[i] != list[j]
  }

  lemma EnumeratesOneMore<T>(list: seq<T>, s: set<T>, x: T)
    requires Enumerates(list, s) && x !in s
    ensures Enumerates(list + [x], s + {x})
  {
    assert x !in Elements(list);
    assert forall y :: y in list + [x] <==> y in list || y == x;
    assert forall y :: y in list <==> y in Elements(list);
  }

  method ToList<T(==)>(s: set<T>) returns (list: seq<T>)
    ensures Enumerates(list, s)
  {
    list := [];
    var left := s;
    while left != {}
      invariant left <= s && Enumerates(list, s - left)
    {
      var x :| x in left;
      EnumeratesOneMore(list, s - left, x);
      assert s - left + {x} == s - (left - {x});
      list := list + [x];
      left := left - {x};
    }
  }
}
