# MuCache cache manager: a verified model

MuCache puts a cache between services that call each other. Beside every service runs a cache
manager. The service tells it when a read-only call starts and ends (with the keys it read, the calls
it looked up and the value it returned) and when a key was written; the manager decides whether the
returned value may be cached at the caller, remembers which cached calls depend on what, and
invalidates them when a dependency changes. This project models the manager, its coalescing sender,
the service wrappers and the callers' caches, and proves what they keep over every run. Four smaller
parts of the repository are modelled beside it: the order total, the line protocol, hotel
reservations, and the broadcast between the shards of a service.

| file | what it models |
|---|---|
| Types.dfy, GoInt.dfy | messages and identifiers (pkg/cm/cm.go); Go's integers, with `int` of 64 bits |
| History.dfy, PlainLog.dfy | the grouped, mutated, garbage-collected history, and the plain log that explains it |
| ManagerState.dfy | class `State`: history and reverse indexes (internal/cm/state.go) |
| Cache.dfy | class `CacheStore`: the Redis cache as a map (pkg/cm/cache.go) |
| HttpSender.dfy, SenderMoves.dfy | class `HttpSender`: the coalescing sender (internal/cm/httpsender.go), and its loop as moves of the pipeline |
| Server.dfy | class `CacheManager`: one pass of `Process`, and the batched drain (internal/cm/server.go) |
| Runs.dfy, MessageRuns.dfy, BatchedDrain.dfy | whole runs of the manager, by its log and by the messages alone; the drain against one-by-one processing |
| Pipeline.dfy, Coherence.dfy, CoherenceLimits.dfy, Exactness.dfy, CallerRuns.dfy | service, store, manager, sender and callers as one system: no cached entry is out of date, and none is missing; the callers as managers |
| ShardedCoherence.dfy | the same for a service of several shards that share a store |
| ServiceWrappers.dfy, ServiceSteps.dfy | class `Service`: dependency capture and the order of store access and messages; the same as actions of the whole system |
| Checkout.dfy, Deser.dfy, Reservation.dfy, Shards.dfy | the smaller parts |

## How the model is built

- Each mutable Go object is a class whose methods are proved against functions on values
  (`AppendCall`, `Unmark`, `Collect`, `Next`, `Sends`, `AddRequest`, `SumOf`, ...). What the code is
  for is then proved about runs of those functions.
- The history is read as a sequence of events plus, for each call, a stack of *epochs*: how many
  events preceded each start marker still there. `Start` pushes, `End` pops, a collection drops a
  prefix of events and no marker. `PlainLog.Stack` is the same stack computed from the chronological
  log; `Represents` ties the two. This gives the verdict on all runs, calls with equal arguments
  included.
- H1 is the hypothesis that no two simultaneously outstanding calls have equal arguments. The code
  needs it (markers are keyed by the arguments alone, internal/cm/state.go:87). Where a theorem uses
  it, an exact condition or a counterexample without it stands beside it.
- `appendInvCall(&ca)` (internal/cm/server.go:92-94 and 146-148) stores the address of the loop's
  variable, and go.mod:3 says `go 1.19`, so all items of one loop come to hold the loop's last call.
  `LoopVariable` models both this (`PerLoop`) and the intended meaning (`PerIteration`); every theorem
  holds for both unless it says otherwise, and `Runs.SharedVariableHarmlessIff` and
  `BatchedDrain.DrainVerdictsAgreeIff` say exactly when the difference shows.
- The collection timer, the flush timeout, the batch ticker and Go's map iteration order are
  nondeterministic inputs. One iteration of `Process` and one drain are atomic steps.
- A caller's *eventual* cache is what it would hold once everything in flight to it arrived: the
  sender's queue, its buffer, the caller's inbox and held invalidations.

## Model

| member | source | states |
|---|---|---|
| `ManagerState.State.AppendCall` | internal/cm/state.go:88-107 | a start joins the set at the end of the history, or opens a new one after an event or in an empty history |
| `ManagerState.State.AppendWrite` | internal/cm/state.go:109-111 | a written key becomes the newest item |
| `ManagerState.State.AppendInvCalls` | internal/cm/server.go:92-94 | the items left by the loop over the calls, with one variable for the loop or one for each pass |
| `ManagerState.SliceToSet` | internal/cm/state.go:120-134 | exactly the elements of the slice |
| `ManagerState.State.ValidCall` | internal/cm/state.go:140-212 | the backward scan returns whether no listed dependency was invalidated since the newest marker, deletes that marker and no other, and collects only if it found one and the timer has expired |
| `ManagerState.State.DropPrefix` | internal/cm/state.go:177-190 | what is kept begins with the first non-empty call set |
| `ManagerState.State.StoreDeps` | internal/cm/state.go:233-265 | both indexes gain the (caller, call) under every listed dependency |
| `ManagerState.StoreLists` | internal/cm/state.go:214-260 | after storing, exactly the listed dependencies hold exactly the new pair besides what was there |
| `ManagerState.State.PopKeyDeps` | internal/cm/state.go:268-282 | returns and removes the entry of the key |
| `ManagerState.State.PopCallDeps` | internal/cm/state.go:284-300 | removes the listed calls' entries, returns their union, and says whether there was any |
| `ManagerState.GatherLists` | internal/cm/state.go:284-300 | the union holds a pair exactly when some listed call's entry did, repetitions in the list included |
| `ManagerState.UnionInto` | internal/cm/state.go:24-28 | merging caller by caller gives the pointwise union |
| `History.ScanSeesSinceNewest` | internal/cm/state.go:140-212 | the scan's verdict looks at exactly the events after the newest marker, or at all that are left if there is none |
| `History.AppendCallPushes` | internal/cm/state.go:88-107 | a start adds a marker at the current epoch for its call only, unless one is already there |
| `History.UnmarkPops` | internal/cm/state.go:165-172 | the deletion takes away the newest marker of the call and none of any other |
| `History.CollectKeepsMarks` | internal/cm/state.go:177-190 | a collection loses no marker of any call |
| `History.CollectDropsPrefix` | internal/cm/state.go:177-190 | a collection forgets a prefix of the events and keeps the rest in order |
| `PlainLog.StartKeeps` | internal/cm/state.go:88-107 | a start keeps the history an account of the plain log |
| `PlainLog.EventsKeep` | internal/cm/state.go:109-115 | so do writes and call invalidations |
| `PlainLog.EndKeeps` | internal/cm/state.go:140-212 | so does an end, valid or not, with or without a collection |
| `PlainLog.VerdictExact` | internal/cm/state.go:140-212 | with any collections and any number of calls sharing arguments, an End that finds a marker is valid exactly when no listed dependency was invalidated since the newest unconsumed epoch of its arguments |
| `PlainLog.VerdictExactUnderH1` | internal/cm/state.go:140-212 | under H1: valid exactly when the plain log has no write of a listed key and no invalidation of a listed call since the call's own Start |
| `PlainLog.JudgedExactly` | internal/cm/state.go:140-212 | every End, with a marker or without: the verdict is about the events since the newest unconsumed epoch of its arguments, or, if there is none, about all that collections have left |
| `PlainLog.VerdictRightIff` | internal/cm/state.go:87-107 | without H1, for every End: the verdicts on a call are right for every dependency list if and only if the events it is judged on and those since its own Start are the same set |
| `PlainLog.MarkerlessEndEscapes` | internal/cm/state.go:87-107 | two overlapping calls with equal arguments and a collection at the first End: the second End finds an empty history and is valid, although the key was written since its own Start |
| `PlainLog.DuplicateArgumentsEscape` | internal/cm/state.go:87-107 | two overlapping calls with equal arguments: a write after the first Start goes unseen by the first End |
| `PlainLog.CollectionInvisible` | internal/cm/state.go:177-190 | two histories of one log that were collected differently give the same verdict on every End that has a marker |
| `PlainLog.UnmatchedEndSeesCollection` | internal/cm/state.go:207-211 | an End that was never started can be judged differently with and without a collection |
| `PlainLog.CollectionInvisibleIff` | internal/cm/state.go:177-190 | for every history and call: a collection changes no verdict on the call, whatever its dependencies, if and only if the call has a marker or no event is forgotten altogether |
| `PlainLog.SharedMarkerLeavesNone` | internal/cm/state.go:87-107 | an End without a marker arises when calls with equal arguments overlap: two Starts in one epoch share a marker and the first End takes it |
| `PlainLog.MarkersAreOutstandingCalls` | internal/cm/state.go:153-208 | under H1 the history holds one marker for each call started and not ended, and no other |
| `PlainLog.CollectedHistoryIsTight` | internal/cm/state.go:177-190 | after a collection the history is empty or begins with a set of outstanding calls; it is empty when nothing is outstanding; no two sets are adjacent |
| `Cache.CacheStore.Get` | pkg/cm/cache.go:30-45 | a hit returns the entry, a miss says so |
| `Cache.CacheStore.SaveCalls` | pkg/cm/cache.go:116-130 | the pairs are added, the last value winning for a repeated call |
| `Cache.CacheStore.RemoveCalls` | pkg/cm/cache.go:97-106 | exactly the listed calls are removed |
| `Server.CacheManager.ProcessOne` | internal/cm/server.go:52-111 | one iteration: new history, indexes, held requests and cache for every message type, and what is queued for the callers |
| `Server.CacheManager.InvalidateNow` | internal/cm/server.go:92-103 | invalidated calls are logged, their entries popped, their dependents queued for invalidation, the calls removed from the cache |
| `Server.CacheManager.DrainBuffer` | internal/cm/server.go:124-137 | the channel ends empty and the merged set is the union of the requests taken |
| `Server.CacheManager.ProcessInvalidateBuffer` | internal/cm/server.go:117-161 | one drain is the tick step, for some order of the merged calls |
| `Runs.RunRepresents` | internal/cm/server.go:47-115 | on every run the history is an account of the plain log of the messages processed |
| `Runs.EndValidExactly` | internal/cm/server.go:58-67 | on every run under H1, an End is valid exactly when the log since its Start has no write of a listed key and no invalidation of a listed call |
| `Runs.OneAtATimeMatches` | internal/cm/state.go:207-211 | under H1 every End finds a marker |
| `Runs.CollectionUnobservable` | internal/cm/state.go:177-190 | two runs on the same messages with different collection schedules, in which every End finds a marker, send the same Saves and Invalidates and have the same indexes and cache |
| `Runs.IndexAgreesWithRun` | internal/cm/state.go:214-300 | at every step the index lists (caller, call) under a key or call if and only if some valid End of that call from that caller listed it and it was not invalidated since |
| `Runs.LoggedSince` | internal/cm/server.go:79-94 | an event is in the log since a Start exactly when some message since that Start raised it |
| `Runs.SharedVariableHarmlessIff` | internal/cm/server.go:92-94 | under H1, the verdicts with the shared loop variable agree with the intended log for every dependency list if and only if each call listed since the Start also came last in some request |
| `Runs.SharedVariableHides` | internal/cm/server.go:92-94 | the run where it shows: a call starts, one request invalidates c and d, and the End that lists c is valid |
| `MessageRuns.CacheHoldsLastSave` | internal/cm/server.go:92-108 | on every run, by the messages alone: the manager's own cache holds a call with a value if and only if some message saved that value for it, at the last place where it lists the call, and no later message saved it and no later invalidation of it took effect |
| `MessageRuns.HeldIsListedSinceTick` | internal/cm/server.go:85-88 | on every run, what is held is exactly what was listed since the last tick, in batch mode, and otherwise nothing |
| `MessageRuns.RemovedNow` | internal/cm/server.go:117-155 | a tick processes a call if and only if it was listed since the previous tick |
| `MessageRuns.LoggedAsRemoved` | internal/cm/server.go:92-94 | with a loop variable for each pass, a step logs exactly the invalidations that take effect at it |
| `MessageRuns.EndValidByMessages` | internal/cm/server.go:58-67 | on every run under H1, for the loop variable that was meant, by the messages alone: an End is valid if and only if since the call's latest Start no message wrote a listed key and no invalidation of a listed call took effect |
| `History.NoneHitMeans` | internal/cm/state.go:155-205 | no event hits when no listed key was written and no listed call invalidated |
| `BatchedDrain.DrainEqualsEach` | internal/cm/server.go:139-155 | the drain leaves the indexes and the cache of processing the requests one by one, and each caller is told to drop the same calls in all |
| `BatchedDrain.SameEventsLoggedIff` | internal/cm/server.go:146-148 | the drain and the one-by-one loop log the same events if and only if the loop variable is fresh in each pass or the last calls of all the requests are that of the merged list |
| `BatchedDrain.DrainUnobservable` | internal/cm/server.go:117-161 | when the same events are logged, no continuation of messages, ticks and collections sends anything different after the drain than after one-by-one processing |
| `BatchedDrain.DrainVerdictsAgreeIff` | internal/cm/server.go:146-148 | for a call that just started, all verdicts agree if and only if the same events are logged |
| `BatchedDrain.DrainHides` | internal/cm/server.go:146-148 | two one-call requests drained together with the shared variable: a call that depends on the first in the merged list is valid after the drain and invalid after one-by-one processing |
| `BatchedDrain.DelayOnlyLoses` | internal/cm/server.go:84-108 | for any messages and ticks, the batching cache after its next tick is the unbatched cache, for the same messages but empty call lists, less exactly the calls last saved while an invalidation of theirs was held |
| `HttpSender.HttpSender.AddSaveCallsRequest` | internal/cm/httpsender.go:82-99 | saved pairs enter the caller's save map and leave its invalidation set |
| `HttpSender.HttpSender.AddInvalidateRequest` | internal/cm/httpsender.go:101-112 | invalidated calls enter each caller's invalidation set and leave its save map |
| `HttpSender.SaveMapToLists` | internal/cm/httpsender.go:114-124 | the two lists give each pair of the map once |
| `HttpSender.HttpSender.FlushBuffer` | internal/cm/httpsender.go:126-150 | the buffer ends empty, and each caller was sent one flush of its own element and nothing else |
| `HttpSender.HttpSender.Iterate` | internal/cm/httpsender.go:30-46 | one pass of the loop, with the batch limit and the timeout |
| `HttpSender.PairUpRebuilds` | internal/cm/httpsender.go:114-124 | pairing the lists again rebuilds the map |
| `HttpSender.AddCoalesces` | internal/cm/httpsender.go:58-112 | buffering a request and flushing later has the effect on a cache of delivering it after what was buffered |
| `HttpSender.AddKeepsDisjoint` | internal/cm/httpsender.go:82-112 | no call is in both halves of an element |
| `HttpSender.FlushDelivers` | internal/cm/httpsender.go:126-150 | the messages of a flush have on a cache the effect of the element |
| `HttpSender.FlushOrderIrrelevant` | internal/cm/httpsender.go:133-134 | the invalidation and the save message can be sent in either order |
| `HttpSender.SenderRunIsFaithful` | internal/cm/httpsender.go:24-47 | on every run of the loop, what was sent followed by what is buffered is worth the requests received one by one in order; every element is disjoint |
| `HttpSender.CoalescingInvisible` | internal/cm/httpsender.go:24-47 | so after any run ending in a flush each caller's cache is that of the uncoalesced requests |
| `HttpSender.TimeoutSendsAll` | internal/cm/httpsender.go:42-44 | on every run, after a timeout each caller has been sent what amounts to all requests received for it |
| `HttpSender.EverySecondRequestFlushes` | internal/cm/httpsender.go:35-41 | every second request since the last timeout empties the buffer, and the one before it sends nothing |
| `HttpSender.OneOfTwoFlushes` | internal/cm/httpsender.go:35-41 | of any two requests in a row one empties the buffer |
| `SenderMoves.SenderStepIsMoves` | internal/cm/httpsender.go:30-46 | each pass of the loop is a sequence of moves of the pipeline: it takes the request received, ends with the loop's buffer, and puts in each inbox what the loop sent |
| `Pipeline.SendAppends` | internal/cm/server.go:11-25 | what the manager sends acts on the eventual caches at once and in order |
| `Pipeline.PipeShrinks` | internal/cm/httpsender.go:24-150 | no step of the sender, of a caller's manager or of its tick adds or changes an entry of any eventual cache |
| `Coherence.SendKeepsCalls` | pkg/wrappers/wrappers.go:50-106 | sending a message keeps the promise of every active call and queued End: a stale read is owed, queued behind, or logged since the Start |
| `Coherence.ValidMeansNoWrite` | internal/cm/server.go:61-63 | a valid End saw no write of any key it lists since its Start |
| `Coherence.ManagerKeepsCaches` | internal/cm/server.go:52-111 | each step of the manager keeps every eventual entry indexed under all keys it was computed from, and current, or owed or queued for invalidation |
| `Coherence.AlwaysInvariant` | internal/cm/server.go:54-83 | the coherence invariant holds after every run under H1, whatever the interleaving of stores, notifications, calls, peers' messages, manager steps, ticks, flushes and deliveries |
| `Coherence.StaleEntriesAreDoomed` | internal/cm/server.go:54-83 | in every reachable state, an entry that survives all that is in flight and was computed from an outdated version of a key has a notification of that key owed or queued |
| `Coherence.QuiescentCachesAreCurrent` | pkg/state/state.go:107-120 | with every queue and buffer drained and no write unnotified, every cached entry was computed from current versions of the keys its service read |
| `CoherenceLimits.WithoutH1StaleForEver` | internal/cm/state.go:87-107 | for every key, arguments and caller: if only calls with these arguments may overlap, the whole system can come to rest, with no call active, with a stale entry cached |
| `CoherenceLimits.CoherentIffH1` | internal/cm/state.go:87-107 | for any set of arguments that overlapping calls may share: every run at rest (and likewise every run at rest with no call active) has only current entries in every cache if and only if the set is empty |
| `ShardedCoherence.EachShardRuns` | internal/cm/server.go:68-83 | every run of a service of n shards, each manager posting an original key invalidation to the others one by one before it processes it, is for each shard a run of one shard on its own that is owed what the rest has not yet forwarded |
| `ShardedCoherence.ShardedStaleEntriesAreDoomed` | internal/cm/server.go:68-83 | in every reachable state, an entry that a caller of any shard will see and that was computed from an outdated version of a key has a notification of that key owed at some shard or queued at some manager |
| `ShardedCoherence.ShardedCachesAreCurrent` | internal/cm/server.go:68-83 | with all shards at rest, every caller of every shard has only current entries, whichever shard wrote the keys |
| `Exactness.StepEffect` | internal/cm/server.go:52-111 | one step of the manager saves a call at a caller, or drops it because a dependency it is indexed under is invalidated, or leaves it |
| `Exactness.SentIsExact` | internal/cm/server.go:11-115 | on every run, all that was sent to a caller amounts to a call with a value if and only if the value is that of its last valid End and no dependency it was indexed under was invalidated since |
| `Exactness.PipeKeeps` | internal/cm/httpsender.go:24-150 | no step of the sender, nor of a caller that removes at once, changes an eventual cache |
| `Exactness.EventualIsExact` | internal/cm/server.go:54-103 | in every reachable state, under H1 or not, a caller that does not batch will see a call with a value if and only if that value still stands |
| `Exactness.DrainedCacheIsExact` | internal/cm/server.go:54-103 | with the pipeline drained its cache holds exactly the values that still stand |
| `Exactness.BatchingEventualIsExact` | internal/cm/server.go:84-155 | for every caller, batching or not: it will see a call with a value if and only if that value still stands and the call is not lost, that is, last saved while an invalidation of it was held, with nothing in flight about it |
| `Exactness.NeverHoldsLosesNothing` | internal/cm/server.go:89-104 | a caller that removes at once loses no call |
| `CallerRuns.ManagerServes` | internal/cm/server.go:84-108 | a manager takes a save or a call invalidation just as the pipeline's caller serves it, holding the invalidation if it batches |
| `CallerRuns.ManagerTicks` | internal/cm/server.go:117-161 | its tick removes what is held, and nothing stays held |
| `CallerRuns.CallersManagerIsExact` | internal/cm/server.go:47-115 | a calling service's real manager, whatever else it does, given the messages and ticks of a drained run of the system: its cache holds a call of this service with a value if and only if the value still stands and the call is not lost |
| `ServiceWrappers.Service.PreReqStart` | pkg/wrappers/wrappers.go:50-64 | an eligible call gets an empty dependency set and a Start is sent; any other call changes nothing |
| `ServiceWrappers.Service.PreReadKey` | pkg/wrappers/wrappers.go:67-73 | the key is recorded under the call's id only |
| `ServiceWrappers.Service.PreCallLookup` | pkg/wrappers/wrappers.go:110-116 | the looked-up call is recorded under the call's id only |
| `ServiceWrappers.Service.PopDeps` | pkg/wrappers/deps.go:55-81 | each dependency is listed once, split by kind, and the id is forgotten |
| `ServiceWrappers.Service.PreReqEnd` | pkg/wrappers/wrappers.go:91-106 | the End carries the call, caller, value and exactly the recorded dependencies; other ids are untouched |
| `ServiceWrappers.Service.PostWrite` | pkg/wrappers/wrappers.go:83-89 | one key invalidation, not marked as coming from a manager |
| `ServiceWrappers.CaptureExact` | pkg/wrappers/deps.go:29-81 | for any interleaving of calls, an id's set exists from its start to its end and holds exactly the keys read and calls looked up under it since then |
| `ServiceWrappers.EndsAreExact` | pkg/wrappers/wrappers.go:91-106 | over every run with the messages it sends: each end of an eligible call sends one End of that call, which lists exactly the keys read and calls looked up since its start, each once |
| `ServiceWrappers.EveryEndHasItsCall` | pkg/wrappers/wrappers.go:91-106 | and every End sent is one of these |
| `ServiceWrappers.ReadersStartsAndEndsSend` | pkg/wrappers/wrappers.go:50-106 | on every run, an event sends a message, and one, if and only if it starts or ends a read-only request whose caller is not "client"; a Start carries the call's arguments |
| `ServiceWrappers.KeptForReaders` | pkg/wrappers/deps.go:29-81 | on every run, dependencies are kept for exactly the ids of such requests started and not ended since |
| `ServiceWrappers.Service.GetState` | pkg/state/state.go:32-52 | the dependency is recorded, whether or not the key is found, and then the store is read |
| `ServiceWrappers.Service.GetBulkState` | pkg/state/state.go:54-78 | all keys are recorded and then read; the read fails if one is missing and otherwise returns the values in order |
| `ServiceWrappers.Service.SetState` | pkg/state/state.go:107-120 | the store is written, and then the key is notified, once |
| `ServiceWrappers.Service.SetBulkState` | pkg/state/state.go:122-141 | all pairs are written, and then each key is notified once, in some order |
| `ServiceSteps.EventIsAction` | pkg/wrappers/wrappers.go:50-116 | each event of an eligible request is a possible action of the system of the coherence proof, leaves the same dependencies and puts the same messages in the manager's queue |
| `ServiceSteps.WritesThenNotifies` | pkg/state/state.go:107-141 | what a write operation does, in the order of its trace, is a sequence of possible actions in every state, and puts its messages in the queue |
| `ServiceSteps.NotifyFirstImpossible` | pkg/state/state.go:113-119 | notified before it is written, it is not |
| `ServiceSteps.RecordsThenReads` | pkg/state/state.go:32-78 | what a read operation does, in the order of its trace, is a sequence of possible actions |
| `ServiceSteps.ReadFirstImpossible` | pkg/state/state.go:33-37 | read before it is recorded, it is not |
| `Checkout.Sum` | internal/boutique/checkout.go:13-36 | the reassigned units and nanos come to the sum that the lemmas below are about, wrap-around at 32 and 64 bits included |
| `Checkout.SumCases` | internal/boutique/checkout.go:13-36 | for nanos below a unit of either sign: units and nanos of the sum in every branch, without division |
| `Checkout.SumConservesAnySign` | internal/boutique/checkout.go:13-36 | for amounts of any sign and any nanos: where nothing wraps, the value is conserved through every branch |
| `Checkout.TruncatedDivision` | internal/boutique/checkout.go:20-24 | quotient and remainder are the only ones whose remainder is below the divisor and has the dividend's sign |
| `Checkout.SumConserves` | internal/boutique/checkout.go:13-36 | for amounts in range the value is conserved if and only if the units with the carry fit 32 bits, and then the range is closed |
| `Checkout.MultiplySlow` | internal/boutique/checkout.go:38-45 | the loop adds the amount max(n, 1) times |
| `Checkout.TimesConserves` | internal/boutique/checkout.go:38-45 | the product is exact and in range whenever it is at most the largest number of units |
| `Checkout.OrderTotal` | internal/boutique/checkout.go:59-68 | the fold over the order items |
| `Checkout.ChargeIsPriceIff` | internal/boutique/checkout.go:65-67 | what the fold asks for, quantities converted to unsigned, is never below the price (cost times max(quantity, 1) on the signed quantity), and equals it if and only if every item of negative quantity costs nothing |
| `Checkout.OrderTotalConserved` | internal/boutique/checkout.go:59-68 | when every addition of the fold fits, the total is exactly what the fold asks for, in range and in the user's currency |
| `Checkout.FitsUpToLargestUnit` | internal/boutique/checkout.go:59-68 | every addition fits whenever what the fold asks for is at most the largest number of units |
| `Checkout.OrderTotalRightIff` | internal/boutique/checkout.go:59-68 | for every order: the total is what the fold asks for, in range, if and only if at each addition the units with the carry fit 32 bits |
| `Checkout.PriceChargedIff` | internal/boutique/checkout.go:59-68 | when items of negative quantity cost nothing (so whenever no quantity is negative): the total is the price, in range, if and only if every addition fits |
| `Checkout.TotalIsPriceIff` | internal/boutique/checkout.go:66-66 | when every addition fits: the total is the price if and only if every item of negative quantity costs nothing |
| `Checkout.NegativeQuantityCharged` | internal/boutique/checkout.go:66-66 | one item of quantity -1 at 0.10 is charged 2^32 - 1 times |
| `Checkout.LastUnitOverflows` | internal/boutique/checkout.go:13-36 | an order of ordinary amounts whose price is below 2^31 units and whose total overflows, because nothing plus half a unit is kept as one unit less half a unit |
| `Checkout.RightByChance` | internal/boutique/checkout.go:38-45 | an order that overflows and has a negative quantity, and whose total is the price all the same |
| `Deser.UnparseCalls` | pkg/cm/deser.go:76-82 | the calls joined by commas |
| `Deser.ParseCalls` | pkg/cm/deser.go:124-130 | the calls between the commas; no text is one empty call |
| `Deser.ParseKeyDependencies` | pkg/cm/deser.go:116-122 | the keys between the commas |
| `Deser.ParsedIsClean` | pkg/cm/deser.go:140-164 | whatever the bytes, a parsed request has no space in a field, no comma in a list element, no empty list, and FromCM unset |
| `Deser.RoundTripIff` | pkg/cm/deser.go:20-164 | a request survives printing and parsing if and only if it is clean in that sense |
| `Deser.UnparseInjective` | pkg/cm/deser.go:20-108 | two clean requests with the same line are equal |
| `Deser.LinesAre` | pkg/cm/deser.go:20-108 | the lines of four kinds of request, word by word |
| `Deser.EndLineIs` | pkg/cm/deser.go:48-56 | the line of an End, word by word |
| `Deser.JoinConcat` | pkg/cm/deser.go:32-46 | a printed list is its elements in order with one separator between any two |
| `Deser.ParsesIff` | pkg/cm/deser.go:140-164 | for all bytes and every request: they parse to it if and only if it is clean and they are its own line, with or without the newline, possibly with more words behind |
| `Reservation.IntersectIffSharedDay` | internal/hotel/reservation.go:8-17 | two stays intersect exactly when some day is in both |
| `Reservation.LessIsBefore` | internal/hotel/reservation.go:8-17 | dates are compared as strings: one is a beginning of the other, or is smaller where they first differ |
| `Reservation.LessIsNumberOrder` | internal/hotel/reservation.go:8-17 | for decimal strings of equal length this is the order of their numbers |
| `Reservation.AvailableExactly` | internal/hotel/reservation.go:19-29 | the answer for all stays, inverted ones too: the stored stays that neither end before the asked one begins nor begin after it ends, and the rooms, added in 64 bits, are at most the capacity |
| `Reservation.CheckAvailability` | internal/hotel/reservation.go:19-29 | counts the intersecting reservations, adds the rooms in 64 bits and compares with the capacity |
| `Reservation.Hotels.MakeReservation` | internal/hotel/reservation.go:49-74 | a refused booking changes nothing; a granted one is stored last, the oldest dropped when ten are stored; an unknown hotel panics |
| `Reservation.Hotels.AddHotelAvailability` | internal/hotel/reservation.go:76-79 | the hotel starts without reservations |
| `Reservation.NoDayOverCapacity` | internal/hotel/reservation.go:49-79 | over every sequence of operations that book from one room up to ten less than the largest 64-bit integer, at most ten reservations are stored and no day is covered by more of them than the capacity |
| `Reservation.NoDayOverCapacityIff` | internal/hotel/reservation.go:28-28 | for any set of room counts that contains one: every run that books only such counts keeps every day of every hotel within capacity if and only if all the counts are in that range |
| `Reservation.LargestCountGranted` | internal/hotel/reservation.go:28-28 | the run where the sum wraps: capacity 1, one room, then 2^63 - 1 rooms for the same day, granted |
| `Reservation.AtLeastOneRoomIff` | internal/hotel/reservation.go:19-29 | for every booking: it keeps every good hotel good if and only if it ends before it begins, or asks for a count in that range, or is of one day and asks for the next count above it |
| `Reservation.RoomsOverbooked` | internal/hotel/reservation.go:19-29 | the run where rooms exceed the capacity: after one booking of all rooms, one more room is granted for the same days |
| `Reservation.RoomsWithinCapacityIff` | internal/hotel/reservation.go:19-29 | for any set of room counts: every run that books only such counts keeps the rooms booked within the capacity, at every hotel on every day, if and only if no count is above one |
| `Reservation.SingleRoomRunsWithinCapacity` | internal/hotel/reservation.go:49-79 | the sufficient half: when no booking asks for more than one room, the rooms booked stay within the capacity on every run |
| `Shards.ReadAddresses` | internal/cm/config.go:69-71 | the map built from the file |
| `Shards.DecimalIsNumber` | internal/cm/config.go:69-71 | the number appended to a name or address is the decimal one, without leading zeros |
| `Shards.TrimDigitsExactly` | internal/cm/config.go:110-122 | what is cut off a name before comparing are its trailing digits, all of them |
| `Shards.NamesAreShards` | internal/cm/config.go:69-75 | its names are exactly the services' names followed by 1 to the shard count |
| `Shards.GetNeighbors` | internal/cm/config.go:110-122 | the address of each other name with the same text before its trailing digits, once |
| `Shards.GroupIsOwnShardsIff` | internal/cm/config.go:110-122 | a manager and its neighbours are its own service's shards if and only if no other service has the same name before trailing digits |
| `Shards.NoTrailingDigits` | internal/cm/config.go:110-122 | so it is when no service's name ends in a digit |
| `Shards.OwnAddressesDiffer` | internal/cm/config.go:69-71 | when no other service has the same name before trailing digits, two shards of the service have different addresses |
| `Shards.ForwardToNeighbors` | internal/cm/server.go:70-77 | an original invalidation goes, marked, to the address of each neighbour once; a marked one goes nowhere |
| `Shards.HandledConserves` | internal/cm/server.go:70-80 | for every address, what was processed there plus what is still to reach it never changes |
| `Shards.HandledProgresses` | internal/cm/server.go:70-80 | every message handled leaves one unit of work less, so forwarding ends |
| `Shards.EachOfGroupOnce` | internal/cm/server.go:68-83 | whatever the address file, a broadcast ends after at most one step for each name of the group, and then the key has been processed at each address as often as names of the group stand for it |
| `Shards.EachShardOnceIff` | internal/cm/server.go:68-83 | when a broadcast has ended, the key has been processed exactly once at the address of each shard of the service and nowhere else, if and only if no other service has the same name before trailing digits |

## Where the code and its comments disagree

- internal/cm/state.go:206-211 says the end of the scan must never be reached; the code returns the
  verdict there, and so does the model (`PlainLog.UnmatchedEndSeesCollection`).
- internal/cm/server.go:33 is a 100 ms ticker whose comment says 500 ms; the model leaves the time
  open.
- internal/boutique/checkout.go:66 converts a signed quantity to an unsigned one, so -1 is charged
  2^32 - 1 times; the model follows the code and the price does not (`Checkout.TotalIsPriceIff`).
- internal/hotel/reservation.go compares the number of earlier reservations, not of their rooms, with
  the capacity; the model counts reservations and `Reservation.RoomsOverbooked` shows the difference.
- pkg/cm/deser_test.go builds requests with a field that EndRequest no longer has; the model follows
  pkg/cm/deser.go.

## Left out

- Coherence across two or more managers through call dependencies: the code does not give it. An
  invalid End sends nothing upstream, the cache is cleared only when the message is taken from the
  queue, and a Save after an Invalidate replaces it in the sender's buffer.
- Coherence.AlwaysInvariant: needs H1, which the code does not enforce; `CoherenceLimits.CoherentIffH1` shows that nothing less will do.
- Runs.CollectionUnobservable: needs every End to find a marker, which H1 implies; for an End without one `PlainLog.CollectionInvisibleIff` says exactly when a collection can be seen.
- Checkout.OrderTotalConserved: assumes amounts in range (units not negative, nanos below one unit, value not negative), the range that `Checkout.SumConserves` shows closed.
- Checkout.TotalIsPriceIff: says nothing of an order that both overflows and has a negative quantity of an item that is not free; such a total can come back to the price (`Checkout.RightByChance`).
- Reservation.RoomsWithinCapacityIff: a negative capacity counts as none, since an empty hotel is then above it.
- Reservation.NoDayOverCapacity: needs room counts from one to ten less than the largest integer, which the code does not check; `Reservation.NoDayOverCapacityIff` and `Reservation.AtLeastOneRoomIff` say exactly which bookings are safe.
- Call sets and invalidation items of the history are values. The one aliasing the code exhibits, the
  shared loop variable, is modelled; a set is reached from the history only.
- Goroutines and memory races: a message, a drain and a flush of one caller are atomic steps. Channel
  capacities (a full queue blocks its sender) are not modelled.
- ZMQ (switched off in pkg/common/common.go:14), HTTP, JSON, Redis errors, timeouts, logging and
  profiling. Delivery is reliable and in order.
- Empty lists sent to Redis (`DEL`, `MSET` or `MGET` without a key) panic in the code and are
  preconditions here (an empty call list is accepted in batch mode, where it is only buffered); so are an unknown caller address, an address line without two words, and
  dependency recording for a call that never started.
- Hash collisions of call arguments: arguments are opaque.
- Eviction (`evict` is false, and the LRU size 0 means unbounded) and its callbacks.
- The sharded branch of the key case is modelled in Shards.dfy, by name and address, and in
  ShardedCoherence.dfy, by index (which manager forwards to which is `Shards.EachShardOnceIff`);
  `Server.Next` is the unsharded build. The shards share one store, and each shard's entries at a
  caller are its own, since a call's arguments select its shard.
- `GetBulkStateDefault`, `PreWrite`, `GetCacheManagerAddress` and the HTTP wrappers of the handlers: variants of what is
  modelled.
- `CheckAvailability` over a list of hotels, `prepOrderItems`, currency and shipping arithmetic in
  floating point, the other services, the commands, load generators and scripts.
