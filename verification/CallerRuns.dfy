/** The callers of the pipeline are managers themselves: serving a message and removing what is held
    are steps of their loop, so what is proved of the callers' caches holds of real managers. */
module CallerRuns {
  import opened CmTypes
  import opened Cache
  import opened Server
  import opened Runs
  import opened Pipeline
  import opened Coherence
  import opened Exactness

  /** What the pipeline sees of a manager whose queue holds these messages. */
  function SideOfManager<R>(m: Manager<R>, inbox: seq<Request<R>>): CallerSide<R> {
    CallerSide(inbox, m.cache, Merged(m.held))
  }

  /** A message that concerns the manager's own cache. */
  predicate ForCache<R>(req: Request<R>) {
    req.SaveCallsRequest? || req.InvalidateCallsRequest?
  }

  lemma {:induction false} HeldWith(held: seq<seq<CallArgs>>, calls: seq<CallArgs>)
    ensures Merged(held + [calls]) == Merged(held) + Elements(calls)
  {
    MergedOneMore(held + [calls], |held|);
    assert (held + [calls])[..|held| + 1] == held + [calls] && (held + [calls])[..|held|] == held;
  }

  /** A manager takes a save or an invalidation as the pipeline's caller serves it, holding the
      invalidation if it batches. */
  lemma {:induction false} ManagerServes<R>(cfg: Config, m: Manager<R>, req: Request<R>, gcDue: bool, rest: seq<Request<R>>)
    requires WellFormed(req) && ForCache(req)
    ensures SideOfManager(Next(cfg, m, Receive(req, gcDue)), rest) == ServeOne(SideOfManager(m, [req] + rest), cfg.batchCallInvalidation)
  {
    assert ([req] + rest)[0] == req && ([req] + rest)[1..] == rest;
    if req.InvalidateCallsRequest? { HeldWith(m.held, req.calls); }
  }

  /** A tick removes what is held. */
  lemma {:induction false} ManagerTicks<R>(cfg: Config, m: Manager<R>, order: seq<CallArgs>, inbox: seq<Request<R>>)
    requires Allowed(cfg, m, Tick(order))
    ensures SideOfManager(Next(cfg, m, Tick(order)), inbox) == CallerSide(inbox, m.cache - Merged(m.held), {})
  {
    var none: seq<seq<CallArgs>> := [];
    assert Merged(none) == {};
    assert order == [] ==> Merged(m.held) == {} && m.cache - {} == m.cache;
  }

  /** Its other work leaves the cache alone; so does an empty list that is held. */
  lemma {:induction false} ManagerWorks<R>(cfg: Config, m: Manager<R>, req: Request<R>, gcDue: bool, inbox: seq<Request<R>>)
    requires Accepted(cfg, req) && (ForCache(req) ==> !WellFormed(req))
    ensures SideOfManager(Next(cfg, m, Receive(req, gcDue)), inbox) == SideOfManager(m, inbox)
  {
    if req.InvalidateCallsRequest? { HeldWith(m.held, req.calls); }
  }

  // ---------- Whole runs ----------

  datatype Feed<R> = Served(req: Request<R>) | Ticked

  function Fed<R>(side: CallerSide<R>, feed: Feed<R>, batch: bool): CallerSide<R> {
    match feed
    case Served(req) => if WellFormed(req) then ServeOne(side.(inbox := [req]), batch) else side
    case Ticked => side.(cache := side.cache - side.held, held := {})
  }

  function FedAll<R>(feeds: seq<Feed<R>>, batch: bool): CallerSide<R> {
    if feeds == [] then CallerSide([], map[], {}) else Fed(FedAll(Front(feeds), batch), Last(feeds), batch)
  }

  /** The saves, invalidations and ticks of a manager's run. */
  function FeedOf<R>(inputs: seq<Input<R>>): seq<Feed<R>> {
    if inputs == [] then [] else FeedOf(Front(inputs)) + FeedOfInput(Last(inputs))
  }

  function FeedOfInput<R>(input: Input<R>): seq<Feed<R>> {
    if input.Tick? then [Ticked] else if ForCache(input.request) then [Served(input.request)] else []
  }

  /** What a run of the system gives one caller: the messages it serves, and its ticks. */
  ghost function FeedFrom(cfg: Config, overlap: iset<CallArgs>, actions: seq<Action>, caller: ServiceName): seq<Feed<Response>>
    requires LegalRun(cfg, overlap, actions)
  {
    if actions == [] then []
    else
      FeedFrom(cfg, overlap, Front(actions), caller) +
      if Serves(Last(actions), caller) then [Served(SideOf(At(cfg, overlap, Front(actions)).pipe, caller).inbox[0])]
      else if Last(actions) == Move(RemoveHeld(caller)) then [Ticked]
      else []
  }

  lemma {:induction false} FedOneMore<R>(feeds: seq<Feed<R>>, feed: Feed<R>, batch: bool)
    ensures FedAll(feeds + [feed], batch) == Fed(FedAll(feeds, batch), feed, batch)
  {
    assert Front(feeds + [feed]) == feeds;
  }

  lemma {:induction false} ManagerIsFed<R>(cfg: Config, inputs: seq<Input<R>>)
    requires Legal(cfg, inputs)
    ensures SideOfManager(After(cfg, inputs), []) == FedAll(FeedOf(inputs), cfg.batchCallInvalidation)
  {
    if inputs == [] {
      var none: seq<seq<CallArgs>> := [];
      assert Merged(none) == {};
    } else {
      var f, m := Front(inputs), After(cfg, Front(inputs));
      ManagerIsFed(cfg, f);
      match Last(inputs)
      case Tick(order) =>
        ManagerTicks(cfg, m, order, []);
        FedOneMore(FeedOf(f), Ticked, cfg.batchCallInvalidation);
      case Receive(req, gcDue) =>
        if ForCache(req) {
          FedOneMore(FeedOf(f), Served(req), cfg.batchCallInvalidation);
          if WellFormed(req) {
            ManagerServes(cfg, m, req, gcDue, []);
            assert [req] + [] == [req];
          } else {
            ManagerWorks(cfg, m, req, gcDue, []);
          }
        } else {
          ManagerWorks(cfg, m, req, gcDue, []);
          assert FeedOf(f) + [] == FeedOf(f);
        }
    }
  }

  /** The caller holds invalidations for its ticks, or it does not, through the whole run. */
  predicate ServesAs(actions: seq<Action>, caller: ServiceName, batch: bool) {
    forall i :: 0 <= i < |actions| && Serves(actions[i], caller) ==> actions[i].step.hold == batch
  }

  ghost predicate SameCache(side: CallerSide<Response>, fed: CallerSide<Response>) {
    side.cache == fed.cache && side.held == fed.held
  }

  lemma {:induction false} MoveFeeds(p: Pipe<Response>, step: PipeAction<Response>, caller: ServiceName, fed: CallerSide<Response>, batch: bool)
    requires PipeEnabled(p, step) && SameCache(SideOf(p, caller), fed)
    requires Serves(Move(step), caller) ==> step.hold == batch
    ensures SameCache(SideOf(PipeNext(p, step), caller),
                      if Serves(Move(step), caller) then Fed(fed, Served(SideOf(p, caller).inbox[0]), batch)
                      else if step == RemoveHeld(caller) then Fed(fed, Ticked, batch) else fed)
  {}

  lemma {:induction false} ActionFeeds(cfg: Config, s: System, a: Action, caller: ServiceName, fed: CallerSide<Response>, batch: bool)
    requires Legal(cfg, s.inputs) && Possible(cfg, s, a) && SameCache(SideOf(s.pipe, caller), fed)
    requires Serves(a, caller) ==> a.step.hold == batch
    ensures SameCache(SideOf(Step(cfg, s, a).pipe, caller),
                      if Serves(a, caller) then Fed(fed, Served(SideOf(s.pipe, caller).inbox[0]), batch)
                      else if a == Move(RemoveHeld(caller)) then Fed(fed, Ticked, batch) else fed)
  {
    if a.Move? { MoveFeeds(s.pipe, a.step, caller, fed, batch); }
  }

  lemma {:induction false} CallerIsFed(cfg: Config, overlap: iset<CallArgs>, actions: seq<Action>, caller: ServiceName, batch: bool)
    requires LegalRun(cfg, overlap, actions) && ServesAs(actions, caller, batch)
    ensures SameCache(SideOf(At(cfg, overlap, actions).pipe, caller), FedAll(FeedFrom(cfg, overlap, actions, caller), batch))
  {
    if actions != [] {
      var f, a := Front(actions), Last(actions);
      assert a == actions[|actions| - 1];
      CallerIsFed(cfg, overlap, f, caller, batch);
      var s, feeds := At(cfg, overlap, f), FeedFrom(cfg, overlap, f, caller);
      ActionFeeds(cfg, s, a, caller, FedAll(feeds, batch), batch);
      if Serves(a, caller) {
        FedOneMore(feeds, Served(SideOf(s.pipe, caller).inbox[0]), batch);
      } else if a == Move(RemoveHeld(caller)) {
        FedOneMore(feeds, Ticked, batch);
      } else {
        assert feeds + [] == feeds;
      }
    }
  }

  /** The calling service's own manager, whatever else it does, with its own messages and ticks in
      between: if its saves, invalidations and ticks are those of a run of the system that has drained,
      its cache holds a call of this service with a value exactly when the value still stands, and the
      call is not one of the lost ones. */
  lemma {:induction false} CallersManagerIsExact(cfg: Config, overlap: iset<CallArgs>, actions: seq<Action>, caller: ServiceName,
                              callerCfg: Config, inputs: seq<Input<Response>>, ca: CallArgs, v: Response)
    requires LegalRun(cfg, overlap, actions) && ServesAs(actions, caller, callerCfg.batchCallInvalidation)
    requires Legal(callerCfg, inputs) && FeedOf(inputs) == FeedFrom(cfg, overlap, actions, caller)
    requires Drained(At(cfg, overlap, actions).pipe)
    ensures var s := At(cfg, overlap, actions);
            && Legal(cfg, s.inputs)
            && (Holds(After(callerCfg, inputs).cache, ca, v) <==>
                  && ca !in LostAfter(cfg, overlap, actions, caller)
                  && exists i: nat :: StandsWith(cfg, s.inputs, i, caller, ca, v))
  {
    var s, lost := At(cfg, overlap, actions), LostAfter(cfg, overlap, actions, caller);
    CallerIsFed(cfg, overlap, actions, caller, callerCfg.batchCallInvalidation);
    ManagerIsFed(callerCfg, inputs);
    BatchingEventualIsExact(cfg, overlap, actions, caller, ca, v);
    DrainedIsActual(s.pipe, caller);
    NothingTouches(s.pipe, caller, lost);
  }

  lemma {:induction false} NothingTouches(p: Pipe<Response>, caller: ServiceName, lost: set<CallArgs>)
    requires Drained(p)
    ensures StillLost(p, caller, lost) == lost
  {
    assert SideOf(p, caller).inbox == [] && lost - {} - {} == lost;
    var none: map<CallArgs, Response> := map[];
    assert none.Keys == {};
  }
}
