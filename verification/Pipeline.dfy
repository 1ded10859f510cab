/** From the manager to the caches of the calling services: the sender's queue, its buffer, each
    caller's work queue and cache. Every part moves on its own. */
module Pipeline {
  import opened CmTypes
  import opened Cache
  import opened HttpSender

  /** `held` are the calls a batching caller will remove at its next tick. */
  datatype CallerSide<R> = CallerSide(inbox: seq<Request<R>>, cache: map<CallArgs, R>, held: set<CallArgs>)

  datatype Pipe<R> = Pipe(outbox: seq<Outgoing<R>>, buffer: Buffer<R>, callers: map<ServiceName, CallerSide<R>>)

  datatype PipeAction<R> =
    | Take
    | Flush(caller: ServiceName, msgs: seq<Request<R>>)
    | Serve(caller: ServiceName, hold: bool)
    | RemoveHeld(caller: ServiceName)

  function SideOf<R>(p: Pipe<R>, caller: ServiceName): CallerSide<R> {
    if caller in p.callers then p.callers[caller] else CallerSide([], map[], {})
  }

  ghost predicate PipeOk<R(!new)>(p: Pipe<R>) {
    && (forall i :: 0 <= i < |p.outbox| ==> ListsMatch(p.outbox[i]))
    && (forall c :: AllWellFormed(SideOf(p, c).inbox))
  }

  ghost predicate PipeEnabled<R(!new)>(p: Pipe<R>, a: PipeAction<R>) {
    match a
    case Take => p.outbox != [] && ListsMatch(p.outbox[0])
    case Flush(c, msgs) => c in p.buffer && IsFlush(msgs, p.buffer[c])
    case Serve(c, _) => SideOf(p, c).inbox != [] && WellFormed(SideOf(p, c).inbox[0])
    case RemoveHeld(_) => true
  }

  function ServeOne<R>(side: CallerSide<R>, hold: bool): CallerSide<R>
    requires side.inbox != [] && WellFormed(side.inbox[0])
  {
    var req, rest := side.inbox[0], side.inbox[1..];
    if hold && req.InvalidateCallsRequest? then CallerSide(rest, side.cache, side.held + Elements(req.calls))
    else CallerSide(rest, Deliver(req, side.cache), side.held)
  }

  ghost function PipeNext<R(!new)>(p: Pipe<R>, a: PipeAction<R>): Pipe<R>
    requires PipeEnabled(p, a)
  {
    match a
    case Take => p.(outbox := p.outbox[1..], buffer := AddRequest(p.buffer, p.outbox[0]))
    case Flush(c, msgs) =>
      var side := SideOf(p, c);
      p.(buffer := p.buffer - {c}, callers := p.callers[c := side.(inbox := side.inbox + msgs)])
    case Serve(c, hold) => p.(callers := p.callers[c := ServeOne(SideOf(p, c), hold)])
    case RemoveHeld(c) =>
      var side := SideOf(p, c);
      p.(callers := p.callers[c := side.(cache := side.cache - side.held, held := {})])
  }

  /** What the caller's cache would be if everything in flight reached it now. */
  ghost function Eventual<R(!new)>(p: Pipe<R>, caller: ServiceName): map<CallArgs, R>
    requires PipeOk(p)
  {
    var side := SideOf(p, caller);
    ApplyAllOutgoing(p.outbox, caller, ApplyElement(ElementOf(p.buffer, caller), DeliverAll(side.inbox, side.cache - side.held)))
  }

  ghost predicate Submap<R>(a: map<CallArgs, R>, b: map<CallArgs, R>) {
    forall c :: c in a ==> c in b && a[c] == b[c]
  }

  // ---------- Applying messages is monotone ----------

  lemma {:induction false} DeliverAllMonotone<R>(reqs: seq<Request<R>>, a: map<CallArgs, R>, b: map<CallArgs, R>)
    requires AllWellFormed(reqs) && Submap(a, b)
    ensures Submap(DeliverAll(reqs, a), DeliverAll(reqs, b))
  {
    if reqs != [] { DeliverAllMonotone(Front(reqs), a, b); }
  }

  lemma {:induction false} ApplyAllMonotone<R>(outs: seq<Outgoing<R>>, caller: ServiceName, a: map<CallArgs, R>, b: map<CallArgs, R>)
    requires (forall i :: 0 <= i < |outs| ==> ListsMatch(outs[i])) && Submap(a, b)
    ensures Submap(ApplyAllOutgoing(outs, caller, a), ApplyAllOutgoing(outs, caller, b))
  {
    if outs != [] { ApplyAllMonotone(Front(outs), caller, a, b); }
  }

  lemma {:induction false} ApplyAllConcat<R>(x: seq<Outgoing<R>>, y: seq<Outgoing<R>>, caller: ServiceName, cache: map<CallArgs, R>)
    requires (forall i :: 0 <= i < |x| ==> ListsMatch(x[i])) && (forall i :: 0 <= i < |y| ==> ListsMatch(y[i]))
    ensures forall i :: 0 <= i < |x + y| ==> ListsMatch((x + y)[i])
    ensures ApplyAllOutgoing(x + y, caller, cache) == ApplyAllOutgoing(y, caller, ApplyAllOutgoing(x, caller, cache))
  {
    if y == [] {
      assert x + y == x;
    } else {
      ApplyAllConcat(x, Front(y), caller, cache);
      assert Front(x + y) == x + Front(y);
    }
  }

  // ---------- No step of the pipeline shows a caller anything new ----------

  lemma TakeKeeps<R(!new)>(p: Pipe<R>, caller: ServiceName)
    requires PipeOk(p) && PipeEnabled(p, Take)
    ensures PipeOk(PipeNext(p, Take)) && Eventual(PipeNext(p, Take), caller) == Eventual(p, caller)
  {
    var p' := PipeNext(p, Take);
    assert forall c :: SideOf(p', c) == SideOf(p, c);
    var side := SideOf(p, caller);
    var cache := DeliverAll(side.inbox, side.cache - side.held);
    AddCoalesces(p.buffer, p.outbox[0], caller, cache);
    var head := [p.outbox[0]];
    assert p.outbox == head + p.outbox[1..];
    ApplyAllConcat(head, p.outbox[1..], caller, ApplyElement(ElementOf(p.buffer, caller), cache));
    assert Front(head) == [];
  }

  lemma FlushAtCaller<R(!new)>(inbox: seq<Request<R>>, msgs: seq<Request<R>>, el: BufferElement<R>, cache: map<CallArgs, R>)
    requires AllWellFormed(inbox) && IsFlush(msgs, el)
    ensures AllWellFormed(inbox + msgs)
    ensures DeliverAll(inbox + msgs, cache) == ApplyElement(el, DeliverAll(inbox, cache))
  {
    FlushDelivers(msgs, el, DeliverAll(inbox, cache));
    DeliverAllConcat(inbox, msgs, cache);
  }

  lemma FlushKeepsOk<R(!new)>(p: Pipe<R>, c: ServiceName, msgs: seq<Request<R>>)
    requires PipeOk(p) && PipeEnabled(p, Flush(c, msgs))
    ensures PipeOk(PipeNext(p, Flush(c, msgs)))
  {
    var p', side := PipeNext(p, Flush(c, msgs)), SideOf(p, c);
    FlushAtCaller(side.inbox, msgs, p.buffer[c], side.cache);
    forall d ensures AllWellFormed(SideOf(p', d).inbox) {
      if d != c { assert SideOf(p', d) == SideOf(p, d); }
    }
  }

  lemma FlushKeepsOwn<R(!new)>(p: Pipe<R>, c: ServiceName, msgs: seq<Request<R>>)
    requires PipeOk(p) && PipeEnabled(p, Flush(c, msgs)) && PipeOk(PipeNext(p, Flush(c, msgs)))
    ensures Eventual(PipeNext(p, Flush(c, msgs)), c) == Eventual(p, c)
  {
    var p', side := PipeNext(p, Flush(c, msgs)), SideOf(p, c);
    FlushAtCaller(side.inbox, msgs, p.buffer[c], side.cache - side.held);
    SameEventual(p, p', c);
  }

  /** Only the queue, the caller's element and the caller's own side matter. */
  lemma SameEventual<R(!new)>(p: Pipe<R>, p': Pipe<R>, c: ServiceName)
    requires PipeOk(p) && PipeOk(p') && p'.outbox == p.outbox && c in p.buffer && c !in p'.buffer
    requires var side, side' := SideOf(p, c), SideOf(p', c);
             DeliverAll(side'.inbox, side'.cache - side'.held) ==
             ApplyElement(p.buffer[c], DeliverAll(side.inbox, side.cache - side.held))
    ensures Eventual(p', c) == Eventual(p, c)
  {
    var side' := SideOf(p', c);
    NothingBuffered(p'.buffer, c, DeliverAll(side'.inbox, side'.cache - side'.held));
  }

  lemma FlushKeeps<R(!new)>(p: Pipe<R>, c: ServiceName, msgs: seq<Request<R>>, caller: ServiceName)
    requires PipeOk(p) && PipeEnabled(p, Flush(c, msgs))
    ensures PipeOk(PipeNext(p, Flush(c, msgs))) && Eventual(PipeNext(p, Flush(c, msgs)), caller) == Eventual(p, caller)
  {
    FlushKeepsOk(p, c, msgs);
    FlushKeepsOwn(p, c, msgs);
    var p' := PipeNext(p, Flush(c, msgs));
    if caller != c {
      assert SideOf(p', caller) == SideOf(p, caller) && ElementOf(p'.buffer, caller) == ElementOf(p.buffer, caller);
    }
  }

  lemma ServeShrinks<R>(side: CallerSide<R>, hold: bool)
    requires side.inbox != [] && AllWellFormed(side.inbox)
    ensures var s' := ServeOne(side, hold);
            && AllWellFormed(s'.inbox)
            && Submap(DeliverAll(s'.inbox, s'.cache - s'.held), DeliverAll(side.inbox, side.cache - side.held))
  {
    var s', req, rest := ServeOne(side, hold), side.inbox[0], side.inbox[1..];
    assert side.inbox == [req] + rest;
    assert AllWellFormed([req]) && AllWellFormed(rest) by {
      assert forall i :: 0 <= i < |rest| ==> rest[i] == side.inbox[i + 1];
    }
    DeliverAllConcat([req], rest, side.cache - side.held);
    assert Front([req]) == [];
    DeliverAllMonotone(rest, s'.cache - s'.held, Deliver(req, side.cache - side.held));
  }

  lemma SideChangeShrinks<R(!new)>(p: Pipe<R>, c: ServiceName, s': CallerSide<R>, caller: ServiceName)
    requires PipeOk(p) && AllWellFormed(s'.inbox)
    requires Submap(DeliverAll(s'.inbox, s'.cache - s'.held), DeliverAll(SideOf(p, c).inbox, SideOf(p, c).cache - SideOf(p, c).held))
    ensures PipeOk(p.(callers := p.callers[c := s']))
    ensures Submap(Eventual(p.(callers := p.callers[c := s']), caller), Eventual(p, caller))
  {
    var p' := p.(callers := p.callers[c := s']);
    assert forall d :: SideOf(p', d) == if d == c then s' else SideOf(p, d);
    var side, side' := SideOf(p, caller), SideOf(p', caller);
    var x, y := DeliverAll(side'.inbox, side'.cache - side'.held), DeliverAll(side.inbox, side.cache - side.held);
    var el := ElementOf(p.buffer, caller);
    assert Submap(ApplyElement(el, x), ApplyElement(el, y));
    ApplyAllMonotone(p.outbox, caller, ApplyElement(el, x), ApplyElement(el, y));
  }

  lemma PipeShrinks<R(!new)>(p: Pipe<R>, a: PipeAction<R>, caller: ServiceName)
    requires PipeOk(p) && PipeEnabled(p, a)
    ensures PipeOk(PipeNext(p, a)) && Submap(Eventual(PipeNext(p, a), caller), Eventual(p, caller))
  {
    match a
    case Take => TakeKeeps(p, caller);
    case Flush(c, msgs) => FlushKeeps(p, c, msgs, caller);
    case Serve(c, hold) =>
      ServeShrinks(SideOf(p, c), hold);
      SideChangeShrinks(p, c, ServeOne(SideOf(p, c), hold), caller);
    case RemoveHeld(c) =>
      var side := SideOf(p, c);
      assert (side.cache - side.held) - {} == side.cache - side.held;
      SideChangeShrinks(p, c, side.(cache := side.cache - side.held, held := {}), caller);
  }

  /** What the manager sends takes effect on the eventual caches at once, in order. */
  lemma SendAppends<R(!new)>(p: Pipe<R>, outs: seq<Outgoing<R>>, caller: ServiceName)
    requires PipeOk(p) && forall i :: 0 <= i < |outs| ==> ListsMatch(outs[i])
    ensures PipeOk(p.(outbox := p.outbox + outs))
    ensures Eventual(p.(outbox := p.outbox + outs), caller) == ApplyAllOutgoing(outs, caller, Eventual(p, caller))
  {
    var p' := p.(outbox := p.outbox + outs);
    assert forall c :: SideOf(p', c) == SideOf(p, c);
    var side := SideOf(p, caller);
    ApplyAllConcat(p.outbox, outs, caller, ApplyElement(ElementOf(p.buffer, caller), DeliverAll(side.inbox, side.cache - side.held)));
  }

  ghost predicate Drained<R(!new)>(p: Pipe<R>) {
    p.outbox == [] && p.buffer == map[] && forall c :: SideOf(p, c).inbox == [] && SideOf(p, c).held == {}
  }

  lemma DrainedIsActual<R(!new)>(p: Pipe<R>, caller: ServiceName)
    requires PipeOk(p) && Drained(p)
    ensures Eventual(p, caller) == SideOf(p, caller).cache
  {
    var side := SideOf(p, caller);
    assert side.cache - {} == side.cache;
    NothingBuffered(p.buffer, caller, side.cache);
  }
}
