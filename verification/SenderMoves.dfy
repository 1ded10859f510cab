/** The sender's loop as moves of the pipeline: what the pipeline does one caller at a time, in any
    order, is all that the loop does. */
module SenderMoves {
  import opened CmTypes
  import opened HttpSender
  import opened Pipeline

  /** The moves lead from one pipeline to the other. */
  ghost predicate Leads<R(!new)>(p: Pipe<R>, moves: seq<PipeAction<R>>, p': Pipe<R>)
    decreases |moves|
  {
    if moves == [] then p' == p
    else PipeEnabled(p, moves[0]) && Leads(PipeNext(p, moves[0]), moves[1..], p')
  }

  /** Each caller's inbox has grown by what was sent to it between the two moments. */
  ghost predicate InboxesGrew<R(!new)>(p: Pipe<R>, p': Pipe<R>, before: seq<(ServiceName, Request<R>)>, after: seq<(ServiceName, Request<R>)>) {
    forall c :: InboxGrew(SideOf(p, c), SideOf(p', c), SentTo(before, c), SentTo(after, c))
  }

  ghost predicate InboxGrew<R>(side: CallerSide<R>, side': CallerSide<R>, before: seq<Request<R>>, after: seq<Request<R>>) {
    before <= after && side' == side.(inbox := side.inbox + after[|before|..])
  }

  lemma LeadsFirst<R(!new)>(p: Pipe<R>, move: PipeAction<R>, moves: seq<PipeAction<R>>, p': Pipe<R>)
    requires PipeEnabled(p, move) && Leads(PipeNext(p, move), moves, p')
    ensures Leads(p, [move] + moves, p')
  {
    assert ([move] + moves)[1..] == moves;
  }

  /** What is still to be sent to each caller: nothing, for those without an element. */
  ghost predicate Due<R(!new)>(b: Buffer<R>, due: map<ServiceName, seq<Request<R>>>) {
    due.Keys == b.Keys && forall c :: c in b ==> IsFlush(due[c], b[c])
  }

  ghost predicate Delivered<R(!new)>(p: Pipe<R>, p': Pipe<R>, due: map<ServiceName, seq<Request<R>>>) {
    && p'.outbox == p.outbox
    && forall c :: SideOf(p', c) == WithMessages(SideOf(p, c), if c in due then due[c] else [])
  }

  function WithMessages<R>(side: CallerSide<R>, msgs: seq<Request<R>>): CallerSide<R> {
    side.(inbox := side.inbox + msgs)
  }

  lemma NoMessages<R>(side: CallerSide<R>)
    ensures WithMessages(side, []) == side
  {
    assert side.inbox + [] == side.inbox;
  }

  lemma DeliveredTogether<R(!new)>(p: Pipe<R>, q: Pipe<R>, p': Pipe<R>, c: ServiceName, due: map<ServiceName, seq<Request<R>>>)
    requires c in due && Delivered(p, q, map[c := due[c]]) && Delivered(q, p', due - {c})
    ensures Delivered(p, p', due)
  {
    forall d ensures SideOf(p', d) == WithMessages(SideOf(p, d), if d in due then due[d] else []) {
      NoMessages(SideOf(p, d));
      NoMessages(SideOf(q, d));
      assert SideOf(q, d) == WithMessages(SideOf(p, d), if d == c then due[c] else []);
    }
  }

  lemma DeliveredNone<R(!new)>(p: Pipe<R>, due: map<ServiceName, seq<Request<R>>>)
    requires due.Keys == {}
    ensures Delivered(p, p, due)
  {
    forall c ensures SideOf(p, c) == WithMessages(SideOf(p, c), []) { NoMessages(SideOf(p, c)); }
  }

  /** The buffer is emptied caller by caller. */
  lemma {:induction false} FlushMoves<R(!new)>(p: Pipe<R>, due: map<ServiceName, seq<Request<R>>>) returns (moves: seq<PipeAction<R>>, p': Pipe<R>)
    requires Due(p.buffer, due)
    ensures Leads(p, moves, p') && p'.buffer == map[] && Delivered(p, p', due)
    decreases |p.buffer|
  {
    if p.buffer == map[] {
      moves, p' := [], p;
      DeliveredNone(p, due);
    } else {
      var c :| c in p.buffer;
      var move := Flush(c, due[c]);
      FlushedOne(p, c, due);
      var q := PipeNext(p, move);
      SmallerBuffer(p.buffer, c);
      var rest;
      rest, p' := FlushMoves(q, due - {c});
      moves := [move] + rest;
      LeadsFirst(p, move, rest, p');
      DeliveredTogether(p, q, p', c, due);
    }
  }

  lemma SmallerBuffer<R>(b: Buffer<R>, c: ServiceName)
    requires c in b
    ensures |b - {c}| < |b|
  {
    assert (b - {c}).Keys == b.Keys - {c};
    assert |(b - {c}).Keys| < |b.Keys|;
  }

  lemma StillDue<R(!new)>(b: Buffer<R>, c: ServiceName, due: map<ServiceName, seq<Request<R>>>)
    requires Due(b, due)
    ensures Due(b - {c}, due - {c})
  {}

  lemma FlushedOne<R(!new)>(p: Pipe<R>, c: ServiceName, due: map<ServiceName, seq<Request<R>>>)
    requires Due(p.buffer, due) && c in p.buffer
    ensures PipeEnabled(p, Flush(c, due[c]))
    ensures var q := PipeNext(p, Flush(c, due[c]));
            q.buffer == p.buffer - {c} && Due(q.buffer, due - {c}) && Delivered(p, q, map[c := due[c]])
  {
    StillDue(p.buffer, c, due);
    SideFlushed(p, c, due[c]);
  }

  lemma SideFlushed<R(!new)>(p: Pipe<R>, c: ServiceName, msgs: seq<Request<R>>)
    requires PipeEnabled(p, Flush(c, msgs))
    ensures Delivered(p, PipeNext(p, Flush(c, msgs)), map[c := msgs])
  {
    var q := PipeNext(p, Flush(c, msgs));
    forall d ensures SideOf(q, d) == WithMessages(SideOf(p, d), if d == c then msgs else []) {
      NoMessages(SideOf(p, d));
    }
  }

  lemma NothingToSend<R(!new)>(msgs: seq<Request<R>>)
    requires IsFlush(msgs, BufferElement({}, map[]))
    ensures msgs == []
  {}

  ghost function DueBetween<R(!new)>(b: Buffer<R>, before: seq<(ServiceName, Request<R>)>, after: seq<(ServiceName, Request<R>)>): map<ServiceName, seq<Request<R>>>
    requires forall c :: SentTo(before, c) <= SentTo(after, c)
  {
    map c | c in b :: SentTo(after, c)[|SentTo(before, c)|..]
  }

  lemma FlushedGives<R(!new)>(b: Buffer<R>, before: seq<(ServiceName, Request<R>)>, after: seq<(ServiceName, Request<R>)>)
    requires Flushed(b, before, after)
    ensures forall c :: SentTo(before, c) <= SentTo(after, c)
    ensures Due(b, DueBetween(b, before, after))
    ensures forall c :: c !in b ==> SentTo(after, c) == SentTo(before, c)
  {
    forall c
      ensures SentTo(before, c) <= SentTo(after, c)
      ensures c in b ==> IsFlush(SentTo(after, c)[|SentTo(before, c)|..], b[c])
      ensures c !in b ==> SentTo(after, c) == SentTo(before, c)
    {
      assert FlushedAs(ElementOf(b, c), SentTo(before, c), SentTo(after, c));
      var msgs: seq<Request<R>> :| IsFlush(msgs, ElementOf(b, c)) && SentTo(after, c) == SentTo(before, c) + msgs;
      assert SentTo(after, c)[|SentTo(before, c)|..] == msgs;
      if c !in b { NothingToSend(msgs); }
    }
  }

  /** A flush of the loop is a sequence of the pipeline's moves. */
  lemma FlushIsMoves<R(!new)>(p: Pipe<R>, before: seq<(ServiceName, Request<R>)>, after: seq<(ServiceName, Request<R>)>) returns (moves: seq<PipeAction<R>>, p': Pipe<R>)
    requires Flushed(p.buffer, before, after)
    ensures Leads(p, moves, p') && p'.buffer == map[] && p'.outbox == p.outbox && InboxesGrew(p, p', before, after)
  {
    FlushedGives(p.buffer, before, after);
    var due := DueBetween(p.buffer, before, after);
    moves, p' := FlushMoves(p, due);
    forall c ensures InboxGrew(SideOf(p, c), SideOf(p', c), SentTo(before, c), SentTo(after, c)) {
      if c !in due { assert SentTo(after, c)[|SentTo(before, c)|..] == []; }
      assert SideOf(p', c) == WithMessages(SideOf(p, c), if c in due then due[c] else []);
    }
  }

  lemma NothingSent<R(!new)>(p: Pipe<R>, p': Pipe<R>, sent: seq<(ServiceName, Request<R>)>)
    requires p'.callers == p.callers
    ensures InboxesGrew(p, p', sent, sent)
  {
    forall c ensures InboxGrew(SideOf(p, c), SideOf(p', c), SentTo(sent, c), SentTo(sent, c)) {
      assert SideOf(p, c).inbox + [] == SideOf(p, c).inbox;
      assert SentTo(sent, c)[|SentTo(sent, c)|..] == [];
    }
  }

  /** Every pass of the sender's loop is a sequence of the pipeline's moves: it takes the request at the
      head of the queue, if that is what it received, ends with the loop's buffer, and puts in each
      caller's inbox what the loop sent to it. */
  lemma SenderStepIsMoves<R(!new)>(s: SenderState<R>, ev: SenderEvent<R>, s': SenderState<R>, p: Pipe<R>) returns (moves: seq<PipeAction<R>>, p': Pipe<R>)
    requires SenderStep(s, ev, s') && p.buffer == s.buffer
    requires ev.Received? ==> p.outbox != [] && p.outbox[0] == ev.out
    ensures Leads(p, moves, p') && p'.buffer == s'.buffer
    ensures p'.outbox == if ev.Received? then p.outbox[1..] else p.outbox
    ensures InboxesGrew(p, p', s.sent, s'.sent)
  {
    if ev.Received? {
      var q := PipeNext(p, Take);
      if s'.buffer == AddRequest(s.buffer, ev.out) && s'.sent == s.sent {
        var none: seq<PipeAction<R>> := [];
        moves, p' := [Take] + none, q;
        assert Leads(q, none, q);
        LeadsFirst(p, Take, none, q);
        NothingSent(p, q, s.sent);
      } else {
        var rest;
        rest, p' := FlushIsMoves(q, s.sent, s'.sent);
        moves := [Take] + rest;
        LeadsFirst(p, Take, rest, p');
        assert forall c :: SideOf(q, c) == SideOf(p, c);
        forall c ensures InboxGrew(SideOf(p, c), SideOf(p', c), SentTo(s.sent, c), SentTo(s'.sent, c)) {
          assert InboxGrew(SideOf(q, c), SideOf(p', c), SentTo(s.sent, c), SentTo(s'.sent, c));
        }
      }
    } else {
      moves, p' := FlushIsMoves(p, s.sent, s'.sent);
    }
  }
}
