/** The plain chronological log of what the manager processed, and the proof that the grouped,
    mutated and garbage-collected history gives the same verdicts as that log. */
module PlainLog {
  import opened CmTypes
  import opened History

  datatype Entry = Started(ca: CallArgs) | Ended(ca: CallArgs) | Happened(event: Event)

  function EventsOf(log: seq<Entry>): seq<Event> {
    if log == [] then []
    else EventsOf(Front(log)) + (if Last(log).Happened? then [Last(log).event] else [])
  }

  /** The epochs (number of events so far) of the starts of `ca` that no End has consumed.
      An End consumes the newest one; two starts in one epoch share one marker. */
  function Stack(log: seq<Entry>, ca: CallArgs): seq<nat> {
    if log == [] then []
    else
      var below := Stack(Front(log), ca);
      var now := |EventsOf(Front(log))|;
      match Last(log)
      case Started(c) => if c == ca && (below == [] || Last(below) != now) then below + [now] else below
      case Ended(c) => if c == ca && below != [] then Front(below) else below
      case Happened(_) => below
  }

  ghost predicate RepresentsFrom(h: seq<HistoryItem>, log: seq<Entry>, base: nat) {
    && base <= |EventsOf(log)|
    && Events(h) == EventsOf(log)[base..]
    && NoAdjacentSets(h)
    && (forall ca :: Marks(h, base, ca) == Stack(log, ca))
  }

  /** `h` is what some schedule of collections made of `log`. */
  ghost predicate Represents(h: seq<HistoryItem>, log: seq<Entry>) {
    exists base: nat :: RepresentsFrom(h, log, base)
  }

  // ---------- Every operation of the manager keeps the relation ----------

  lemma EmptyRepresents()
    ensures Represents([], [])
  {
    assert RepresentsFrom([], [], 0);
  }

  lemma StackOfStarted(log: seq<Entry>, ca: CallArgs, other: CallArgs)
    ensures EventsOf(log + [Started(ca)]) == EventsOf(log)
    ensures Stack(log + [Started(ca)], other) ==
            (var m, now := Stack(log, other), |EventsOf(log)|;
             if other == ca && (m == [] || Last(m) != now) then m + [now] else m)
  {
    assert Front(log + [Started(ca)]) == log;
  }

  lemma StartKeepsMarks(h: seq<HistoryItem>, log: seq<Entry>, base: nat, ca: CallArgs, c: CallArgs)
    requires NoAdjacentSets(h) && base + |Events(h)| == |EventsOf(log)| && Marks(h, base, c) == Stack(log, c)
    ensures Marks(AppendCall(h, ca), base, c) == Stack(log + [Started(ca)], c)
  {
    AppendCallPushes(h, base, ca, c);
    StackOfStarted(log, ca, c);
  }

  lemma StartKeeps(h: seq<HistoryItem>, log: seq<Entry>, ca: CallArgs)
    requires Represents(h, log)
    ensures Represents(AppendCall(h, ca), log + [Started(ca)])
  {
    var base: nat :| RepresentsFrom(h, log, base);
    var h', log' := AppendCall(h, ca), log + [Started(ca)];
    AppendCallKeepsShape(h, ca);
    StackOfStarted(log, ca, ca);
    forall c ensures Marks(h', base, c) == Stack(log', c) {
      StartKeepsMarks(h, log, base, ca, c);
    }
    assert RepresentsFrom(h', log', base);
  }

  lemma EventKeeps(h: seq<HistoryItem>, log: seq<Entry>, e: Event)
    requires Represents(h, log)
    ensures Represents(h + [Logged(e)], log + [Happened(e)])
  {
    var base: nat :| RepresentsFrom(h, log, base);
    var h', log' := h + [Logged(e)], log + [Happened(e)];
    assert Front(h') == h && Front(log') == log;
    assert RepresentsFrom(h', log', base);
  }

  function HappenedAll(es: seq<Event>): seq<Entry> {
    seq(|es|, i requires 0 <= i < |es| => Happened(es[i]))
  }

  lemma {:induction false} EventsKeep(h: seq<HistoryItem>, log: seq<Entry>, es: seq<Event>)
    requires Represents(h, log)
    ensures Represents(h + LoggedAll(es), log + HappenedAll(es))
  {
    if es == [] {
      assert h + LoggedAll(es) == h && log + HappenedAll(es) == log;
    } else {
      EventsKeep(h, log, Front(es));
      EventKeeps(h + LoggedAll(Front(es)), log + HappenedAll(Front(es)), Last(es));
      assert h + LoggedAll(es) == h + LoggedAll(Front(es)) + [Logged(Last(es))];
      assert log + HappenedAll(es) == log + HappenedAll(Front(es)) + [Happened(Last(es))];
    }
  }

  lemma EndKeeps(h: seq<HistoryItem>, log: seq<Entry>, ca: CallArgs, gcDue: bool)
    requires Represents(h, log)
    ensures Represents(AfterEnd(h, ca, gcDue), log + [Ended(ca)])
  {
    var base: nat :| RepresentsFrom(h, log, base);
    var u, log' := Unmark(h, ca), log + [Ended(ca)];
    assert Front(log') == log;
    UnmarkKeepsShape(h, ca);
    forall c ensures Marks(u, base, c) == Stack(log', c) {
      UnmarkPops(h, base, ca, c);
    }
    assert RepresentsFrom(u, log', base);
    if gcDue && Marked(h, ca) {
      CollectDropsPrefix(u);
      CollectKeepsMarks(u, base);
      CollectKeepsShape(u);
      assert RepresentsFrom(Collect(u), log', base + Dropped(u));
    }
  }

  // ---------- Verdicts ----------

  /** On every run, with any schedule of collections and any number of calls sharing arguments:
      an End that finds a marker is judged on exactly the events logged since the newest one. */
  lemma VerdictExact(h: seq<HistoryItem>, log: seq<Entry>, ca: CallArgs, keys: set<Key>, calls: set<CallArgs>)
    requires Represents(h, log) && Stack(log, ca) != []
    ensures Last(Stack(log, ca)) <= |EventsOf(log)|
    ensures ScanVerdict(h, ca, keys, calls) <==> NoneHit(EventsOf(log)[Last(Stack(log, ca))..], keys, calls)
  {
    var base: nat :| RepresentsFrom(h, log, base);
    ScanSeesSinceNewest(h, base, ca, keys, calls);
    assert Events(h)[Last(Stack(log, ca)) - base..] == EventsOf(log)[Last(Stack(log, ca))..];
  }

  /** Collection never changes the verdict of an End whose marker is present. */
  lemma CollectionInvisible(h1: seq<HistoryItem>, h2: seq<HistoryItem>, log: seq<Entry>, ca: CallArgs, keys: set<Key>, calls: set<CallArgs>)
    requires Represents(h1, log) && Represents(h2, log) && Stack(log, ca) != []
    ensures ScanVerdict(h1, ca, keys, calls) == ScanVerdict(h2, ca, keys, calls)
  {
    VerdictExact(h1, log, ca, keys, calls);
    VerdictExact(h2, log, ca, keys, calls);
  }

  /** Without a marker the scan judges whatever collection left, so there it can be seen:
      the same three messages, with one collection or none, and then an End never started. */
  lemma UnmatchedEndSeesCollection(a: CallArgs, b: CallArgs, k: Key)
    requires a != b
    ensures var h := AppendCall([Logged(WriteKey(k))], a);
            && !ScanVerdict(AfterEnd(h, a, false), b, {k}, {})
            && ScanVerdict(AfterEnd(h, a, true), b, {k}, {})
  {
    var h := AppendCall([Logged(WriteKey(k))], a);
    assert {} + {a} == {a} && {a} - {a} == {};
    assert h == [Logged(WriteKey(k)), CallArgSet({a})];
    assert h[1].CallArgSet? && a in h[1].cas;
    var u := Unmark(h, a);
    assert u == [Logged(WriteKey(k)), CallArgSet({})];
    assert Front(u) == [Logged(WriteKey(k))];
    assert u[1..] == [CallArgSet({})];
    assert Collect(u) == Collect(u[1..]) == Collect(u[1..][1..]) == [];
  }

  lemma ScansAroundCollection(h: seq<HistoryItem>, ca: CallArgs, keys: set<Key>, calls: set<CallArgs>)
    ensures Marked(h, ca) ==> ScanVerdict(Collect(h), ca, keys, calls) == ScanVerdict(h, ca, keys, calls)
    ensures !Marked(h, ca) ==> ScanVerdict(h, ca, keys, calls) == NoneHit(Events(h), keys, calls)
    ensures !Marked(h, ca) ==> ScanVerdict(Collect(h), ca, keys, calls) == NoneHit(Events(Collect(h)), keys, calls)
  {
    var c, d := Collect(h), Dropped(h);
    CollectDropsPrefix(h);
    CollectKeepsMarks(h, 0);
    assert Marks(c, d, ca) == Marks(h, 0, ca);
    MarkedHasMarks(h, 0, ca);
    ScanSeesSinceNewest(h, 0, ca, keys, calls);
    ScanSeesSinceNewest(c, d, ca, keys, calls);
    var from := NewestOr(Marks(h, 0, ca), 0);
    if Marked(h, ca) {
      assert Events(c)[from - d..] == Events(h)[from..];
    } else {
      assert Events(h)[0..] == Events(h) && Events(c)[0..] == Events(c);
    }
  }

  /** What a collection can be seen by, exactly: the End of a call has no marker left, and the
      collection forgets every trace of some event. */
  lemma CollectionInvisibleIff(h: seq<HistoryItem>, ca: CallArgs)
    ensures (forall keys, calls :: ScanVerdict(Collect(h), ca, keys, calls) == ScanVerdict(h, ca, keys, calls))
       <==> Marked(h, ca) || Elements(Events(Collect(h))) == Elements(Events(h))
  {
    var before, after := Events(h), Events(Collect(h));
    SameVerdictsIff(after, before);
    if Marked(h, ca) || Elements(after) == Elements(before) {
      forall keys, calls ensures ScanVerdict(Collect(h), ca, keys, calls) == ScanVerdict(h, ca, keys, calls) {
        ScansAroundCollection(h, ca, keys, calls);
        assert Elements(after) == Elements(before) ==> NoneHit(after, keys, calls) == NoneHit(before, keys, calls);
      }
    } else {
      var keys, calls :| NoneHit(after, keys, calls) != NoneHit(before, keys, calls);
      ScansAroundCollection(h, ca, keys, calls);
    }
  }

  /** Such an End is real without H1: two Starts in one epoch share a marker, and the first End takes it. */
  lemma SharedMarkerLeavesNone(h: seq<HistoryItem>, log: seq<Entry>, a: CallArgs)
    requires Represents(h, log) && Stack(log, a) == []
    ensures !Marked(AfterEnd(AppendCall(AppendCall(h, a), a), a, false), a)
  {
    StartKeeps(h, log, a);
    StackOfStarted(log, a, a);
    var one, two := log + [Started(a)], log + [Started(a)] + [Started(a)];
    StartKeeps(AppendCall(h, a), one, a);
    StackOfStarted(one, a, a);
    var h2 := AppendCall(AppendCall(h, a), a);
    EndKeeps(h2, two, a, false);
    assert Front(two + [Ended(a)]) == two && Stack(two + [Ended(a)], a) == [];
    var h3 := AfterEnd(h2, a, false);
    var base: nat :| RepresentsFrom(h3, two + [Ended(a)], base);
    MarkedHasMarks(h3, base, a);
  }

  // ---------- H1: no two outstanding calls with equal arguments ----------

  function Outstanding(log: seq<Entry>): set<CallArgs> {
    if log == [] then {}
    else match Last(log)
      case Started(c) => Outstanding(Front(log)) + {c}
      case Ended(c) => Outstanding(Front(log)) - {c}
      case Happened(_) => Outstanding(Front(log))
  }

  ghost predicate OneAtATime(log: seq<Entry>) {
    log == [] ||
    (&& OneAtATime(Front(log))
     && (Last(log).Started? ==> Last(log).ca !in Outstanding(Front(log)))
     && (Last(log).Ended? ==> Last(log).ca in Outstanding(Front(log))))
  }

  /** The events after the latest Start of `ca` (all of them if there is none). */
  function SinceStart(log: seq<Entry>, ca: CallArgs): seq<Event> {
    if log == [] || Last(log) == Started(ca) then []
    else SinceStart(Front(log), ca) + (if Last(log).Happened? then [Last(log).event] else [])
  }

  ghost predicate LatestStart(log: seq<Entry>, ca: CallArgs, s: int) {
    0 <= s < |log| && log[s] == Started(ca) && forall j :: s < j < |log| ==> log[j] != Started(ca)
  }

  lemma {:induction false} SinceStartIsSuffix(log: seq<Entry>, ca: CallArgs, s: nat)
    requires LatestStart(log, ca, s)
    ensures SinceStart(log, ca) == EventsOf(log[s + 1..])
  {
    if s < |log| - 1 {
      SinceStartIsSuffix(Front(log), ca, s);
      assert Front(log[s + 1..]) == Front(log)[s + 1..];
      assert Last(log[s + 1..]) == Last(log);
    }
  }

  lemma {:induction false} StackUnderH1(log: seq<Entry>, ca: CallArgs)
    requires OneAtATime(log)
    ensures ca !in Outstanding(log) ==> Stack(log, ca) == []
    ensures ca in Outstanding(log) ==>
              && |Stack(log, ca)| == 1 && Stack(log, ca)[0] <= |EventsOf(log)|
              && EventsOf(log)[Stack(log, ca)[0]..] == SinceStart(log, ca)
  {
    if log != [] {
      StackUnderH1(Front(log), ca);
      if ca in Outstanding(log) && Last(log).Happened? {
        var e := Stack(log, ca)[0];
        assert EventsOf(log)[e..] == EventsOf(Front(log))[e..] + [Last(log).event];
      }
    }
  }

  /** Under H1, the verdict on an outstanding call is that of the plain log: no listed key was
      written and no listed call was invalidated since the call's own Start. */
  lemma VerdictExactUnderH1(h: seq<HistoryItem>, log: seq<Entry>, ca: CallArgs, s: nat, keys: set<Key>, calls: set<CallArgs>)
    requires Represents(h, log) && OneAtATime(log)
    requires ca in Outstanding(log) && LatestStart(log, ca, s)
    ensures ScanVerdict(h, ca, keys, calls) <==> NoneHit(EventsOf(log[s + 1..]), keys, calls)
  {
    StackUnderH1(log, ca);
    VerdictExact(h, log, ca, keys, calls);
    SinceStartIsSuffix(log, ca, s);
  }

  /** What an End is judged on: the events since the newest marker of its arguments, or, if there is
      none, all that collections have left. */
  function Judged(h: seq<HistoryItem>, log: seq<Entry>, ca: CallArgs): seq<Event>
    requires Stack(log, ca) != [] ==> Last(Stack(log, ca)) <= |EventsOf(log)|
  {
    if Stack(log, ca) == [] then Events(h) else EventsOf(log)[Last(Stack(log, ca))..]
  }

  lemma {:induction false} NewestEpochBound(log: seq<Entry>, ca: CallArgs)
    ensures forall i :: 0 <= i < |Stack(log, ca)| ==> Stack(log, ca)[i] <= |EventsOf(log)|
  {
    if log != [] { NewestEpochBound(Front(log), ca); }
  }

  lemma JudgedExactly(h: seq<HistoryItem>, log: seq<Entry>, ca: CallArgs, keys: set<Key>, calls: set<CallArgs>)
    requires Represents(h, log)
    ensures Stack(log, ca) != [] ==> Last(Stack(log, ca)) <= |EventsOf(log)|
    ensures ScanVerdict(h, ca, keys, calls) <==> NoneHit(Judged(h, log, ca), keys, calls)
  {
    NewestEpochBound(log, ca);
    if Stack(log, ca) == [] {
      var base: nat :| RepresentsFrom(h, log, base);
      ScanSeesSinceNewest(h, base, ca, keys, calls);
      assert Marks(h, base, ca) == [] && Events(h)[0..] == Events(h);
    } else {
      VerdictExact(h, log, ca, keys, calls);
    }
  }

  /** Without H1, for every End: the verdict on the call started at `s` is right for every list of
      dependencies exactly when what it is judged on are the events since its own Start. */
  lemma VerdictRightIff(h: seq<HistoryItem>, log: seq<Entry>, ca: CallArgs, s: nat)
    requires Represents(h, log) && s < |log| && log[s] == Started(ca)
    ensures Stack(log, ca) != [] ==> Last(Stack(log, ca)) <= |EventsOf(log)|
    ensures (forall keys, calls :: ScanVerdict(h, ca, keys, calls) <==> NoneHit(EventsOf(log[s + 1..]), keys, calls))
       <==> Elements(Judged(h, log, ca)) == Elements(EventsOf(log[s + 1..]))
  {
    NewestEpochBound(log, ca);
    var judged, own := Judged(h, log, ca), EventsOf(log[s + 1..]);
    SameVerdictsIff(judged, own);
    if Elements(judged) == Elements(own) {
      forall keys, calls ensures ScanVerdict(h, ca, keys, calls) <==> NoneHit(own, keys, calls) {
        JudgedExactly(h, log, ca, keys, calls);
        assert NoneHit(judged, keys, calls) == NoneHit(own, keys, calls);
      }
    } else {
      var keys, calls :| NoneHit(judged, keys, calls) != NoneHit(own, keys, calls);
      JudgedExactly(h, log, ca, keys, calls);
    }
  }

  lemma SameVerdictsIff(a: seq<Event>, b: seq<Event>)
    ensures (forall keys, calls :: NoneHit(a, keys, calls) == NoneHit(b, keys, calls)) <==> Elements(a) == Elements(b)
  {
    if Elements(a) == Elements(b) {
      assert forall e :: e in a <==> e in Elements(a);
      assert forall e :: e in b <==> e in Elements(b);
    } else {
      var e :| e in Elements(a) <==> e !in Elements(b);
      var keys := if e.WriteKey? then {e.key} else {};
      var calls := if e.InvCall? then {e.call} else {};
      assert forall f :: Hits(f, keys, calls) <==> f == e;
      assert NoneHit(a, keys, calls) <==> e !in a;
      assert NoneHit(b, keys, calls) <==> e !in b;
    }
  }

  /** Two concurrent calls with equal arguments: the first one to end is judged from the second
      Start, so the write of `k` that it may have missed goes unseen. */
  lemma DuplicateArgumentsEscape(h: seq<HistoryItem>, a: CallArgs, k: Key)
    requires Represents(h, [Started(a), Happened(WriteKey(k)), Started(a)])
    ensures ScanVerdict(h, a, {k}, {})
    ensures !NoneHit(EventsOf([Started(a), Happened(WriteKey(k)), Started(a)][1..]), {k}, {})
  {
    var log := [Started(a), Happened(WriteKey(k)), Started(a)];
    var l2, l1 := Front(log), Front(Front(log));
    assert l2 == [Started(a), Happened(WriteKey(k))] && l1 == [Started(a)] && Front(l1) == [];
    assert EventsOf(l1) == [] && EventsOf(l2) == [WriteKey(k)] && EventsOf(log) == [WriteKey(k)];
    assert Front(l2) == l1;
    assert Stack(l1, a) == [0];
    assert Stack(l2, a) == [0];
    assert Stack(log, a) == [0] + [|EventsOf(l2)|];
    VerdictExact(h, log, a, {k}, {});
    var own := log[1..];
    assert Front(own) == [Happened(WriteKey(k))] && Front(Front(own)) == [];
    assert EventsOf(own) == [WriteKey(k)];
    assert WriteKey(k) in EventsOf(own);
  }

  lemma TwoStartsOneWrite(a: CallArgs, k: Key)
    ensures AppendCall(AppendCall([], a), a) + [Logged(WriteKey(k))] == [CallArgSet({a}), Logged(WriteKey(k))]
  {
    assert {} + {a} == {a} && {a} + {a} == {a};
  }

  lemma FirstEndTakesAll(a: CallArgs, k: Key)
    ensures AfterEnd([CallArgSet({a}), Logged(WriteKey(k))], a, true) == []
  {
    var h := [CallArgSet({a}), Logged(WriteKey(k))];
    assert h[0].CallArgSet? && a in h[0].cas;
    assert Front(h) == [CallArgSet({a})] && Front(Front(h)) == [] && {a} - {a} == {};
    assert Unmark(Front(h), a) == [CallArgSet({a} - {a})] == [CallArgSet({})];
    var u := Unmark(h, a);
    assert u == [CallArgSet({})] + [Logged(WriteKey(k))];
    assert u[1..][1..] == [];
    assert Collect(u) == Collect(u[1..]) == Collect(u[1..][1..]) == [];
  }

  lemma TwoStartsRepresented(a: CallArgs, k: Key)
    ensures Represents(AfterEnd(AppendCall(AppendCall([], a), a) + [Logged(WriteKey(k))], a, true),
                       [Started(a), Started(a), Happened(WriteKey(k)), Ended(a)])
  {
    var l1, l2, l3 := [Started(a)], [Started(a), Started(a)], [Started(a), Started(a), Happened(WriteKey(k))];
    assert [] + l1 == l1 && l1 + [Started(a)] == l2 && l2 + [Happened(WriteKey(k))] == l3;
    assert l3 + [Ended(a)] == [Started(a), Started(a), Happened(WriteKey(k)), Ended(a)];
    EmptyRepresents();
    StartKeeps([], [], a);
    StartKeeps(AppendCall([], a), l1, a);
    EventKeeps(AppendCall(AppendCall([], a), a), l2, WriteKey(k));
    EndKeeps(AppendCall(AppendCall([], a), a) + [Logged(WriteKey(k))], l3, a, true);
  }

  lemma WrittenSinceOwnStart(a: CallArgs, k: Key)
    ensures !NoneHit(EventsOf([Happened(WriteKey(k)), Ended(a)]), {k}, {})
  {
    var own := [Happened(WriteKey(k)), Ended(a)];
    assert Front(own) == [Happened(WriteKey(k))] && Front(Front(own)) == [];
    assert EventsOf(Front(own)) == [WriteKey(k)];
    assert WriteKey(k) in EventsOf(own);
  }

  /** The worse case, without a marker: of two concurrent calls with equal arguments, the first to
      end takes the shared marker and with it, by a collection, the whole history; the other is valid
      although `k` was written since its own Start. */
  lemma MarkerlessEndEscapes(a: CallArgs, k: Key)
    ensures var h := AfterEnd(AppendCall(AppendCall([], a), a) + [Logged(WriteKey(k))], a, true);
            var log := [Started(a), Started(a), Happened(WriteKey(k)), Ended(a)];
            && Represents(h, log) && h == [] && Stack(log, a) == []
            && ScanVerdict(h, a, {k}, {})
            && !NoneHit(EventsOf(log[2..]), {k}, {})
  {
    var log := [Started(a), Started(a), Happened(WriteKey(k)), Ended(a)];
    TwoStartsOneWrite(a, k);
    FirstEndTakesAll(a, k);
    TwoStartsRepresented(a, k);
    MarkersOf(a, k);
    WrittenSinceOwnStart(a, k);
    assert log[2..] == [Happened(WriteKey(k)), Ended(a)];
  }

  lemma MarkersOf(a: CallArgs, k: Key)
    ensures Stack([Started(a), Started(a), Happened(WriteKey(k)), Ended(a)], a) == []
  {
    var l1, l2, l3 := [Started(a)], [Started(a), Started(a)], [Started(a), Started(a), Happened(WriteKey(k))];
    assert Front(l3 + [Ended(a)]) == l3 && Front(l3) == l2 && Front(l2) == l1 && Front(l1) == [];
    assert l3 + [Ended(a)] == [Started(a), Started(a), Happened(WriteKey(k)), Ended(a)];
    assert Stack(l1, a) == [0] && EventsOf(l1) == [];
    assert Stack(l2, a) == [0];
    assert Stack(l3, a) == [0];
  }

  // ---------- Markers and space ----------

  /** Under H1 the history holds one marker for each call started and not yet ended, and no other. */
  lemma MarkersAreOutstandingCalls(h: seq<HistoryItem>, log: seq<Entry>, base: nat, ca: CallArgs)
    requires RepresentsFrom(h, log, base) && OneAtATime(log)
    ensures Marked(h, ca) <==> ca in Outstanding(log)
    ensures |Marks(h, base, ca)| == if ca in Outstanding(log) then 1 else 0
  {
    MarkedHasMarks(h, base, ca);
    StackUnderH1(log, ca);
  }

  /** After a collection the history is empty or begins with a set some outstanding call is in;
      so with nothing outstanding it is empty. Two sets are never adjacent. */
  lemma CollectedHistoryIsTight(h: seq<HistoryItem>, log: seq<Entry>, ca: CallArgs)
    requires Represents(h, log) && Marked(h, ca) && OneAtATime(log + [Ended(ca)])
    ensures var c := AfterEnd(h, ca, true);
            && NoAdjacentSets(c)
            && (c != [] ==> c[0].CallArgSet? && c[0].cas != {} && c[0].cas <= Outstanding(log + [Ended(ca)]))
            && (Outstanding(log + [Ended(ca)]) == {} ==> c == [])
  {
    var c, log' := AfterEnd(h, ca, true), log + [Ended(ca)];
    EndKeeps(h, log, ca, true);
    var base: nat :| RepresentsFrom(c, log', base);
    CollectKeepsShape(Unmark(h, ca));
    if c != [] {
      forall x | x in c[0].cas ensures x in Outstanding(log') {
        assert Marked(c, x);
        MarkersAreOutstandingCalls(c, log', base, x);
      }
    }
  }
}
