/** The manager's history (internal/cm/state.go): logged invalidations, with the calls that
    started between two of them grouped into one set. */
module History {
  import opened CmTypes

  datatype Event = WriteKey(key: Key) | InvCall(call: CallArgs)

  datatype HistoryItem = CallArgSet(cas: set<CallArgs>) | Logged(event: Event)

  predicate Hits(e: Event, keys: set<Key>, calls: set<CallArgs>) {
    match e
    case WriteKey(k) => k in keys
    case InvCall(c) => c in calls
  }

  predicate NoneHit(es: seq<Event>, keys: set<Key>, calls: set<CallArgs>) {
    forall e :: e in es ==> !Hits(e, keys, calls)
  }

  lemma NoneHitMeans(es: seq<Event>, keys: set<Key>, calls: set<CallArgs>)
    ensures NoneHit(es, keys, calls) <==>
            !(exists k :: k in keys && WriteKey(k) in es) && !(exists c :: c in calls && InvCall(c) in es)
  {
    if e :| e in es && Hits(e, keys, calls) {
      match e case WriteKey(k) => case InvCall(c) =>
    }
  }

  /** The history before its open set, the set that ends it, if there is one. */
  function Closed(h: seq<HistoryItem>): seq<HistoryItem> {
    if h != [] && Last(h).CallArgSet? then Front(h) else h
  }

  function OpenSet(h: seq<HistoryItem>): set<CallArgs> {
    if h != [] && Last(h).CallArgSet? then Last(h).cas else {}
  }

  function AppendCall(h: seq<HistoryItem>, ca: CallArgs): seq<HistoryItem> {
    Closed(h) + [CallArgSet(OpenSet(h) + {ca})]
  }

  /** The invalidations a list of calls leaves behind, given what `&ca` denotes. */
  function InvEvents(v: LoopVariable, calls: seq<CallArgs>): seq<Event> {
    seq(|calls|, i requires 0 <= i < |calls| => InvCall(calls[if v.PerLoop? then |calls| - 1 else i]))
  }

  function LoggedAll(es: seq<Event>): seq<HistoryItem> {
    seq(|es|, i requires 0 <= i < |es| => Logged(es[i]))
  }

  /** Some set in the history holds the start marker of `ca`. */
  predicate Marked(h: seq<HistoryItem>, ca: CallArgs) {
    exists i :: 0 <= i < |h| && h[i].CallArgSet? && ca in h[i].cas
  }

  /** The backward scan: no dependency was invalidated since the newest marker of `ca`. */
  function ScanVerdict(h: seq<HistoryItem>, ca: CallArgs, keys: set<Key>, calls: set<CallArgs>): bool {
    if h == [] then true
    else match Last(h)
      case CallArgSet(cas) => ca in cas || ScanVerdict(Front(h), ca, keys, calls)
      case Logged(e) => !Hits(e, keys, calls) && ScanVerdict(Front(h), ca, keys, calls)
  }

  /** Delete the newest marker of `ca`, leaving its set in place even when that empties it. */
  function Unmark(h: seq<HistoryItem>, ca: CallArgs): seq<HistoryItem> {
    if h == [] then []
    else if Last(h).CallArgSet? && ca in Last(h).cas then Front(h) + [CallArgSet(Last(h).cas - {ca})]
    else Unmark(Front(h), ca) + [Last(h)]
  }

  /** Garbage collection: drop everything before the first non-empty set. */
  function Collect(h: seq<HistoryItem>): seq<HistoryItem> {
    if h == [] || (h[0].CallArgSet? && h[0].cas != {}) then h else Collect(h[1..])
  }

  /** What one End leaves: collection can happen only when the marker was found. */
  function AfterEnd(h: seq<HistoryItem>, ca: CallArgs, gcDue: bool): seq<HistoryItem> {
    if gcDue && Marked(h, ca) then Collect(Unmark(h, ca)) else Unmark(h, ca)
  }

  ghost predicate NoAdjacentSets(h: seq<HistoryItem>) {
    forall i :: 0 <= i < |h| - 1 ==> !(h[i].CallArgSet? && h[i + 1].CallArgSet?)
  }

  // ---------- Reading a history: its events, and the epoch of every marker ----------

  function Events(h: seq<HistoryItem>): seq<Event> {
    if h == [] then []
    else Events(Front(h)) + (if Last(h).Logged? then [Last(h).event] else [])
  }

  /** The markers of `ca`, oldest first, each given as the number of events before it;
      `base` events were collected before the history begins. */
  function Marks(h: seq<HistoryItem>, base: nat, ca: CallArgs): seq<nat> {
    if h == [] then []
    else Marks(Front(h), base, ca) +
         (if Last(h).CallArgSet? && ca in Last(h).cas then [base + |Events(Front(h))|] else [])
  }

  ghost predicate Within(marks: seq<nat>, lo: nat, hi: nat) {
    forall i :: 0 <= i < |marks| ==> lo <= marks[i] <= hi
  }

  lemma {:induction false} MarksInRange(h: seq<HistoryItem>, base: nat, ca: CallArgs)
    ensures Within(Marks(h, base, ca), base, base + |Events(h)|)
    ensures h != [] && Last(h).Logged? ==> Within(Marks(h, base, ca), base, base + |Events(h)| - 1)
  {
    if h != [] {
      MarksInRange(Front(h), base, ca);
    }
  }

  lemma {:induction false} MarkedHasMarks(h: seq<HistoryItem>, base: nat, ca: CallArgs)
    ensures Marked(h, ca) <==> Marks(h, base, ca) != []
  {
    if h != [] {
      MarkedHasMarks(Front(h), base, ca);
      assert Marked(h, ca) <==> Marked(Front(h), ca) || (Last(h).CallArgSet? && ca in Last(h).cas) by {
        assert forall i :: 0 <= i < |h| - 1 ==> h[i] == Front(h)[i];
      }
    }
  }

  lemma {:induction false} EventsConcat(a: seq<HistoryItem>, b: seq<HistoryItem>)
    ensures Events(a + b) == Events(a) + Events(b)
  {
    if b == [] {
      assert a + b == a;
    } else {
      EventsConcat(a, Front(b));
      assert Front(a + b) == a + Front(b);
    }
  }

  lemma {:induction false} MarksConcat(a: seq<HistoryItem>, b: seq<HistoryItem>, base: nat, ca: CallArgs)
    ensures Marks(a + b, base, ca) == Marks(a, base, ca) + Marks(b, base + |Events(a)|, ca)
  {
    if b == [] {
      assert a + b == a;
    } else {
      MarksConcat(a, Front(b), base, ca);
      EventsConcat(a, Front(b));
      assert Front(a + b) == a + Front(b);
    }
  }

  // ---------- What each operation does to events and markers ----------

  lemma AppendCallKeepsShape(h: seq<HistoryItem>, ca: CallArgs)
    requires NoAdjacentSets(h)
    ensures NoAdjacentSets(AppendCall(h, ca)) && Events(AppendCall(h, ca)) == Events(h)
  {
    assert Front(AppendCall(h, ca)) == Closed(h);
    assert forall i :: 0 <= i < |Closed(h)| ==> AppendCall(h, ca)[i] == h[i];
  }

  lemma MarksOfOpened(front: seq<HistoryItem>, cas: set<CallArgs>, base: nat, ca: CallArgs)
    ensures Marks(front + [CallArgSet(cas)], base, ca) ==
            Marks(front, base, ca) + if ca in cas then [base + |Events(front)|] else []
  {
    assert Front(front + [CallArgSet(cas)]) == front;
  }

  lemma MarksOfClosed(h: seq<HistoryItem>, base: nat, ca: CallArgs)
    requires NoAdjacentSets(h)
    ensures Events(h) == Events(Closed(h))
    ensures Marks(h, base, ca) == Marks(Closed(h), base, ca) + if ca in OpenSet(h) then [base + |Events(h)|] else []
    ensures Marks(Closed(h), base, ca) == [] || Last(Marks(Closed(h), base, ca)) < base + |Events(h)|
  {
    var front := Closed(h);
    if front != h {
      assert front == [] || !h[|h| - 2].CallArgSet?;
    }
    MarksInRange(front, base, ca);
  }

  /** A Start pushes the current epoch, unless it is already on top. */
  lemma AppendCallPushes(h: seq<HistoryItem>, base: nat, ca: CallArgs, other: CallArgs)
    requires NoAdjacentSets(h)
    ensures Marks(AppendCall(h, ca), base, other) ==
            (var m, now := Marks(h, base, other), base + |Events(h)|;
             if other == ca && (m == [] || Last(m) != now) then m + [now] else m)
  {
    MarksOfClosed(h, base, other);
    MarksOfOpened(Closed(h), OpenSet(h) + {ca}, base, other);
  }

  lemma {:induction false} UnmarkKeepsShape(h: seq<HistoryItem>, ca: CallArgs)
    ensures |Unmark(h, ca)| == |h|
    ensures forall i :: 0 <= i < |h| ==> Unmark(h, ca)[i].CallArgSet? == h[i].CallArgSet?
    ensures Events(Unmark(h, ca)) == Events(h)
  {
    if h != [] {
      UnmarkKeepsShape(Front(h), ca);
      if Last(h).CallArgSet? && ca in Last(h).cas {
        assert Front(Unmark(h, ca)) == Front(h);
      } else {
        assert Front(Unmark(h, ca)) == Unmark(Front(h), ca);
      }
    }
  }

  lemma MarksOfLast(front: seq<HistoryItem>, item: HistoryItem, base: nat, ca: CallArgs)
    ensures Marks(front + [item], base, ca) ==
            Marks(front, base, ca) + if item.CallArgSet? && ca in item.cas then [base + |Events(front)|] else []
  {
    assert Front(front + [item]) == front;
  }

  lemma UnmarkPopsLast(front: seq<HistoryItem>, cas: set<CallArgs>, base: nat, ca: CallArgs, other: CallArgs)
    requires ca in cas
    ensures var m := Marks(front + [CallArgSet(cas)], base, other);
            Marks(front + [CallArgSet(cas - {ca})], base, other) == if other != ca then m else Front(m)
    ensures Marks(front + [CallArgSet(cas)], base, ca) != []
  {
    MarksOfOpened(front, cas, base, other);
    MarksOfOpened(front, cas, base, ca);
    MarksOfOpened(front, cas - {ca}, base, other);
  }

  lemma {:induction false} UnmarkPops(h: seq<HistoryItem>, base: nat, ca: CallArgs, other: CallArgs)
    ensures Marks(Unmark(h, ca), base, other) ==
            (if other != ca || Marks(h, base, other) == [] then Marks(h, base, other) else Front(Marks(h, base, other)))
  {
    if h != [] {
      var front, item := Front(h), Last(h);
      assert h == front + [item];
      if item.CallArgSet? && ca in item.cas {
        UnmarkPopsLast(front, item.cas, base, ca, other);
      } else {
        UnmarkPops(front, base, ca, other);
        UnmarkKeepsShape(front, ca);
        MarksOfLast(Unmark(front, ca), item, base, other);
      }
    }
  }

  function NewestOr(marks: seq<nat>, default: nat): nat {
    if marks == [] then default else Last(marks)
  }

  /** The scan's verdict looks exactly at the events since the newest marker. */
  lemma {:induction false} ScanSeesSinceNewest(h: seq<HistoryItem>, base: nat, ca: CallArgs, keys: set<Key>, calls: set<CallArgs>)
    ensures var newest := NewestOr(Marks(h, base, ca), base);
            && base <= newest <= base + |Events(h)|
            && (ScanVerdict(h, ca, keys, calls) <==> NoneHit(Events(h)[newest - base..], keys, calls))
  {
    MarksInRange(h, base, ca);
    if h != [] {
      ScanSeesSinceNewest(Front(h), base, ca, keys, calls);
      if Last(h).Logged? {
        var from := NewestOr(Marks(h, base, ca), base) - base;
        assert Events(h)[from..] == Events(Front(h))[from..] + [Last(h).event];
      } else {
        assert Events(h) == Events(Front(h));
      }
    }
  }

  lemma EventsOfTail(h: seq<HistoryItem>)
    requires h != []
    ensures |Events(h)| == |Events(h[1..])| + (if h[0].Logged? then 1 else 0)
    ensures Events(h)[if h[0].Logged? then 1 else 0..] == Events(h[1..])
  {
    assert h == [h[0]] + h[1..];
    assert Front([h[0]]) == [];
    EventsConcat([h[0]], h[1..]);
  }

  lemma MarksOfTail(h: seq<HistoryItem>, base: nat, ca: CallArgs)
    requires h != [] && !(h[0].CallArgSet? && ca in h[0].cas)
    ensures Marks(h, base, ca) == Marks(h[1..], base + if h[0].Logged? then 1 else 0, ca)
  {
    assert h == [h[0]] + h[1..];
    assert Front([h[0]]) == [];
    EventsConcat([h[0]], h[1..]);
    MarksConcat([h[0]], h[1..], base, ca);
  }

  lemma {:induction false} CollectKeepsShape(h: seq<HistoryItem>)
    ensures NoAdjacentSets(h) ==> NoAdjacentSets(Collect(h))
    ensures Collect(h) == [] || (Collect(h)[0].CallArgSet? && Collect(h)[0].cas != {})
  {
    if h != [] { CollectKeepsShape(h[1..]); }
  }

  ghost predicate SameMarks(h1: seq<HistoryItem>, base1: nat, h2: seq<HistoryItem>, base2: nat) {
    forall ca :: Marks(h1, base1, ca) == Marks(h2, base2, ca)
  }

  lemma SameMarksOfTail(h: seq<HistoryItem>, base: nat)
    requires h != [] && !(h[0].CallArgSet? && h[0].cas != {})
    ensures SameMarks(h[1..], base + if h[0].Logged? then 1 else 0, h, base)
  {
    forall ca ensures Marks(h[1..], base + if h[0].Logged? then 1 else 0, ca) == Marks(h, base, ca) {
      MarksOfTail(h, base, ca);
    }
  }

  lemma SameMarksTrans(h1: seq<HistoryItem>, base1: nat, h2: seq<HistoryItem>, base2: nat, h3: seq<HistoryItem>, base3: nat)
    requires SameMarks(h1, base1, h2, base2) && SameMarks(h2, base2, h3, base3)
    ensures SameMarks(h1, base1, h3, base3)
  {
    forall ca ensures Marks(h1, base1, ca) == Marks(h3, base3, ca) {
      assert Marks(h1, base1, ca) == Marks(h2, base2, ca);
    }
  }

  /** How many events a collection forgets. */
  function Dropped(h: seq<HistoryItem>): nat {
    if h == [] || (h[0].CallArgSet? && h[0].cas != {}) then 0
    else (if h[0].Logged? then 1 else 0) + Dropped(h[1..])
  }

  lemma {:induction false} CollectDropsPrefix(h: seq<HistoryItem>)
    ensures Dropped(h) <= |Events(h)| && Events(Collect(h)) == Events(h)[Dropped(h)..]
  {
    if !(h == [] || (h[0].CallArgSet? && h[0].cas != {})) {
      EventsOfTail(h);
      CollectDropsPrefix(h[1..]);
    }
  }

  /** Collection forgets a prefix of the events and no marker at all. */
  lemma {:induction false} CollectKeepsMarks(h: seq<HistoryItem>, base: nat)
    ensures SameMarks(Collect(h), base + Dropped(h), h, base)
  {
    if !(h == [] || (h[0].CallArgSet? && h[0].cas != {})) {
      var n := if h[0].Logged? then 1 else 0;
      SameMarksOfTail(h, base);
      CollectKeepsMarks(h[1..], base + n);
      SameMarksTrans(Collect(h), base + Dropped(h), h[1..], base + n, h, base);
    }
  }
}
