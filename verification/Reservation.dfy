/** Hotel reservations (internal/hotel/reservation.go): what the availability check guarantees for
    every day, and what it does not. */
module Reservation {
  import opened GoInt

  datatype Booking = Booking(customerName: string, inDate: string, outDate: string, roomNumber: int64)

  datatype HotelAvailability = HotelAvailability(capacity: int64, reservations: seq<Booking>)

  // ---------- Dates are strings in their lexicographic order ----------

  predicate Less(a: string, b: string) {
    b != "" && (a == "" || a[0] < b[0] || (a[0] == b[0] && Less(a[1..], b[1..])))
  }

  lemma {:induction false} LessTotal(a: string, b: string)
    ensures !(Less(a, b) && Less(b, a)) && (Less(a, b) || Less(b, a) || a == b)
  {
    if a != "" && b != "" && a[0] == b[0] {
      LessTotal(a[1..], b[1..]);
      assert a == [a[0]] + a[1..] && b == [b[0]] + b[1..];
    }
  }

  lemma {:induction false} NotLessTransitive(a: string, b: string, c: string)
    requires !Less(b, a) && !Less(c, b)
    ensures !Less(c, a)
  {
    if a != "" && b != "" && c != "" && a[0] == b[0] == c[0] {
      NotLessTransitive(a[1..], b[1..], c[1..]);
    }
  }

  /** The order of strings: one is a beginning of the other, or is smaller where they first differ. */
  ghost predicate Before(a: string, b: string) {
    exists i :: BeforeAt(a, b, i)
  }

  predicate BeforeAt(a: string, b: string, i: int) {
    0 <= i <= |a| && i < |b| && a[..i] == b[..i] && (i == |a| || a[i] < b[i])
  }

  lemma SameBeginning(a: string, b: string, i: int)
    requires 0 < i <= |a| && i <= |b|
    ensures a[..i] == b[..i] <==> a[0] == b[0] && a[1..][..i - 1] == b[1..][..i - 1]
  {
    var x, y := a[1..][..i - 1], b[1..][..i - 1];
    assert a[..i] == [a[0]] + x && b[..i] == [b[0]] + y;
    if a[..i] == b[..i] {
      assert a[..i][0] == b[..i][0];
      assert x == a[..i][1..] && y == b[..i][1..];
    }
  }

  lemma BeforeTail(a: string, b: string, i: int)
    requires a != "" && b != "" && i > 0
    ensures BeforeAt(a, b, i) <==> a[0] == b[0] && BeforeAt(a[1..], b[1..], i - 1)
  {
    if i <= |a| && i < |b| {
      SameBeginning(a, b, i);
      if i < |a| { assert a[1..][i - 1] == a[i] && b[1..][i - 1] == b[i]; }
    }
  }

  lemma {:induction false} LessIsBefore(a: string, b: string)
    ensures Less(a, b) <==> Before(a, b)
  {
    assert BeforeAt(a, b, 0) <==> b != "" && (a == "" || a[0] < b[0]);
    if a != "" && b != "" {
      LessIsBefore(a[1..], b[1..]);
      if Before(a[1..], b[1..]) && a[0] == b[0] {
        var i :| BeforeAt(a[1..], b[1..], i);
        BeforeTail(a, b, i + 1);
        assert BeforeAt(a, b, i + 1);
      }
      if Before(a, b) && !BeforeAt(a, b, 0) {
        var i :| BeforeAt(a, b, i);
        BeforeTail(a, b, i);
        assert BeforeAt(a[1..], b[1..], i - 1);
      }
    }
  }

  predicate IsDecimal(s: string) {
    forall i :: 0 <= i < |s| ==> '0' <= s[i] <= '9'
  }

  function Power10(n: nat): nat {
    if n == 0 then 1 else 10 * Power10(n - 1)
  }

  /** The number a decimal string stands for. */
  function Number(s: string): nat
    requires IsDecimal(s)
  {
    if s == "" then 0 else (s[0] as int - '0' as int) * Power10(|s| - 1) + Number(s[1..])
  }

  lemma {:induction false} NumberBound(s: string)
    requires IsDecimal(s)
    ensures Number(s) < Power10(|s|)
  {
    if s != "" {
      NumberBound(s[1..]);
      DigitTimes(s[0] as int - '0' as int, 9, Power10(|s| - 1));
    }
  }

  lemma DigitTimes(d: nat, e: nat, p: nat)
    requires d <= e
    ensures d * p <= e * p && (d < e ==> d * p + p <= e * p)
  {
    if d < e { assert (e - d - 1) * p >= 0; }
  }

  /** So numbers of equal length, like the years, months and days of dates, are in their order. */
  lemma {:induction false} LessIsNumberOrder(a: string, b: string)
    requires IsDecimal(a) && IsDecimal(b) && |a| == |b|
    ensures Less(a, b) <==> Number(a) < Number(b)
  {
    if a != "" {
      LessIsNumberOrder(a[1..], b[1..]);
      NumberBound(a[1..]);
      NumberBound(b[1..]);
      var x, y, p := a[0] as int - '0' as int, b[0] as int - '0' as int, Power10(|a| - 1);
      if x < y { DigitTimes(x, y, p); }
      if y < x { DigitTimes(y, x, p); }
    }
  }

  predicate DatesIntersect(inDate1: string, outDate1: string, inDate2: string, outDate2: string) {
    if Less(outDate1, inDate2) || Less(outDate2, inDate1) then false else true
  }

  predicate Within(day: string, inDate: string, outDate: string) {
    !Less(day, inDate) && !Less(outDate, day)
  }

  /** Two stays that do not end before they begin intersect exactly when some day is in both. */
  lemma IntersectIffSharedDay(in1: string, out1: string, in2: string, out2: string)
    requires !Less(out1, in1) && !Less(out2, in2)
    ensures DatesIntersect(in1, out1, in2, out2) <==> exists day :: Within(day, in1, out1) && Within(day, in2, out2)
  {
    if DatesIntersect(in1, out1, in2, out2) {
      LessTotal(in1, in2);
      LessTotal(in1, in1);
      LessTotal(in2, in2);
      var later := if Less(in1, in2) then in2 else in1;
      assert Within(later, in1, out1) && Within(later, in2, out2);
    }
    forall day | Within(day, in1, out1) && Within(day, in2, out2) ensures DatesIntersect(in1, out1, in2, out2) {
      NotLessTransitive(in1, day, out2);
      NotLessTransitive(in2, day, out1);
    }
  }

  // ---------- The availability check ----------

  function Intersecting(rs: seq<Booking>, inDate: string, outDate: string): nat {
    if rs == [] then 0
    else Intersecting(rs[..|rs| - 1], inDate, outDate) +
         (if DatesIntersect(inDate, outDate, rs[|rs| - 1].inDate, rs[|rs| - 1].outDate) then 1 else 0)
  }

  /** The stored stays that neither end before the asked one begins nor begin after it ends. */
  ghost function Overlapping(rs: seq<Booking>, inDate: string, outDate: string): set<int> {
    set i | 0 <= i < |rs| && !Before(outDate, rs[i].inDate) && !Before(rs[i].outDate, inDate)
  }

  lemma {:induction false} IntersectingCounts(rs: seq<Booking>, inDate: string, outDate: string)
    ensures Intersecting(rs, inDate, outDate) == |Overlapping(rs, inDate, outDate)|
  {
    var all := Overlapping(rs, inDate, outDate);
    if rs == [] {
      assert all == {};
    } else {
      var n := |rs| - 1;
      var rest := Overlapping(rs[..n], inDate, outDate);
      IntersectingCounts(rs[..n], inDate, outDate);
      LessIsBefore(outDate, rs[n].inDate);
      LessIsBefore(rs[n].outDate, inDate);
      assert all == rest + if DatesIntersect(inDate, outDate, rs[n].inDate, rs[n].outDate) then {n} else {};
    }
  }

  /** The answer, told without the count: the overlapping stays and the rooms, added in 64 bits, are
      at most the capacity. */
  lemma AvailableExactly(a: HotelAvailability, inDate: string, outDate: string, rooms: int64)
    ensures Available(a, inDate, outDate, rooms) <==> Wrap64(|Overlapping(a.reservations, inDate, outDate)| + rooms) <= a.capacity
  {
    IntersectingCounts(a.reservations, inDate, outDate);
  }

  /** The sum wraps: a count of rooms near the largest integer is granted. */
  predicate Available(a: HotelAvailability, inDate: string, outDate: string, rooms: int64) {
    Wrap64(Intersecting(a.reservations, inDate, outDate) + rooms) <= a.capacity
  }

  method CheckAvailability(a: HotelAvailability, inDate: string, outDate: string, rooms: int64) returns (ok: bool)
    ensures ok == Available(a, inDate, outDate, rooms)
  {
    var reservationsTheseDays := 0;
    for i := 0 to |a.reservations|
      invariant reservationsTheseDays == Intersecting(a.reservations[..i], inDate, outDate)
    {
      if DatesIntersect(inDate, outDate, a.reservations[i].inDate, a.reservations[i].outDate) {
        reservationsTheseDays := reservationsTheseDays + 1;
      }
      assert a.reservations[..i + 1][..i] == a.reservations[..i];
    }
    assert a.reservations[..|a.reservations|] == a.reservations;
    ok := Wrap64(reservationsTheseDays + rooms) <= a.capacity;
  }

  const MAX_RESERVATIONS := 10

  function Reserve(a: HotelAvailability, b: Booking): HotelAvailability {
    if !Available(a, b.inDate, b.outDate, b.roomNumber) then a
    else
      var kept := if |a.reservations| >= MAX_RESERVATIONS then a.reservations[1..] else a.reservations;
      a.(reservations := kept + [b])
  }

  // ---------- The object ----------

  /** Reading a missing hotel panics. */
  datatype Answer = Panicked | Answered(ok: bool)

  class Hotels {
    var store: map<string, HotelAvailability>

    constructor ()
      ensures store == map[]
    {
      store := map[];
    }

    method AddHotelAvailability(hotelId: string, capacity: int64)
      modifies this
      ensures store == old(store)[hotelId := HotelAvailability(capacity, [])]
    {
      store := store[hotelId := HotelAvailability(capacity, [])];
    }

    method MakeReservation(hotelId: string, b: Booking) returns (r: Answer)
      modifies this
      ensures r == Panicked <==> hotelId !in old(store)
      ensures r == Panicked ==> store == old(store)
      ensures r != Panicked ==>
                && r.ok == Available(old(store)[hotelId], b.inDate, b.outDate, b.roomNumber)
                && store == old(store)[hotelId := Reserve(old(store)[hotelId], b)]
    {
      if hotelId !in store { return Panicked; }
      var availability := store[hotelId];
      var available := CheckAvailability(availability, b.inDate, b.outDate, b.roomNumber);
      if !available { return Answered(false); }
      var reservations := availability.reservations;
      if |reservations| >= MAX_RESERVATIONS {
        reservations := reservations[1..];
      }
      store := store[hotelId := availability.(reservations := reservations + [b])];
      return Answered(true);
    }
  }

  // ---------- No day is over capacity ----------

  function Covering(rs: seq<Booking>, day: string): nat {
    if rs == [] then 0
    else Covering(rs[..|rs| - 1], day) + if Within(day, rs[|rs| - 1].inDate, rs[|rs| - 1].outDate) then 1 else 0
  }

  /** At most ten reservations are stored, and no day has more of them than the capacity. */
  ghost predicate Good(a: HotelAvailability) {
    && |a.reservations| <= MAX_RESERVATIONS
    && forall day :: Covering(a.reservations, day) <= if a.capacity < 0 then 0 else a.capacity
  }

  lemma {:induction false} CoveringIntersect(rs: seq<Booking>, inDate: string, outDate: string, day: string)
    requires Within(day, inDate, outDate)
    ensures Covering(rs, day) <= Intersecting(rs, inDate, outDate)
  {
    if rs != [] {
      var last := rs[|rs| - 1];
      CoveringIntersect(rs[..|rs| - 1], inDate, outDate, day);
      if Within(day, last.inDate, last.outDate) {
        NotLessTransitive(inDate, day, last.outDate);
        NotLessTransitive(last.inDate, day, outDate);
      }
    }
  }

  lemma {:induction false} DroppingOldest(rs: seq<Booking>, day: string)
    requires rs != []
    ensures Covering(rs[1..], day) <= Covering(rs, day)
  {
    if |rs| > 1 {
      DroppingOldest(rs[..|rs| - 1], day);
      assert rs[1..][..|rs| - 2] == rs[..|rs| - 1][1..];
    }
  }

  lemma {:induction false} IntersectingBound(rs: seq<Booking>, inDate: string, outDate: string)
    ensures Intersecting(rs, inDate, outDate) <= |rs|
  {
    if rs != [] { IntersectingBound(rs[..|rs| - 1], inDate, outDate); }
  }

  /** With these counts the sum cannot wrap while at most ten reservations are stored. */
  predicate SafeCount(rooms: int64) {
    1 <= rooms <= MAX_INT64 - MAX_RESERVATIONS
  }

  lemma ReserveKeepsGood(a: HotelAvailability, b: Booking)
    requires Good(a) && b.roomNumber >= 1
    requires Intersecting(a.reservations, b.inDate, b.outDate) + b.roomNumber <= MAX_INT64
    ensures Good(Reserve(a, b))
  {
    if Available(a, b.inDate, b.outDate, b.roomNumber) {
      var kept := if |a.reservations| >= MAX_RESERVATIONS then a.reservations[1..] else a.reservations;
      forall day ensures Covering(kept + [b], day) <= a.capacity {
        assert (kept + [b])[..|kept|] == kept;
        if a.reservations != [] { DroppingOldest(a.reservations, day); }
        if Within(day, b.inDate, b.outDate) {
          CoveringIntersect(a.reservations, b.inDate, b.outDate, day);
        }
      }
    }
  }

  lemma SafeCountKeepsGood(a: HotelAvailability, b: Booking)
    requires Good(a) && SafeCount(b.roomNumber)
    ensures Good(Reserve(a, b))
  {
    IntersectingBound(a.reservations, b.inDate, b.outDate);
    ReserveKeepsGood(a, b);
  }

  datatype Operation = AddHotel(hotelId: string, capacity: int64) | Book(hotelId: string, booking: Booking)

  function After(ops: seq<Operation>): map<string, HotelAvailability> {
    if ops == [] then map[]
    else
      var store := After(ops[..|ops| - 1]);
      match ops[|ops| - 1]
      case AddHotel(id, capacity) => store[id := HotelAvailability(capacity, [])]
      case Book(id, b) => if id in store then store[id := Reserve(store[id], b)] else store
  }

  /** Over every sequence of operations, including those that drop the oldest reservation. */
  lemma {:induction false} NoDayOverCapacity(ops: seq<Operation>, id: string)
    requires forall i :: 0 <= i < |ops| && ops[i].Book? ==> SafeCount(ops[i].booking.roomNumber)
    ensures id in After(ops) ==> Good(After(ops)[id])
  {
    if ops != [] {
      NoDayOverCapacity(ops[..|ops| - 1], id);
      var store := After(ops[..|ops| - 1]);
      var op := ops[|ops| - 1];
      if op.Book? && op.hotelId == id && id in store {
        SafeCountKeepsGood(store[id], op.booking);
      }
    }
  }

  // ---------- Which bookings are safe ----------

  lemma NoRoomOverfills(b: Booking)
    requires !Less(b.outDate, b.inDate) && b.roomNumber < 1
    ensures Good(HotelAvailability(0, [])) && !Good(Reserve(HotelAvailability(0, []), b))
  {
    var after := Reserve(HotelAvailability(0, []), b);
    assert after.reservations == [b] && [b][..0] == [];
    LessTotal(b.inDate, b.inDate);
    assert Covering([b], b.inDate) == 1;
  }

  /** A stay that ends before it begins covers no day. */
  lemma InvertedStayCoversNothing(b: Booking, day: string)
    requires Less(b.outDate, b.inDate)
    ensures !Within(day, b.inDate, b.outDate)
  {
    if Within(day, b.inDate, b.outDate) { NotLessTransitive(b.inDate, day, b.outDate); }
  }

  lemma InvertedStayKeepsGood(a: HotelAvailability, b: Booking)
    requires Good(a) && Less(b.outDate, b.inDate)
    ensures Good(Reserve(a, b))
  {
    if Available(a, b.inDate, b.outDate, b.roomNumber) {
      var kept := if |a.reservations| >= MAX_RESERVATIONS then a.reservations[1..] else a.reservations;
      forall day ensures Covering(kept + [b], day) <= Covering(a.reservations, day) {
        assert (kept + [b])[..|kept|] == kept;
        if a.reservations != [] { DroppingOldest(a.reservations, day); }
        InvertedStayCoversNothing(b, day);
      }
    }
  }

  lemma {:induction false} OneDayCounted(rs: seq<Booking>, day: string)
    ensures Covering(rs, day) == Intersecting(rs, day, day)
  {
    if rs != [] { OneDayCounted(rs[..|rs| - 1], day); }
  }

  lemma {:induction false} CoveringBound(rs: seq<Booking>, day: string)
    ensures Covering(rs, day) <= |rs|
  {
    if rs != [] { CoveringBound(rs[..|rs| - 1], day); }
  }

  /** When the sum wraps for a stay of one day, ten reservations cover that day already, and the
      hotel has room for ten. */
  lemma OneDayKeepsGood(a: HotelAvailability, b: Booking)
    requires Good(a) && b.inDate == b.outDate && b.roomNumber == MAX_INT64 - 9
    ensures Good(Reserve(a, b))
  {
    var rs := a.reservations;
    IntersectingBound(rs, b.inDate, b.outDate);
    if Intersecting(rs, b.inDate, b.outDate) < MAX_RESERVATIONS {
      ReserveKeepsGood(a, b);
    } else {
      OneDayCounted(rs, b.inDate);
      assert Covering(rs, b.inDate) == MAX_RESERVATIONS;
      forall day ensures Covering(rs[1..] + [b], day) <= a.capacity {
        assert (rs[1..] + [b])[..|rs| - 1] == rs[1..];
        DroppingOldest(rs, day);
        CoveringBound(rs[1..], day);
        if Within(day, b.inDate, b.outDate) { LessTotal(day, b.inDate); }
      }
    }
  }

  function Copies<T>(x: T, k: nat): seq<T> {
    seq(k, _ => x)
  }

  lemma {:induction false} CopiesCounted(rs: seq<Booking>, b: Booking, k: nat, inDate: string, outDate: string, day: string)
    ensures Intersecting(rs + Copies(b, k), inDate, outDate) ==
            Intersecting(rs, inDate, outDate) + if DatesIntersect(inDate, outDate, b.inDate, b.outDate) then k else 0
    ensures Covering(rs + Copies(b, k), day) == Covering(rs, day) + if Within(day, b.inDate, b.outDate) then k else 0
  {
    if k == 0 {
      assert rs + Copies(b, 0) == rs;
    } else {
      CopiesCounted(rs, b, k - 1, inDate, outDate, day);
      var all := rs + Copies(b, k);
      assert all[..|all| - 1] == rs + Copies(b, k - 1) && all[|all| - 1] == b;
    }
  }

  function OneNight(day: string): Booking {
    Booking("", day, day, 1)
  }

  lemma FullDayCounts(day: string, n: nat, b: Booking)
    requires Within(day, b.inDate, b.outDate)
    ensures forall d :: Covering(Copies(OneNight(day), n), d) <= n
    ensures Intersecting(Copies(OneNight(day), n), b.inDate, b.outDate) == n
    ensures Covering(Copies(OneNight(day), n) + [b], day) == n + 1
  {
    var one, rs := OneNight(day), Copies(OneNight(day), n);
    assert [] + rs == rs;
    LessTotal(day, day);
    forall d ensures Covering(rs, d) <= n { CopiesCounted([], one, n, b.inDate, b.outDate, d); }
    CopiesCounted([], one, n, b.inDate, b.outDate, day);
    assert (rs + [b])[..n] == rs;
  }

  /** A full day: as many stays of that day as the hotel takes, and a sum that wraps on top. */
  lemma WrapOverfills(b: Booking)
    requires !Less(b.outDate, b.inDate) && b.roomNumber > MAX_INT64 - 9
    ensures var n := MAX_INT64 - b.roomNumber + 1;
            var a := HotelAvailability(n, Copies(OneNight(b.inDate), n)); Good(a) && !Good(Reserve(a, b))
  {
    var n := MAX_INT64 - b.roomNumber + 1;
    var a := HotelAvailability(n, Copies(OneNight(b.inDate), n));
    LessTotal(b.inDate, b.inDate);
    FullDayCounts(b.inDate, n, b);
    WrappedSum(n, b.roomNumber);
    assert Reserve(a, b).reservations == a.reservations + [b];
  }

  lemma WrappedSum(n: nat, rooms: int64)
    requires n + rooms == MAX_INT64 + 1
    ensures Wrap64(n + rooms) < 0
  {}

  function NineAndOne(x: string, y: string): seq<Booking> {
    [OneNight(x)] + Copies(OneNight(y), 9)
  }

  lemma NineAndOneGood(x: string, y: string)
    requires x != y
    ensures Good(HotelAvailability(9, NineAndOne(x, y)))
  {
    var first := [OneNight(x)];
    assert first[..0] == [];
    forall day ensures Covering(NineAndOne(x, y), day) <= 9 {
      CopiesCounted(first, OneNight(y), 9, x, y, day);
      LessTotal(day, x);
      LessTotal(day, y);
    }
  }

  lemma NineAndOneIntersect(x: string, y: string)
    requires Less(x, y)
    ensures Intersecting(NineAndOne(x, y), x, y) == 10
  {
    var first := [OneNight(x)];
    assert first[..0] == [];
    CopiesCounted(first, OneNight(y), 9, x, y, x);
    LessTotal(x, y);
    LessTotal(x, x);
    LessTotal(y, y);
  }

  lemma TenOnOneDay(y: string, b: Booking)
    requires Within(y, b.inDate, b.outDate)
    ensures Covering(Copies(OneNight(y), 9) + [b], y) == 10
  {
    var rest := Copies(OneNight(y), 9);
    CopiesCounted([], OneNight(y), 9, y, y, y);
    LessTotal(y, y);
    assert [] + rest == rest && (rest + [b])[..9] == rest;
  }

  /** The oldest of ten stays leaves room on its own day only, and the new one spans both days. */
  lemma SpanOverfills(b: Booking)
    requires Less(b.inDate, b.outDate) && b.roomNumber == MAX_INT64 - 9
    ensures var a := HotelAvailability(9, NineAndOne(b.inDate, b.outDate)); Good(a) && !Good(Reserve(a, b))
  {
    var x, y := b.inDate, b.outDate;
    var a := HotelAvailability(9, NineAndOne(x, y));
    LessTotal(x, y);
    LessTotal(y, y);
    NineAndOneGood(x, y);
    NineAndOneIntersect(x, y);
    TenOnOneDay(y, b);
    assert a.reservations[1..] == Copies(OneNight(y), 9);
    assert Reserve(a, b).reservations == Copies(OneNight(y), 9) + [b];
  }

  /** Exactly which bookings are safe: those that keep every good hotel good ask for at least one
      room, and for few enough that the sum with ten reservations does not wrap (with nine, for a
      stay of one day), or end before they begin. */
  lemma AtLeastOneRoomIff(b: Booking)
    ensures (forall a :: Good(a) ==> Good(Reserve(a, b))) <==>
            || Less(b.outDate, b.inDate)
            || SafeCount(b.roomNumber)
            || (b.roomNumber == MAX_INT64 - 9 && b.inDate == b.outDate)
  {
    if Less(b.outDate, b.inDate) {
      forall a | Good(a) ensures Good(Reserve(a, b)) { InvertedStayKeepsGood(a, b); }
    } else if SafeCount(b.roomNumber) {
      forall a | Good(a) ensures Good(Reserve(a, b)) { SafeCountKeepsGood(a, b); }
    } else if b.roomNumber < 1 {
      NoRoomOverfills(b);
    } else if b.roomNumber > MAX_INT64 - 9 {
      WrapOverfills(b);
    } else if b.inDate == b.outDate {
      forall a | Good(a) ensures Good(Reserve(a, b)) { OneDayKeepsGood(a, b); }
    } else {
      LessTotal(b.inDate, b.outDate);
      SpanOverfills(b);
    }
  }

  // ---------- The same, over runs ----------

  ghost predicate Books(ops: seq<Operation>, counts: iset<int64>) {
    forall i :: 0 <= i < |ops| && ops[i].Book? ==> ops[i].booking.roomNumber in counts
  }

  ghost predicate EveryHotelGood(ops: seq<Operation>) {
    forall id :: id in After(ops) ==> Good(After(ops)[id])
  }

  lemma AfterOneMore(ops: seq<Operation>, id: string, b: Booking)
    requires id in After(ops)
    ensures id in After(ops + [Book(id, b)]) && After(ops + [Book(id, b)])[id] == Reserve(After(ops)[id], b)
  {
    assert (ops + [Book(id, b)])[..|ops|] == ops;
  }

  lemma AfterAdding(id: string, capacity: int64)
    ensures After([AddHotel(id, capacity)]) == map[id := HotelAvailability(capacity, [])]
  {
    assert [AddHotel(id, capacity)][..0] == [];
  }

  lemma NoCopies<T>(s: seq<T>, x: T)
    ensures s + Copies(x, 0) == s
  {}

  lemma CopiesOneMore<T>(s: seq<T>, x: T, k: nat)
    ensures s + Copies(x, k + 1) == s + Copies(x, k) + [x]
  {}

  lemma ReserveOneMore(a: HotelAvailability, day: string, k: nat)
    requires Intersecting(a.reservations, day, day) + k < a.capacity && |a.reservations| + k < MAX_RESERVATIONS
    ensures Reserve(a.(reservations := a.reservations + Copies(OneNight(day), k)), OneNight(day)) ==
            a.(reservations := a.reservations + Copies(OneNight(day), k + 1))
  {
    CopiesCounted(a.reservations, OneNight(day), k, day, day, day);
    LessTotal(day, day);
    CopiesOneMore(a.reservations, OneNight(day), k);
  }

  lemma AfterCopiesStep(ops: seq<Operation>, id: string, a: HotelAvailability, day: string, k: nat)
    requires id in After(ops) && After(ops)[id] == a.(reservations := a.reservations + Copies(OneNight(day), k))
    requires Intersecting(a.reservations, day, day) + k < a.capacity && |a.reservations| + k < MAX_RESERVATIONS
    ensures var all := ops + [Book(id, OneNight(day))];
            id in After(all) && After(all)[id] == a.(reservations := a.reservations + Copies(OneNight(day), k + 1))
  {
    ReserveOneMore(a, day, k);
    AfterOneMore(ops, id, OneNight(day));
  }

  lemma {:induction false} AfterCopies(ops: seq<Operation>, id: string, a: HotelAvailability, day: string, k: nat)
    requires id in After(ops) && After(ops)[id] == a
    requires Intersecting(a.reservations, day, day) + k <= a.capacity && |a.reservations| + k <= MAX_RESERVATIONS
    ensures var all := ops + Copies(Book(id, OneNight(day)), k);
            id in After(all) && After(all)[id] == a.(reservations := a.reservations + Copies(OneNight(day), k))
  {
    var book := Book(id, OneNight(day));
    if k == 0 {
      NoCopies(ops, book);
      NoCopies(a.reservations, OneNight(day));
    } else {
      AfterCopies(ops, id, a, day, k - 1);
      AfterCopiesStep(ops + Copies(book, k - 1), id, a, day, k - 1);
      CopiesOneMore(ops, book, k - 1);
    }
  }

  lemma NoRoomRun(n: int64) returns (ops: seq<Operation>)
    requires n < 1
    ensures Books(ops, iset{n}) && !EveryHotelGood(ops)
  {
    var b := Booking("", "", "", n);
    ops := [AddHotel("h", 0)] + [Book("h", b)];
    AfterAdding("h", 0);
    AfterOneMore([AddHotel("h", 0)], "h", b);
    NoRoomOverfills(b);
    assert !Good(After(ops)["h"]);
  }

  lemma AfterFullDay(id: string, k: int64, day: string)
    requires 0 <= k <= MAX_RESERVATIONS
    ensures var store := After([AddHotel(id, k)] + Copies(Book(id, OneNight(day)), k));
            id in store && store[id] == HotelAvailability(k, Copies(OneNight(day), k))
  {
    AfterAdding(id, k);
    AfterCopies([AddHotel(id, k)], id, HotelAvailability(k, []), day, k);
    assert [] + Copies(OneNight(day), k) == Copies(OneNight(day), k);
  }

  lemma FullDayRun(n: int64) returns (ops: seq<Operation>)
    requires n > MAX_INT64 - 9
    ensures Books(ops, iset{1, n}) && !EveryHotelGood(ops)
  {
    var b, k := Booking("", "", "", n), MAX_INT64 - n + 1;
    var full := [AddHotel("h", k)] + Copies(Book("h", OneNight("")), k);
    AfterFullDay("h", k, "");
    AfterOneMore(full, "h", b);
    WrapOverfills(b);
    ops := full + [Book("h", b)];
    assert !Good(After(ops)["h"]);
  }

  lemma AfterFirst(id: string, capacity: int64, day: string)
    requires capacity >= 1
    ensures After([AddHotel(id, capacity)] + [Book(id, OneNight(day))]) == map[id := HotelAvailability(capacity, [OneNight(day)])]
  {
    AfterAdding(id, capacity);
    var ops := [AddHotel(id, capacity)] + [Book(id, OneNight(day))];
    assert ops[..1] == [AddHotel(id, capacity)];
    assert Reserve(HotelAvailability(capacity, []), OneNight(day)) == HotelAvailability(capacity, [OneNight(day)]);
  }

  lemma TwoDaysRun(n: int64) returns (ops: seq<Operation>)
    requires n == MAX_INT64 - 9
    ensures Books(ops, iset{1, n}) && !EveryHotelGood(ops)
  {
    var b, first := Booking("", "", "a", n), OneNight("");
    var one := [AddHotel("h", 9)] + [Book("h", first)];
    AfterFirst("h", 9, "");
    assert [first][..0] == [] && Less("", "a");
    assert Intersecting([first], "a", "a") == 0;
    AfterCopies(one, "h", HotelAvailability(9, [first]), "a", 9);
    AfterOneMore(one + Copies(Book("h", OneNight("a")), 9), "h", b);
    SpanOverfills(b);
    ops := one + Copies(Book("h", OneNight("a")), 9) + [Book("h", b)];
    assert !Good(After(ops)["h"]);
  }

  /** Wherever the count is not safe, a run of bookings of one room and a last one of that count
      puts some day over capacity. */
  lemma UnsafeCountOverfills(n: int64) returns (ops: seq<Operation>)
    requires !SafeCount(n)
    ensures Books(ops, iset{1, n}) && !EveryHotelGood(ops)
  {
    if n < 1 {
      ops := NoRoomRun(n);
    } else if n > MAX_INT64 - 9 {
      ops := FullDayRun(n);
    } else {
      ops := TwoDaysRun(n);
    }
  }

  /** For any set of room counts that contains one: every run that books only such counts keeps each
      day of each hotel within capacity, if and only if all the counts are safe. */
  lemma NoDayOverCapacityIff(counts: iset<int64>)
    requires 1 in counts
    ensures (forall ops :: Books(ops, counts) ==> EveryHotelGood(ops)) <==> forall n :: n in counts ==> SafeCount(n)
  {
    if n :| n in counts && !SafeCount(n) {
      var ops := UnsafeCountOverfills(n);
      assert Books(ops, counts);
    } else {
      forall ops | Books(ops, counts) ensures EveryHotelGood(ops) {
        forall id | id in After(ops) ensures Good(After(ops)[id]) { NoDayOverCapacity(ops, id); }
      }
    }
  }

  /** One room of one, and then the largest count there is: granted, on the same day. */
  lemma LargestCountGranted(id: string, day: string)
    ensures var b := Booking("", day, day, MAX_INT64);
            var store := After([AddHotel(id, 1)] + [Book(id, OneNight(day))] + [Book(id, b)]);
            id in store && store[id].capacity == 1 && Covering(store[id].reservations, day) == 2
  {
    var one, b := OneNight(day), Booking("", day, day, MAX_INT64);
    AfterFirst(id, 1, day);
    AfterOneMore([AddHotel(id, 1)] + [Book(id, one)], id, b);
    LessTotal(day, day);
    assert [one][..0] == [] && [one, b][..1] == [one];
    assert Intersecting([one], day, day) == 1 && Covering([one], day) == 1;
    assert Reserve(HotelAvailability(1, [one]), b) == HotelAvailability(1, [one, b]);
  }

  // ---------- Rooms are not what is counted ----------

  function RoomsBooked(rs: seq<Booking>, day: string): int {
    if rs == [] then 0
    else RoomsBooked(rs[..|rs| - 1], day) +
         (if Within(day, rs[|rs| - 1].inDate, rs[|rs| - 1].outDate) then rs[|rs| - 1].roomNumber else 0)
  }

  ghost predicate RoomsWithinCapacity(a: HotelAvailability) {
    forall day :: RoomsBooked(a.reservations, day) <= if a.capacity < 0 then 0 else a.capacity
  }

  ghost predicate EveryHotelWithinCapacity(ops: seq<Operation>) {
    forall id :: id in After(ops) ==> RoomsWithinCapacity(After(ops)[id])
  }

  lemma FirstBooking(n: int64, b: Booking)
    requires b.roomNumber <= n
    ensures Reserve(HotelAvailability(n, []), b) == HotelAvailability(n, [b])
  {}

  lemma SecondBooking(n: int64, b1: Booking, b2: Booking)
    requires b2.roomNumber <= n - 1 || (b2.roomNumber == n == MAX_INT64)
    ensures Reserve(HotelAvailability(n, [b1]), b2) == HotelAvailability(n, [b1, b2])
  {
    assert [b1][..0] == [];
    IntersectingBound([b1], b2.inDate, b2.outDate);
  }

  lemma RoomsOfTwo(b1: Booking, b2: Booking, day: string)
    requires Within(day, b1.inDate, b1.outDate) && Within(day, b2.inDate, b2.outDate)
    ensures RoomsBooked([b1, b2], day) == b1.roomNumber + b2.roomNumber
  {
    assert [b1, b2][..1] == [b1] && [b1][..0] == [];
    assert RoomsBooked([b1], day) == b1.roomNumber;
  }

  lemma AfterTwoBookings(id: string, capacity: int64, b1: Booking, b2: Booking)
    requires b1.roomNumber <= capacity && (b2.roomNumber <= capacity - 1 || b2.roomNumber == capacity == MAX_INT64)
    ensures After([AddHotel(id, capacity), Book(id, b1), Book(id, b2)]) == map[id := HotelAvailability(capacity, [b1, b2])]
  {
    var ops := [AddHotel(id, capacity), Book(id, b1), Book(id, b2)];
    var two := [AddHotel(id, capacity), Book(id, b1)];
    var one := [AddHotel(id, capacity)];
    assert ops[..2] == two && two[..1] == one && one[..0] == [];
    FirstBooking(capacity, b1);
    SecondBooking(capacity, b1, b2);
    assert After(one) == map[id := HotelAvailability(capacity, [])];
    assert After(two) == map[id := HotelAvailability(capacity, [b1])];
  }

  /** An earlier booking counts once however many rooms it holds: after one booking of all `n` rooms
      (two or more), one more room is granted for the same days. */
  lemma RoomsOverbooked(n: int64, id: string, inDate: string, outDate: string, customer: string)
    requires n >= 2 && !Less(outDate, inDate)
    ensures var b1, b2 := Booking(customer, inDate, outDate, n), Booking(customer, inDate, outDate, 1);
            var store := After([AddHotel(id, n), Book(id, b1), Book(id, b2)]);
            id in store && RoomsBooked(store[id].reservations, inDate) == n + 1 > store[id].capacity
  {
    var b1, b2 := Booking(customer, inDate, outDate, n), Booking(customer, inDate, outDate, 1);
    AfterTwoBookings(id, n, b1, b2);
    LessTotal(inDate, inDate);
    RoomsOfTwo(b1, b2, inDate);
  }

  /** Two bookings of `n` rooms are granted where `n + 1` rooms are, or all that a number can count. */
  lemma TwoBookingsOverfill(n: int64) returns (ops: seq<Operation>)
    requires n >= 2
    ensures Books(ops, iset{n}) && !EveryHotelWithinCapacity(ops)
  {
    var b, capacity: int64 := Booking("", "", "", n), if n == MAX_INT64 then n else n + 1;
    ops := [AddHotel("h", capacity), Book("h", b), Book("h", b)];
    AfterTwoBookings("h", capacity, b, b);
    RoomsOfTwo(b, b, "");
    assert After(ops)["h"].reservations == [b, b];
    assert RoomsBooked(After(ops)["h"].reservations, "") == 2 * n;
  }

  /** The reservations covering a day that hold any room. */
  function Occupying(rs: seq<Booking>, day: string): nat {
    if rs == [] then 0
    else
      var last := rs[|rs| - 1];
      Occupying(rs[..|rs| - 1], day) + if last.roomNumber >= 1 && Within(day, last.inDate, last.outDate) then 1 else 0
  }

  lemma {:induction false} OccupyingBounds(rs: seq<Booking>, day: string)
    ensures Occupying(rs, day) <= Covering(rs, day)
    ensures (forall i :: 0 <= i < |rs| ==> rs[i].roomNumber <= 1) ==> RoomsBooked(rs, day) <= Occupying(rs, day)
  {
    if rs != [] { OccupyingBounds(rs[..|rs| - 1], day); }
  }

  lemma {:induction false} OccupyingWithoutOldest(rs: seq<Booking>, day: string)
    requires rs != []
    ensures Occupying(rs[1..], day) <= Occupying(rs, day)
  {
    if |rs| > 1 {
      OccupyingWithoutOldest(rs[..|rs| - 1], day);
      assert rs[1..][..|rs| - 2] == rs[..|rs| - 1][1..];
    }
  }

  /** Bookings of at most one room each: those that hold a room are within the capacity every day. */
  ghost predicate Spaced(a: HotelAvailability) {
    && |a.reservations| <= MAX_RESERVATIONS
    && (forall i :: 0 <= i < |a.reservations| ==> a.reservations[i].roomNumber <= 1)
    && forall day :: Occupying(a.reservations, day) <= if a.capacity < 0 then 0 else a.capacity
  }

  lemma OneRoomSum(a: HotelAvailability, b: Booking)
    requires |a.reservations| <= MAX_RESERVATIONS && b.roomNumber <= 1
    ensures Available(a, b.inDate, b.outDate, b.roomNumber) <==>
            Intersecting(a.reservations, b.inDate, b.outDate) + b.roomNumber <= a.capacity
  {
    IntersectingBound(a.reservations, b.inDate, b.outDate);
  }

  lemma OccupyingKept(a: HotelAvailability, b: Booking, kept: seq<Booking>, day: string)
    requires Spaced(a) && Intersecting(a.reservations, b.inDate, b.outDate) + b.roomNumber <= a.capacity
    requires kept == a.reservations || (a.reservations != [] && kept == a.reservations[1..])
    ensures Occupying(kept + [b], day) <= if a.capacity < 0 then 0 else a.capacity
  {
    assert (kept + [b])[..|kept|] == kept;
    if a.reservations != [] { OccupyingWithoutOldest(a.reservations, day); }
    if b.roomNumber >= 1 && Within(day, b.inDate, b.outDate) {
      CoveringIntersect(a.reservations, b.inDate, b.outDate, day);
      OccupyingBounds(a.reservations, day);
    }
  }

  lemma ReserveKeepsSpaced(a: HotelAvailability, b: Booking)
    requires Spaced(a) && b.roomNumber <= 1
    ensures Spaced(Reserve(a, b))
  {
    OneRoomSum(a, b);
    if Available(a, b.inDate, b.outDate, b.roomNumber) {
      var kept := if |a.reservations| >= MAX_RESERVATIONS then a.reservations[1..] else a.reservations;
      forall day ensures Occupying(kept + [b], day) <= if a.capacity < 0 then 0 else a.capacity {
        OccupyingKept(a, b, kept, day);
      }
    }
  }

  lemma {:induction false} SingleRoomRunsSpaced(ops: seq<Operation>, id: string)
    requires forall i :: 0 <= i < |ops| && ops[i].Book? ==> ops[i].booking.roomNumber <= 1
    ensures id in After(ops) ==> Spaced(After(ops)[id])
  {
    if ops != [] {
      SingleRoomRunsSpaced(ops[..|ops| - 1], id);
      var store := After(ops[..|ops| - 1]);
      var op := ops[|ops| - 1];
      if op.Book? && op.hotelId == id && id in store {
        ReserveKeepsSpaced(store[id], op.booking);
      }
    }
  }

  /** So the rooms booked stay within the capacity on every run that books one room at a time. */
  lemma SingleRoomRunsWithinCapacity(ops: seq<Operation>)
    requires forall i :: 0 <= i < |ops| && ops[i].Book? ==> ops[i].booking.roomNumber <= 1
    ensures EveryHotelWithinCapacity(ops)
  {
    forall id | id in After(ops) ensures RoomsWithinCapacity(After(ops)[id]) {
      SingleRoomRunsSpaced(ops, id);
      forall day ensures RoomsBooked(After(ops)[id].reservations, day) <= Occupying(After(ops)[id].reservations, day) {
        OccupyingBounds(After(ops)[id].reservations, day);
      }
    }
  }

  /** For any set of room counts: all runs that book only such counts stay within the capacity, every
      hotel on every day, if and only if none of the counts is above one. */
  lemma RoomsWithinCapacityIff(counts: iset<int64>)
    ensures (forall ops :: Books(ops, counts) ==> EveryHotelWithinCapacity(ops)) <==> forall n :: n in counts ==> n <= 1
  {
    if n :| n in counts && n > 1 {
      var ops := TwoBookingsOverfill(n);
      assert Books(ops, counts);
    } else {
      forall ops | Books(ops, counts) ensures EveryHotelWithinCapacity(ops) {
        SingleRoomRunsWithinCapacity(ops);
      }
    }
  }
}
