/** Amounts of money and the order total (internal/boutique/checkout.go), with Go's truncated
    division and 32- and 64-bit wrap-around. */
module Checkout {

  import opened GoInt

  const NANOS_MOD := 1_000_000_000

  /** Division by NANOS_MOD that truncates toward zero, and its remainder. */
  function TruncDiv(a: int): int {
    if a >= 0 then a / NANOS_MOD else -(-a / NANOS_MOD)
  }

  function TruncMod(a: int): int {
    a - TruncDiv(a) * NANOS_MOD
  }

  /** The only division that truncates: the remainder has the sign of the dividend. */
  lemma TruncatedDivision(a: int, q: int, r: int)
    ensures q == TruncDiv(a) && r == TruncMod(a) <==>
            a == q * NANOS_MOD + r && -NANOS_MOD < r < NANOS_MOD && (r == 0 || (r > 0 <==> a > 0))
  {}

  datatype Money = Money(currency: string, units: int32, nanos: int64)

  datatype OrderItem = OrderItem(quantity: int32, cost: Money)

  function SumOf(l: Money, r: Money): Money {
    var units, nanos := Wrap32(l.units + r.units), Wrap64(l.nanos + r.nanos);
    if (units == 0 && nanos == 0) || (units > 0 && nanos >= 0) || (units < 0 && nanos <= 0)
    then Money(l.currency, Wrap32(units + Wrap32(TruncDiv(nanos))), Wrap64(TruncMod(nanos)))
    else if units > 0 then Money(l.currency, units - 1, Wrap64(nanos + NANOS_MOD))
    else Money(l.currency, units + 1, Wrap64(nanos - NANOS_MOD))
  }

  method Sum(l: Money, r: Money) returns (m: Money)
    ensures m == SumOf(l, r)
  {
    var units := Wrap32(l.units + r.units);
    var nanos := Wrap64(l.nanos + r.nanos);
    if (units == 0 && nanos == 0) || (units > 0 && nanos >= 0) || (units < 0 && nanos <= 0) {
      units := Wrap32(units + Wrap32(TruncDiv(nanos)));
      nanos := Wrap64(TruncMod(nanos));
    } else if units > 0 {
      units := units - 1;
      nanos := Wrap64(nanos + NANOS_MOD);
    } else {
      units := units + 1;
      nanos := Wrap64(nanos - NANOS_MOD);
    }
    m := Money(l.currency, units, nanos);
  }

  function Value(m: Money): int {
    m.units * NANOS_MOD + m.nanos
  }

  predicate InRange(m: Money) {
    m.units >= 0 && -NANOS_MOD < m.nanos < NANOS_MOD && Value(m) >= 0
  }

  /** The units, with the carry, still fit in 32 bits. */
  predicate Fits(l: Money, r: Money) {
    l.units + r.units + TruncDiv(l.nanos + r.nanos) <= MAX_INT32
  }

  predicate SmallNanos(m: Money) {
    -NANOS_MOD < m.nanos < NANOS_MOD
  }

  lemma WrapOnce(x: int)
    requires -0x1_0000_0000 <= x < 0x1_0000_0000
    ensures Wrap32(x) == if x > MAX_INT32 then x - 0x1_0000_0000 else if x < -0x8000_0000 then x + 0x1_0000_0000 else x
  {}

  lemma SmallQuotient(n: int)
    requires -2 * NANOS_MOD < n < 2 * NANOS_MOD
    ensures TruncDiv(n) == if n >= NANOS_MOD then 1 else if n <= -NANOS_MOD then -1 else 0
  {}

  /** The branches of Sum without division, for nanos below one unit. */
  lemma SumCases(l: Money, r: Money)
    requires SmallNanos(l) && SmallNanos(r)
    ensures var u, n, s := Wrap32(l.units + r.units), l.nanos + r.nanos, SumOf(l, r);
            && s.currency == l.currency && ((u == 0 && n < 0) || SmallNanos(s))
            && (((u == 0 && n == 0) || (u > 0 && n >= 0) || (u < 0 && n <= 0)) ==>
                  if n >= NANOS_MOD then s.units == Wrap32(u + 1) && s.nanos == n - NANOS_MOD
                  else if n <= -NANOS_MOD then s.units == Wrap32(u - 1) && s.nanos == n + NANOS_MOD
                  else s.units == u && s.nanos == n)
            && (u > 0 && n < 0 ==> s.units == u - 1 && s.nanos == n + NANOS_MOD)
            && (u <= 0 && n > 0 ==> s.units == u + 1 && s.nanos == n - NANOS_MOD)
  {
    SmallQuotient(l.nanos + r.nanos);
  }

  /** The range is closed under addition and the value is conserved, exactly when the units fit. */
  lemma SumConserves(l: Money, r: Money)
    requires InRange(l) && InRange(r)
    ensures Value(SumOf(l, r)) == Value(l) + Value(r) <==> Fits(l, r)
    ensures Fits(l, r) ==> InRange(SumOf(l, r))
  {
    SumCases(l, r);
    SmallQuotient(l.nanos + r.nanos);
    WrapOnce(l.units + r.units);
  }

  /** Nothing in the sum wraps. */
  predicate NothingWraps(l: Money, r: Money) {
    var u, n := l.units + r.units, l.nanos + r.nanos;
    && Wrap32(u) == u && Wrap64(n) == n
    && -0x8000_0000 <= u + TruncDiv(n) <= MAX_INT32 && Wrap32(TruncDiv(n)) == TruncDiv(n)
  }

  /** Amounts of any signs and nanos: where nothing wraps, the value is conserved through every branch,
      and amounts of less than a unit in nanos give such an amount, unless a negative number of nanos
      is all there is. */
  lemma SumConservesAnySign(l: Money, r: Money)
    requires NothingWraps(l, r)
    ensures Value(SumOf(l, r)) == Value(l) + Value(r) && SumOf(l, r).currency == l.currency
    ensures SmallNanos(l) && SmallNanos(r) && !(l.units + r.units == 0 && l.nanos + r.nanos < 0) ==> SmallNanos(SumOf(l, r))
  {
    TruncatedDivision(l.nanos + r.nanos, TruncDiv(l.nanos + r.nanos), TruncMod(l.nanos + r.nanos));
  }

  lemma ValueBoundFits(l: Money, r: Money)
    requires InRange(l) && InRange(r) && Value(l) + Value(r) <= MAX_INT32 * NANOS_MOD
    ensures Fits(l, r)
  {
    SmallQuotient(l.nanos + r.nanos);
  }

  lemma StepConserves(l: Money, r: Money)
    requires InRange(l) && InRange(r) && Value(l) + Value(r) <= MAX_INT32 * NANOS_MOD
    ensures InRange(SumOf(l, r)) && Value(SumOf(l, r)) == Value(l) + Value(r) && SumOf(l, r).currency == l.currency
  {
    ValueBoundFits(l, r);
    SumConserves(l, r);
  }

  // ---------- Repeated addition ----------

  function Times(m: Money, n: uint32): Money {
    if n <= 1 then m else SumOf(Times(m, n - 1), m)
  }

  method MultiplySlow(m: Money, count: uint32) returns (out: Money)
    ensures out == Times(m, count)
  {
    out := m;
    var n := count;
    while n > 1
      invariant count <= 1 ==> n == count && out == m
      invariant count > 1 ==> 1 <= n <= count && out == Times(m, count - n + 1)
      decreases n
    {
      out := Sum(out, m);
      n := n - 1;
    }
  }

  function AtLeastOnce(n: uint32): uint32 {
    if n == 0 then 1 else n
  }

  lemma OnceMore(n: int, v: int)
    ensures (n - 1) * v + v == n * v
  {}

  lemma MoreIsMore(a: nat, b: nat, v: nat)
    requires a <= b
    ensures a * v <= b * v
  {}

  lemma {:induction false} TimesConserves(m: Money, n: uint32)
    requires InRange(m) && AtLeastOnce(n) * Value(m) <= MAX_INT32 * NANOS_MOD
    ensures InRange(Times(m, n)) && Times(m, n).currency == m.currency
    ensures Value(Times(m, n)) == AtLeastOnce(n) * Value(m)
  {
    if n > 1 {
      MoreIsMore(n - 1, n, Value(m));
      OnceMore(n, Value(m));
      TimesConserves(m, n - 1);
      StepConserves(Times(m, n - 1), m);
    }
  }

  // ---------- The order total ----------

  function TotalOf(currency: string, shipping: Money, items: seq<OrderItem>): Money {
    if items == [] then SumOf(Money(currency, 0, 0), shipping)
    else
      var it := items[|items| - 1];
      SumOf(TotalOf(currency, shipping, items[..|items| - 1]), Times(it.cost, ToUint32(it.quantity)))
  }

  /** The part of PlaceOrder that computes the amount charged. */
  method OrderTotal(currency: string, shipping: Money, items: seq<OrderItem>) returns (total: Money)
    ensures total == TotalOf(currency, shipping, items)
  {
    total := Money(currency, 0, 0);
    total := Sum(total, shipping);
    for i := 0 to |items|
      invariant total == TotalOf(currency, shipping, items[..i])
    {
      var multPrice := MultiplySlow(items[i].cost, ToUint32(items[i].quantity));
      total := Sum(total, multPrice);
      assert items[..i + 1][..i] == items[..i];
    }
    assert items[..|items|] == items;
  }

  /** The price: each item as often as its quantity says, and at least once. */
  function Price(shipping: Money, items: seq<OrderItem>): int {
    if items == [] then Value(shipping)
    else
      var it := items[|items| - 1];
      Price(shipping, items[..|items| - 1]) + (if it.quantity > 1 then it.quantity else 1) * Value(it.cost)
  }

  /** What the fold asks for: the quantity is converted to an unsigned number first. */
  function Charge(shipping: Money, items: seq<OrderItem>): int {
    if items == [] then Value(shipping)
    else
      var it := items[|items| - 1];
      Charge(shipping, items[..|items| - 1]) + AtLeastOnce(ToUint32(it.quantity)) * Value(it.cost)
  }

  predicate AllInRange(shipping: Money, items: seq<OrderItem>) {
    InRange(shipping) && forall i :: 0 <= i < |items| ==> InRange(items[i].cost)
  }

  predicate NegativesAreFree(items: seq<OrderItem>) {
    forall i :: 0 <= i < |items| && items[i].quantity < 0 ==> Value(items[i].cost) == 0
  }

  lemma CopiesAgreeIff(q: int32, v: nat)
    ensures var asked, charged := (if q > 1 then q else 1) * v, AtLeastOnce(ToUint32(q)) * v;
            0 <= asked <= charged && (asked == charged <==> q >= 0 || v == 0)
  {
    if q < 0 {
      assert AtLeastOnce(ToUint32(q)) == q + 0x1_0000_0000 >= 2;
      MoreIsMore(2, q + 0x1_0000_0000, v);
    }
  }

  /** The fold asks for the price, no less and exactly when negative quantities are of free items. */
  lemma {:induction false} ChargeIsPriceIff(shipping: Money, items: seq<OrderItem>)
    requires AllInRange(shipping, items)
    ensures 0 <= Price(shipping, items) <= Charge(shipping, items)
    ensures Charge(shipping, items) == Price(shipping, items) <==> NegativesAreFree(items)
  {
    if items != [] {
      var front, it := items[..|items| - 1], items[|items| - 1];
      ChargeIsPriceIff(shipping, front);
      CopiesAgreeIff(it.quantity, Value(it.cost));
    }
  }

  // ---------- Whether every addition fits ----------

  predicate TimesFit(m: Money, n: uint32) {
    n <= 1 || (TimesFit(m, n - 1) && Fits(Times(m, n - 1), m))
  }

  predicate OrderFits(currency: string, shipping: Money, items: seq<OrderItem>) {
    if items == [] then Fits(Money(currency, 0, 0), shipping)
    else
      var front, it := items[..|items| - 1], items[|items| - 1];
      var n := ToUint32(it.quantity);
      OrderFits(currency, shipping, front) && TimesFit(it.cost, n) && Fits(TotalOf(currency, shipping, front), Times(it.cost, n))
  }

  predicate Exact(m: Money, value: int) {
    InRange(m) && Value(m) == value
  }

  /** Wrapped once, in the last unit below 2^31: such an amount stays wrapped. */
  predicate Wrapped(m: Money, value: int) {
    m.units == -0x8000_0000 && -NANOS_MOD < m.nanos < 0 && Value(m) == value - 0x1_0000_0000 * NANOS_MOD
  }

  lemma SumExactIff(l: Money, r: Money, x: int, y: int)
    requires Exact(l, x) && Exact(r, y) && x + y < (MAX_INT32 + 1) * NANOS_MOD
    ensures if Fits(l, r) then Exact(SumOf(l, r), x + y) else Wrapped(SumOf(l, r), x + y)
  {
    SumConserves(l, r);
    if !Fits(l, r) {
      SumCases(l, r);
      SmallQuotient(l.nanos + r.nanos);
      WrapOnce(l.units + r.units);
    }
  }

  lemma SumStaysWrapped(l: Money, r: Money, x: int, y: int)
    requires Wrapped(l, x) && (Exact(r, y) || Wrapped(r, y)) && x + y < (MAX_INT32 + 1) * NANOS_MOD
    ensures Wrapped(SumOf(l, r), x + y) && Wrapped(SumOf(r, l), x + y)
  {
    SumCases(l, r);
    SumCases(r, l);
    WrapOnce(l.units + r.units);
  }

  lemma SumExactOrWrapped(l: Money, r: Money, x: int, y: int, lFits: bool, rFits: bool)
    requires if lFits then Exact(l, x) else Wrapped(l, x)
    requires if rFits then Exact(r, y) else Wrapped(r, y)
    requires x + y < (MAX_INT32 + 1) * NANOS_MOD
    ensures if lFits && rFits && Fits(l, r) then Exact(SumOf(l, r), x + y) else Wrapped(SumOf(l, r), x + y)
  {
    if lFits && rFits {
      SumExactIff(l, r, x, y);
    } else if lFits {
      SumStaysWrapped(r, l, y, x);
    } else {
      SumStaysWrapped(l, r, x, y);
    }
  }

  lemma TimesStep(m: Money, n: uint32, x: int)
    requires n > 1 && InRange(m) && x + Value(m) < (MAX_INT32 + 1) * NANOS_MOD
    requires if TimesFit(m, n - 1) then Exact(Times(m, n - 1), x) else Wrapped(Times(m, n - 1), x)
    ensures if TimesFit(m, n) then Exact(Times(m, n), x + Value(m)) else Wrapped(Times(m, n), x + Value(m))
  {
    SumExactOrWrapped(Times(m, n - 1), m, x, Value(m), TimesFit(m, n - 1), true);
  }

  lemma {:induction false} TimesExactOrWrapped(m: Money, n: uint32)
    requires InRange(m) && AtLeastOnce(n) * Value(m) < (MAX_INT32 + 1) * NANOS_MOD
    ensures var product := AtLeastOnce(n) * Value(m);
            if TimesFit(m, n) then Exact(Times(m, n), product) else Wrapped(Times(m, n), product)
  {
    if n > 1 {
      MoreIsMore(n - 1, n, Value(m));
      OnceMore(n, Value(m));
      TimesExactOrWrapped(m, n - 1);
      TimesStep(m, n, (n - 1) * Value(m));
    }
  }

  lemma {:induction false} TotalExactOrWrapped(currency: string, shipping: Money, items: seq<OrderItem>)
    requires AllInRange(shipping, items) && Charge(shipping, items) < (MAX_INT32 + 1) * NANOS_MOD
    ensures var total, charge := TotalOf(currency, shipping, items), Charge(shipping, items);
            if OrderFits(currency, shipping, items) then Exact(total, charge) else Wrapped(total, charge)
  {
    if items == [] {
      SumExactOrWrapped(Money(currency, 0, 0), shipping, 0, Value(shipping), true, true);
    } else {
      var front, it := items[..|items| - 1], items[|items| - 1];
      var n := ToUint32(it.quantity);
      ChargeIsPriceIff(shipping, front);
      MoreIsMore(0, AtLeastOnce(n), Value(it.cost));
      TotalExactOrWrapped(currency, shipping, front);
      TimesExactOrWrapped(it.cost, n);
      SumExactOrWrapped(TotalOf(currency, shipping, front), Times(it.cost, n), Charge(shipping, front), AtLeastOnce(n) * Value(it.cost),
                        OrderFits(currency, shipping, front), TimesFit(it.cost, n));
    }
  }

  lemma {:induction false} TimesFitBounds(m: Money, n: uint32)
    requires InRange(m) && TimesFit(m, n)
    ensures Exact(Times(m, n), AtLeastOnce(n) * Value(m))
  {
    if n > 1 {
      TimesFitBounds(m, n - 1);
      OnceMore(n, Value(m));
      SumConserves(Times(m, n - 1), m);
    }
  }

  /** Through every sign branch and every pass, nothing is gained or lost while the additions fit. */
  lemma {:induction false} OrderTotalConserved(currency: string, shipping: Money, items: seq<OrderItem>)
    requires AllInRange(shipping, items) && OrderFits(currency, shipping, items)
    ensures Exact(TotalOf(currency, shipping, items), Charge(shipping, items))
    ensures TotalOf(currency, shipping, items).currency == currency
  {
    if items == [] {
      SumConserves(Money(currency, 0, 0), shipping);
    } else {
      var front, it := items[..|items| - 1], items[|items| - 1];
      var n := ToUint32(it.quantity);
      OrderTotalConserved(currency, shipping, front);
      TimesFitBounds(it.cost, n);
      SumConserves(TotalOf(currency, shipping, front), Times(it.cost, n));
    }
  }

  /** For every order: the fold computes what it asks for, in range, if and only if no addition
      overflows. */
  lemma OrderTotalRightIff(currency: string, shipping: Money, items: seq<OrderItem>)
    requires AllInRange(shipping, items)
    ensures Exact(TotalOf(currency, shipping, items), Charge(shipping, items)) <==> OrderFits(currency, shipping, items)
  {
    if OrderFits(currency, shipping, items) {
      OrderTotalConserved(currency, shipping, items);
    } else if Charge(shipping, items) < (MAX_INT32 + 1) * NANOS_MOD {
      TotalExactOrWrapped(currency, shipping, items);
    }
  }

  /** When no addition overflows, the total is the price if and only if every item of negative
      quantity is free. */
  lemma TotalIsPriceIff(currency: string, shipping: Money, items: seq<OrderItem>)
    requires AllInRange(shipping, items) && OrderFits(currency, shipping, items)
    ensures InRange(TotalOf(currency, shipping, items)) && Value(TotalOf(currency, shipping, items)) >= Price(shipping, items)
    ensures Value(TotalOf(currency, shipping, items)) == Price(shipping, items) <==> NegativesAreFree(items)
  {
    OrderTotalConserved(currency, shipping, items);
    ChargeIsPriceIff(shipping, items);
  }

  /** For quantities that are not negative: the total is the price, in range, if and only if no
      addition overflows. */
  lemma PriceChargedIff(currency: string, shipping: Money, items: seq<OrderItem>)
    requires AllInRange(shipping, items) && NegativesAreFree(items)
    ensures Exact(TotalOf(currency, shipping, items), Price(shipping, items)) <==> OrderFits(currency, shipping, items)
  {
    ChargeIsPriceIff(shipping, items);
    OrderTotalRightIff(currency, shipping, items);
  }

  // ---------- When the additions fit, by the price alone ----------

  /** Up to the largest number of units every order fits. */
  lemma FitsUpToLargestUnit(currency: string, shipping: Money, items: seq<OrderItem>)
    requires AllInRange(shipping, items) && Charge(shipping, items) <= MAX_INT32 * NANOS_MOD
    ensures OrderFits(currency, shipping, items)
  {
    TotalExactOrWrapped(currency, shipping, items);
  }

  // ---------- Orders that go wrong ----------

  /** One item of quantity -1 at 0.10 is charged 2^32 - 1 times. */
  lemma NegativeQuantityCharged(currency: string)
    ensures var items := [OrderItem(-1, Money(currency, 0, 100_000_000))];
            && OrderFits(currency, Money(currency, 0, 0), items)
            && Value(TotalOf(currency, Money(currency, 0, 0), items)) == 4_294_967_295 * 100_000_000
            && Price(Money(currency, 0, 0), items) == 100_000_000
  {
    var none, items := Money(currency, 0, 0), [OrderItem(-1, Money(currency, 0, 100_000_000))];
    assert items[..0] == [];
    assert Charge(none, items) == 4_294_967_295 * 100_000_000;
    FitsUpToLargestUnit(currency, none, items);
    OrderTotalConserved(currency, none, items);
  }

  /** Half a unit of shipping is added to nothing as one unit less half a unit; then the largest
      number of units no longer fits, though the price does. */
  lemma LastUnitOverflows(currency: string)
    ensures var shipping, items := Money(currency, 0, 500_000_000), [OrderItem(1, Money(currency, MAX_INT32, 0))];
            && AllInRange(shipping, items) && Price(shipping, items) == MAX_INT32 * NANOS_MOD + 500_000_000
            && !OrderFits(currency, shipping, items)
            && TotalOf(currency, shipping, items) == Money(currency, -0x8000_0000, -500_000_000)
  {
    var zero, shipping, cost := Money(currency, 0, 0), Money(currency, 0, 500_000_000), Money(currency, MAX_INT32, 0);
    var items := [OrderItem(1, cost)];
    assert items[..0] == [];
    SumCases(zero, shipping);
    assert TotalOf(currency, shipping, []) == Money(currency, 1, -500_000_000);
    SumCases(Money(currency, 1, -500_000_000), cost);
    SmallQuotient(-500_000_000);
  }

  /** The residue of `x` that fits 32 bits. */
  function Residue(x: int): int32 {
    (x + 0x8000_0000) % 0x1_0000_0000 - 0x8000_0000
  }

  lemma ResidueStep(x: int, u: int32)
    ensures Wrap32(Residue(x) + u) == Residue(x + u)
  {}

  lemma {:induction false} TimesOfWholeUnits(currency: string, u: int32, n: uint32)
    ensures Times(Money(currency, u, 0), n) == Money(currency, Residue(AtLeastOnce(n) * u), 0)
  {
    if n > 1 {
      TimesOfWholeUnits(currency, u, n - 1);
      ResidueStep((n - 1) * u, u);
      OnceMore(n, u);
    }
  }

  lemma OneItemTotal(currency: string, it: OrderItem)
    ensures var zero := Money(currency, 0, 0);
            && TotalOf(currency, zero, [it]) == SumOf(zero, Times(it.cost, ToUint32(it.quantity)))
            && Price(zero, [it]) == (if it.quantity > 1 then it.quantity else 1) * Value(it.cost)
  {
    assert [it][..0] == [];
    assert TotalOf(currency, Money(currency, 0, 0), []) == Money(currency, 0, 0);
  }

  lemma ProductByChance(n: nat)
    requires n == 4_294_967_293
    ensures Residue(n * 0x4000_0000) == 0x4000_0000
  {
    assert n * 0x4000_0000 == 4_294_967_293 * 0x4000_0000 == 0x3fff_ffff * 0x1_0000_0000 + 0x4000_0000;
  }

  lemma WholeUnitsByChance(currency: string, it: OrderItem)
    requires it.quantity == -3 && it.cost == Money(currency, 0x4000_0000, 0)
    ensures Times(it.cost, ToUint32(it.quantity)) == it.cost
  {
    var n := ToUint32(it.quantity);
    assert AtLeastOnce(n) == 4_294_967_293;
    ProductByChance(AtLeastOnce(n));
    TimesOfWholeUnits(currency, 0x4000_0000, n);
  }

  /** Overflow can undo the conversion of a negative quantity: -3 items of 2^30 units are charged
      2^32 - 3 times, and the total is the price of one all the same. */
  lemma RightByChance(currency: string, it: OrderItem)
    requires it.quantity == -3 && it.cost == Money(currency, 0x4000_0000, 0)
    ensures !OrderFits(currency, Money(currency, 0, 0), [it]) && !NegativesAreFree([it])
    ensures Exact(TotalOf(currency, Money(currency, 0, 0), [it]), Price(Money(currency, 0, 0), [it]))
  {
    assert [it][0].quantity < 0;
    WholeUnitsByChance(currency, it);
    OneItemTotal(currency, it);
    if OrderFits(currency, Money(currency, 0, 0), [it]) {
      TotalIsPriceIff(currency, Money(currency, 0, 0), [it]);
    }
  }
}
