/** Sharded services (internal/cm/config.go, the key branch of internal/cm/server.go): how shards
    are named, who a manager's neighbours are, and how a key invalidation reaches every shard. */
module Shards {
  import opened CmTypes

  // ---------- Names ----------

  predicate IsDigit(c: char) {
    '0' <= c <= '9'
  }

  function DigitChar(n: nat): char
    requires n < 10
  {
    "0123456789"[n]
  }

  /** fmt.Sprint of a natural number. */
  function Decimal(n: nat): (s: string)
    ensures s != "" && forall i :: 0 <= i < |s| ==> IsDigit(s[i])
  {
    if n < 10 then [DigitChar(n)] else Decimal(n / 10) + [DigitChar(n % 10)]
  }

  /** The number that a string of digits stands for, by the codes of its characters. */
  function NumberOf(s: string): int {
    if s == "" then 0 else 10 * NumberOf(s[..|s| - 1]) + (s[|s| - 1] as int - '0' as int)
  }

  lemma DigitCharCode(n: nat)
    requires n < 10
    ensures DigitChar(n) as int == '0' as int + n
  {}

  /** The only decimal number without leading zeros that stands for `n`. */
  lemma {:induction false} DecimalIsNumber(n: nat)
    ensures NumberOf(Decimal(n)) == n
    ensures n > 0 ==> Decimal(n)[0] != '0'
    ensures n == 0 ==> Decimal(n) == "0"
  {
    var s := Decimal(n);
    DigitCharCode(n % 10);
    if n < 10 {
      DigitCharCode(n);
      assert s == [DigitChar(n)] && s[..0] == "";
    } else {
      DecimalIsNumber(n / 10);
      assert s[..|s| - 1] == Decimal(n / 10);
    }
  }

  /** strings.TrimRight(s, "0123456789") */
  function TrimDigits(s: string): string {
    if s != "" && IsDigit(s[|s| - 1]) then TrimDigits(s[..|s| - 1]) else s
  }

  /** What is cut off are digits, and all the trailing ones. */
  lemma {:induction false} TrimDigitsExactly(s: string, t: string)
    ensures t == TrimDigits(s) <==>
            && t <= s && (forall i :: |t| <= i < |s| ==> '0' <= s[i] <= '9')
            && (t == "" || !('0' <= t[|t| - 1] <= '9'))
  {
    if s != "" && IsDigit(s[|s| - 1]) { TrimDigitsExactly(s[..|s| - 1], t); }
  }

  lemma {:induction false} LongerNumber(m: nat, n: nat)
    requires m <= n
    ensures |Decimal(m)| <= |Decimal(n)|
  {
    if m >= 10 {
      LongerNumber(m / 10, n / 10);
    }
  }

  lemma {:induction false} TrimNumber(base: string, number: string)
    requires forall i :: 0 <= i < |number| ==> IsDigit(number[i])
    ensures TrimDigits(base + number) == TrimDigits(base)
  {
    if number == "" {
      assert base + number == base;
    } else {
      assert (base + number)[..|base + number| - 1] == base + number[..|number| - 1];
      TrimNumber(base, number[..|number| - 1]);
    }
  }

  datatype Line = Line(service: string, address: string)

  /** A name of one of the shards of `service`. */
  ghost predicate ShardOf(name: string, service: string, shardCount: nat) {
    exists i :: 1 <= i <= shardCount && name == service + Decimal(i)
  }

  // ---------- The address file ----------

  function WithShards(addresses: map<string, string>, line: Line, i: nat): map<string, string> {
    if i == 0 then addresses
    else WithShards(addresses, line, i - 1)[line.service + Decimal(i) := line.address + Decimal(i)]
  }

  function AddressesOf(lines: seq<Line>, shardCount: nat): map<string, string> {
    if lines == [] then map[] else WithShards(AddressesOf(Front(lines), shardCount), Last(lines), shardCount)
  }

  method ReadAddresses(lines: seq<Line>, shardCount: nat) returns (cmAddresses: map<string, string>)
    ensures cmAddresses == AddressesOf(lines, shardCount)
  {
    cmAddresses := map[];
    for idx := 0 to |lines|
      invariant cmAddresses == AddressesOf(lines[..idx], shardCount)
    {
      assert Front(lines[..idx + 1]) == lines[..idx];
      ghost var before := cmAddresses;
      for i := 1 to shardCount + 1
        invariant cmAddresses == WithShards(before, lines[idx], i - 1)
      {
        cmAddresses := cmAddresses[lines[idx].service + Decimal(i) := lines[idx].address + Decimal(i)];
      }
    }
    assert lines[..|lines|] == lines;
  }

  lemma OneMoreShard(name: string, service: string, i: nat)
    requires i > 0
    ensures ShardOf(name, service, i) <==> ShardOf(name, service, i - 1) || name == service + Decimal(i)
  {}

  lemma {:induction false} WithShardsNames(addresses: map<string, string>, line: Line, i: nat, name: string)
    ensures name in WithShards(addresses, line, i) <==> name in addresses || ShardOf(name, line.service, i)
  {
    if i > 0 {
      WithShardsNames(addresses, line, i - 1, name);
      OneMoreShard(name, line.service, i);
    }
  }

  lemma {:induction false} NamesAreShards(lines: seq<Line>, shardCount: nat, name: string)
    ensures name in AddressesOf(lines, shardCount) <==> exists l :: l in lines && ShardOf(name, l.service, shardCount)
  {
    if lines != [] {
      NamesAreShards(Front(lines), shardCount, name);
      WithShardsNames(AddressesOf(Front(lines), shardCount), Last(lines), shardCount, name);
      assert forall l :: l in lines <==> l in Front(lines) || l == Last(lines);
    }
  }

  // ---------- Neighbours ----------

  predicate SameGroup(a: string, b: string) {
    TrimDigits(a) == TrimDigits(b)
  }

  function NeighborNames(addresses: map<string, string>, self: string): set<string> {
    set k | k in addresses && k != self && SameGroup(k, self)
  }

  /** The list gives the address of each neighbour once. */
  ghost predicate NeighborAddresses(addresses: map<string, string>, self: string, list: seq<string>) {
    exists names :: Enumerates(names, NeighborNames(addresses, self)) && AddressesInOrder(addresses, names, list)
  }

  ghost predicate AddressesInOrder(addresses: map<string, string>, names: seq<string>, list: seq<string>) {
    |list| == |names| && forall i :: 0 <= i < |names| ==> names[i] in addresses && list[i] == addresses[names[i]]
  }

  method GetNeighbors(addresses: map<string, string>, self: string) returns (neighbors: seq<string>)
    ensures NeighborAddresses(addresses, self, neighbors)
  {
    neighbors := [];
    var left := addresses.Keys;
    ghost var names: seq<string>, seen: set<string> := [], {};
    while left != {}
      invariant left <= addresses.Keys && seen == addresses.Keys - left
      invariant Enumerates(names, seen * NeighborNames(addresses, self)) && AddressesInOrder(addresses, names, neighbors)
    {
      var k :| k in left;
      left := left - {k};
      if k != self && SameGroup(k, self) {
        EnumeratesOneMore(names, seen * NeighborNames(addresses, self), k);
        assert (seen + {k}) * NeighborNames(addresses, self) == seen * NeighborNames(addresses, self) + {k};
        neighbors, names := neighbors + [addresses[k]], names + [k];
      } else {
        assert (seen + {k}) * NeighborNames(addresses, self) == seen * NeighborNames(addresses, self);
      }
      seen := seen + {k};
    }
    assert seen * NeighborNames(addresses, self) == NeighborNames(addresses, self);
  }

  lemma ShardGroup(name: string, service: string, shardCount: nat)
    requires ShardOf(name, service, shardCount)
    ensures TrimDigits(name) == TrimDigits(service)
  {
    var i :| 1 <= i <= shardCount && name == service + Decimal(i);
    TrimNumber(service, Decimal(i));
  }

  lemma DifferentPrefixes(a: string, b: string, x: string, y: string)
    requires |a| == |b| && a != b
    ensures a + x != b + y
  {
    var i :| 0 <= i < |a| && a[i] != b[i];
    assert (a + x)[i] != (b + y)[i];
  }

  /** Of two different services, each has a shard whose name is not one of the other's. */
  lemma SomeShardDiffers(a: string, b: string, shardCount: nat) returns (name: string)
    requires a != b && shardCount >= 1
    ensures ShardOf(name, a, shardCount) && !ShardOf(name, b, shardCount)
  {
    var i := if |a| > |b| then shardCount else 1;
    name := a + Decimal(i);
    forall m | 1 <= m <= shardCount ensures name != b + Decimal(m) {
      LongerNumber(m, shardCount);
      LongerNumber(1, m);
      if |a| == |b| {
        DifferentPrefixes(a, b, Decimal(i), Decimal(m));
      }
    }
  }

  ghost predicate Alone(lines: seq<Line>, service: string) {
    forall l :: l in lines && SameGroup(l.service, service) ==> l.service == service
  }

  lemma {:induction false} InGroupIsOwn(lines: seq<Line>, shardCount: nat, service: string, name: string)
    requires Alone(lines, service) && name in AddressesOf(lines, shardCount) && TrimDigits(name) == TrimDigits(service)
    ensures ShardOf(name, service, shardCount)
  {
    NamesAreShards(lines, shardCount, name);
    var l :| l in lines && ShardOf(name, l.service, shardCount);
    ShardGroup(name, l.service, shardCount);
    assert SameGroup(l.service, service);
  }

  lemma {:induction false} OwnIsInGroup(lines: seq<Line>, shardCount: nat, own: Line, name: string)
    requires own in lines && ShardOf(name, own.service, shardCount)
    ensures name in AddressesOf(lines, shardCount) && TrimDigits(name) == TrimDigits(own.service)
  {
    NamesAreShards(lines, shardCount, name);
    ShardGroup(name, own.service, shardCount);
  }

  lemma {:induction false} AloneInGroup(lines: seq<Line>, shardCount: nat, own: Line, self: string, name: string)
    requires own in lines && ShardOf(self, own.service, shardCount) && Alone(lines, own.service)
    ensures name in AddressesOf(lines, shardCount) && SameGroup(name, self) <==> ShardOf(name, own.service, shardCount)
  {
    OwnIsInGroup(lines, shardCount, own, self);
    if name in AddressesOf(lines, shardCount) && SameGroup(name, self) {
      InGroupIsOwn(lines, shardCount, own.service, name);
    }
    if ShardOf(name, own.service, shardCount) {
      OwnIsInGroup(lines, shardCount, own, name);
    }
  }

  lemma {:induction false} OtherInGroup(lines: seq<Line>, shardCount: nat, own: Line, self: string) returns (name: string)
    requires shardCount >= 1 && ShardOf(self, own.service, shardCount) && !Alone(lines, own.service)
    ensures name in AddressesOf(lines, shardCount) && SameGroup(name, self) && !ShardOf(name, own.service, shardCount)
  {
    ShardGroup(self, own.service, shardCount);
    var l :| l in lines && SameGroup(l.service, own.service) && l.service != own.service;
    name := SomeShardDiffers(l.service, own.service, shardCount);
    NamesAreShards(lines, shardCount, name);
    ShardGroup(name, l.service, shardCount);
  }

  ghost predicate GroupIsOwnShards(lines: seq<Line>, shardCount: nat, own: Line, self: string) {
    forall name :: name in AddressesOf(lines, shardCount) && SameGroup(name, self) <==> ShardOf(name, own.service, shardCount)
  }

  /** A manager's group (itself and its neighbours) is its own service's shards if and only if no
      other service of the file has the same name once trailing digits are cut off. */
  lemma {:induction false} GroupIsOwnShardsIff(lines: seq<Line>, shardCount: nat, own: Line, self: string)
    requires own in lines && shardCount >= 1 && ShardOf(self, own.service, shardCount)
    ensures GroupIsOwnShards(lines, shardCount, own, self) <==> Alone(lines, own.service)
  {
    if Alone(lines, own.service) {
      forall name ensures name in AddressesOf(lines, shardCount) && SameGroup(name, self) <==> ShardOf(name, own.service, shardCount) {
        AloneInGroup(lines, shardCount, own, self, name);
      }
    } else {
      var name := OtherInGroup(lines, shardCount, own, self);
    }
  }

  /** In particular when no service name ends in a digit. */
  lemma {:induction false} NoTrailingDigits(lines: seq<Line>, own: Line)
    requires own in lines
    requires forall l :: l in lines ==> l.service == "" || !IsDigit(l.service[|l.service| - 1])
    ensures Alone(lines, own.service)
  {
    assert forall l :: l in lines ==> TrimDigits(l.service) == l.service;
  }

  // ---------- The addresses of a service's own shards ----------

  lemma {:induction false} DecimalInjective(m: nat, n: nat)
    requires Decimal(m) == Decimal(n)
    ensures m == n
  {
    if m >= 10 && n >= 10 {
      var x, y := Decimal(m), Decimal(n);
      assert x[..|x| - 1] == Decimal(m / 10) && y[..|y| - 1] == Decimal(n / 10);
      DecimalInjective(m / 10, n / 10);
      assert x[|x| - 1] == DigitChar(m % 10) && y[|y| - 1] == DigitChar(n % 10);
    } else if m < 10 && n < 10 {
      assert Decimal(m)[0] == DigitChar(m) && Decimal(n)[0] == DigitChar(n);
    }
  }

  lemma {:induction false} SameShardNumber(service: string, i: nat, j: nat)
    requires service + Decimal(i) == service + Decimal(j)
    ensures i == j
  {
    assert (service + Decimal(i))[|service|..] == Decimal(i) && (service + Decimal(j))[|service|..] == Decimal(j);
    DecimalInjective(i, j);
  }

  lemma {:induction false} WithShardsAddress(addresses: map<string, string>, line: Line, n: nat, i: nat)
    requires 1 <= i <= n
    ensures line.service + Decimal(i) in WithShards(addresses, line, n)
    ensures WithShards(addresses, line, n)[line.service + Decimal(i)] == line.address + Decimal(i)
  {
    if i < n {
      WithShardsAddress(addresses, line, n - 1, i);
      if line.service + Decimal(i) == line.service + Decimal(n) { SameShardNumber(line.service, i, n); }
    }
  }

  lemma {:induction false} WithShardsKeeps(addresses: map<string, string>, line: Line, n: nat, name: string)
    requires name in addresses && !ShardOf(name, line.service, n)
    ensures name in WithShards(addresses, line, n) && WithShards(addresses, line, n)[name] == addresses[name]
  {
    if n > 0 {
      OneMoreShard(name, line.service, n);
      WithShardsKeeps(addresses, line, n - 1, name);
    }
  }

  ghost predicate NumberedFrom(addresses: map<string, string>, service: string, shardCount: nat, base: string) {
    forall i :: 1 <= i <= shardCount ==>
      service + Decimal(i) in addresses && addresses[service + Decimal(i)] == base + Decimal(i)
  }

  /** When no other service is of the group, the last line of the service gives all its shards' addresses. */
  lemma {:induction false} OwnAddresses(lines: seq<Line>, shardCount: nat, own: Line) returns (base: string)
    requires own in lines && Alone(lines, own.service)
    ensures NumberedFrom(AddressesOf(lines, shardCount), own.service, shardCount, base)
  {
    var before, last := AddressesOf(Front(lines), shardCount), Last(lines);
    assert forall l :: l in lines <==> l in Front(lines) || l == last;
    if last.service == own.service {
      base := last.address;
      forall i | 1 <= i <= shardCount
        ensures own.service + Decimal(i) in AddressesOf(lines, shardCount)
        ensures AddressesOf(lines, shardCount)[own.service + Decimal(i)] == base + Decimal(i)
      {
        WithShardsAddress(before, last, shardCount, i);
      }
    } else {
      base := OwnAddresses(Front(lines), shardCount, own);
      forall i | 1 <= i <= shardCount
        ensures own.service + Decimal(i) in AddressesOf(lines, shardCount)
        ensures AddressesOf(lines, shardCount)[own.service + Decimal(i)] == base + Decimal(i)
      {
        NotItsShard(own.service, last.service, shardCount, i);
        WithShardsKeeps(before, last, shardCount, own.service + Decimal(i));
      }
    }
  }

  lemma {:induction false} NotItsShard(service: string, other: string, shardCount: nat, i: nat)
    requires 1 <= i <= shardCount && !SameGroup(service, other)
    ensures !ShardOf(service + Decimal(i), other, shardCount)
  {
    var name := service + Decimal(i);
    assert ShardOf(name, service, shardCount);
    ShardGroup(name, service, shardCount);
    if ShardOf(name, other, shardCount) { ShardGroup(name, other, shardCount); }
  }

  lemma {:induction false} OwnAddressesDiffer(lines: seq<Line>, shardCount: nat, own: Line, p: string, q: string)
    requires own in lines && Alone(lines, own.service)
    requires ShardOf(p, own.service, shardCount) && ShardOf(q, own.service, shardCount)
    ensures p in AddressesOf(lines, shardCount) && q in AddressesOf(lines, shardCount)
    ensures AddressesOf(lines, shardCount)[p] == AddressesOf(lines, shardCount)[q] ==> p == q
  {
    var base := OwnAddresses(lines, shardCount, own);
    var i :| 1 <= i <= shardCount && p == own.service + Decimal(i);
    var j :| 1 <= j <= shardCount && q == own.service + Decimal(j);
    if base + Decimal(i) == base + Decimal(j) { SameShardNumber(base, i, j); }
  }

  // ---------- The broadcast ----------

  /** An invalidation for the manager of that name, from its service, or from a manager for whichever
      manager listens at that address. */
  datatype Message = Original(manager: string, key: Key) | Forwarded(address: string, key: Key)

  /** Invalidations under way between the managers, and those processed, by address. */
  datatype Network = Network(inFlight: seq<Message>, processed: multiset<(string, Key)>)

  function Forwards(key: Key, neighbors: seq<string>): seq<Message> {
    seq(|neighbors|, i requires 0 <= i < |neighbors| => Forwarded(neighbors[i], key))
  }

  /** What a manager sends to whom before it processes the key. */
  ghost predicate ForwardedVia(addresses: map<string, string>, m: Message, neighbors: seq<string>) {
    if m.Forwarded? then neighbors == []
    else m.manager in addresses && NeighborAddresses(addresses, m.manager, neighbors)
  }

  /** The sharded branch of the key case. */
  method ForwardToNeighbors(addresses: map<string, string>, m: Message) returns (sent: seq<Message>)
    requires m.Original? ==> m.manager in addresses
    ensures exists neighbors :: ForwardedVia(addresses, m, neighbors) && sent == Forwards(m.key, neighbors)
  {
    sent := [];
    var neighbors := [];
    if m.Original? {
      neighbors := GetNeighbors(addresses, m.manager);
      for i := 0 to |neighbors|
        invariant sent == Forwards(m.key, neighbors[..i])
      {
        sent := sent + [Forwarded(neighbors[i], m.key)];
      }
      assert neighbors[..|neighbors|] == neighbors;
    }
    assert ForwardedVia(addresses, m, neighbors) && sent == Forwards(m.key, neighbors);
  }

  function AddressOf(addresses: map<string, string>, m: Message): string
    requires m.Original? ==> m.manager in addresses
  {
    if m.Original? then addresses[m.manager] else m.address
  }

  /** Some manager takes message `i`; an original one is forwarded to each neighbour, then processed. */
  ghost predicate HandledVia(addresses: map<string, string>, n: Network, n': Network, i: nat, neighbors: seq<string>) {
    && i < |n.inFlight|
    && var m := n.inFlight[i];
    && ForwardedVia(addresses, m, neighbors)
    && n' == Network(n.inFlight[..i] + n.inFlight[i + 1..] + Forwards(m.key, neighbors),
                     n.processed + multiset{(AddressOf(addresses, m), m.key)})
  }

  ghost predicate Handled(addresses: map<string, string>, n: Network, n': Network) {
    exists i: nat, neighbors :: HandledVia(addresses, n, n', i, neighbors)
  }

  /** The names of the manager's group that stand for the address `x`. */
  function Listening(addresses: map<string, string>, manager: string, x: string): set<string> {
    set q | q in addresses && SameGroup(q, manager) && addresses[q] == x
  }

  /** How often the message will still make the manager at `x` process `k`. */
  function Owes(addresses: map<string, string>, m: Message, x: string, k: Key): nat {
    if m.key != k then 0
    else if m.Original? then |Listening(addresses, m.manager, x)|
    else if m.address == x then 1 else 0
  }

  function Pending(addresses: map<string, string>, ms: seq<Message>, x: string, k: Key): nat {
    if ms == [] then 0 else Pending(addresses, Front(ms), x, k) + Owes(addresses, Last(ms), x, k)
  }

  lemma {:induction false} PendingConcat(addresses: map<string, string>, a: seq<Message>, b: seq<Message>, x: string, k: Key)
    ensures Pending(addresses, a + b, x, k) == Pending(addresses, a, x, k) + Pending(addresses, b, x, k)
  {
    if b == [] {
      assert a + b == a;
    } else {
      PendingConcat(addresses, a, Front(b), x, k);
      assert Front(a + b) == a + Front(b);
    }
  }

  function At(addresses: map<string, string>, names: set<string>, x: string): set<string> {
    set q | q in names && q in addresses && addresses[q] == x
  }

  lemma {:induction false} PendingForwards(addresses: map<string, string>, key: Key, names: seq<string>, list: seq<string>, s: set<string>, x: string)
    requires Enumerates(names, s) && AddressesInOrder(addresses, names, list)
    ensures Pending(addresses, Forwards(key, list), x, key) == |At(addresses, s, x)|
  {
    if names == [] {
      assert s == {} && At(addresses, s, x) == {};
    } else {
      var q, rest := Last(names), s - {Last(names)};
      EnumeratesOneLess(names, s);
      PendingForwards(addresses, key, Front(names), Front(list), rest, x);
      assert Front(Forwards(key, list)) == Forwards(key, Front(list));
      AtOneMore(addresses, s, q, x);
    }
  }

  lemma {:induction false} AtOneMore(addresses: map<string, string>, s: set<string>, q: string, x: string)
    requires q in s && q in addresses
    ensures |At(addresses, s, x)| == |At(addresses, s - {q}, x)| + if addresses[q] == x then 1 else 0
  {
    assert At(addresses, s, x) == At(addresses, s - {q}, x) + if addresses[q] == x then {q} else {};
  }

  lemma {:induction false} EnumeratesOneLess<T>(list: seq<T>, s: set<T>)
    requires Enumerates(list, s) && list != []
    ensures Enumerates(Front(list), s - {Last(list)}) && Last(list) in s
  {
    assert Last(list) in Elements(list);
    assert Last(list) !in Front(list);
    assert forall x :: x in list <==> x in Front(list) || x == Last(list);
  }

  lemma {:induction false} OtherKeyPending(addresses: map<string, string>, key: Key, list: seq<string>, x: string, k: Key)
    requires key != k
    ensures Pending(addresses, Forwards(key, list), x, k) == 0
  {
    if list != [] {
      OtherKeyPending(addresses, key, Front(list), x, k);
      assert Front(Forwards(key, list)) == Forwards(key, Front(list));
    }
  }

  /** Handling a message settles what it owes: one processing here, and the rest by its forwards. */
  lemma {:induction false} ForwardsSettle(addresses: map<string, string>, m: Message, neighbors: seq<string>, x: string, k: Key)
    requires ForwardedVia(addresses, m, neighbors)
    ensures Owes(addresses, m, x, k) ==
            Pending(addresses, Forwards(m.key, neighbors), x, k) + if (AddressOf(addresses, m), m.key) == (x, k) then 1 else 0
  {
    if m.key != k {
      OtherKeyPending(addresses, m.key, neighbors, x, k);
    } else if m.Original? {
      var names :| Enumerates(names, NeighborNames(addresses, m.manager)) && AddressesInOrder(addresses, names, neighbors);
      PendingForwards(addresses, k, names, neighbors, NeighborNames(addresses, m.manager), x);
      assert Listening(addresses, m.manager, x) ==
             At(addresses, NeighborNames(addresses, m.manager), x) + if addresses[m.manager] == x then {m.manager} else {};
    }
  }

  /** For every address and key, what was processed there plus what is still coming never changes. */
  lemma {:induction false} HandledConserves(addresses: map<string, string>, n: Network, n': Network, x: string, k: Key)
    requires Handled(addresses, n, n')
    ensures n'.processed[(x, k)] + Pending(addresses, n'.inFlight, x, k) == n.processed[(x, k)] + Pending(addresses, n.inFlight, x, k)
  {
    var i: nat, neighbors :| HandledVia(addresses, n, n', i, neighbors);
    var m := n.inFlight[i];
    var a, b := n.inFlight[..i], n.inFlight[i + 1..];
    assert n.inFlight == a + [m] + b;
    PendingConcat(addresses, a + [m], b, x, k);
    PendingConcat(addresses, a, [m], x, k);
    assert Front([m]) == [];
    PendingConcat(addresses, a + b, Forwards(m.key, neighbors), x, k);
    PendingConcat(addresses, a, b, x, k);
    ForwardsSettle(addresses, m, neighbors, x, k);
  }

  function Work(addresses: map<string, string>, ms: seq<Message>): nat {
    if ms == [] then 0
    else Work(addresses, Front(ms)) + 1 + if Last(ms).Forwarded? then 0 else |NeighborNames(addresses, Last(ms).manager)|
  }

  lemma {:induction false} WorkConcat(addresses: map<string, string>, a: seq<Message>, b: seq<Message>)
    ensures Work(addresses, a + b) == Work(addresses, a) + Work(addresses, b)
  {
    if b == [] {
      assert a + b == a;
    } else {
      WorkConcat(addresses, a, Front(b));
      assert Front(a + b) == a + Front(b);
    }
  }

  lemma {:induction false} WorkForwards(addresses: map<string, string>, key: Key, list: seq<string>)
    ensures Work(addresses, Forwards(key, list)) == |list|
  {
    if list != [] {
      WorkForwards(addresses, key, Front(list));
      assert Front(Forwards(key, list)) == Forwards(key, Front(list));
    }
  }

  lemma {:induction false} EnumerationSize<T>(list: seq<T>, s: set<T>)
    requires Enumerates(list, s)
    ensures |list| == |s|
  {
    if list != [] {
      EnumeratesOneLess(list, s);
      EnumerationSize(Front(list), s - {Last(list)});
    } else {
      assert s == {};
    }
  }

  /** Forwarding ends: each message handled leaves exactly one unit of work less. */
  lemma {:induction false} HandledProgresses(addresses: map<string, string>, n: Network, n': Network)
    requires Handled(addresses, n, n')
    ensures Work(addresses, n'.inFlight) == Work(addresses, n.inFlight) - 1
  {
    var i: nat, neighbors :| HandledVia(addresses, n, n', i, neighbors);
    var m := n.inFlight[i];
    var a, b := n.inFlight[..i], n.inFlight[i + 1..];
    assert n.inFlight == a + [m] + b;
    WorkConcat(addresses, a + [m], b);
    WorkConcat(addresses, a, [m]);
    assert Front([m]) == [];
    WorkConcat(addresses, a + b, Forwards(m.key, neighbors));
    WorkConcat(addresses, a, b);
    WorkForwards(addresses, m.key, neighbors);
    if m.Original? {
      var names :| Enumerates(names, NeighborNames(addresses, m.manager)) && AddressesInOrder(addresses, names, neighbors);
      EnumerationSize(names, NeighborNames(addresses, m.manager));
    }
  }

  ghost predicate NetworkRun(addresses: map<string, string>, states: seq<Network>) {
    |states| >= 1 && forall j :: 0 <= j < |states| - 1 ==> Handled(addresses, states[j], states[j + 1])
  }

  lemma {:induction false} RunConserves(addresses: map<string, string>, states: seq<Network>, x: string, k: Key)
    requires NetworkRun(addresses, states)
    ensures Last(states).processed[(x, k)] + Pending(addresses, Last(states).inFlight, x, k) ==
            states[0].processed[(x, k)] + Pending(addresses, states[0].inFlight, x, k)
    ensures |states| - 1 + Work(addresses, Last(states).inFlight) == Work(addresses, states[0].inFlight)
  {
    if |states| > 1 {
      var f := Front(states);
      assert forall j :: 0 <= j < |f| ==> f[j] == states[j];
      RunConserves(addresses, f, x, k);
      var j := |states| - 2;
      HandledConserves(addresses, states[j], states[j + 1], x, k);
      HandledProgresses(addresses, states[j], states[j + 1]);
    }
  }

  ghost predicate BroadcastRun(addresses: map<string, string>, states: seq<Network>, self: string, k: Key) {
    NetworkRun(addresses, states) && states[0] == Network([Original(self, k)], multiset{})
  }

  /** Whatever the address file says: a run takes at most as many steps as there are managers in the
      group, and when nothing is in flight any more, the key has been processed at each address as
      often as names of the group stand for it. */
  lemma {:induction false} EachOfGroupOnce(addresses: map<string, string>, states: seq<Network>, self: string, k: Key, x: string)
    requires BroadcastRun(addresses, states, self, k)
    ensures |states| - 1 <= 1 + |NeighborNames(addresses, self)|
    ensures Last(states).inFlight == [] ==> Last(states).processed[(x, k)] == |Listening(addresses, self, x)|
  {
    RunConserves(addresses, states, x, k);
    var original := Original(self, k);
    assert Front([original]) == [];
    assert Pending(addresses, [original], x, k) == Owes(addresses, original, x, k);
    assert Work(addresses, [original]) == 1 + |NeighborNames(addresses, self)|;
  }

  ghost predicate ShardAt(addresses: map<string, string>, service: string, shardCount: nat, x: string) {
    exists q :: q in addresses && ShardOf(q, service, shardCount) && addresses[q] == x
  }

  /** Once at the address of each shard of the service, and nowhere else. */
  ghost predicate OnceAtOwnShards(addresses: map<string, string>, n: Network, k: Key, service: string, shardCount: nat) {
    forall x :: n.processed[(x, k)] == if ShardAt(addresses, service, shardCount, x) then 1 else 0
  }

  lemma {:induction false} ListeningWhenAlone(lines: seq<Line>, shardCount: nat, own: Line, self: string, x: string)
    requires own in lines && ShardOf(self, own.service, shardCount) && Alone(lines, own.service)
    ensures var addresses := AddressesOf(lines, shardCount);
            |Listening(addresses, self, x)| == if ShardAt(addresses, own.service, shardCount, x) then 1 else 0
  {
    var addresses := AddressesOf(lines, shardCount);
    var there := Listening(addresses, self, x);
    forall q ensures q in there <==> q in addresses && ShardOf(q, own.service, shardCount) && addresses[q] == x {
      AloneInGroup(lines, shardCount, own, self, q);
    }
    if q :| q in there {
      forall p | p in there ensures p == q {
        OwnAddressesDiffer(lines, shardCount, own, p, q);
      }
      assert there == {q};
    }
  }

  lemma {:induction false} ListeningWhenShared(lines: seq<Line>, shardCount: nat, own: Line, self: string) returns (x: string)
    requires own in lines && shardCount >= 1 && ShardOf(self, own.service, shardCount) && !Alone(lines, own.service)
    ensures var addresses := AddressesOf(lines, shardCount);
            |Listening(addresses, self, x)| != if ShardAt(addresses, own.service, shardCount, x) then 1 else 0
  {
    var addresses := AddressesOf(lines, shardCount);
    var other := OtherInGroup(lines, shardCount, own, self);
    x := addresses[other];
    var there := Listening(addresses, self, x);
    assert other in there;
    if ShardAt(addresses, own.service, shardCount, x) {
      var q :| q in addresses && ShardOf(q, own.service, shardCount) && addresses[q] == x;
      ShardGroup(q, own.service, shardCount);
      ShardGroup(self, own.service, shardCount);
      assert q in there && q != other;
      assert {q, other} <= there;
      SubsetSize({q, other}, there);
    }
  }

  lemma {:induction false} SubsetSize<T>(a: set<T>, b: set<T>)
    requires a <= b
    ensures |a| <= |b|
  {
    if x :| x in a { SubsetSize(a - {x}, b - {x}); }
  }

  /** One write of `k` in a sharded service, in whatever order the managers work: when nothing is in
      flight any more, the manager at the address of each shard of the service has processed it
      exactly once and no other manager at all, if and only if no other service has the same name
      once trailing digits are cut off. */
  lemma {:induction false} EachShardOnceIff(lines: seq<Line>, shardCount: nat, own: Line, self: string, k: Key, states: seq<Network>)
    requires own in lines && shardCount >= 1 && ShardOf(self, own.service, shardCount)
    requires BroadcastRun(AddressesOf(lines, shardCount), states, self, k) && Last(states).inFlight == []
    ensures OnceAtOwnShards(AddressesOf(lines, shardCount), Last(states), k, own.service, shardCount) <==> Alone(lines, own.service)
  {
    var addresses := AddressesOf(lines, shardCount);
    if Alone(lines, own.service) {
      forall x ensures Last(states).processed[(x, k)] == if ShardAt(addresses, own.service, shardCount, x) then 1 else 0 {
        EachOfGroupOnce(addresses, states, self, k, x);
        ListeningWhenAlone(lines, shardCount, own, self, x);
      }
    } else {
      var x := ListeningWhenShared(lines, shardCount, own, self);
      EachOfGroupOnce(addresses, states, self, k, x);
    }
  }
}
