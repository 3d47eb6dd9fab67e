/** The controller's rows as values: what the steps of a simulation do to them, and what whole runs come to. */
module Records {
  import opened Markets
  import opened Options
  import opened Preferences
  import opened StableMatchings
  import opened ClientAddresses
  import DA = DeferredAcceptance

  const MAX_PROXY_CAPACITY: int := 40

  /** A proxy's row. Rows are never deleted, so a proxy is named by its position. */
  datatype ProxyRow = ProxyRow(url: Proxy, capacity: int, blocked: bool)

  /** An assignment's row. A proxy that could not be found is recorded as missing. */
  datatype AssignmentRow = AssignmentRow(proxy: Option<nat>, client: Client)

  /** All rows, clients with their flags, and the number of the last client. */
  datatype Books = Books(
    proxies: seq<ProxyRow>, clients: map<Client, bool>, assignments: seq<AssignmentRow>, lastClientId: int)
  {
    ghost predicate Valid() {
      Conserved(proxies, assignments) && ClientsNumbered(clients, assignments, lastClientId)
    }
  }

  // Counting rows.

  function Count(rows: seq<AssignmentRow>, i: nat): nat {
    if rows == [] then 0
    else Count(rows[..|rows| - 1], i) + (if rows[|rows| - 1].proxy == Some(i) then 1 else 0)
  }

  /** `filter(...).delete()`: the rows that are left when the given proxies' rows are gone. */
  function Without(rows: seq<AssignmentRow>, gone: set<nat>): seq<AssignmentRow> {
    if rows == [] then [] else
      var last := rows[|rows| - 1];
      Without(rows[..|rows| - 1], gone) + (if last.proxy.Some? && last.proxy.value in gone then [] else [last])
  }

  lemma {:induction false} CountAppend(a: seq<AssignmentRow>, b: seq<AssignmentRow>, i: nat)
    ensures Count(a + b, i) == Count(a, i) + Count(b, i)
  {
    if b == [] {
      assert a + b == a;
    } else {
      assert (a + b)[..|a + b| - 1] == a + b[..|b| - 1];
      CountAppend(a, b[..|b| - 1], i);
    }
  }

  lemma CountOne(r: AssignmentRow, i: nat)
    ensures Count([r], i) == if r.proxy == Some(i) then 1 else 0
  {
    assert [r][..0] == [];
  }

  lemma {:induction false} CountWithout(rows: seq<AssignmentRow>, gone: set<nat>, i: nat)
    ensures Count(Without(rows, gone), i) == if i in gone then 0 else Count(rows, i)
  {
    if rows != [] {
      var last := rows[|rows| - 1];
      var rest := Without(rows[..|rows| - 1], gone);
      CountWithout(rows[..|rows| - 1], gone, i);
      if last.proxy.Some? && last.proxy.value in gone {
        assert Without(rows, gone) == rest;
      } else {
        assert Without(rows, gone) == rest + [last];
        CountAppend(rest, [last], i);
        CountOne(last, i);
      }
    }
  }

  lemma {:induction false} CountNone(rows: seq<AssignmentRow>, i: nat)
    requires forall r :: r in rows ==> r.proxy != Some(i)
    ensures Count(rows, i) == 0
  {
    if rows != [] {
      CountNone(rows[..|rows| - 1], i);
    }
  }

  function RowsFor(i: nat, clients: seq<Client>): seq<AssignmentRow> {
    seq(|clients|, k requires 0 <= k < |clients| => AssignmentRow(Some(i), clients[k]))
  }

  lemma {:induction false} CountRowsFor(i: nat, clients: seq<Client>, j: nat)
    ensures Count(RowsFor(i, clients), j) == if i == j then |clients| else 0
  {
    if clients != [] {
      CountRowsFor(i, clients[..|clients| - 1], j);
      assert RowsFor(i, clients)[..|clients| - 1] == RowsFor(i, clients[..|clients| - 1]);
    }
  }

  function CountPair(rows: seq<AssignmentRow>, i: nat, ip: Client): nat {
    if rows == [] then 0
    else CountPair(rows[..|rows| - 1], i, ip) + (if rows[|rows| - 1] == AssignmentRow(Some(i), ip) then 1 else 0)
  }

  lemma {:induction false} CountPairNone(rows: seq<AssignmentRow>, i: nat, ip: Client)
    requires forall r :: r in rows ==> r.client != ip
    ensures CountPair(rows, i, ip) == 0
  {
    if rows != [] {
      CountPairNone(rows[..|rows| - 1], i, ip);
    }
  }

  lemma {:induction false} CountPairAppend(a: seq<AssignmentRow>, b: seq<AssignmentRow>, i: nat, ip: Client)
    ensures CountPair(a + b, i, ip) == CountPair(a, i, ip) + CountPair(b, i, ip)
  {
    if b == [] {
      assert a + b == a;
    } else {
      assert (a + b)[..|a + b| - 1] == a + b[..|b| - 1];
      CountPairAppend(a, b[..|b| - 1], i, ip);
    }
  }

  /** One row each for distinct clients. */
  lemma {:induction false} CountPairRows(i: nat, clients: seq<Client>, j: nat, ip: Client)
    requires Distinct(clients)
    ensures CountPair(RowsFor(i, clients), j, ip) == if i == j && ip in clients then 1 else 0
  {
    if clients != [] {
      var most, last := clients[..|clients| - 1], clients[|clients| - 1];
      CountPairRows(i, most, j, ip);
      assert RowsFor(i, clients)[..|clients| - 1] == RowsFor(i, most);
      assert ip in clients <==> ip in most || ip == last;
      assert last !in most;
    }
  }

  lemma {:induction false} WithoutNothing(rows: seq<AssignmentRow>)
    ensures Without(rows, {}) == rows
  {
    if rows != [] {
      WithoutNothing(rows[..|rows| - 1]);
      assert rows == rows[..|rows| - 1] + [rows[|rows| - 1]];
    }
  }

  lemma {:induction false} WithoutMore(rows: seq<AssignmentRow>, gone: set<nat>, i: nat)
    ensures Without(Without(rows, gone), {i}) == Without(rows, gone + {i})
  {
    if rows != [] {
      var last := rows[|rows| - 1];
      WithoutMore(rows[..|rows| - 1], gone, i);
      var rest := Without(rows[..|rows| - 1], gone);
      if last.proxy.Some? && last.proxy.value in gone {
        assert Without(rows, gone) == rest;
        assert Without(rows, gone + {i}) == Without(rows[..|rows| - 1], gone + {i});
      } else {
        assert Without(rows, gone) == rest + [last];
        assert (rest + [last])[..|rest + [last]| - 1] == rest;
      }
    }
  }

  lemma {:induction false} WithoutKeeps(rows: seq<AssignmentRow>, gone: set<nat>)
    ensures forall r :: r in Without(rows, gone) ==> r in rows
  {
    if rows != [] {
      WithoutKeeps(rows[..|rows| - 1], gone);
    }
  }

  // What always holds.

  /** Of every proxy: what is left of its capacity and what is assigned add up to the maximum. */
  ghost predicate Conserved(proxies: seq<ProxyRow>, rows: seq<AssignmentRow>) {
    && (forall i :: 0 <= i < |proxies| ==>
          proxies[i].capacity >= 0 && proxies[i].capacity + Count(rows, i) == MAX_PROXY_CAPACITY)
    && (forall r :: r in rows && r.proxy.Some? ==> r.proxy.value < |proxies|)
  }

  /** The addresses numbered 0 to `last`. */
  function AddressesTo(last: int): set<Client> {
    if last < 0 then {} else AddressesTo(last - 1) + {AddressOf(last)}
  }

  /** Clients are numbered from 0, and only clients are assigned. */
  ghost predicate ClientsNumbered(clients: map<Client, bool>, rows: seq<AssignmentRow>, last: int) {
    last >= -1 && clients.Keys == AddressesTo(last) && forall r :: r in rows ==> r.client in clients
  }

  predicate AssignedTo(rows: seq<AssignmentRow>, i: nat, ip: Client) {
    AssignmentRow(Some(i), ip) in rows
  }

  predicate Usable(p: ProxyRow) {
    !p.blocked && p.capacity > 0
  }

  // The censor, and new addresses.

  function Blocked(proxies: seq<ProxyRow>, wants: nat -> bool): seq<ProxyRow> {
    seq(|proxies|, i requires 0 <= i < |proxies| => proxies[i].(blocked := proxies[i].blocked || wants(i)))
  }

  function BlockedAt(proxies: seq<ProxyRow>, i: nat, wanted: bool): seq<ProxyRow>
    requires i < |proxies|
  {
    proxies[i := proxies[i].(blocked := proxies[i].blocked || wanted)]
  }

  /** The censor has come to the n-th proxy. */
  function CensoredTo(proxies: seq<ProxyRow>, wants: nat -> bool, n: nat): seq<ProxyRow> {
    seq(|proxies|, i requires 0 <= i < |proxies| =>
      proxies[i].(blocked := proxies[i].blocked || (i < n && wants(i))))
  }

  lemma NothingBlocked(proxies: seq<ProxyRow>, wants: nat -> bool)
    ensures CensoredTo(proxies, wants, 0) == proxies
    ensures CensoredTo(proxies, wants, |proxies|) == Blocked(proxies, wants)
  {
    var all := CensoredTo(proxies, wants, |proxies|);
    assert forall i :: 0 <= i < |proxies| ==> CensoredTo(proxies, wants, 0)[i] == proxies[i];
    assert forall i :: 0 <= i < |proxies| ==> all[i] == Blocked(proxies, wants)[i];
  }

  lemma CensoredMore(proxies: seq<ProxyRow>, wants: nat -> bool, i: nat)
    requires i < |proxies|
    ensures CensoredTo(proxies, wants, i + 1) == BlockedAt(CensoredTo(proxies, wants, i), i, wants(i))
  {
    var before, after := CensoredTo(proxies, wants, i), CensoredTo(proxies, wants, i + 1);
    assert forall k :: 0 <= k < |proxies| ==> after[k] == BlockedAt(before, i, wants(i))[k];
  }

  /** The balance does not depend on who is blocked. */
  lemma SameCapacities(before: seq<ProxyRow>, after: seq<ProxyRow>, rows: seq<AssignmentRow>)
    requires Conserved(before, rows) && |after| == |before|
    requires forall i :: 0 <= i < |after| ==> after[i].capacity == before[i].capacity
    ensures Conserved(after, rows)
  {}

  /** A blocked proxy can be used again under its new address, with all its capacity. */
  function Renewed(proxies: seq<ProxyRow>, newUrl: nat -> Proxy): seq<ProxyRow> {
    seq(|proxies|, i requires 0 <= i < |proxies| =>
      if proxies[i].blocked then ProxyRow(newUrl(i), MAX_PROXY_CAPACITY, false) else proxies[i].(url := newUrl(i)))
  }

  function BlockedRows(proxies: seq<ProxyRow>): set<nat> {
    set i: nat | i < |proxies| && proxies[i].blocked
  }

  function RenewedAt(proxies: seq<ProxyRow>, i: nat, url: Proxy): seq<ProxyRow>
    requires i < |proxies|
  {
    proxies[i := if proxies[i].blocked then ProxyRow(url, MAX_PROXY_CAPACITY, false) else proxies[i].(url := url)]
  }

  /** The first n proxies have their new addresses. */
  function RenewedTo(proxies: seq<ProxyRow>, newUrl: nat -> Proxy, n: nat): seq<ProxyRow> {
    seq(|proxies|, i requires 0 <= i < |proxies| =>
      if i >= n then proxies[i] else Renewed(proxies, newUrl)[i])
  }

  function BlockedTo(proxies: seq<ProxyRow>, n: nat): set<nat> {
    set i: nat | i < n && i < |proxies| && proxies[i].blocked
  }

  lemma NothingRenewed(proxies: seq<ProxyRow>, newUrl: nat -> Proxy)
    ensures RenewedTo(proxies, newUrl, 0) == proxies
    ensures RenewedTo(proxies, newUrl, |proxies|) == Renewed(proxies, newUrl)
    ensures BlockedTo(proxies, 0) == {} && BlockedTo(proxies, |proxies|) == BlockedRows(proxies)
  {}

  lemma RenewedMore(proxies: seq<ProxyRow>, newUrl: nat -> Proxy, i: nat)
    requires i < |proxies|
    ensures RenewedTo(proxies, newUrl, i)[i] == proxies[i]
    ensures RenewedTo(proxies, newUrl, i + 1) == RenewedAt(RenewedTo(proxies, newUrl, i), i, newUrl(i))
  {
    var before, after := RenewedTo(proxies, newUrl, i), RenewedTo(proxies, newUrl, i + 1);
    forall k | 0 <= k < |proxies| ensures after[k] == RenewedAt(before, i, newUrl(i))[k] {
      assert after[k] == if k >= i + 1 then proxies[k] else Renewed(proxies, newUrl)[k];
    }
  }

  lemma BlockedMore(rows: seq<AssignmentRow>, proxies: seq<ProxyRow>, i: nat)
    requires i < |proxies|
    ensures Without(rows, BlockedTo(proxies, i + 1))
            == (var rest := Without(rows, BlockedTo(proxies, i));
                if proxies[i].blocked then Without(rest, {i}) else rest)
  {
    if proxies[i].blocked {
      WithoutMore(rows, BlockedTo(proxies, i), i);
      assert BlockedTo(proxies, i + 1) == BlockedTo(proxies, i) + {i};
    } else {
      assert BlockedTo(proxies, i + 1) == BlockedTo(proxies, i);
    }
  }

  /** One proxy after the other. */
  function RenewedUpTo(proxies: seq<ProxyRow>, rows: seq<AssignmentRow>, newUrl: nat -> Proxy, n: nat)
    : (r: (seq<ProxyRow>, seq<AssignmentRow>))
    requires n <= |proxies|
    ensures |r.0| == |proxies|
  {
    if n == 0 then (proxies, rows) else
      var (p, rest) := RenewedUpTo(proxies, rows, newUrl, n - 1);
      (RenewedAt(p, n - 1, newUrl(n - 1)), if p[n - 1].blocked then Without(rest, {n - 1}) else rest)
  }

  lemma {:induction false} RenewedSoFar(proxies: seq<ProxyRow>, rows: seq<AssignmentRow>, newUrl: nat -> Proxy, n: nat)
    requires n <= |proxies|
    ensures RenewedUpTo(proxies, rows, newUrl, n)
            == (RenewedTo(proxies, newUrl, n), Without(rows, BlockedTo(proxies, n)))
  {
    if n == 0 {
      NothingRenewed(proxies, newUrl);
      WithoutNothing(rows);
    } else {
      RenewedSoFar(proxies, rows, newUrl, n - 1);
      RenewedMore(proxies, newUrl, n - 1);
      BlockedMore(rows, proxies, n - 1);
    }
  }

  lemma RenewedIs(proxies: seq<ProxyRow>, rows: seq<AssignmentRow>, newUrl: nat -> Proxy)
    ensures RenewedUpTo(proxies, rows, newUrl, |proxies|)
            == (Renewed(proxies, newUrl), Without(rows, BlockedRows(proxies)))
  {
    RenewedSoFar(proxies, rows, newUrl, |proxies|);
    NothingRenewed(proxies, newUrl);
  }

  lemma WithoutNumbers(clients: map<Client, bool>, rows: seq<AssignmentRow>, last: int, gone: set<nat>)
    requires ClientsNumbered(clients, rows, last)
    ensures ClientsNumbered(clients, Without(rows, gone), last)
  {
    WithoutKeeps(rows, gone);
  }

  /** A blocked proxy's rows are gone and its capacity is back. */
  lemma RenewedConserves(proxies: seq<ProxyRow>, rows: seq<AssignmentRow>, newUrl: nat -> Proxy)
    requires Conserved(proxies, rows)
    ensures Conserved(Renewed(proxies, newUrl), Without(rows, BlockedRows(proxies)))
  {
    forall i: nat | i < |proxies| {
      CountWithout(rows, BlockedRows(proxies), i);
    }
    WithoutKeeps(rows, BlockedRows(proxies));
  }

  /** The client was assigned to one of the first n proxies that has just been blocked. */
  ghost predicate LosesProxy(before: seq<ProxyRow>, after: seq<ProxyRow>, n: nat, rows: seq<AssignmentRow>, ip: Client)
    requires n <= |before| == |after|
  {
    exists i :: 0 <= i < n && after[i].blocked && !before[i].blocked && AssignedTo(rows, i, ip)
  }

  lemma OneMoreBlocked(before: seq<ProxyRow>, now: seq<ProxyRow>, i: nat, wanted: bool, rows: seq<AssignmentRow>,
                       ip: Client)
    requires i < |before| == |now| && now[i].blocked == before[i].blocked
    ensures LosesProxy(before, BlockedAt(now, i, wanted), i + 1, rows, ip)
       <==> LosesProxy(before, now, i, rows, ip) || (!now[i].blocked && wanted && AssignedTo(rows, i, ip))
  {
    var after := BlockedAt(now, i, wanted);
    if LosesProxy(before, now, i, rows, ip) {
      var k :| 0 <= k < i && now[k].blocked && !before[k].blocked && AssignedTo(rows, k, ip);
      assert after[k].blocked;
    }
  }

  /** The clients that ask are those with a row for a proxy that the censor wants and did not have blocked. */
  lemma AffectedExactly(b: Books, step: StepInput, loads: seq<Load>, ip: Client)
    requires Affected(b, step, loads)
    ensures LoadedIn(loads, ip)
       <==> exists i: nat :: i < |b.proxies| && step.wantsBlocked(i) && !b.proxies[i].blocked
                             && AssignmentRow(Some(i), ip) in b.assignments
  {
    var after := Blocked(b.proxies, step.wantsBlocked);
    if LosesProxy(b.proxies, after, |after|, b.assignments, ip) {
      var i :| 0 <= i < |after| && after[i].blocked && !b.proxies[i].blocked && AssignedTo(b.assignments, i, ip);
      assert step.wantsBlocked(i) && AssignmentRow(Some(i), ip) in b.assignments;
    }
    if i: nat :| i < |b.proxies| && step.wantsBlocked(i) && !b.proxies[i].blocked
                 && AssignmentRow(Some(i), ip) in b.assignments {
      assert after[i].blocked && AssignedTo(b.assignments, i, ip);
    }
  }

  /** After a renewal every proxy is unblocked under its new address; those that were blocked have room for 40 and no
      row, and the others are as full as before. */
  lemma RenewedExactly(b: Books, step: StepInput, i: nat)
    requires b.Valid() && step.rejuvenates && i < |b.proxies|
    ensures var b' := Refreshed(b, step);
            && |b'.proxies| == |b.proxies| && b'.proxies[i].url == step.newUrl(i) && !b'.proxies[i].blocked
            && (b.proxies[i].blocked ==> b'.proxies[i].capacity == 40 && Count(b'.assignments, i) == 0)
            && (!b.proxies[i].blocked ==>
                  && b'.proxies[i].capacity == b.proxies[i].capacity
                  && Count(b'.assignments, i) == Count(b.assignments, i))
  {
    CountWithout(b.assignments, BlockedRows(b.proxies), i);
  }

  // New proxies and new clients.

  function NewRows(urls: seq<Proxy>): seq<ProxyRow> {
    seq(|urls|, j requires 0 <= j < |urls| => ProxyRow(urls[j], MAX_PROXY_CAPACITY, false))
  }

  function OneLess(proxies: seq<ProxyRow>, i: nat): seq<ProxyRow>
    requires i < |proxies|
  {
    proxies[i := proxies[i].(capacity := proxies[i].capacity - 1)]
  }

  function FirstUsable(proxies: seq<ProxyRow>): (chosen: Option<nat>)
    ensures chosen.Some? ==> chosen.value < |proxies| && Usable(proxies[chosen.value])
                             && forall i :: 0 <= i < chosen.value ==> !Usable(proxies[i])
    ensures chosen.None? ==> forall i :: 0 <= i < |proxies| ==> !Usable(proxies[i])
  {
    FirstUsableFrom(proxies, 0)
  }

  function FirstUsableFrom(proxies: seq<ProxyRow>, n: nat): (chosen: Option<nat>)
    requires n <= |proxies| && forall i :: 0 <= i < n ==> !Usable(proxies[i])
    ensures chosen.Some? ==> chosen.value < |proxies| && Usable(proxies[chosen.value])
                             && forall i :: 0 <= i < chosen.value ==> !Usable(proxies[i])
    ensures chosen.None? ==> forall i :: 0 <= i < |proxies| ==> !Usable(proxies[i])
    decreases |proxies| - n
  {
    if n == |proxies| then None else if Usable(proxies[n]) then Some(n) else FirstUsableFrom(proxies, n + 1)
  }

  /** A new client: a row under the next address, and the first proxy that can be used, if there is one. */
  function Enroll(b: Books): Books
    requires b.lastClientId >= -1
  {
    var chosen := FirstUsable(b.proxies);
    var ip := AddressOf(b.lastClientId + 1);
    Books(if chosen.Some? then OneLess(b.proxies, chosen.value) else b.proxies,
          b.clients[ip := false],
          b.assignments + [AssignmentRow(chosen, ip)],
          b.lastClientId + 1)
  }

  /** n new clients, or as many as it takes to meet one without a proxy. */
  function Enrolled(b: Books, n: nat): (r: (Books, bool))
    requires b.lastClientId >= -1
    ensures r.0.lastClientId >= -1
  {
    if n == 0 then (b, true) else
      var (before, ok) := Enrolled(b, n - 1);
      if !ok then (before, false) else (Enroll(before), FirstUsable(before.proxies).Some?)
  }

  lemma {:induction false} EnrollingStops(b: Books, k: nat, n: nat)
    requires b.lastClientId >= -1 && k <= n && !Enrolled(b, k).1
    ensures Enrolled(b, n) == Enrolled(b, k)
  {
    if k < n {
      EnrollingStops(b, k, n - 1);
    }
  }

  /** How many more clients the proxies that are not blocked can take. */
  function FreeSlots(proxies: seq<ProxyRow>): int {
    if proxies == [] then 0 else
      var last := proxies[|proxies| - 1];
      FreeSlots(proxies[..|proxies| - 1]) + (if last.blocked then 0 else last.capacity)
  }

  ghost predicate NoneNegative(proxies: seq<ProxyRow>) {
    forall p :: p in proxies ==> p.capacity >= 0
  }

  lemma {:induction false} SlotsLeft(proxies: seq<ProxyRow>)
    requires NoneNegative(proxies)
    ensures FreeSlots(proxies) >= 0
    ensures FreeSlots(proxies) == 0 <==> forall p :: p in proxies ==> !Usable(p)
  {
    if proxies != [] {
      var most, last := proxies[..|proxies| - 1], proxies[|proxies| - 1];
      SlotsLeft(most);
      assert proxies == most + [last] && last in proxies;
    }
  }

  lemma {:induction false} OneSlotLess(proxies: seq<ProxyRow>, i: nat)
    requires i < |proxies| && Usable(proxies[i])
    ensures FreeSlots(OneLess(proxies, i)) == FreeSlots(proxies) - 1
  {
    var n := |proxies| - 1;
    if i == n {
      assert OneLess(proxies, i)[..n] == proxies[..n];
    } else {
      OneSlotLess(proxies[..n], i);
      assert OneLess(proxies, i)[..n] == OneLess(proxies[..n], i);
    }
  }

  /** The new clients all get a proxy if and only if there are slots for them. */
  lemma {:induction false} EnrolledExactly(b: Books, n: nat)
    requires b.lastClientId >= -1 && NoneNegative(b.proxies)
    ensures Enrolled(b, n).1 <==> FreeSlots(b.proxies) >= n
    ensures NoneNegative(Enrolled(b, n).0.proxies)
    ensures Enrolled(b, n).1 ==> FreeSlots(Enrolled(b, n).0.proxies) == FreeSlots(b.proxies) - n
  {
    if n == 0 {
      SlotsLeft(b.proxies);
    } else {
      EnrolledExactly(b, n - 1);
      var (before, ok) := Enrolled(b, n - 1);
      SlotsLeft(before.proxies);
      var chosen := FirstUsable(before.proxies);
      if ok && chosen.Some? {
        OneSlotLess(before.proxies, chosen.value);
        assert NoneNegative(OneLess(before.proxies, chosen.value));
      }
    }
  }

  lemma {:induction false} SlotsAdded(proxies: seq<ProxyRow>, urls: seq<Proxy>)
    ensures FreeSlots(proxies + NewRows(urls)) == FreeSlots(proxies) + MAX_PROXY_CAPACITY * |urls|
  {
    if urls == [] {
      assert proxies + NewRows(urls) == proxies;
    } else {
      var all := proxies + NewRows(urls);
      assert all[..|all| - 1] == proxies + NewRows(urls[..|urls| - 1]);
      SlotsAdded(proxies, urls[..|urls| - 1]);
    }
  }

  lemma {:induction false} HigherNumber(last: int, n: nat)
    requires last < n
    ensures AddressOf(n) !in AddressesTo(last)
  {
    if last >= 0 {
      HigherNumber(last - 1, n);
      if AddressOf(n) == AddressOf(last) {
        AddressesDiffer(n, last);
      }
    }
  }

  /** The next number's address is new. */
  lemma NewAddress(clients: map<Client, bool>, rows: seq<AssignmentRow>, last: int)
    requires ClientsNumbered(clients, rows, last)
    ensures AddressOf(last + 1) !in clients && forall r :: r in rows ==> r.client != AddressOf(last + 1)
    ensures ClientsNumbered(clients[AddressOf(last + 1) := false], rows, last + 1)
  {
    HigherNumber(last, last + 1);
    assert AddressOf(last + 1) !in clients.Keys;
  }

  lemma NewRow(rows: seq<AssignmentRow>, chosen: Option<nat>, ip: Client)
    ensures forall i: nat ::
              Count(rows + [AssignmentRow(chosen, ip)], i) == Count(rows, i) + if chosen == Some(i) then 1 else 0
  {
    var row := AssignmentRow(chosen, ip);
    assert (rows + [row])[..|rows + [row]| - 1] == rows;
  }

  /** One row more is the only one for a client without rows. */
  lemma OnlyRow(rows: seq<AssignmentRow>, chosen: Option<nat>, ip: Client)
    requires chosen.Some? && forall r :: r in rows ==> r.client != ip
    ensures CountPair(rows + [AssignmentRow(chosen, ip)], chosen.value, ip) == 1
  {
    assert (rows + [AssignmentRow(chosen, ip)])[..|rows|] == rows;
    CountPairNone(rows, chosen.value, ip);
  }

  lemma NewRowConserves(proxies: seq<ProxyRow>, rows: seq<AssignmentRow>, chosen: Option<nat>, ip: Client)
    requires Conserved(proxies, rows) && (forall r :: r in rows ==> r.client != ip)
    requires chosen.Some? ==> chosen.value < |proxies| && Usable(proxies[chosen.value])
    ensures Conserved(if chosen.None? then proxies else OneLess(proxies, chosen.value),
                      rows + [AssignmentRow(chosen, ip)])
  {
    NewRow(rows, chosen, ip);
  }

  lemma CountMatch(rows: seq<AssignmentRow>, i: nat, accepted: seq<Client>, j: nat)
    ensures Count(rows + RowsFor(i, accepted), j) == Count(rows, j) + if i == j then |accepted| else 0
  {
    CountAppend(rows, RowsFor(i, accepted), j);
    CountRowsFor(i, accepted, j);
  }

  /** A proxy gives up as much capacity as it gets rows. */
  lemma MatchConserves(proxies: seq<ProxyRow>, rows: seq<AssignmentRow>, i: nat, accepted: seq<Client>)
    requires Conserved(proxies, rows) && i < |proxies| && |accepted| <= proxies[i].capacity
    ensures Conserved(proxies[i := proxies[i].(capacity := proxies[i].capacity - |accepted|)],
                      rows + RowsFor(i, accepted))
  {
    forall j: nat | j < |proxies| {
      CountMatch(rows, i, accepted, j);
    }
  }

  lemma MatchNumbers(clients: map<Client, bool>, rows: seq<AssignmentRow>, last: int, i: nat, accepted: seq<Client>)
    requires ClientsNumbered(clients, rows, last) && forall c :: c in accepted ==> c in clients
    ensures ClientsNumbered(clients, rows + RowsFor(i, accepted), last)
  {}

  // The request for new proxies.

  /** `filter(is_blocked=False, capacity__gt=0)`. */
  function ActiveOf(proxies: seq<ProxyRow>): (active: seq<ActiveProxy>)
    ensures forall a :: a in active ==> a.capacity > 0
  {
    if proxies == [] then [] else
      var last := proxies[|proxies| - 1];
      ActiveOf(proxies[..|proxies| - 1]) + (if Usable(last) then [ActiveProxy(last.url, last.capacity)] else [])
  }

  /** The list holds the usable rows, and nothing else. */
  ghost predicate Lists(proxies: seq<ProxyRow>, active: seq<ActiveProxy>) {
    && (forall j :: 0 <= j < |active| ==> FromRow(proxies, active[j]))
    && (forall p :: p in proxies && Usable(p) ==> ActiveProxy(p.url, p.capacity) in active)
  }

  ghost predicate FromRow(proxies: seq<ProxyRow>, a: ActiveProxy) {
    exists p :: p in proxies && Usable(p) && a == ActiveProxy(p.url, p.capacity)
  }

  lemma ListMore(proxies: seq<ProxyRow>, active: seq<ActiveProxy>, p: ProxyRow)
    requires Lists(proxies, active)
    ensures Lists(proxies + [p], if Usable(p) then active + [ActiveProxy(p.url, p.capacity)] else active)
  {
    forall a | FromRow(proxies, a) ensures FromRow(proxies + [p], a) {
      var q :| q in proxies && Usable(q) && a == ActiveProxy(q.url, q.capacity);
      assert q in proxies + [p];
    }
    assert p in proxies + [p];
  }

  lemma ActiveMore(most: seq<ProxyRow>, last: ProxyRow)
    ensures ActiveOf(most + [last])
            == if Usable(last) then ActiveOf(most) + [ActiveProxy(last.url, last.capacity)] else ActiveOf(most)
  {
    assert (most + [last])[..|most|] == most;
  }

  lemma ActiveListsMore(most: seq<ProxyRow>, last: ProxyRow)
    requires Lists(most, ActiveOf(most))
    ensures Lists(most + [last], ActiveOf(most + [last]))
  {
    ListMore(most, ActiveOf(most), last);
    ActiveMore(most, last);
  }

  lemma {:induction false} ActiveLists(proxies: seq<ProxyRow>)
    ensures Lists(proxies, ActiveOf(proxies))
  {
    if proxies != [] {
      var most, last := proxies[..|proxies| - 1], proxies[|proxies| - 1];
      ActiveLists(most);
      ActiveListsMore(most, last);
      assert proxies == most + [last];
    }
  }

  lemma UsableIsActive(proxies: seq<ProxyRow>, i: nat)
    requires i < |proxies| && Usable(proxies[i])
    ensures UrlAmong(ActiveOf(proxies), |ActiveOf(proxies)|, proxies[i].url)
  {
    var active, row := ActiveOf(proxies), proxies[i];
    ActiveLists(proxies);
    assert row in proxies && ActiveProxy(row.url, row.capacity) in active;
    var j :| 0 <= j < |active| && active[j] == ActiveProxy(row.url, row.capacity);
  }

  ghost predicate Only(proxies: seq<ProxyRow>, url: Proxy, i: int) {
    0 <= i < |proxies| && proxies[i].url == url && forall j :: 0 <= j < |proxies| && j != i ==> proxies[j].url != url
  }

  lemma SameOnly(before: seq<ProxyRow>, after: seq<ProxyRow>, p: Proxy)
    requires |before| == |after| && forall i :: 0 <= i < |after| ==> after[i].url == before[i].url
    ensures forall i :: Only(after, p, i) <==> Only(before, p, i)
  {}

  ghost predicate Found(proxies: seq<ProxyRow>, url: Proxy) {
    exists i :: Only(proxies, url, i)
  }

  /** No usable proxy shares its address with another row. */
  ghost predicate AddressesUnique(proxies: seq<ProxyRow>) {
    forall i :: 0 <= i < |proxies| && Usable(proxies[i]) ==> Only(proxies, proxies[i].url, i)
  }

  lemma FoundExactly(proxies: seq<ProxyRow>, capacities: map<Proxy, int>)
    requires CapacitiesOf(ActiveOf(proxies), |ActiveOf(proxies)|, capacities)
    ensures (forall p :: p in capacities ==> Found(proxies, p)) <==> AddressesUnique(proxies)
  {
    var active := ActiveOf(proxies);
    ActiveLists(proxies);
    if forall p :: p in capacities ==> Found(proxies, p) {
      forall i | 0 <= i < |proxies| && Usable(proxies[i]) ensures Only(proxies, proxies[i].url, i) {
        var url := proxies[i].url;
        UsableIsActive(proxies, i);
        assert Found(proxies, url);
        var k :| Only(proxies, url, k);
      }
    }
    if AddressesUnique(proxies) {
      forall p | p in capacities ensures Found(proxies, p) {
        var j := LastAt(active, |active|, p);
        assert FromRow(proxies, active[j]);
        var row :| row in proxies && Usable(row) && active[j] == ActiveProxy(row.url, row.capacity);
        var i :| 0 <= i < |proxies| && proxies[i] == row;
        assert Only(proxies, p, i);
      }
    }
  }

  /** The one row with an address the market knows is the active row the market took it from. */
  lemma UniqueIsActive(proxies: seq<ProxyRow>, active: seq<ActiveProxy>, capacities: map<Proxy, int>, p: Proxy, i: nat)
    requires Lists(proxies, active) && CapacitiesOf(active, |active|, capacities) && p in capacities
    requires Only(proxies, p, i)
    ensures capacities[p] == proxies[i].capacity
  {
    var j := LastAt(active, |active|, p);
    assert FromRow(proxies, active[j]);
  }

  /** Where an address is unique, its row has room for its matches; and all matched clients are on file. */
  ghost predicate Writable(proxies: seq<ProxyRow>, clients: map<Client, bool>, matches: map<Proxy, seq<Client>>) {
    forall p :: p in matches ==>
      && (forall c :: c in matches[p] ==> c in clients)
      && (forall i :: Only(proxies, p, i) ==> |matches[p]| <= proxies[i].capacity)
  }

  lemma MatchesWritable(proxies: seq<ProxyRow>, clients: map<Client, bool>, active: seq<ActiveProxy>, mkt: Market,
                        matches: map<Proxy, seq<Client>>)
    requires CapacitiesOf(active, |active|, mkt.capacities) && Lists(proxies, active)
    requires forall p :: p in matches ==>
               p in mkt.capacities && |matches[p]| <= mkt.capacities[p] && forall c :: c in matches[p] ==> c in clients
    ensures Writable(proxies, clients, matches)
  {
    forall p, i | p in matches && Only(proxies, p, i) ensures |matches[p]| <= proxies[i].capacity {
      UniqueIsActive(proxies, active, mkt.capacities, p, i);
    }
  }

  lemma MatchFits(mkt: Market, matches: map<Proxy, seq<Client>>, remaining: map<Client, seq<Proxy>>, a: Assignment,
                  p: Proxy)
    requires mkt.WellFormed() && DA.Outcome(mkt, matches, remaining, a) && p in matches
    ensures p in mkt.capacities && |matches[p]| <= mkt.capacities[p]
    ensures Distinct(matches[p]) && forall c :: c in matches[p] ==> c in mkt.clientPrefs
  {
    DA.ListsAreRanked(mkt, matches, remaining, a, p);
    forall c | c in matches[p] ensures c in mkt.clientPrefs {
      assert c in a && mkt.Lists(c, a[c]);
    }
  }

  /** How many clients a row takes up once the matches of the addresses in `done` are written. */
  function Taken(matches: map<Proxy, seq<Client>>, done: set<Proxy>, url: Proxy): nat
    requires done <= matches.Keys
  {
    if url in done then |matches[url]| else 0
  }

  /** Exactly the matches of the addresses in `done` are written: their rows have given up the capacity, every matched
      client has one new row, and there are no other new rows. */
  ghost predicate Recorded(start: seq<ProxyRow>, proxies: seq<ProxyRow>,
                           rows: seq<AssignmentRow>, assignments: seq<AssignmentRow>,
                           matches: map<Proxy, seq<Client>>, done: set<Proxy>)
  {
    && done <= matches.Keys && rows <= assignments && |proxies| == |start|
    && (forall i :: 0 <= i < |start| ==>
          proxies[i] == start[i].(capacity := start[i].capacity - Taken(matches, done, start[i].url)))
    && (forall p :: p in done ==> Found(start, p))
    && (forall r :: r in assignments[|rows|..] ==> r.proxy.Some?)
    && (forall i: nat, ip :: CountPair(assignments[|rows|..], i, ip) == Due(start, matches, done, i, ip))
  }

  function Due(start: seq<ProxyRow>, matches: map<Proxy, seq<Client>>, done: set<Proxy>, i: nat, ip: Client): nat
    requires done <= matches.Keys
  {
    if i < |start| && start[i].url in done && ip in matches[start[i].url] then 1 else 0
  }

  /** The effect of writing one match. */
  ghost predicate WrittenOnce(before: seq<ProxyRow>, after: seq<ProxyRow>,
                              rows: seq<AssignmentRow>, rows': seq<AssignmentRow>, i: nat, accepted: seq<Client>)
  {
    && i < |before|
    && after == before[i := before[i].(capacity := before[i].capacity - |accepted|)]
    && rows' == rows + RowsFor(i, accepted)
  }

  lemma NothingRecorded(start: seq<ProxyRow>, rows: seq<AssignmentRow>, matches: map<Proxy, seq<Client>>)
    ensures Recorded(start, start, rows, rows, matches, {})
  {
    assert rows[|rows|..] == [];
  }

  lemma RecordedMore(start: seq<ProxyRow>, before: seq<ProxyRow>, after: seq<ProxyRow>,
                     rows: seq<AssignmentRow>, rows0: seq<AssignmentRow>, rows1: seq<AssignmentRow>,
                     matches: map<Proxy, seq<Client>>, done: set<Proxy>, p: Proxy, i: nat)
    requires Recorded(start, before, rows, rows0, matches, done) && p in matches && p !in done && Distinct(matches[p])
    requires Only(before, p, i) && WrittenOnce(before, after, rows0, rows1, i, matches[p])
    ensures Recorded(start, after, rows, rows1, matches, done + {p})
  {
    SameOnly(start, before, p);
    var added, more := rows0[|rows|..], RowsFor(i, matches[p]);
    AppendedRows(rows, rows0, more);
    forall j: nat, ip ensures CountPair(added + more, j, ip) == Due(start, matches, done + {p}, j, ip) {
      CountPairAppend(added, more, j, ip);
      CountPairRows(i, matches[p], j, ip);
      assert CountPair(added, j, ip) == Due(start, matches, done, j, ip);
    }
  }

  /** What is left of an address's capacity before its match is written. */
  lemma RoomFor(start: seq<ProxyRow>, proxies: seq<ProxyRow>, rows: seq<AssignmentRow>, assignments: seq<AssignmentRow>,
                clients: map<Client, bool>, matches: map<Proxy, seq<Client>>, done: set<Proxy>, p: Proxy)
    requires Recorded(start, proxies, rows, assignments, matches, done) && Writable(start, clients, matches)
    requires p !in done && p in matches
    ensures forall i :: Only(proxies, p, i) ==> Only(start, p, i) && |matches[p]| <= proxies[i].capacity
    ensures Found(proxies, p) <==> Found(start, p)
  {
    SameOnly(start, proxies, p);
    if i :| Only(proxies, p, i) {
      assert Only(start, p, i);
    }
    if i :| Only(start, p, i) {
      assert Only(proxies, p, i);
    }
  }

  lemma AppendedRows(rows: seq<AssignmentRow>, assignments: seq<AssignmentRow>, more: seq<AssignmentRow>)
    requires rows <= assignments
    ensures (assignments + more)[|rows|..] == assignments[|rows|..] + more
  {}

  /** The clients' flags once the newly flagged are saved. */
  ghost function Marked(clients: map<Client, bool>, loads: seq<Load>, judged: seq<Load>): map<Client, bool>
    requires |judged| == |loads|
  {
    map ip | ip in clients :: clients[ip] || NewlyFlagged(loads, judged, ip)
  }

  ghost predicate NewlyFlagged(loads: seq<Load>, judged: seq<Load>, ip: Client)
    requires |judged| == |loads|
  {
    exists k :: 0 <= k < |loads| && loads[k] == Load(ip, false) && judged[k].flagged
  }

  /** What one request was about: its market, the matching with the assignment behind it, and what could be written. */
  datatype Deal = Deal(
    market: Market, matches: map<Proxy, seq<Client>>, remaining: map<Client, seq<Proxy>>, placed: Assignment,
    done: set<Proxy>)

  /** The client-optimal matching of a market, and its matches written, all of them if and only if no usable proxy
      shares its address. */
  ghost predicate Dealt(b: Books, mkt: Market, deal: Deal, b': Books, ok: bool) {
    && mkt.WellFormed() && deal.market == mkt && DA.Outcome(mkt, deal.matches, deal.remaining, deal.placed)
    && Recorded(b.proxies, b'.proxies, b.assignments, b'.assignments, deal.matches, deal.done)
    && b'.clients == b.clients && b'.lastClientId == b.lastClientId
    && (ok <==> AddressesUnique(b.proxies))
    && (ok <==> deal.done == deal.matches.Keys)
  }

  /** A request of these loads: the market of the unflagged and the usable is dealt, with the flags saved. */
  ghost predicate Requested(b: Books, loads: seq<Load>, inputs: Inputs, deal: Deal, b': Books, ok: bool) {
    var active := ActiveOf(b.proxies);
    && MarketFor(loads, active, inputs, deal.market)
    && Dealt(b.(clients := Marked(b.clients, loads, Judged(loads, inputs, |active|))), deal.market, deal, b', ok)
  }

  lemma PreparedAndDealt(b: Books, loads: seq<Load>, inputs: Inputs, mkt: Market, prepared: Books, deal: Deal,
                         b': Books, ok: bool)
    requires MarketFor(loads, ActiveOf(b.proxies), inputs, mkt)
    requires prepared == b.(clients := Marked(b.clients, loads, Judged(loads, inputs, |ActiveOf(b.proxies)|)))
    requires Dealt(prepared, mkt, deal, b', ok)
    ensures Requested(b, loads, inputs, deal, b', ok)
  {}

  lemma AskersKnown(loads: seq<Load>, active: seq<ActiveProxy>, inputs: Inputs, mkt: Market, clients: map<Client, bool>)
    requires MarketFor(loads, active, inputs, mkt) && forall k :: 0 <= k < |loads| ==> loads[k].ip in clients
    ensures forall ip :: ip in mkt.clientPrefs ==> ip in clients
  {
    forall ip | ip in mkt.clientPrefs ensures ip in clients {
      var judged := Judged(loads, inputs, |active|);
      var k :| 0 <= k < |judged| && judged[k] == Load(ip, false);
      assert loads[k].ip == ip;
    }
  }

  lemma PlacedIsListed(mkt: Market, matches: map<Proxy, seq<Client>>, remaining: map<Client, seq<Proxy>>,
                       placed: Assignment, ip: Client)
    requires mkt.WellFormed() && DA.Outcome(mkt, matches, remaining, placed) && ip in placed
    ensures placed[ip] in matches && ip in matches[placed[ip]]
  {
    assert mkt.Lists(ip, placed[ip]) && mkt.Acceptable(ip, placed[ip]);
    DA.ListsAreRanked(mkt, matches, remaining, placed, placed[ip]);
  }

  lemma DueRow(start: seq<ProxyRow>, proxies: seq<ProxyRow>, rows: seq<AssignmentRow>, assignments: seq<AssignmentRow>,
               matches: map<Proxy, seq<Client>>, done: set<Proxy>, p: Proxy, ip: Client) returns (i: nat)
    requires Recorded(start, proxies, rows, assignments, matches, done) && p in done && ip in matches[p]
    ensures rows <= assignments && CountPair(assignments[|rows|..], i, ip) == 1
  {
    assert Found(start, p);
    i :| Only(start, p, i);
    assert CountPair(assignments[|rows|..], i, ip) == Due(start, matches, done, i, ip);
  }

  /** A client that asked and was not flagged gets a row, or else all proxies that could be used are now full. */
  lemma ServedOrFull(b: Books, loads: seq<Load>, inputs: Inputs, deal: Deal, b': Books, ip: Client)
    requires Requested(b, loads, inputs, deal, b', true) && NoneNegative(b.proxies)
    requires Unflagged(Judged(loads, inputs, |ActiveOf(b.proxies)|), ip)
    ensures (exists i: nat :: CountPair(b'.assignments[|b.assignments|..], i, ip) == 1)
         || (forall i :: 0 <= i < |b.proxies| ==> !Usable(b'.proxies[i]))
  {
    if ip in deal.placed {
      PlacedIsListed(deal.market, deal.matches, deal.remaining, deal.placed, ip);
      var i := DueRow(b.proxies, b'.proxies, b.assignments, b'.assignments, deal.matches, deal.done,
                      deal.placed[ip], ip);
    } else {
      forall i | 0 <= i < |b.proxies| ensures !Usable(b'.proxies[i]) {
        if Usable(b.proxies[i]) {
          FullUnlessServed(b, loads, inputs, deal, b', ip, i);
        }
      }
    }
  }

  lemma EverybodyListed(loads: seq<Load>, active: seq<ActiveProxy>, inputs: Inputs, mkt: Market, ip: Client, url: Proxy)
    requires MarketFor(loads, active, inputs, mkt)
    requires Unflagged(Judged(loads, inputs, |active|), ip) && UrlAmong(active, |active|, url)
    ensures mkt.Lists(ip, url)
  {}

  lemma FullUnlessServed(b: Books, loads: seq<Load>, inputs: Inputs, deal: Deal, b': Books, ip: Client, i: nat)
    requires Requested(b, loads, inputs, deal, b', true)
    requires Unflagged(Judged(loads, inputs, |ActiveOf(b.proxies)|), ip) && ip !in deal.placed
    requires i < |b.proxies| && Usable(b.proxies[i])
    ensures b'.proxies[i].capacity == 0
  {
    var mkt, active, url := deal.market, ActiveOf(b.proxies), b.proxies[i].url;
    ActiveLists(b.proxies);
    UsableIsActive(b.proxies, i);
    UniqueIsActive(b.proxies, active, mkt.capacities, url, i);
    EverybodyListed(loads, active, inputs, mkt, ip, url);
    assert mkt.Prefers(deal.placed, ip, url);
    DA.BetterProxiesAreFull(mkt, deal.matches, deal.remaining, deal.placed, ip, url);
  }

  // Who is flagged by a request, and who takes part, in numbers.

  lemma NewlyFlaggedExactly(loads: seq<Load>, inputs: Inputs, n: nat, ip: Client)
    ensures NewlyFlagged(loads, Judged(loads, inputs, n), ip) <==> TooFar(loads, inputs, n, ip)
  {
    if m: nat :| m < |loads| && loads[m] == Load(ip, false) && Judged(loads, inputs, n)[m].flagged {
      JudgedExactly(loads, inputs, n, m, ip);
    }
    if k: nat :| LastLoad(loads, k) && loads[k].ip == ip {
      JudgedExactly(loads, inputs, n, k, ip);
    }
  }

  /** A request leaves a client flagged if and only if it was, or it asked and some proxy is too far. */
  lemma FlagsSavedExactly(b: Books, loads: seq<Load>, inputs: Inputs, deal: Deal, b': Books, ok: bool, ip: Client)
    requires Requested(b, loads, inputs, deal, b', ok) && ip in b.clients
    ensures ip in b'.clients
    ensures b'.clients[ip] <==> b.clients[ip] || TooFar(loads, inputs, |ActiveOf(b.proxies)|, ip)
  {
    NewlyFlaggedExactly(loads, inputs, |ActiveOf(b.proxies)|, ip);
  }

  /** The clients that take part are those with an unflagged load for whom no proxy is too far. */
  lemma TakesPartExactly(b: Books, loads: seq<Load>, inputs: Inputs, deal: Deal, b': Books, ok: bool, ip: Client)
    requires Requested(b, loads, inputs, deal, b', ok)
    ensures ip in deal.market.clientPrefs
       <==> Load(ip, false) in loads && !TooFar(loads, inputs, |ActiveOf(b.proxies)|, ip)
  {
    UnflaggedExactly(loads, inputs, |ActiveOf(b.proxies)|, ip);
  }

  // How many slots a request takes.

  /** The clients that asked and are not flagged. */
  ghost function Askers(b: Books, loads: seq<Load>, inputs: Inputs): set<Client> {
    set k: nat | k < |loads| && !Judged(loads, inputs, |ActiveOf(b.proxies)|)[k].flagged :: loads[k].ip
  }

  function UsableUrls(proxies: seq<ProxyRow>): set<Proxy> {
    set p | p in proxies && Usable(p) :: p.url
  }

  /** Where a row's slots went. */
  ghost predicate RowTaken(before: ProxyRow, after: ProxyRow, a: Assignment) {
    && after.blocked == before.blocked
    && (!before.blocked ==> before.capacity - after.capacity == if Usable(before) then |Held(a, before.url)| else 0)
  }

  lemma UsableUrlsMore(most: seq<ProxyRow>, last: ProxyRow)
    ensures UsableUrls(most + [last]) == UsableUrls(most) + (if Usable(last) then {last.url} else {})
  {
    assert last in most + [last];
    forall p | p in most ensures p in most + [last] {}
  }

  lemma OneMoreTaken(a: Assignment, most: seq<ProxyRow>, last: ProxyRow)
    requires Usable(last) ==> last.url !in UsableUrls(most)
    ensures |PlacedIn(a, UsableUrls(most + [last]))|
            == |PlacedIn(a, UsableUrls(most))| + if Usable(last) then |Held(a, last.url)| else 0
  {
    UsableUrlsMore(most, last);
    if Usable(last) {
      var urls := UsableUrls(most) + {last.url};
      SplitPlaced(a, urls, last.url);
      assert urls - {last.url} == UsableUrls(most);
    } else {
      assert UsableUrls(most + [last]) == UsableUrls(most);
    }
  }

  /** No two usable rows share an address. */
  ghost predicate UsableUnique(proxies: seq<ProxyRow>) {
    forall i, j :: 0 <= i < j < |proxies| && Usable(proxies[i]) && Usable(proxies[j]) ==>
      proxies[i].url != proxies[j].url
  }

  lemma UniqueLast(proxies: seq<ProxyRow>, n: nat)
    requires |proxies| == n + 1 && UsableUnique(proxies) && Usable(proxies[n])
    ensures proxies[n].url !in UsableUrls(proxies[..n])
  {}

  lemma {:induction false} SlotsTaken(before: seq<ProxyRow>, after: seq<ProxyRow>, a: Assignment)
    requires |before| == |after| && forall i :: 0 <= i < |before| ==> RowTaken(before[i], after[i], a)
    requires UsableUnique(before)
    ensures FreeSlots(before) - FreeSlots(after) == |PlacedIn(a, UsableUrls(before))|
    decreases |before|
  {
    if before == [] {
      assert PlacedIn(a, UsableUrls(before)) == {};
    } else {
      var n := |before| - 1;
      SlotsTaken(before[..n], after[..n], a);
      assert RowTaken(before[n], after[n], a);
      if Usable(before[n]) {
        UniqueLast(before, n);
      }
      OneMoreTaken(a, before[..n], before[n]);
      assert before == before[..n] + [before[n]];
    }
  }

  lemma AddressIsUsable(proxies: seq<ProxyRow>, capacities: map<Proxy, int>, p: Proxy)
    requires CapacitiesOf(ActiveOf(proxies), |ActiveOf(proxies)|, capacities)
    ensures p in capacities <==> p in UsableUrls(proxies)
  {
    var active := ActiveOf(proxies);
    ActiveLists(proxies);
    if p in capacities {
      assert FromRow(proxies, active[LastAt(active, |active|, p)]);
    }
    if p in UsableUrls(proxies) {
      var row :| row in proxies && Usable(row) && row.url == p;
      var i :| 0 <= i < |proxies| && proxies[i] == row;
      UsableIsActive(proxies, i);
    }
  }

  /** Each row gave up as many slots as the assignment places clients there. */
  lemma RequestRow(b: Books, loads: seq<Load>, inputs: Inputs, deal: Deal, b': Books, i: nat)
    requires Requested(b, loads, inputs, deal, b', true) && i < |b.proxies|
    ensures i < |b'.proxies| && RowTaken(b.proxies[i], b'.proxies[i], deal.placed)
  {
    var url := b.proxies[i].url;
    AddressIsUsable(b.proxies, deal.market.capacities, url);
    if url in deal.matches {
      DA.ListsAreRanked(deal.market, deal.matches, deal.remaining, deal.placed, url);
      var row :| row in b.proxies && Usable(row) && row.url == url;
      var j :| 0 <= j < |b.proxies| && b.proxies[j] == row;
      assert Only(b.proxies, url, j);
    }
  }

  lemma AskersAreUnflagged(b: Books, loads: seq<Load>, inputs: Inputs, ip: Client)
    ensures ip in Askers(b, loads, inputs) <==> Unflagged(Judged(loads, inputs, |ActiveOf(b.proxies)|), ip)
  {
    var judged := Judged(loads, inputs, |ActiveOf(b.proxies)|);
    if k: nat :| k < |judged| && judged[k] == Load(ip, false) {
      assert loads[k].ip == ip && !judged[k].flagged;
    }
    if k: nat :| k < |loads| && !judged[k].flagged && loads[k].ip == ip {
      assert judged[k] == Load(ip, false);
    }
  }

  /** A placed client is an asker, and placed at a usable proxy. */
  lemma PlacedIsUsable(b: Books, loads: seq<Load>, inputs: Inputs, mkt: Market, a: Assignment, c: Client)
    requires mkt.WellFormed() && MarketFor(loads, ActiveOf(b.proxies), inputs, mkt) && c in a && mkt.Lists(c, a[c])
    ensures a[c] in UsableUrls(b.proxies) && c in Askers(b, loads, inputs)
  {
    assert mkt.Acceptable(c, a[c]);
    AddressIsUsable(b.proxies, mkt.capacities, a[c]);
    AskersAreUnflagged(b, loads, inputs, c);
  }

  lemma PlacedAreUsable(b: Books, loads: seq<Load>, inputs: Inputs, mkt: Market, a: Assignment)
    requires mkt.WellFormed() && MarketFor(loads, ActiveOf(b.proxies), inputs, mkt)
    requires forall c :: c in a ==> mkt.Lists(c, a[c])
    ensures PlacedIn(a, UsableUrls(b.proxies)) == a.Keys
    ensures a.Keys <= Askers(b, loads, inputs)
  {
    var urls, askers := UsableUrls(b.proxies), Askers(b, loads, inputs);
    forall c | c in a ensures a[c] in urls && c in askers {
      PlacedIsUsable(b, loads, inputs, mkt, a, c);
    }
    AllPlacedIn(a, urls, askers);
  }

  lemma AllPlacedIn(a: Assignment, urls: set<Proxy>, askers: set<Client>)
    requires forall c :: c in a ==> a[c] in urls && c in askers
    ensures PlacedIn(a, urls) == a.Keys <= askers
  {}

  lemma UniqueAmongUsable(proxies: seq<ProxyRow>)
    requires AddressesUnique(proxies)
    ensures UsableUnique(proxies)
  {
    forall i, j | 0 <= i < j < |proxies| && Usable(proxies[i]) ensures proxies[i].url != proxies[j].url {
      assert Only(proxies, proxies[i].url, i);
    }
  }

  /** A request takes a slot for each client it places. */
  lemma RequestPlaces(b: Books, loads: seq<Load>, inputs: Inputs, deal: Deal, b': Books)
    requires Requested(b, loads, inputs, deal, b', true)
    ensures FreeSlots(b.proxies) - FreeSlots(b'.proxies) == |deal.placed.Keys|
    ensures deal.placed.Keys <= Askers(b, loads, inputs)
  {
    forall i | 0 <= i < |b.proxies| ensures RowTaken(b.proxies[i], b'.proxies[i], deal.placed) {
      RequestRow(b, loads, inputs, deal, b', i);
    }
    UniqueAmongUsable(b.proxies);
    SlotsTaken(b.proxies, b'.proxies, deal.placed);
    PlacedAreUsable(b, loads, inputs, deal.market, deal.placed);
  }

  /** An asker that is left out leaves no slots. */
  lemma NoneLeft(b: Books, loads: seq<Load>, inputs: Inputs, deal: Deal, b': Books, ip: Client)
    requires Requested(b, loads, inputs, deal, b', true) && NoneNegative(b'.proxies)
    requires ip in Askers(b, loads, inputs) && ip !in deal.placed
    ensures FreeSlots(b'.proxies) == 0
  {
    AskersAreUnflagged(b, loads, inputs, ip);
    forall i | 0 <= i < |b'.proxies| ensures !Usable(b'.proxies[i]) {
      RequestRow(b, loads, inputs, deal, b', i);
      if Usable(b.proxies[i]) {
        FullUnlessServed(b, loads, inputs, deal, b', ip, i);
      }
    }
    SlotsLeft(b'.proxies);
  }

  lemma AllPlacedOrNoneLeft(b: Books, loads: seq<Load>, inputs: Inputs, deal: Deal, b': Books)
    requires Requested(b, loads, inputs, deal, b', true) && NoneNegative(b'.proxies)
    ensures Askers(b, loads, inputs) <= deal.placed.Keys || FreeSlots(b'.proxies) == 0
  {
    if ip :| ip in Askers(b, loads, inputs) && ip !in deal.placed {
      NoneLeft(b, loads, inputs, deal, b', ip);
    }
  }

  lemma Smaller(placed: set<Client>, askers: set<Client>, free: int, left: int)
    requires placed <= askers && free - left == |placed| && left >= 0 && (askers <= placed || left == 0)
    ensures |placed| == if |askers| <= free then |askers| else free
  {
    SubsetCounts(placed, askers);
    if askers <= placed {
      assert placed == askers;
    }
  }

  /** A request serves all unflagged askers, or as many as there are slots. */
  lemma RequestTakes(b: Books, loads: seq<Load>, inputs: Inputs, deal: Deal, b': Books)
    requires Requested(b, loads, inputs, deal, b', true) && NoneNegative(b'.proxies)
    ensures var free, askers := FreeSlots(b.proxies), |Askers(b, loads, inputs)|;
            && |deal.placed.Keys| == (if askers <= free then askers else free)
            && FreeSlots(b'.proxies) == free - |deal.placed.Keys|
  {
    RequestPlaces(b, loads, inputs, deal, b');
    AllPlacedOrNoneLeft(b, loads, inputs, deal, b');
    SlotsLeft(b'.proxies);
    Smaller(deal.placed.Keys, Askers(b, loads, inputs), FreeSlots(b.proxies), FreeSlots(b'.proxies));
  }

  // Steps and runs.

  /** What one step of a run is given from outside. */
  datatype StepInput = StepInput(
    wantsBlocked: nat -> bool,
    rejuvenates: bool,
    newUrl: nat -> Proxy,
    inputs: Inputs,
    newProxies: seq<Proxy>,
    newClients: nat)

  /** In some steps addresses are renewed, and blocked proxies emptied. */
  function Refreshed(b: Books, step: StepInput): Books {
    if step.rejuvenates then
      b.(proxies := Renewed(b.proxies, step.newUrl), assignments := Without(b.assignments, BlockedRows(b.proxies)))
    else b
  }

  /** The books when the affected clients ask: after the censor's turn and the renewal. */
  function Ready(b: Books, step: StepInput): Books {
    Refreshed(b.(proxies := Blocked(b.proxies, step.wantsBlocked)), step)
  }

  predicate LoadedIn(loads: seq<Load>, ip: Client) {
    exists k :: 0 <= k < |loads| && loads[k].ip == ip
  }

  /** The clients that ask are those assigned to a proxy the censor has just blocked, loaded as they were on file. */
  ghost predicate Affected(b: Books, step: StepInput, loads: seq<Load>) {
    var after := Blocked(b.proxies, step.wantsBlocked);
    && (forall k :: 0 <= k < |loads| ==> loads[k].ip in b.clients && loads[k].flagged == b.clients[loads[k].ip])
    && (forall ip :: LoadedIn(loads, ip) <==> LosesProxy(b.proxies, after, |after|, b.assignments, ip))
  }

  /** The books with the step's new proxies in. */
  function Extended(b: Books, step: StepInput): Books {
    b.(proxies := b.proxies + NewRows(step.newProxies))
  }

  /** What happened in one step: who asked, what came of it, the books right then, and the books in the end. */
  datatype StepRecord = StepRecord(loads: seq<Load>, deal: Deal, asked: Books, after: Books)

  /** A step blocks, renews, lets the affected ask, and adds proxies and clients. It breaks off after the request when
      an address is shared, and after the first new client for whom there is no proxy. */
  ghost predicate StepDone(b: Books, step: StepInput, r: StepRecord, ok: bool) {
    var ready := Ready(b, step);
    && r.asked.lastClientId >= -1
    && Affected(b, step, r.loads)
    && Requested(ready, r.loads, step.inputs, r.deal, r.asked, AddressesUnique(ready.proxies))
    && if AddressesUnique(ready.proxies) then (r.after, ok) == Enrolled(Extended(r.asked, step), step.newClients)
       else r.after == r.asked && !ok
  }

  /** And the books still balance. */
  ghost predicate StepTaken(b: Books, step: StepInput, r: StepRecord, ok: bool) {
    StepDone(b, step, r, ok) && r.asked.Valid()
  }

  lemma StepIs(b: Books, step: StepInput, r: StepRecord, asking: bool, ok: bool)
    requires Affected(b, step, r.loads) && Requested(Ready(b, step), r.loads, step.inputs, r.deal, r.asked, asking)
    requires r.asked.Valid()
    requires if asking then (r.after, ok) == Enrolled(Extended(r.asked, step), step.newClients)
             else r.after == r.asked && !ok
    ensures StepTaken(b, step, r, ok)
  {}

  /** The slots that are left when the affected clients have asked, and the new proxies', do for the new clients. */
  ghost predicate SlotsSuffice(ready: Books, loads: seq<Load>, step: StepInput) {
    var left := FreeSlots(ready.proxies) - |Askers(ready, loads, step.inputs)|;
    (if left > 0 then left else 0) + MAX_PROXY_CAPACITY * |step.newProxies| >= step.newClients
  }

  /** What it takes for a step to go through, seen before the clients ask. */
  ghost predicate CanGoThrough(ready: Books, loads: seq<Load>, step: StepInput) {
    AddressesUnique(ready.proxies) && SlotsSuffice(ready, loads, step)
  }

  lemma NewClientsFit(asked: Books, step: StepInput)
    requires asked.lastClientId >= -1 && NoneNegative(asked.proxies)
    ensures Enrolled(Extended(asked, step), step.newClients).1
       <==> FreeSlots(asked.proxies) + MAX_PROXY_CAPACITY * |step.newProxies| >= step.newClients
  {
    SlotsAdded(asked.proxies, step.newProxies);
    EnrolledExactly(Extended(asked, step), step.newClients);
  }

  lemma FitAfterRequest(ready: Books, step: StepInput, loads: seq<Load>, deal: Deal, asked: Books)
    requires Requested(ready, loads, step.inputs, deal, asked, true)
    requires asked.lastClientId >= -1 && NoneNegative(asked.proxies)
    ensures Enrolled(Extended(asked, step), step.newClients).1 <==> SlotsSuffice(ready, loads, step)
  {
    RequestTakes(ready, loads, step.inputs, deal, asked);
    NewClientsFit(asked, step);
  }

  lemma NoCapacityNegative(b: Books)
    requires b.Valid()
    ensures NoneNegative(b.proxies)
  {}

  /** A step goes through if and only if addresses are unique when the clients ask and the slots do for everybody. */
  lemma StepBreaksExactly(b: Books, step: StepInput, r: StepRecord, ok: bool)
    requires StepTaken(b, step, r, ok)
    ensures ok <==> CanGoThrough(Ready(b, step), r.loads, step)
  {
    NoCapacityNegative(r.asked);
    if AddressesUnique(Ready(b, step).proxies) {
      FitAfterRequest(Ready(b, step), step, r.loads, r.deal, r.asked);
    }
  }

  /** One new proxy takes 40 clients and not 41. */
  lemma SlotsRunOut(url: Proxy)
    ensures var b := Books([ProxyRow(url, MAX_PROXY_CAPACITY, false)], map[], [], -1);
            Enrolled(b, 40).1 && !Enrolled(b, 41).1
  {
    var b := Books([ProxyRow(url, MAX_PROXY_CAPACITY, false)], map[], [], -1);
    assert b.proxies[..0] == [];
    EnrolledExactly(b, 40);
    EnrolledExactly(b, 41);
  }

  /** Two proxies that are given one new address break a step off, whoever asks. */
  lemma SharedAddressBreaks(p: Proxy, q: Proxy, url: Proxy, inputs: Inputs, loads: seq<Load>)
    ensures var b := Books(NewRows([p, q]), map[], [], -1);
            var step := StepInput((i: nat) => false, true, (i: nat) => url, inputs, [], 0);
            !CanGoThrough(Ready(b, step), loads, step)
  {
    var b := Books(NewRows([p, q]), map[], [], -1);
    var step := StepInput((i: nat) => false, true, (i: nat) => url, inputs, [], 0);
    var proxies := Ready(b, step).proxies;
    assert Usable(proxies[0]) && proxies[1].url == url;
    assert !Only(proxies, proxies[0].url, 0);
  }

  function Before(b: Books, trail: seq<StepRecord>, k: nat): Books
    requires k <= |trail|
  {
    if k == 0 then b else trail[k - 1].after
  }

  /** Steps taken one after the other, each related to the books before it, up to the first that breaks off. */
  ghost predicate Chain(taken: (Books, StepInput, StepRecord, bool) -> bool,
                        b: Books, steps: seq<StepInput>, trail: seq<StepRecord>, b': Books, completed: bool)
  {
    if trail == [] then steps == [] && b' == b && completed else
      var n := |trail| - 1;
      && n < |steps| && (completed ==> |trail| == |steps|)
      && Chain(taken, b, steps[..n], trail[..n], Before(b, trail, n), true)
      && taken(Before(b, trail, n), steps[n], trail[n], completed)
      && b' == trail[n].after
  }

  /** A whole run: its steps in order, up to the first that breaks off. */
  ghost predicate RunDone(b: Books, steps: seq<StepInput>, trail: seq<StepRecord>, b': Books, completed: bool) {
    Chain(StepTaken, b, steps, trail, b', completed)
  }

  lemma ChainMore(taken: (Books, StepInput, StepRecord, bool) -> bool,
                  b: Books, steps: seq<StepInput>, trail: seq<StepRecord>, b': Books, r: StepRecord, ok: bool)
    requires |trail| < |steps| && Chain(taken, b, steps[..|trail|], trail, b', true)
    requires taken(b', steps[|trail|], r, ok)
    ensures Chain(taken, b, steps[..|trail| + 1], trail + [r], r.after, ok)
  {
    var longer := trail + [r];
    assert longer[..|trail|] == trail && steps[..|trail| + 1][..|trail|] == steps[..|trail|];
    assert Before(b, longer, |trail|) == b';
  }

  lemma ChainLonger(taken: (Books, StepInput, StepRecord, bool) -> bool,
                    b: Books, steps: seq<StepInput>, n: nat, trail: seq<StepRecord>, b': Books)
    requires n <= |steps| && Chain(taken, b, steps[..n], trail, b', false)
    ensures Chain(taken, b, steps, trail, b', false)
  {
    assert steps[..n][..|trail| - 1] == steps[..|trail| - 1];
  }

  lemma {:induction false} ChainAt(taken: (Books, StepInput, StepRecord, bool) -> bool,
                                   b: Books, steps: seq<StepInput>, trail: seq<StepRecord>, b': Books,
                                   completed: bool, k: nat)
    requires Chain(taken, b, steps, trail, b', completed) && k < |trail|
    ensures |trail| <= |steps|
    ensures taken(Before(b, trail, k), steps[k], trail[k], k < |trail| - 1 || completed)
  {
    var n := |trail| - 1;
    if k < n {
      ChainAt(taken, b, steps[..n], trail[..n], Before(b, trail, n), true, k);
      assert Before(b, trail[..n], k) == Before(b, trail, k);
    }
  }

  /** A run goes through if and only if every step of it can, judged by the books and loads before its request; if it
      breaks off, its last step could not, and all before it could. */
  lemma RunBreaksExactly(b: Books, steps: seq<StepInput>, trail: seq<StepRecord>, b': Books, completed: bool, k: nat)
    requires RunDone(b, steps, trail, b', completed) && k < |trail|
    ensures |trail| <= |steps|
    ensures (k < |trail| - 1 || completed)
       <==> CanGoThrough(Ready(Before(b, trail, k), steps[k]), trail[k].loads, steps[k])
  {
    ChainAt(StepTaken, b, steps, trail, b', completed, k);
    assert StepTaken(Before(b, trail, k), steps[k], trail[k], k < |trail| - 1 || completed);
    StepBreaksExactly(Before(b, trail, k), steps[k], trail[k], k < |trail| - 1 || completed);
  }

  /** No client is gone, and none lost its flag. */
  ghost predicate Kept(before: map<Client, bool>, after: map<Client, bool>) {
    before.Keys <= after.Keys && forall ip :: ip in before && before[ip] ==> after[ip]
  }

  lemma RowNumbered(clients: map<Client, bool>, rows: seq<AssignmentRow>, last: int, row: AssignmentRow)
    requires ClientsNumbered(clients, rows, last) && row.client in clients
    ensures ClientsNumbered(clients, rows + [row], last)
  {}

  lemma EnrollConserves(b: Books)
    requires b.Valid()
    ensures Conserved(Enroll(b).proxies, Enroll(b).assignments)
  {
    NewAddress(b.clients, b.assignments, b.lastClientId);
    NewRowConserves(b.proxies, b.assignments, FirstUsable(b.proxies), AddressOf(b.lastClientId + 1));
  }

  lemma ClientMore(clients: map<Client, bool>, rows: seq<AssignmentRow>, last: int, chosen: Option<nat>)
    requires ClientsNumbered(clients, rows, last)
    ensures var ip := AddressOf(last + 1);
            ClientsNumbered(clients[ip := false], rows + [AssignmentRow(chosen, ip)], last + 1)
  {
    var ip := AddressOf(last + 1);
    NewAddress(clients, rows, last);
    RowNumbered(clients[ip := false], rows, last + 1, AssignmentRow(chosen, ip));
  }

  lemma NewcomerKeeps(clients: map<Client, bool>, ip: Client)
    requires ip !in clients
    ensures Kept(clients, clients[ip := false])
  {}

  lemma EnrollNumbers(b: Books)
    requires b.Valid()
    ensures ClientsNumbered(Enroll(b).clients, Enroll(b).assignments, Enroll(b).lastClientId)
  {
    ClientMore(b.clients, b.assignments, b.lastClientId, FirstUsable(b.proxies));
  }

  lemma EnrollKeeps(b: Books)
    requires b.Valid()
    ensures Kept(b.clients, Enroll(b).clients)
  {
    HigherNumber(b.lastClientId, b.lastClientId + 1);
    NewcomerKeeps(b.clients, AddressOf(b.lastClientId + 1));
  }

  lemma KeptOn(a: map<Client, bool>, b: map<Client, bool>, c: map<Client, bool>)
    requires Kept(a, b) && Kept(b, c)
    ensures Kept(a, c)
  {}

  lemma {:induction false} EnrolledValid(b: Books, n: nat)
    requires b.Valid()
    ensures Enrolled(b, n).0.Valid() && Kept(b.clients, Enrolled(b, n).0.clients)
  {
    if n > 0 && Enrolled(b, n - 1).1 {
      var before := Enrolled(b, n - 1).0;
      EnrolledValid(b, n - 1);
      EnrollConserves(before);
      EnrollNumbers(before);
      EnrollKeeps(before);
      KeptOn(b.clients, before.clients, Enroll(before).clients);
    } else if n > 0 {
      EnrolledValid(b, n - 1);
    }
  }

  /** New clients change nothing for old ones: each gets a number and a row, until one finds no proxy. */
  lemma {:induction false} EnrolledCounts(b: Books, n: nat)
    requires b.lastClientId >= -1
    ensures var (after, ok) := Enrolled(b, n);
            && |after.proxies| == |b.proxies| && b.assignments <= after.assignments
            && |after.assignments| - |b.assignments| == after.lastClientId - b.lastClientId <= n
            && (ok ==> after.lastClientId == b.lastClientId + n)
            && (!ok ==> forall p :: p in after.proxies ==> !Usable(p))
  {
    if n > 0 {
      EnrolledCounts(b, n - 1);
    }
  }

  lemma ExtendedKeeps(b: Books, step: StepInput)
    requires b.Valid()
    ensures Extended(b, step).Valid()
  {
    forall i | |b.proxies| <= i < |b.proxies| + |step.newProxies| ensures Count(b.assignments, i) == 0 {
      CountNone(b.assignments, i);
    }
  }

  /** A request forgets no client and no flag, and adds none. */
  lemma RequestKeeps(b: Books, loads: seq<Load>, inputs: Inputs, deal: Deal, b': Books, ok: bool)
    requires Requested(b, loads, inputs, deal, b', ok)
    ensures Kept(b.clients, b'.clients) && |b'.proxies| == |b.proxies| && b'.lastClientId == b.lastClientId
  {}

  /** What is added after the request. */
  lemma AddingKeeps(asked: Books, step: StepInput)
    requires asked.Valid()
    ensures var (after, ok) := Enrolled(Extended(asked, step), step.newClients);
            && after.Valid() && Kept(asked.clients, after.clients)
            && |after.proxies| == |asked.proxies| + |step.newProxies| && after.lastClientId >= asked.lastClientId
            && (ok ==> after.lastClientId == asked.lastClientId + step.newClients)
  {
    ExtendedKeeps(asked, step);
    EnrolledValid(Extended(asked, step), step.newClients);
    EnrolledCounts(Extended(asked, step), step.newClients);
  }

  /** A step forgets no client and no flag, and adds what it was given if it goes through. */
  lemma StepKeeps(b: Books, step: StepInput, r: StepRecord, ok: bool)
    requires StepTaken(b, step, r, ok)
    ensures r.after.Valid() && Kept(b.clients, r.after.clients)
    ensures |r.after.proxies| >= |b.proxies| && r.after.lastClientId >= b.lastClientId
    ensures ok ==> |r.after.proxies| == |b.proxies| + |step.newProxies|
    ensures ok ==> r.after.lastClientId == b.lastClientId + step.newClients
  {
    RequestKeeps(Ready(b, step), r.loads, step.inputs, r.deal, r.asked, AddressesUnique(Ready(b, step).proxies));
    AddingKeeps(r.asked, step);
    KeptOn(b.clients, r.asked.clients, r.after.clients);
  }

  function ProxiesGiven(steps: seq<StepInput>): nat {
    if steps == [] then 0 else ProxiesGiven(steps[..|steps| - 1]) + |steps[|steps| - 1].newProxies|
  }

  function ClientsGiven(steps: seq<StepInput>): nat {
    if steps == [] then 0 else ClientsGiven(steps[..|steps| - 1]) + steps[|steps| - 1].newClients
  }

  /** So does a whole run. */
  lemma {:induction false} RunKeeps(b: Books, steps: seq<StepInput>, trail: seq<StepRecord>, b': Books, completed: bool)
    requires RunDone(b, steps, trail, b', completed)
    ensures Kept(b.clients, b'.clients) && |b'.proxies| >= |b.proxies| && b'.lastClientId >= b.lastClientId
    ensures completed ==> |b'.proxies| == |b.proxies| + ProxiesGiven(steps)
    ensures completed ==> b'.lastClientId == b.lastClientId + ClientsGiven(steps)
  {
    if trail != [] {
      var n := |trail| - 1;
      var before := Before(b, trail, n);
      RunKeeps(b, steps[..n], trail[..n], before, true);
      assert StepTaken(before, steps[n], trail[n], completed);
      StepKeeps(before, steps[n], trail[n], completed);
    }
  }
}
