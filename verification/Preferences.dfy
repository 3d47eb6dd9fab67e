/** How a request for new proxies turns utilities into the two sides' preference lists. */
module Preferences {
  import opened Markets

  const CLIENT_UTILITY_THRESHOLD: real := -500.0
  const ALPHA5: real := 10.0
  const BETA4: real := 1.0

  /** One loaded client row; several may be loaded for the same address. */
  class ClientRecord {
    const ip: Client
    var flagged: bool

    constructor (ip: Client, flagged: bool)
      ensures this.ip == ip && this.flagged == flagged
    {
      this.ip := ip;
      this.flagged := flagged;
    }
  }

  /** What a loaded row says. */
  datatype Load = Load(ip: Client, flagged: bool)

  function Loads(proposing: seq<ClientRecord>): (loads: seq<Load>)
    reads proposing
    ensures |loads| == |proposing|
    ensures forall k :: 0 <= k < |loads| ==> loads[k] == Load(proposing[k].ip, proposing[k].flagged)
  {
    if proposing == [] then [] else
      var last := proposing[|proposing| - 1];
      Loads(proposing[..|proposing| - 1]) + [Load(last.ip, last.flagged)]
  }

  datatype ActiveProxy = ActiveProxy(url: Proxy, capacity: int)

  /** A dictionary of utilities, with its keys in insertion order. */
  datatype Utilities = Utilities(keys: seq<string>, value: map<string, real>) {
    ghost predicate Valid() {
      Distinct(keys) && forall k :: k in keys <==> k in value
    }

    function Set(k: string, v: real): Utilities {
      Utilities(if k in value then keys else keys + [k], value[k := v])
    }
  }

  /** Puts k before every key of no greater utility. */
  function Insert(u: map<string, real>, sorted: seq<string>, k: string): seq<string>
    requires k in u && forall x :: x in sorted ==> x in u
  {
    if sorted == [] then [k]
    else if u[sorted[0]] <= u[k] then [k] + sorted
    else [sorted[0]] + Insert(u, sorted[1..], k)
  }

  /** `reversed(sorted(dictionary, key = utility))`: best first, and of equals the later key first. */
  function BestFirst(u: map<string, real>, keys: seq<string>): (r: seq<string>)
    requires forall k :: k in keys ==> k in u
    ensures forall x :: x in r ==> x in u
  {
    if keys == [] then [] else
      var rest := BestFirst(u, keys[..|keys| - 1]);
      InsertMembers(u, rest, keys[|keys| - 1]);
      Insert(u, rest, keys[|keys| - 1])
  }

  lemma {:induction false} InsertMembers(u: map<string, real>, sorted: seq<string>, k: string)
    requires k in u && forall x :: x in sorted ==> x in u
    ensures forall x :: x in Insert(u, sorted, k) <==> x == k || x in sorted
  {
    if sorted != [] && u[sorted[0]] > u[k] {
      InsertMembers(u, sorted[1..], k);
    }
  }

  ghost predicate Descending(u: map<string, real>, s: seq<string>) {
    (forall x :: x in s ==> x in u) && forall i, j :: 0 <= i < j < |s| ==> u[s[i]] >= u[s[j]]
  }

  lemma ConsDescending(u: map<string, real>, x: string, rest: seq<string>)
    requires x in u && Descending(u, rest) && forall y :: y in rest ==> u[y] <= u[x]
    ensures Descending(u, [x] + rest)
  {
    forall i | 0 <= i < |rest| ensures u[rest[i]] <= u[x] {
      assert rest[i] in rest;
    }
  }

  lemma ConsDistinct(x: string, rest: seq<string>)
    requires Distinct(rest) && x !in rest
    ensures Distinct([x] + rest)
  {}

  lemma {:induction false} InsertSorts(u: map<string, real>, sorted: seq<string>, k: string)
    requires k in u && Descending(u, sorted)
    ensures Descending(u, Insert(u, sorted, k))
  {
    if sorted != [] {
      assert forall i :: 0 < i < |sorted| ==> u[sorted[i]] <= u[sorted[0]];
      if u[sorted[0]] <= u[k] {
        ConsDescending(u, k, sorted);
      } else {
        InsertSorts(u, sorted[1..], k);
        InsertMembers(u, sorted[1..], k);
        ConsDescending(u, sorted[0], Insert(u, sorted[1..], k));
      }
    }
  }

  lemma {:induction false} InsertDistinct(u: map<string, real>, sorted: seq<string>, k: string)
    requires k in u && (forall x :: x in sorted ==> x in u) && Distinct(sorted) && k !in sorted
    ensures Distinct(Insert(u, sorted, k))
  {
    if sorted != [] {
      if u[sorted[0]] <= u[k] {
        ConsDistinct(k, sorted);
      } else {
        InsertDistinct(u, sorted[1..], k);
        InsertMembers(u, sorted[1..], k);
        assert sorted[0] !in sorted[1..];
        ConsDistinct(sorted[0], Insert(u, sorted[1..], k));
      }
    }
  }

  /** The list ranks every key exactly once, best first. */
  lemma {:induction false} BestFirstRanks(u: map<string, real>, keys: seq<string>)
    requires Distinct(keys) && forall k :: k in keys ==> k in u
    ensures var r := BestFirst(u, keys);
            Distinct(r) && Descending(u, r) && forall x :: x in r <==> x in keys
  {
    if keys != [] {
      var most, last := keys[..|keys| - 1], keys[|keys| - 1];
      BestFirstRanks(u, most);
      InsertSorts(u, BestFirst(u, most), last);
      InsertDistinct(u, BestFirst(u, most), last);
      InsertMembers(u, BestFirst(u, most), last);
    }
  }

  /** The numbers behind the utilities: per loaded client, per proxy, and the distances between them. */
  datatype Inputs = Inputs(
    clientUtility: nat -> real,
    proxyUtility: nat -> real,
    distance: (nat, Client) -> real)

  function PairUtility(general: map<Client, real>, inputs: Inputs, j: nat, ip: Client): real
    requires ip in general
  {
    general[ip] - ALPHA5 * inputs.distance(j, ip)
  }

  /** Some proxy among the first n is so far away that the client falls below the threshold. */
  ghost predicate FallsBelow(general: map<Client, real>, inputs: Inputs, n: nat, ip: Client) {
    exists j :: 0 <= j < n && ip in general && PairUtility(general, inputs, j, ip) < CLIENT_UTILITY_THRESHOLD
  }

  /** The general utility of every client that is not flagged; of two loads of one client the later counts. */
  function GeneralOf(loads: seq<Load>, inputs: Inputs): map<Client, real> {
    if loads == [] then map[] else
      var n := |loads| - 1;
      var general := GeneralOf(loads[..n], inputs);
      if loads[n].flagged then general else general[loads[n].ip := inputs.clientUtility(n)]
  }

  /** The k-th load is the last unflagged one of its client. */
  ghost predicate LastLoad(loads: seq<Load>, k: nat) {
    && k < |loads| && !loads[k].flagged
    && forall m :: k < m < |loads| && !loads[m].flagged ==> loads[m].ip != loads[k].ip
  }

  lemma {:induction false} GeneralHas(loads: seq<Load>, inputs: Inputs, k: nat)
    requires k < |loads| && !loads[k].flagged
    ensures loads[k].ip in GeneralOf(loads, inputs)
  {
    if k < |loads| - 1 {
      GeneralHas(loads[..|loads| - 1], inputs, k);
    }
  }

  /** A client's utility is that of its last unflagged load. */
  lemma {:induction false} GeneralIsLast(loads: seq<Load>, inputs: Inputs, k: nat)
    requires LastLoad(loads, k)
    ensures loads[k].ip in GeneralOf(loads, inputs) && GeneralOf(loads, inputs)[loads[k].ip] == inputs.clientUtility(k)
  {
    var n := |loads| - 1;
    if k < n {
      assert forall m :: 0 <= m < n ==> loads[..n][m] == loads[m];
      assert LastLoad(loads[..n], k);
      GeneralIsLast(loads[..n], inputs, k);
    }
  }

  /** And nobody else has one. */
  lemma {:induction false} GeneralIsOf(loads: seq<Load>, inputs: Inputs, ip: Client) returns (k: nat)
    requires ip in GeneralOf(loads, inputs)
    ensures LastLoad(loads, k) && loads[k].ip == ip
  {
    var n := |loads| - 1;
    if loads[n] == Load(ip, false) {
      k := n;
    } else {
      k := GeneralIsOf(loads[..n], inputs, ip);
    }
  }

  /** The loads once every proxy has looked at them: a client that some proxy finds too far away ends flagged. */
  ghost function Judged(loads: seq<Load>, inputs: Inputs, n: nat): (judged: seq<Load>)
    ensures |judged| == |loads|
  {
    seq(|loads|, k requires 0 <= k < |loads| =>
      Load(loads[k].ip, loads[k].flagged || FallsBelow(GeneralOf(loads, inputs), inputs, n, loads[k].ip)))
  }

  method GeneralUtilities(proposing: seq<ClientRecord>, inputs: Inputs) returns (general: map<Client, real>)
    ensures general == GeneralOf(Loads(proposing), inputs)
  {
    general := map[];
    ghost var loads := Loads(proposing);
    for i := 0 to |proposing|
      invariant general == GeneralOf(loads[..i], inputs)
    {
      assert loads[..i + 1][..i] == loads[..i];
      if proposing[i].flagged {
        continue;
      }
      general := general[proposing[i].ip := inputs.clientUtility(i)];
    }
    assert loads[..|proposing|] == loads;
  }

  lemma FallsBelowMore(general: map<Client, real>, inputs: Inputs, j: nat, ip: Client)
    ensures FallsBelow(general, inputs, j + 1, ip)
       <==> || FallsBelow(general, inputs, j, ip)
            || (ip in general && PairUtility(general, inputs, j, ip) < CLIENT_UTILITY_THRESHOLD)
  {}

  /** The ranking is by proxy j's utility for the clients, best first. */
  ghost predicate BestFirstFor(general: map<Client, real>, inputs: Inputs, j: nat, ranking: seq<Client>) {
    && (forall ip :: ip in ranking ==> ip in general)
    && forall a, b :: 0 <= a < b < |ranking| ==>
         PairUtility(general, inputs, j, ranking[a]) >= PairUtility(general, inputs, j, ranking[b])
  }

  /** A proxy's utilities for the clients it has looked at. */
  ghost predicate UtilitiesFor(general: map<Client, real>, inputs: Inputs, j: nat, utilities: Utilities) {
    && utilities.Valid()
    && forall ip :: ip in utilities.value ==>
         ip in general && utilities.value[ip] == PairUtility(general, inputs, j, ip)
  }

  /** Proxy j looks at a client: one that is not yet flagged is given a utility, and flagged if that is too low. */
  method LookAt(client: ClientRecord, utilities: Utilities, general: map<Client, real>, inputs: Inputs, j: nat)
    returns (utilities': Utilities, newlyFlagged: seq<ClientRecord>)
    requires UtilitiesFor(general, inputs, j, utilities) && (!client.flagged ==> client.ip in general)
    modifies client
    ensures UtilitiesFor(general, inputs, j, utilities')
    ensures utilities.value.Keys <= utilities'.value.Keys
    ensures !old(client.flagged) ==> client.ip in utilities'.value
    ensures client.flagged
            <==> old(client.flagged) || general[client.ip] - 10.0 * inputs.distance(j, client.ip) < -500.0
    ensures newlyFlagged == if client.flagged && !old(client.flagged) then [client] else []
  {
    newlyFlagged := [];
    if client.flagged {
      return utilities, [];
    }
    var u := PairUtility(general, inputs, j, client.ip);
    if u < CLIENT_UTILITY_THRESHOLD {
      client.flagged := true;
      newlyFlagged := newlyFlagged + [client];
    }
    utilities' := utilities.Set(client.ip, u);
  }

  /** One proxy's view of the clients: those not yet flagged are ranked, and those that fall below are
      flagged on the way. */
  method RankClients(proposing: seq<ClientRecord>, general: map<Client, real>, inputs: Inputs, j: nat)
    returns (ranking: seq<Client>, newlyFlagged: seq<ClientRecord>)
    requires forall c :: c in proposing && !c.flagged ==> c.ip in general
    modifies proposing
    ensures Distinct(ranking) && BestFirstFor(general, inputs, j, ranking)
    ensures forall c :: c in proposing && !old(c.flagged) ==> c.ip in ranking
    ensures forall c :: c in proposing ==>
              (c.flagged <==> old(c.flagged) || general[c.ip] - 10.0 * inputs.distance(j, c.ip) < -500.0)
    ensures forall c :: c in newlyFlagged <==> c in proposing && c.flagged && !old(c.flagged)
  {
    var utilities := Utilities([], map[]);
    newlyFlagged := [];
    for i := 0 to |proposing|
      invariant UtilitiesFor(general, inputs, j, utilities)
      invariant forall c :: c in proposing[..i] && !old(c.flagged) ==> c.ip in utilities.value
      invariant forall c :: c in proposing[..i] ==>
                  (c.flagged <==> old(c.flagged) || PairUtility(general, inputs, j, c.ip) < CLIENT_UTILITY_THRESHOLD)
      invariant forall c :: c in proposing && c !in proposing[..i] ==> c.flagged == old(c.flagged)
      invariant forall c :: c in newlyFlagged <==> c in proposing[..i] && c.flagged && !old(c.flagged)
    {
      OneMoreOf(proposing, i);
      var newly;
      utilities, newly := LookAt(proposing[i], utilities, general, inputs, j);
      newlyFlagged := newlyFlagged + newly;
    }
    assert proposing[..|proposing|] == proposing;
    BestFirstRanks(utilities.value, utilities.keys);
    ranking := BestFirst(utilities.value, utilities.keys);
  }

  lemma OneMoreOf<T>(s: seq<T>, i: nat)
    requires i < |s|
    ensures forall x :: x in s[..i + 1] <==> x in s[..i] || x == s[i]
  {
    assert s[..i + 1] == s[..i] + [s[i]];
  }

  ghost predicate UrlAmong(active: seq<ActiveProxy>, n: nat, p: Proxy)
    requires n <= |active|
  {
    exists j :: 0 <= j < n && active[j].url == p
  }

  /** The last of the first n proxies with this address; it is the one that counts. */
  function LastAt(active: seq<ActiveProxy>, n: nat, p: Proxy): (j: nat)
    requires n <= |active| && UrlAmong(active, n, p)
    ensures j < n && active[j].url == p
  {
    if active[n - 1].url == p then n - 1 else LastAt(active, n - 1, p)
  }

  ghost predicate CapacitiesOf(active: seq<ActiveProxy>, n: nat, capacities: map<Proxy, int>)
    requires n <= |active|
  {
    && (forall p :: p in capacities <==> UrlAmong(active, n, p))
    && (forall p :: p in capacities ==> capacities[p] == active[LastAt(active, n, p)].capacity)
  }

  /** Each proxy's ranking is by its own utility for the clients. */
  ghost predicate RankedByUtility(general: map<Client, real>, inputs: Inputs, active: seq<ActiveProxy>, n: nat,
                                  proxyPrefs: map<Proxy, seq<Client>>)
    requires n <= |active|
  {
    forall p :: p in proxyPrefs ==>
      UrlAmong(active, n, p) && BestFirstFor(general, inputs, LastAt(active, n, p), proxyPrefs[p])
  }

  /** Each proxy ranks nobody twice and everybody who is still unflagged. */
  ghost predicate RanksUnflagged(proposing: seq<ClientRecord>, proxyPrefs: map<Proxy, seq<Client>>)
    reads proposing
  {
    && (forall p :: p in proxyPrefs ==> Distinct(proxyPrefs[p]))
    && (forall p, c :: p in proxyPrefs && c in proposing && !c.flagged ==> c.ip in proxyPrefs[p])
  }

  lemma OneMoreProxy(active: seq<ActiveProxy>, j: nat, p: Proxy)
    requires j < |active|
    ensures UrlAmong(active, j + 1, p) <==> UrlAmong(active, j, p) || p == active[j].url
    ensures UrlAmong(active, j + 1, p) ==>
              LastAt(active, j + 1, p) == if p == active[j].url then j else LastAt(active, j, p)
  {}

  lemma OneMoreCapacity(active: seq<ActiveProxy>, j: nat, capacities: map<Proxy, int>)
    requires j < |active| && CapacitiesOf(active, j, capacities)
    ensures CapacitiesOf(active, j + 1, capacities[active[j].url := active[j].capacity])
  {
    forall p {
      OneMoreProxy(active, j, p);
    }
  }

  lemma OneMoreRanking(general: map<Client, real>, inputs: Inputs, active: seq<ActiveProxy>, j: nat,
                       proxyPrefs: map<Proxy, seq<Client>>, ranking: seq<Client>)
    requires j < |active| && RankedByUtility(general, inputs, active, j, proxyPrefs)
    requires BestFirstFor(general, inputs, j, ranking)
    ensures RankedByUtility(general, inputs, active, j + 1, proxyPrefs[active[j].url := ranking])
  {
    forall p {
      OneMoreProxy(active, j, p);
    }
  }

  /** Every active proxy ranks the clients in turn, and clients far from any of them are flagged along the way. */
  method RankForProxies(proposing: seq<ClientRecord>, active: seq<ActiveProxy>, general: map<Client, real>,
                        inputs: Inputs)
    returns (proxyPrefs: map<Proxy, seq<Client>>, capacities: map<Proxy, int>, flaggedClients: seq<ClientRecord>)
    requires forall c :: c in proposing && !c.flagged ==> c.ip in general
    modifies proposing
    ensures proxyPrefs.Keys == capacities.Keys
    ensures CapacitiesOf(active, |active|, capacities) && RanksUnflagged(proposing, proxyPrefs)
    ensures RankedByUtility(general, inputs, active, |active|, proxyPrefs)
    ensures forall c :: c in proposing ==>
              (c.flagged <==> old(c.flagged) || FallsBelow(general, inputs, |active|, c.ip))
    ensures forall c :: c in flaggedClients <==> c in proposing && c.flagged && !old(c.flagged)
  {
    proxyPrefs, capacities, flaggedClients := map[], map[], [];
    for j := 0 to |active|
      invariant proxyPrefs.Keys == capacities.Keys
      invariant CapacitiesOf(active, j, capacities) && RanksUnflagged(proposing, proxyPrefs)
      invariant RankedByUtility(general, inputs, active, j, proxyPrefs)
      invariant forall c :: c in proposing ==> (c.flagged <==> old(c.flagged) || FallsBelow(general, inputs, j, c.ip))
      invariant forall c :: c in flaggedClients <==> c in proposing && c.flagged && !old(c.flagged)
    {
      var ranking, newlyFlagged := RankClients(proposing, general, inputs, j);
      forall ip {
        FallsBelowMore(general, inputs, j, ip);
      }
      OneMoreCapacity(active, j, capacities);
      OneMoreRanking(general, inputs, active, j, proxyPrefs, ranking);
      proxyPrefs := proxyPrefs[active[j].url := ranking];
      capacities := capacities[active[j].url := active[j].capacity];
      flaggedClients := flaggedClients + newlyFlagged;
    }
  }

  /** What a proxy is worth to a client. */
  function WorthTo(active: seq<ActiveProxy>, inputs: Inputs, ip: Client, p: Proxy): real
    requires UrlAmong(active, |active|, p)
  {
    var j := LastAt(active, |active|, p);
    inputs.proxyUtility(j) - BETA4 * inputs.distance(j, ip)
  }

  /** The list holds every active proxy once, the ones worth most to the client first. */
  ghost predicate RanksProxies(active: seq<ActiveProxy>, inputs: Inputs, ip: Client, ranking: seq<Proxy>) {
    && Distinct(ranking)
    && (forall p :: p in ranking <==> UrlAmong(active, |active|, p))
    && forall a, b :: 0 <= a < b < |ranking| ==>
         WorthTo(active, inputs, ip, ranking[a]) >= WorthTo(active, inputs, ip, ranking[b])
  }

  /** What each active address is worth to everybody. */
  ghost predicate WorthsOf(active: seq<ActiveProxy>, n: nat, inputs: Inputs, general: map<Proxy, real>)
    requires n <= |active|
  {
    && (forall p :: p in general <==> UrlAmong(active, n, p))
    && (forall p :: p in general ==> general[p] == inputs.proxyUtility(LastAt(active, n, p)))
  }

  lemma OneMoreWorth(active: seq<ActiveProxy>, j: nat, inputs: Inputs, general: map<Proxy, real>)
    requires j < |active| && WorthsOf(active, j, inputs, general)
    ensures WorthsOf(active, j + 1, inputs, general[active[j].url := inputs.proxyUtility(j)])
  {
    forall p {
      OneMoreProxy(active, j, p);
    }
  }

  method ProxyUtilities(active: seq<ActiveProxy>, inputs: Inputs) returns (general: map<Proxy, real>)
    ensures WorthsOf(active, |active|, inputs, general)
  {
    general := map[];
    for j := 0 to |active|
      invariant WorthsOf(active, j, inputs, general)
    {
      OneMoreWorth(active, j, inputs, general);
      general := general[active[j].url := inputs.proxyUtility(j)];
    }
  }

  /** Every client that is still unflagged ranks the active proxies. */
  method RankForClients(proposing: seq<ClientRecord>, active: seq<ActiveProxy>, inputs: Inputs, ghost loads: seq<Load>)
    returns (order: seq<Client>, clientPrefs: map<Client, seq<Proxy>>)
    requires loads == Loads(proposing)
    ensures Distinct(order) && forall ip :: ip in order <==> ip in clientPrefs
    ensures forall ip :: ip in clientPrefs <==> Unflagged(loads, ip)
    ensures forall ip :: ip in clientPrefs ==> RanksProxies(active, inputs, ip, clientPrefs[ip])
  {
    var general := ProxyUtilities(active, inputs);
    order, clientPrefs := [], map[];
    for i := 0 to |proposing|
      invariant Distinct(order) && forall ip :: ip in order <==> ip in clientPrefs
      invariant forall ip :: ip in clientPrefs <==> Unflagged(loads[..i], ip)
      invariant forall ip :: ip in clientPrefs ==> RanksProxies(active, inputs, ip, clientPrefs[ip])
    {
      var client := proposing[i];
      OneMoreUnflagged(loads, i);
      if client.flagged {
        continue;
      }
      var ranking := RankFor(client.ip, active, general, inputs);
      if client.ip !in clientPrefs {
        order := order + [client.ip];
      }
      clientPrefs := clientPrefs[client.ip := ranking];
    }
    assert loads[..|proposing|] == loads;
  }

  lemma OneMoreUnflagged(loads: seq<Load>, i: nat)
    requires i < |loads|
    ensures forall ip :: Unflagged(loads[..i + 1], ip) <==> Unflagged(loads[..i], ip) || loads[i] == Load(ip, false)
  {
    forall ip ensures Unflagged(loads[..i + 1], ip) <==> Unflagged(loads[..i], ip) || loads[i] == Load(ip, false) {
      OneMoreOf(loads, i);
    }
  }

  method RankFor(ip: Client, active: seq<ActiveProxy>, general: map<Proxy, real>, inputs: Inputs)
    returns (ranking: seq<Proxy>)
    requires WorthsOf(active, |active|, inputs, general)
    ensures RanksProxies(active, inputs, ip, ranking)
  {
    var utilities := RankProxies(ip, active, general, inputs);
    BestFirstRanks(utilities.value, utilities.keys);
    ranking := BestFirst(utilities.value, utilities.keys);
  }

  ghost predicate HasWorths(active: seq<ActiveProxy>, general: map<Proxy, real>) {
    forall a :: a in active ==> a.url in general
  }

  /** What the addresses among the first n rows are worth to a client, row by row. */
  ghost function WorthsTo(active: seq<ActiveProxy>, n: nat, inputs: Inputs, general: map<Proxy, real>, ip: Client)
    : map<Proxy, real>
    requires n <= |active| && HasWorths(active, general)
  {
    if n == 0 then map[] else
      var url := active[n - 1].url;
      WorthsTo(active, n - 1, inputs, general, ip)[url := general[url] - BETA4 * inputs.distance(n - 1, ip)]
  }

  lemma {:induction false} WorthIsLast(active: seq<ActiveProxy>, n: nat, inputs: Inputs, general: map<Proxy, real>,
                                       ip: Client, p: Proxy)
    requires n <= |active| && HasWorths(active, general)
    ensures var worths := WorthsTo(active, n, inputs, general, ip);
            && (p in worths <==> UrlAmong(active, n, p))
            && (p in worths ==>
                  p in general && worths[p] == general[p] - BETA4 * inputs.distance(LastAt(active, n, p), ip))
  {
    if n > 0 {
      WorthIsLast(active, n - 1, inputs, general, ip, p);
      OneMoreProxy(active, n - 1, p);
    }
  }

  lemma WorthsAre(active: seq<ActiveProxy>, inputs: Inputs, general: map<Proxy, real>, ip: Client)
    requires WorthsOf(active, |active|, inputs, general) && HasWorths(active, general)
    ensures var worths := WorthsTo(active, |active|, inputs, general, ip);
            && (forall p :: p in worths <==> UrlAmong(active, |active|, p))
            && (forall p :: p in worths ==> worths[p] == WorthTo(active, inputs, ip, p))
  {
    var worths := WorthsTo(active, |active|, inputs, general, ip);
    forall p ensures p in worths <==> UrlAmong(active, |active|, p) {
      WorthIsLast(active, |active|, inputs, general, ip, p);
    }
    forall p | p in worths ensures worths[p] == WorthTo(active, inputs, ip, p) {
      WorthIsLast(active, |active|, inputs, general, ip, p);
    }
  }

  lemma AllHaveWorths(active: seq<ActiveProxy>, inputs: Inputs, general: map<Proxy, real>)
    requires WorthsOf(active, |active|, inputs, general)
    ensures HasWorths(active, general)
  {
    forall a | a in active ensures a.url in general {
      assert UrlAmong(active, |active|, a.url);
    }
  }

  /** One client's view of the proxies. */
  method RankProxies(ip: Client, active: seq<ActiveProxy>, general: map<Proxy, real>, inputs: Inputs)
    returns (utilities: Utilities)
    requires WorthsOf(active, |active|, inputs, general)
    ensures utilities.Valid() && (forall p :: p in utilities.value <==> UrlAmong(active, |active|, p))
    ensures forall p :: p in utilities.value ==> utilities.value[p] == WorthTo(active, inputs, ip, p)
  {
    AllHaveWorths(active, inputs, general);
    utilities := Utilities([], map[]);
    for j := 0 to |active|
      invariant utilities.Valid() && utilities.value == WorthsTo(active, j, inputs, general, ip)
    {
      assert active[j] in active;
      utilities := utilities.Set(active[j].url, general[active[j].url] - BETA4 * inputs.distance(j, ip));
    }
    WorthsAre(active, inputs, general, ip);
  }

  predicate Unflagged(loads: seq<Load>, ip: Client) {
    Load(ip, false) in loads
  }

  /** The market of the clients still unflagged in the end and the active proxies: everybody ranks everybody on the
      other side once, by utility, and each proxy has its capacity. */
  ghost predicate MarketFor(loads: seq<Load>, active: seq<ActiveProxy>, inputs: Inputs, mkt: Market) {
    && (forall ip :: ip in mkt.clientPrefs <==> Unflagged(Judged(loads, inputs, |active|), ip))
    && (forall ip :: ip in mkt.clientPrefs ==> RanksProxies(active, inputs, ip, mkt.clientPrefs[ip]))
    && CapacitiesOf(active, |active|, mkt.capacities)
    && mkt.proxyPrefs.Keys == mkt.capacities.Keys
    && RankedByUtility(GeneralOf(loads, inputs), inputs, active, |active|, mkt.proxyPrefs)
    && (forall ip, p :: ip in mkt.clientPrefs && p in mkt.proxyPrefs ==>
          p in mkt.clientPrefs[ip] && ip in mkt.proxyPrefs[p])
  }

  ghost function Members<T>(s: seq<T>): set<T> {
    set x | x in s
  }

  /** The records flagged since they were loaded. */
  ghost function NewlyFlaggedOf(proposing: seq<ClientRecord>, before: seq<Load>, after: seq<Load>): set<ClientRecord>
    requires |before| == |after| == |proposing|
  {
    set k: nat | k < |proposing| && after[k].flagged && !before[k].flagged :: proposing[k]
  }

  lemma UnflaggedHave(proposing: seq<ClientRecord>, inputs: Inputs)
    ensures forall c :: c in proposing && !c.flagged ==> c.ip in GeneralOf(Loads(proposing), inputs)
  {
    var loads := Loads(proposing);
    forall k | 0 <= k < |loads| && !loads[k].flagged ensures loads[k].ip in GeneralOf(loads, inputs) {
      GeneralHas(loads, inputs, k);
    }
  }

  /** The proxies' turns, seen from the loads. */
  method JudgeClients(proposing: seq<ClientRecord>, active: seq<ActiveProxy>, general: map<Client, real>,
                      inputs: Inputs)
    returns (proxyPrefs: map<Proxy, seq<Client>>, capacities: map<Proxy, int>, flaggedClients: seq<ClientRecord>)
    requires general == GeneralOf(Loads(proposing), inputs)
    modifies proposing
    ensures proxyPrefs.Keys == capacities.Keys && CapacitiesOf(active, |active|, capacities)
    ensures RankedByUtility(general, inputs, active, |active|, proxyPrefs)
    ensures RanksLoaded(Loads(proposing), proxyPrefs)
    ensures Loads(proposing) == Judged(old(Loads(proposing)), inputs, |active|)
    ensures Members(flaggedClients) == NewlyFlaggedOf(proposing, old(Loads(proposing)), Loads(proposing))
  {
    UnflaggedHave(proposing, inputs);
    proxyPrefs, capacities, flaggedClients := RankForProxies(proposing, active, general, inputs);
    UnflaggedAreRanked(proposing, proxyPrefs);
  }

  /** Each proxy ranks nobody twice and everybody loaded and unflagged. */
  ghost predicate RanksLoaded(loads: seq<Load>, proxyPrefs: map<Proxy, seq<Client>>) {
    && (forall p :: p in proxyPrefs ==> Distinct(proxyPrefs[p]))
    && (forall p, ip :: p in proxyPrefs && Unflagged(loads, ip) ==> ip in proxyPrefs[p])
  }

  lemma UnflaggedAreRanked(proposing: seq<ClientRecord>, proxyPrefs: map<Proxy, seq<Client>>)
    requires RanksUnflagged(proposing, proxyPrefs)
    ensures RanksLoaded(Loads(proposing), proxyPrefs)
  {
    forall p, ip | p in proxyPrefs && Unflagged(Loads(proposing), ip) ensures ip in proxyPrefs[p] {
      var k :| 0 <= k < |proposing| && Loads(proposing)[k] == Load(ip, false);
      assert proposing[k] in proposing;
    }
  }

  lemma FormsMarket(loads: seq<Load>, active: seq<ActiveProxy>, inputs: Inputs, mkt: Market)
    requires forall j :: 0 <= j < |active| ==> active[j].capacity > 0
    requires mkt.proxyPrefs.Keys == mkt.capacities.Keys && CapacitiesOf(active, |active|, mkt.capacities)
    requires RankedByUtility(GeneralOf(loads, inputs), inputs, active, |active|, mkt.proxyPrefs)
    requires RanksLoaded(Judged(loads, inputs, |active|), mkt.proxyPrefs)
    requires forall ip :: ip in mkt.clientPrefs <==> Unflagged(Judged(loads, inputs, |active|), ip)
    requires forall ip :: ip in mkt.clientPrefs ==> RanksProxies(active, inputs, ip, mkt.clientPrefs[ip])
    ensures mkt.WellFormed() && MarketFor(loads, active, inputs, mkt)
  {
    forall ip, p | ip in mkt.clientPrefs && p in mkt.clientPrefs[ip] ensures mkt.Acceptable(ip, p) {
      assert p in mkt.capacities;
    }
  }

  /** The matching's input is always well formed: whatever the utilities, and although clients are flagged
      part-way, every client that is passed on ranks every active proxy once and is ranked once by each of them. */
  method BuildMarket(proposing: seq<ClientRecord>, active: seq<ActiveProxy>, inputs: Inputs)
    returns (order: seq<Client>, mkt: Market, flaggedClients: seq<ClientRecord>)
    requires forall j :: 0 <= j < |active| ==> active[j].capacity > 0
    modifies proposing
    ensures mkt.WellFormed() && MarketFor(old(Loads(proposing)), active, inputs, mkt)
    ensures Distinct(order) && forall ip :: ip in order <==> ip in mkt.clientPrefs
    ensures Loads(proposing) == Judged(old(Loads(proposing)), inputs, |active|)
    ensures Members(flaggedClients) == NewlyFlaggedOf(proposing, old(Loads(proposing)), Loads(proposing))
  {
    ghost var loads := Loads(proposing);
    var general := GeneralUtilities(proposing, inputs);
    var proxyPrefs, capacities, clientPrefs;
    proxyPrefs, capacities, flaggedClients := JudgeClients(proposing, active, general, inputs);
    order, clientPrefs := RankForClients(proposing, active, inputs, Judged(loads, inputs, |active|));
    mkt := Market(clientPrefs, proxyPrefs, capacities);
    FormsMarket(loads, active, inputs, mkt);
  }

  // What the rankings and flags come to in numbers.

  /** The j-th row is the last with this address. */
  ghost predicate LastRow(active: seq<ActiveProxy>, p: Proxy, j: nat) {
    j < |active| && active[j].url == p && forall i :: j < i < |active| ==> active[i].url != p
  }

  lemma {:induction false} LastAtIs(active: seq<ActiveProxy>, n: nat, p: Proxy, j: nat)
    requires j < n <= |active| && active[j].url == p && forall i :: j < i < n ==> active[i].url != p
    ensures UrlAmong(active, n, p) && LastAt(active, n, p) == j
  {
    if j < n - 1 {
      LastAtIs(active, n - 1, p, j);
    }
  }

  /** A client ends newly flagged if and only if its utility less ten times its distance to some proxy is below -500. */
  lemma FlaggedExactly(loads: seq<Load>, inputs: Inputs, n: nat, k: nat, m: nat)
    requires LastLoad(loads, k) && m < |loads| && loads[m] == Load(loads[k].ip, false)
    ensures Judged(loads, inputs, n)[m].flagged
       <==> exists j :: 0 <= j < n && inputs.clientUtility(k) - 10.0 * inputs.distance(j, loads[k].ip) < -500.0
  {
    var general, ip := GeneralOf(loads, inputs), loads[k].ip;
    GeneralIsLast(loads, inputs, k);
    if j :| 0 <= j < n && inputs.clientUtility(k) - 10.0 * inputs.distance(j, ip) < -500.0 {
      assert PairUtility(general, inputs, j, ip) < CLIENT_UTILITY_THRESHOLD;
    }
    if FallsBelow(general, inputs, n, ip) {
      var j :| 0 <= j < n && PairUtility(general, inputs, j, ip) < CLIENT_UTILITY_THRESHOLD;
      assert inputs.clientUtility(k) - 10.0 * inputs.distance(j, ip) < -500.0;
    }
  }

  /** One of the first n proxies is too far for a client, by its last unflagged load. */
  ghost predicate TooFar(loads: seq<Load>, inputs: Inputs, n: nat, ip: Client) {
    exists k: nat :: LastLoad(loads, k) && loads[k].ip == ip
                     && exists j :: 0 <= j < n && inputs.clientUtility(k) - 10.0 * inputs.distance(j, ip) < -500.0
  }

  lemma OneLast(loads: seq<Load>, k: nat, l: nat)
    requires LastLoad(loads, k) && LastLoad(loads, l) && loads[k].ip == loads[l].ip
    ensures k == l
  {}

  /** All unflagged loads of a client are judged alike. */
  lemma JudgedExactly(loads: seq<Load>, inputs: Inputs, n: nat, m: nat, ip: Client)
    requires m < |loads| && loads[m] == Load(ip, false)
    ensures Judged(loads, inputs, n)[m].flagged <==> TooFar(loads, inputs, n, ip)
  {
    GeneralHas(loads, inputs, m);
    var k := GeneralIsOf(loads, inputs, ip);
    FlaggedExactly(loads, inputs, n, k, m);
    if l: nat :| LastLoad(loads, l) && loads[l].ip == ip
                 && exists j :: 0 <= j < n && inputs.clientUtility(l) - 10.0 * inputs.distance(j, ip) < -500.0 {
      OneLast(loads, k, l);
    }
  }

  /** The clients left unflagged. */
  lemma UnflaggedExactly(loads: seq<Load>, inputs: Inputs, n: nat, ip: Client)
    ensures Unflagged(Judged(loads, inputs, n), ip) <==> Load(ip, false) in loads && !TooFar(loads, inputs, n, ip)
  {
    var judged := Judged(loads, inputs, n);
    if m: nat :| m < |judged| && judged[m] == Load(ip, false) {
      assert loads[m] == Load(ip, false);
      JudgedExactly(loads, inputs, n, m, ip);
    }
    if m: nat :| m < |loads| && loads[m] == Load(ip, false) {
      JudgedExactly(loads, inputs, n, m, ip);
      assert judged[m].ip == ip;
    }
  }

  /** A proxy ranks clients by their utility less ten times their distance. */
  lemma RankedByNumbers(loads: seq<Load>, active: seq<ActiveProxy>, inputs: Inputs, mkt: Market, p: Proxy, j: nat,
                        a: nat, b: nat, k: nat, l: nat)
    requires MarketFor(loads, active, inputs, mkt) && p in mkt.proxyPrefs && LastRow(active, p, j)
    requires a < b < |mkt.proxyPrefs[p]| && LastLoad(loads, k) && LastLoad(loads, l)
    requires loads[k].ip == mkt.proxyPrefs[p][a] && loads[l].ip == mkt.proxyPrefs[p][b]
    ensures inputs.clientUtility(k) - 10.0 * inputs.distance(j, mkt.proxyPrefs[p][a])
            >= inputs.clientUtility(l) - 10.0 * inputs.distance(j, mkt.proxyPrefs[p][b])
  {
    LastAtIs(active, |active|, p, j);
    GeneralIsLast(loads, inputs, k);
    GeneralIsLast(loads, inputs, l);
    assert BestFirstFor(GeneralOf(loads, inputs), inputs, j, mkt.proxyPrefs[p]);
  }

  /** So of two clients of equal utility the nearer comes first. */
  lemma NearerFirst(loads: seq<Load>, active: seq<ActiveProxy>, inputs: Inputs, mkt: Market, p: Proxy, j: nat,
                    a: nat, b: nat, k: nat, l: nat)
    requires MarketFor(loads, active, inputs, mkt) && p in mkt.proxyPrefs && LastRow(active, p, j)
    requires a < |mkt.proxyPrefs[p]| && b < |mkt.proxyPrefs[p]| && LastLoad(loads, k) && LastLoad(loads, l)
    requires loads[k].ip == mkt.proxyPrefs[p][a] && loads[l].ip == mkt.proxyPrefs[p][b]
    requires inputs.clientUtility(k) == inputs.clientUtility(l)
    requires inputs.distance(j, mkt.proxyPrefs[p][a]) < inputs.distance(j, mkt.proxyPrefs[p][b])
    ensures a < b
  {
    if b < a {
      RankedByNumbers(loads, active, inputs, mkt, p, j, b, a, l, k);
    }
  }

  /** A client ranks proxies by their utility less their distance. */
  lemma WorthByNumbers(loads: seq<Load>, active: seq<ActiveProxy>, inputs: Inputs, mkt: Market, ip: Client,
                       a: nat, b: nat, k: nat, l: nat)
    requires MarketFor(loads, active, inputs, mkt) && ip in mkt.clientPrefs && a < b < |mkt.clientPrefs[ip]|
    requires LastRow(active, mkt.clientPrefs[ip][a], k) && LastRow(active, mkt.clientPrefs[ip][b], l)
    ensures inputs.proxyUtility(k) - inputs.distance(k, ip) >= inputs.proxyUtility(l) - inputs.distance(l, ip)
  {
    var ranking := mkt.clientPrefs[ip];
    LastAtIs(active, |active|, ranking[a], k);
    LastAtIs(active, |active|, ranking[b], l);
    assert RanksProxies(active, inputs, ip, ranking);
  }

  /** So of two proxies of equal utility the nearer comes first. */
  lemma NearerProxyFirst(loads: seq<Load>, active: seq<ActiveProxy>, inputs: Inputs, mkt: Market, ip: Client,
                         a: nat, b: nat, k: nat, l: nat)
    requires MarketFor(loads, active, inputs, mkt) && ip in mkt.clientPrefs
    requires a < |mkt.clientPrefs[ip]| && b < |mkt.clientPrefs[ip]|
    requires LastRow(active, mkt.clientPrefs[ip][a], k) && LastRow(active, mkt.clientPrefs[ip][b], l)
    requires inputs.proxyUtility(k) == inputs.proxyUtility(l) && inputs.distance(k, ip) < inputs.distance(l, ip)
    ensures a < b
  {
    if b < a {
      WorthByNumbers(loads, active, inputs, mkt, ip, b, a, l, k);
    }
  }

  /** Of equals the later key comes first. */
  lemma {:induction false} TiesReversed(u: map<string, real>, keys: seq<string>, i: nat, j: nat)
    requires Distinct(keys) && (forall k :: k in keys ==> k in u) && i < j < |keys| && u[keys[i]] == u[keys[j]]
    ensures Before(BestFirst(u, keys), keys[j], keys[i])
  {
    var most, last := keys[..|keys| - 1], keys[|keys| - 1];
    var rest := BestFirst(u, most);
    if j == |keys| - 1 {
      BestFirstRanks(u, most);
      assert keys[i] in most;
      InsertBefore(u, rest, last, keys[i]);
    } else {
      TiesReversed(u, most, i, j);
      InsertKeeps(u, rest, last, keys[j], keys[i]);
    }
  }

  ghost predicate Before(s: seq<string>, x: string, y: string) {
    exists a, b :: 0 <= a < b < |s| && s[a] == x && s[b] == y
  }

  lemma BeforeInTail(h: string, t: seq<string>, x: string, y: string)
    requires Before(t, x, y)
    ensures Before([h] + t, x, y)
  {
    var a, b :| 0 <= a < b < |t| && t[a] == x && t[b] == y;
    assert ([h] + t)[a + 1] == x && ([h] + t)[b + 1] == y;
  }

  lemma BeforeHead(h: string, t: seq<string>, y: string)
    requires y in t
    ensures Before([h] + t, h, y)
  {
    var b :| 0 <= b < |t| && t[b] == y;
    assert ([h] + t)[0] == h && ([h] + t)[b + 1] == y;
  }

  lemma {:induction false} InsertBefore(u: map<string, real>, sorted: seq<string>, k: string, y: string)
    requires k in u && Descending(u, sorted) && y in sorted && u[y] == u[k]
    ensures Before(Insert(u, sorted, k), k, y)
  {
    if u[sorted[0]] <= u[k] {
      BeforeHead(k, sorted, y);
    } else {
      InsertBefore(u, sorted[1..], k, y);
      BeforeInTail(sorted[0], Insert(u, sorted[1..], k), k, y);
    }
  }

  lemma {:induction false} InsertKeeps(u: map<string, real>, sorted: seq<string>, k: string, x: string, y: string)
    requires k in u && (forall z :: z in sorted ==> z in u) && Before(sorted, x, y)
    ensures Before(Insert(u, sorted, k), x, y)
  {
    var a, b :| 0 <= a < b < |sorted| && sorted[a] == x && sorted[b] == y;
    if u[sorted[0]] <= u[k] {
      BeforeInTail(k, sorted, x, y);
    } else if a == 0 {
      assert sorted[1..][b - 1] == y;
      InsertMembers(u, sorted[1..], k);
      BeforeHead(x, Insert(u, sorted[1..], k), y);
    } else {
      assert sorted[1..][a - 1] == x && sorted[1..][b - 1] == y;
      InsertKeeps(u, sorted[1..], k, x, y);
      BeforeInTail(sorted[0], Insert(u, sorted[1..], k), x, y);
    }
  }
}
