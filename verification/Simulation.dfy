/** The controller's simulation, whose steps change rows in place; `Records` says what they come to. */
module Simulation {
  import opened Markets
  import opened Options
  import opened Preferences
  import opened ClientAddresses
  import opened Records
  import DA = DeferredAcceptance

  ghost predicate Loaded(records: seq<ClientRecord>, ip: Client) {
    exists c :: c in records && c.ip == ip
  }

  /** The records are as the clients were on file. */
  ghost predicate AsOnFile(records: seq<ClientRecord>, clients: map<Client, bool>)
    reads records
  {
    forall c :: c in records ==> c.ip in clients && c.flagged == clients[c.ip]
  }

  /** The clients loaded are those who lost one of the first n proxies. */
  ghost predicate LoadedFor(records: seq<ClientRecord>, before: seq<ProxyRow>, after: seq<ProxyRow>, n: nat,
                            rows: seq<AssignmentRow>)
    requires n <= |before| == |after|
  {
    forall ip :: Loaded(records, ip) <==> LosesProxy(before, after, n, rows, ip)
  }

  class Simulation {
    var proxies: seq<ProxyRow>
    var clients: map<Client, bool>
    var assignments: seq<AssignmentRow>
    var lastClientId: int

    ghost function State(): Books
      reads this
    {
      Books(proxies, clients, assignments, lastClientId)
    }

    ghost predicate Valid()
      reads this
    {
      State().Valid()
    }

    constructor (url: Proxy)
      ensures Valid() && State() == Books([ProxyRow(url, MAX_PROXY_CAPACITY, false)], map[], [], -1)
    {
      proxies := [ProxyRow(url, MAX_PROXY_CAPACITY, false)];
      clients := map[];
      assignments := [];
      lastClientId := -1;
    }

    /** The censor's turn: proxies it knows are blocked, and each one's clients are loaded to ask for another. */
    method Block(wantsBlocked: nat -> bool) returns (blockedClients: seq<ClientRecord>)
      requires Valid()
      modifies this
      ensures Valid() && State() == old(State()).(proxies := Blocked(old(proxies), wantsBlocked))
      ensures |proxies| == |old(proxies)| && forall i :: 0 <= i < |proxies| ==>
                proxies[i] == old(proxies)[i].(blocked := old(proxies)[i].blocked || wantsBlocked(i))
      ensures fresh(blockedClients) && AsOnFile(blockedClients, clients)
      ensures forall ip :: Loaded(blockedClients, ip) <==> LosesProxy(old(proxies), proxies, |proxies|, assignments, ip)
    {
      blockedClients := [];
      NothingBlocked(proxies, wantsBlocked);
      for i := 0 to |proxies|
        invariant State() == old(State()).(proxies := CensoredTo(old(proxies), wantsBlocked, i))
        invariant fresh(blockedClients) && AsOnFile(blockedClients, clients)
        invariant LoadedFor(blockedClients, old(proxies), proxies, i, assignments)
      {
        ghost var before := proxies;
        CensoredMore(old(proxies), wantsBlocked, i);
        var affected := BlockOne(i, wantsBlocked(i));
        LoadedForMore(blockedClients, affected, old(proxies), before, i, wantsBlocked(i), assignments);
        blockedClients := blockedClients + affected;
      }
      SameCapacities(old(proxies), proxies, assignments);
    }

    /** One proxy's turn. */
    method BlockOne(i: nat, wanted: bool) returns (affected: seq<ClientRecord>)
      requires i < |proxies| && forall r :: r in assignments ==> r.client in clients
      modifies this`proxies
      ensures proxies == BlockedAt(old(proxies), i, wanted)
      ensures fresh(affected) && AsOnFile(affected, clients)
      ensures forall ip ::
                Loaded(affected, ip) <==> !old(proxies)[i].blocked && wanted && AssignedTo(assignments, i, ip)
    {
      if proxies[i].blocked || !wanted {
        assert proxies == proxies[i := proxies[i]];
        return [];
      }
      proxies := proxies[i := proxies[i].(blocked := true)];
      affected := LoadClientsOf(i);
    }

    /** The clients assigned to a proxy, each loaded once. */
    method LoadClientsOf(i: nat) returns (loaded: seq<ClientRecord>)
      requires forall r :: r in assignments ==> r.client in clients
      ensures fresh(loaded) && AsOnFile(loaded, clients)
      ensures forall ip :: Loaded(loaded, ip) <==> AssignedTo(assignments, i, ip)
    {
      loaded := [];
      var done: set<Client> := {};
      for k := 0 to |assignments|
        invariant fresh(loaded) && AsOnFile(loaded, clients)
        invariant forall ip :: ip in done <==> Loaded(loaded, ip)
        invariant forall ip :: ip in done <==> AssignedTo(assignments[..k], i, ip)
      {
        var row := assignments[k];
        if row.proxy == Some(i) && row.client !in done {
          var record := new ClientRecord(row.client, clients[row.client]);
          LoadedOne(record);
          LoadedMore(loaded, [record]);
          loaded := loaded + [record];
          done := done + {row.client};
        }
        assert assignments[..k + 1] == assignments[..k] + [row];
      }
      assert assignments[..|assignments|] == assignments;
    }

    /** Every proxy gets a new address; a blocked one is emptied and can be used again. */
    method Rejuvenate(newUrl: nat -> Proxy)
      requires Valid()
      modifies this
      ensures Valid()
      ensures State() == old(State()).(proxies := Renewed(old(proxies), newUrl),
                                       assignments := Without(old(assignments), BlockedRows(old(proxies))))
      ensures |proxies| == |old(proxies)| && forall i :: 0 <= i < |proxies| ==>
                && proxies[i].url == newUrl(i) && !proxies[i].blocked
                && proxies[i].capacity == if old(proxies)[i].blocked then 40 else old(proxies)[i].capacity
    {
      RenewedConserves(proxies, assignments, newUrl);
      WithoutNumbers(clients, assignments, lastClientId, BlockedRows(proxies));
      RenewAll(newUrl);
    }

    method RenewAll(newUrl: nat -> Proxy)
      modifies `proxies, `assignments
      ensures (proxies, assignments)
              == (Renewed(old(proxies), newUrl), Without(old(assignments), BlockedRows(old(proxies))))
    {
      for i := 0 to |proxies|
        invariant |proxies| == |old(proxies)|
        invariant (proxies, assignments) == RenewedUpTo(old(proxies), old(assignments), newUrl, i)
      {
        RenewOne(i, newUrl(i));
      }
      RenewedIs(old(proxies), old(assignments), newUrl);
    }

    method RenewOne(i: nat, url: Proxy)
      requires i < |proxies|
      modifies `proxies, `assignments
      ensures proxies == RenewedAt(old(proxies), i, url)
      ensures assignments == if old(proxies)[i].blocked then Without(old(assignments), {i}) else old(assignments)
    {
      var p := proxies[i];
      if p.blocked {
        assignments := Without(assignments, {i});
        proxies := proxies[i := ProxyRow(url, MAX_PROXY_CAPACITY, false)];
      } else {
        proxies := proxies[i := p.(url := url)];
      }
    }

    method ActiveProxies() returns (active: seq<ActiveProxy>)
      ensures active == ActiveOf(proxies)
    {
      active := [];
      for i := 0 to |proxies|
        invariant active == ActiveOf(proxies[..i])
      {
        var p := proxies[i];
        ActiveMore(proxies[..i], p);
        assert proxies[..i + 1] == proxies[..i] + [p];
        if Usable(p) {
          active := active + [ActiveProxy(p.url, p.capacity)];
        }
      }
      assert proxies[..|proxies|] == proxies;
    }

    /** `get(function_url=url)`: fails unless exactly one row has the address. */
    method FindUnique(url: Proxy) returns (found: Option<nat>)
      ensures match found
              case Some(i) => Only(proxies, url, i)
              case None => !Found(proxies, url)
    {
      found := None;
      for i := 0 to |proxies|
        invariant match found
                  case Some(k) =>
                    k < i && proxies[k].url == url && forall j :: 0 <= j < i && j != k ==> proxies[j].url != url
                  case None => forall j :: 0 <= j < i ==> proxies[j].url != url
      {
        if proxies[i].url == url {
          if found.Some? {
            return None;
          }
          found := Some(i);
        }
      }
    }

    /** Writes one proxy's matches: its capacity drops by their number, and each gets a row. */
    method ApplyMatch(i: nat, accepted: seq<Client>)
      requires Valid() && i < |proxies| && |accepted| <= proxies[i].capacity
      requires forall c :: c in accepted ==> c in clients
      modifies `proxies, `assignments
      ensures Valid() && clients == old(clients) && lastClientId == old(lastClientId)
      ensures WrittenOnce(old(proxies), proxies, old(assignments), assignments, i, accepted)
    {
      MatchConserves(proxies, assignments, i, accepted);
      MatchNumbers(clients, assignments, lastClientId, i, accepted);
      proxies := proxies[i := proxies[i].(capacity := proxies[i].capacity - |accepted|)];
      assignments := assignments + RowsFor(i, accepted);
    }

    /** `client.save()` for the clients flagged while the preferences were built. */
    method SaveFlags(flagged: seq<ClientRecord>)
      requires Valid() && forall c :: c in flagged ==> c.ip in clients
      modifies `clients
      ensures Valid() && proxies == old(proxies) && assignments == old(assignments) && lastClientId == old(lastClientId)
      ensures clients.Keys == old(clients).Keys
      ensures forall ip :: ip in clients ==> clients[ip] == (old(clients)[ip] || Loaded(flagged, ip))
    {
      for k := 0 to |flagged|
        invariant proxies == old(proxies) && assignments == old(assignments) && lastClientId == old(lastClientId)
        invariant clients.Keys == old(clients).Keys
        invariant forall ip :: ip in clients ==> clients[ip] == (old(clients)[ip] || Loaded(flagged[..k], ip))
      {
        LoadedOne(flagged[k]);
        LoadedMore(flagged[..k], [flagged[k]]);
        assert flagged[..k + 1] == flagged[..k] + [flagged[k]];
        clients := clients[flagged[k].ip := true];
      }
      assert flagged[..|flagged|] == flagged;
    }

    /** The same, seen from the loads it was about. */
    method SaveNewFlags(proposing: seq<ClientRecord>, flagged: seq<ClientRecord>, ghost before: seq<Load>)
      requires Valid() && (forall c :: c in proposing ==> c.ip in clients)
      requires |before| == |proposing| && (forall k :: 0 <= k < |before| ==> before[k].ip == proposing[k].ip)
      requires Members(flagged) == NewlyFlaggedOf(proposing, before, Loads(proposing))
      modifies `clients
      ensures Valid() && proxies == old(proxies) && assignments == old(assignments) && lastClientId == old(lastClientId)
      ensures clients == Marked(old(clients), before, Loads(proposing))
    {
      FlaggedAreNew(proposing, flagged, before);
      FlaggedAreAmong(proposing, flagged, before);
      SaveFlags(flagged);
    }

    /** Writes the matches of one address, if exactly one row has it. */
    method WriteMatch(p: Proxy, accepted: seq<Client>) returns (ok: bool, ghost i: nat)
      requires Valid() && (forall c :: c in accepted ==> c in clients)
      requires forall i :: Only(proxies, p, i) ==> |accepted| <= proxies[i].capacity
      modifies `proxies, `assignments
      ensures Valid() && clients == old(clients) && lastClientId == old(lastClientId)
      ensures ok <==> Found(old(proxies), p)
      ensures ok ==> Only(old(proxies), p, i)
      ensures ok ==> WrittenOnce(old(proxies), proxies, old(assignments), assignments, i, accepted)
      ensures !ok ==> proxies == old(proxies) && assignments == old(assignments)
    {
      var found := FindUnique(p);
      if found.None? {
        return false, 0;
      }
      assert Only(proxies, p, found.value);
      ApplyMatch(found.value, accepted);
      return true, found.value;
    }

    /** Writes the matches, address by address, in whatever order the dictionary yields them, up to one that no row or
        several rows have. */
    method WriteMatches(matches: map<Proxy, seq<Client>>) returns (ok: bool, ghost done: set<Proxy>)
      requires Valid() && Writable(proxies, clients, matches)
      requires forall p :: p in matches ==> Distinct(matches[p])
      modifies `proxies, `assignments
      ensures Valid() && lastClientId == old(lastClientId) && clients == old(clients)
      ensures ok <==> forall p :: p in matches ==> Found(old(proxies), p)
      ensures ok <==> done == matches.Keys
      ensures Recorded(old(proxies), proxies, old(assignments), assignments, matches, done)
    {
      ghost var start, rows := proxies, assignments;
      var todo := matches.Keys;
      done := {};
      NothingRecorded(start, rows, matches);
      while todo != {}
        invariant Valid() && lastClientId == old(lastClientId) && clients == old(clients)
        invariant done !! todo && done + todo == matches.Keys
        invariant Recorded(start, proxies, rows, assignments, matches, done)
      {
        var p :| p in todo;
        ok := WriteNext(matches, p, start, rows, done);
        if !ok {
          return;
        }
        todo := todo - {p};
        done := done + {p};
      }
      ok := true;
    }

    /** One address more. */
    method WriteNext(matches: map<Proxy, seq<Client>>, p: Proxy, ghost start: seq<ProxyRow>,
                     ghost rows: seq<AssignmentRow>, ghost done: set<Proxy>) returns (ok: bool)
      requires Valid() && Writable(start, clients, matches)
      requires p in matches && p !in done && Distinct(matches[p])
      requires Recorded(start, proxies, rows, assignments, matches, done)
      modifies `proxies, `assignments
      ensures Valid() && lastClientId == old(lastClientId) && clients == old(clients)
      ensures ok <==> Found(start, p)
      ensures Recorded(start, proxies, rows, assignments, matches, if ok then done + {p} else done)
    {
      RoomFor(start, proxies, rows, assignments, clients, matches, done, p);
      ghost var proxies0, rows0, i := proxies, assignments, 0;
      ok, i := WriteMatch(p, matches[p]);
      if ok {
        RecordedMore(start, proxies0, proxies, rows, rows0, assignments, matches, done, p, i);
      }
    }

    /** Builds the market of the clients that ask and the proxies that can be used, and saves who was flagged. */
    method Prepare(proposing: seq<ClientRecord>, inputs: Inputs)
      returns (order: seq<Client>, mkt: Market, flaggedClients: seq<ClientRecord>)
      requires Valid() && forall c :: c in proposing ==> c.ip in clients
      modifies this, proposing
      ensures Valid() && lastClientId == old(lastClientId) && proxies == old(proxies) && assignments == old(assignments)
      ensures mkt.WellFormed() && Distinct(order) && forall ip :: ip in order <==> ip in mkt.clientPrefs
      ensures MarketFor(old(Loads(proposing)), ActiveOf(proxies), inputs, mkt)
      ensures Loads(proposing) == Judged(old(Loads(proposing)), inputs, |ActiveOf(proxies)|)
      ensures clients == Marked(old(clients), old(Loads(proposing)),
                                Judged(old(Loads(proposing)), inputs, |ActiveOf(proxies)|))
      ensures Members(flaggedClients) == NewlyFlaggedOf(proposing, old(Loads(proposing)), Loads(proposing))
    {
      ghost var before := Loads(proposing);
      var usable := ActiveProxies();
      order, mkt, flaggedClients := BuildMarket(proposing, usable, inputs);
      SaveNewFlags(proposing, flaggedClients, before);
    }

    /** Runs the matching and writes its result. */
    method MatchAndWrite(order: seq<Client>, mkt: Market) returns (ok: bool, ghost deal: Deal)
      requires Valid() && mkt.WellFormed() && Distinct(order) && (forall ip :: ip in order <==> ip in mkt.clientPrefs)
      requires CapacitiesOf(ActiveOf(proxies), |ActiveOf(proxies)|, mkt.capacities)
      requires forall ip :: ip in mkt.clientPrefs ==> ip in clients
      modifies `proxies, `assignments
      ensures Valid() && Dealt(old(State()), mkt, deal, State(), ok)
    {
      ghost var proposals, turns, done;
      var matches, remaining;
      matches, remaining, proposals, turns := DA.GetMatchedClients(order, mkt);
      ghost var a :| DA.Outcome(mkt, matches, remaining, a);
      forall p | p in matches ensures p in mkt.capacities && |matches[p]| <= mkt.capacities[p] && Distinct(matches[p])
                                      && forall c :: c in matches[p] ==> c in clients {
        MatchFits(mkt, matches, remaining, a, p);
      }
      ActiveLists(proxies);
      MatchesWritable(proxies, clients, ActiveOf(proxies), mkt, matches);
      FoundExactly(proxies, mkt.capacities);
      ok, done := WriteMatches(matches);
      deal := Deal(mkt, matches, remaining, a, done);
    }

    /** The loaded records are not touched by that. */
    method MatchLoaded(order: seq<Client>, mkt: Market, ghost proposing: seq<ClientRecord>)
      returns (ok: bool, ghost deal: Deal)
      requires Valid() && mkt.WellFormed() && Distinct(order) && (forall ip :: ip in order <==> ip in mkt.clientPrefs)
      requires CapacitiesOf(ActiveOf(proxies), |ActiveOf(proxies)|, mkt.capacities)
      requires forall ip :: ip in mkt.clientPrefs ==> ip in clients
      modifies this
      ensures Valid() && Dealt(old(State()), mkt, deal, State(), ok)
      ensures Loads(proposing) == old(Loads(proposing))
    {
      ok, deal := MatchAndWrite(order, mkt);
      SameLoads(proposing);
    }

    /** Matches the clients to the active proxies and writes the result. It breaks off at an address two rows share. */
    method RequestNewProxy(proposing: seq<ClientRecord>, inputs: Inputs)
      returns (ok: bool, flaggedClients: seq<ClientRecord>, ghost deal: Deal)
      requires Valid() && forall c :: c in proposing ==> c.ip in clients
      modifies this, proposing
      ensures Valid() && Requested(old(State()), old(Loads(proposing)), inputs, deal, State(), ok)
      ensures Loads(proposing) == Judged(old(Loads(proposing)), inputs, |ActiveOf(old(proxies))|)
      ensures Members(flaggedClients) == NewlyFlaggedOf(proposing, old(Loads(proposing)), Loads(proposing))
    {
      ghost var start, loads := State(), Loads(proposing);
      var order, market;
      order, market, flaggedClients := Prepare(proposing, inputs);
      AskersKnown(loads, ActiveOf(proxies), inputs, market, clients);
      ghost var prepared := State();
      ok, deal := MatchLoaded(order, market, proposing);
      PreparedAndDealt(start, loads, inputs, market, prepared, deal, State(), ok);
    }

    method CreateNewProxy(url: Proxy)
      requires Valid()
      modifies this
      ensures Valid() && State() == old(State()).(proxies := old(proxies) + [ProxyRow(url, MAX_PROXY_CAPACITY, false)])
    {
      CountNone(assignments, |proxies|);
      proxies := proxies + [ProxyRow(url, MAX_PROXY_CAPACITY, false)];
    }

    /** A new client gets the first proxy that can be used. Without one, the row has no proxy and the run breaks off. */
    method RequestNewProxyNewClient(ip: Client) returns (ok: bool)
      requires Valid() && ip in clients && forall r :: r in assignments ==> r.client != ip
      modifies this
      ensures Valid() && clients == old(clients) && lastClientId == old(lastClientId)
      ensures var chosen := FirstUsable(old(proxies));
              && ok == chosen.Some?
              && assignments == old(assignments) + [AssignmentRow(chosen, ip)]
              && proxies == if chosen.None? then old(proxies) else OneLess(old(proxies), chosen.value)
    {
      var chosen := FirstUsable(proxies);
      if chosen.Some? {
        OnlyRow(assignments, chosen, ip);
      }
      NewRowConserves(proxies, assignments, chosen, ip);
      RowNumbered(clients, assignments, lastClientId, AssignmentRow(chosen, ip));
      assignments := assignments + [AssignmentRow(chosen, ip)];
      ok := chosen.Some?;
      if ok && CountPair(assignments, chosen.value, ip) == 1 {
        proxies := OneLess(proxies, chosen.value);
      }
    }

    /** The new client's row, under the address with the next number. */
    method NumberClient() returns (ip: Client)
      requires Valid()
      modifies this
      ensures Valid() && proxies == old(proxies) && assignments == old(assignments)
      ensures lastClientId == old(lastClientId) + 1 && ip == AddressOf(lastClientId)
      ensures ip !in old(clients) && clients == old(clients)[ip := false]
      ensures forall r :: r in assignments ==> r.client != ip
    {
      ip := AddressOf(lastClientId + 1);
      NewAddress(clients, assignments, lastClientId);
      clients := clients[ip := false];
      lastClientId := lastClientId + 1;
    }

    method CreateNewClient() returns (ok: bool)
      requires Valid()
      modifies this
      ensures Valid() && State() == Enroll(old(State())) && ok == FirstUsable(old(proxies)).Some?
      ensures AddressOf(lastClientId) !in old(clients)
    {
      var ip := NumberClient();
      ok := RequestNewProxyNewClient(ip);
    }

    method AddProxies(urls: seq<Proxy>)
      requires Valid()
      modifies this
      ensures Valid() && State() == old(State()).(proxies := old(proxies) + NewRows(urls))
    {
      for j := 0 to |urls|
        invariant Valid() && State() == old(State()).(proxies := old(proxies) + NewRows(urls[..j]))
      {
        CreateNewProxy(urls[j]);
        assert NewRows(urls[..j + 1]) == NewRows(urls[..j]) + [ProxyRow(urls[j], MAX_PROXY_CAPACITY, false)];
      }
      assert urls[..|urls|] == urls;
    }

    /** Adds the new clients one by one, and breaks off after one for whom no proxy can be used. */
    method AddClients(n: nat) returns (ok: bool)
      requires Valid()
      modifies this
      ensures Valid() && (State(), ok) == Enrolled(old(State()), n)
    {
      ok := true;
      ghost var start := State();
      for j := 0 to n
        invariant ok && Valid() && (State(), true) == Enrolled(start, j)
      {
        ok := CreateNewClient();
        if !ok {
          EnrollingStops(start, j + 1, n);
          return;
        }
      }
    }

    /** The affected clients ask for another proxy, after addresses may have been renewed. */
    method Reassign(step: StepInput, blockedClients: seq<ClientRecord>) returns (ok: bool, ghost deal: Deal)
      requires Valid() && forall c :: c in blockedClients ==> c.ip in clients
      modifies this, blockedClients
      ensures Valid()
      ensures Requested(Refreshed(old(State()), step), old(Loads(blockedClients)), step.inputs, deal, State(), ok)
    {
      ghost var start, loads := State(), Loads(blockedClients);
      if step.rejuvenates {
        Rejuvenate(step.newUrl);
      }
      assert State() == Refreshed(start, step) && Loads(blockedClients) == loads;
      var flaggedClients;
      ok, flaggedClients, deal := RequestNewProxy(blockedClients, step.inputs);
    }

    /** The censor's turn, and the affected clients' request. */
    method BlockAndReassign(step: StepInput) returns (ok: bool, ghost loads: seq<Load>, ghost deal: Deal)
      requires Valid()
      modifies this
      ensures Valid() && Affected(old(State()), step, loads)
      ensures Requested(Ready(old(State()), step), loads, step.inputs, deal, State(), ok)
    {
      ghost var start := State();
      var blockedClients := Block(step.wantsBlocked);
      loads := Loads(blockedClients);
      LoadsAffected(start, step, blockedClients, loads);
      ok, deal := Reassign(step, blockedClients);
    }

    /** One step: the censor blocks, addresses may be renewed, the affected ask again, proxies and clients are added. */
    method RunStep(step: StepInput) returns (ok: bool, ghost record: StepRecord)
      requires Valid()
      modifies this
      ensures Valid() && record.after == State() && StepTaken(old(State()), step, record, ok)
    {
      ghost var start := State();
      ghost var loads, deal;
      ok, loads, deal := BlockAndReassign(step);
      ghost var asked, asking := State(), ok;
      if ok {
        AddProxies(step.newProxies);
        ok := AddClients(step.newClients);
      }
      record := StepRecord(loads, deal, asked, State());
      StepIs(start, step, record, asking, ok);
    }

    /** One step more of a run that has come this far. */
    method RunNext(steps: seq<StepInput>, k: nat, ghost start: Books, ghost trail: seq<StepRecord>)
      returns (ok: bool, ghost longer: seq<StepRecord>)
      requires Valid() && k < |steps| && |trail| == k && RunDone(start, steps[..k], trail, State(), true)
      modifies this
      ensures Valid() && |longer| == k + 1 && RunDone(start, steps[..k + 1], longer, State(), ok)
    {
      ghost var before, record := State(), *;
      ok, record := RunStep(steps[k]);
      ChainMore(StepTaken, start, steps, trail, before, record, ok);
      longer := trail + [record];
    }

    /** A run goes on until its input ends or something breaks it off. The books balance either way. */
    method Run(steps: seq<StepInput>) returns (completed: bool, ghost trail: seq<StepRecord>)
      requires Valid()
      modifies this
      ensures Valid() && RunDone(old(State()), steps, trail, State(), completed)
    {
      completed, trail := true, [];
      ghost var start := State();
      for k := 0 to |steps|
        invariant completed && Valid() && |trail| == k && RunDone(start, steps[..k], trail, State(), true)
      {
        completed, trail := RunNext(steps, k, start, trail);
        if !completed {
          ChainLonger(StepTaken, start, steps, k + 1, trail, State());
          return;
        }
      }
      assert steps[..|steps|] == steps;
    }
  }

  lemma LoadedMore(a: seq<ClientRecord>, b: seq<ClientRecord>)
    ensures forall ip :: Loaded(a + b, ip) <==> Loaded(a, ip) || Loaded(b, ip)
  {
    forall ip ensures Loaded(a + b, ip) <==> Loaded(a, ip) || Loaded(b, ip) {
      assert forall c :: c in a + b <==> c in a || c in b;
    }
  }

  lemma LoadedOne(c: ClientRecord)
    ensures forall ip :: Loaded([c], ip) <==> ip == c.ip
  {
    assert c in [c];
  }

  twostate lemma SameLoads(proposing: seq<ClientRecord>)
    requires forall c :: c in proposing ==> unchanged(c)
    ensures Loads(proposing) == old(Loads(proposing))
  {
    forall k | 0 <= k < |proposing| ensures Loads(proposing)[k] == old(Loads(proposing))[k] {
      assert proposing[k] in proposing;
    }
  }

  lemma FlaggedAreNew(proposing: seq<ClientRecord>, flagged: seq<ClientRecord>, before: seq<Load>)
    requires |before| == |proposing| && forall k :: 0 <= k < |before| ==> before[k].ip == proposing[k].ip
    requires Members(flagged) == NewlyFlaggedOf(proposing, before, Loads(proposing))
    ensures forall ip :: Loaded(flagged, ip) <==> NewlyFlagged(before, Loads(proposing), ip)
  {
    forall ip ensures Loaded(flagged, ip) <==> NewlyFlagged(before, Loads(proposing), ip) {
      if k :| 0 <= k < |before| && before[k] == Load(ip, false) && Loads(proposing)[k].flagged {
        assert proposing[k] in Members(flagged);
      }
      if c :| c in flagged && c.ip == ip {
        assert c in Members(flagged);
        var k: nat :| k < |proposing| && Loads(proposing)[k].flagged && !before[k].flagged && proposing[k] == c;
        assert before[k] == Load(ip, false);
      }
    }
  }

  lemma FlaggedAreAmong(proposing: seq<ClientRecord>, flagged: seq<ClientRecord>, before: seq<Load>)
    requires |before| == |proposing| && Members(flagged) == NewlyFlaggedOf(proposing, before, Loads(proposing))
    ensures forall c :: c in flagged ==> c in proposing
  {
    forall c | c in flagged ensures c in proposing {
      assert c in Members(flagged);
    }
  }

  lemma LoadedForMore(records: seq<ClientRecord>, more: seq<ClientRecord>, before: seq<ProxyRow>, now: seq<ProxyRow>,
                      i: nat, wanted: bool, rows: seq<AssignmentRow>)
    requires i < |before| == |now| && now[i].blocked == before[i].blocked
    requires LoadedFor(records, before, now, i, rows)
    requires forall ip :: Loaded(more, ip) <==> !now[i].blocked && wanted && AssignedTo(rows, i, ip)
    ensures LoadedFor(records + more, before, BlockedAt(now, i, wanted), i + 1, rows)
  {
    LoadedMore(records, more);
    forall ip {
      OneMoreBlocked(before, now, i, wanted, rows, ip);
    }
  }

  lemma LoadsAffected(b: Books, step: StepInput, records: seq<ClientRecord>, loads: seq<Load>)
    requires loads == Loads(records)
    requires AsOnFile(records, b.clients)
    requires var after := Blocked(b.proxies, step.wantsBlocked);
             forall ip :: Loaded(records, ip) <==> LosesProxy(b.proxies, after, |after|, b.assignments, ip)
    ensures Affected(b, step, loads)
  {
    forall ip ensures LoadedIn(loads, ip) <==> Loaded(records, ip) {
      if k :| 0 <= k < |loads| && loads[k].ip == ip {
        assert records[k] in records;
      }
      if c :| c in records && c.ip == ip {
        var k :| 0 <= k < |records| && records[k] == c;
        assert loads[k].ip == ip;
      }
    }
    forall k | 0 <= k < |loads| ensures loads[k].ip in b.clients && loads[k].flagged == b.clients[loads[k].ip] {
      assert records[k] in records;
    }
  }
}
