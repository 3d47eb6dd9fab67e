/** What a client-optimal assignment says about every other stable assignment of the same market. */
module StableMatchings {
  import opened Markets

  /** There is at most one client-optimal assignment. */
  lemma OptimalIsUnique(mkt: Market, a: Assignment, b: Assignment)
    requires mkt.WellFormed() && mkt.ClientOptimal(a) && mkt.ClientOptimal(b)
    ensures a == b
  {
    assert mkt.AtLeastAsGood(a, b) && mkt.AtLeastAsGood(b, a);
    forall c | c in a ensures c in b && a[c] == b[c] {
      assert mkt.Lists(c, a[c]) && mkt.Lists(c, b[c]);
    }
  }

  /** A client the optimal assignment places at p, and `s` does not, would rather be at p than where `s` leaves it. */
  lemma {:induction false} WouldRather(mkt: Market, a: Assignment, s: Assignment, p: Proxy, c: Client)
    requires mkt.WellFormed() && mkt.ClientOptimal(a) && mkt.Stable(s)
    requires c in Held(a, p) && c !in Held(s, p)
    ensures mkt.Lists(c, p) && mkt.Prefers(s, c, p)
  {
    assert mkt.AtLeastAsGood(a, s);
    assert mkt.Lists(c, a[c]);
    if c in s {
      assert mkt.Lists(c, s[c]);
    }
  }

  /** A subset is no larger, and equal if it is as large. */
  lemma SubsetCounts<T>(a: set<T>, b: set<T>)
    requires a <= b
    ensures |a| <= |b|
    ensures |a| == |b| ==> a == b
  {
    assert b == a + (b - a);
  }

  lemma MissingElement<T>(a: set<T>, b: set<T>) returns (x: T)
    requires |b| < |a|
    ensures x in a && x !in b
  {
    if a <= b {
      SubsetCounts(a, b);
    }
    x :| x in a && x !in b;
  }

  /** No stable assignment gives a proxy fewer clients than the optimal one. */
  lemma NoProxyLoses(mkt: Market, a: Assignment, s: Assignment, p: Proxy)
    requires mkt.WellFormed() && mkt.ClientOptimal(a) && mkt.Stable(s)
    ensures |Held(a, p)| <= |Held(s, p)|
  {
    if |Held(s, p)| < |Held(a, p)| {
      var c := MissingElement(Held(a, p), Held(s, p));
      WouldRather(mkt, a, s, p, c);
      assert mkt.Acceptable(c, p);
      assert mkt.HasRoom(s, p);
      assert mkt.Blocks(s, c, p);
    }
  }

  ghost function PlacedIn(a: Assignment, ps: set<Proxy>): set<Client> {
    set c | c in a && a[c] in ps
  }

  lemma SplitPlaced(a: Assignment, ps: set<Proxy>, p: Proxy)
    requires p in ps
    ensures |PlacedIn(a, ps)| == |PlacedIn(a, ps - {p})| + |Held(a, p)|
  {
    assert PlacedIn(a, ps) == PlacedIn(a, ps - {p}) + Held(a, p);
  }

  /** Proxy by proxy no fewer clients, so no fewer over any set of proxies. */
  lemma {:induction false} NoProxiesLose(a: Assignment, s: Assignment, ps: set<Proxy>)
    requires forall p :: |Held(a, p)| <= |Held(s, p)|
    ensures |PlacedIn(a, ps)| <= |PlacedIn(s, ps)|
  {
    if ps != {} {
      var p :| p in ps;
      NoProxiesLose(a, s, ps - {p});
      SplitPlaced(a, ps, p);
      SplitPlaced(s, ps, p);
    }
  }

  /** If in addition `s` places nobody new, every proxy's number is the same. */
  lemma NothingGained(a: Assignment, s: Assignment, p: Proxy)
    requires forall q :: |Held(a, q)| <= |Held(s, q)|
    requires s.Keys <= a.Keys
    ensures s.Keys == a.Keys && |Held(s, p)| == |Held(a, p)|
  {
    var all := a.Values + s.Values + {p};
    assert PlacedIn(a, all) == a.Keys && PlacedIn(s, all) == s.Keys;
    NoProxiesLose(a, s, all);
    NoProxiesLose(a, s, all - {p});
    SubsetCounts(s.Keys, a.Keys);
    SplitPlaced(a, all, p);
    SplitPlaced(s, all, p);
  }

  /** Every stable assignment serves the same clients and gives every proxy the same number of them. */
  lemma EqualCounts(mkt: Market, a: Assignment, s: Assignment)
    requires mkt.WellFormed() && mkt.ClientOptimal(a) && mkt.Stable(s)
    ensures s.Keys == a.Keys
    ensures forall p :: |Held(s, p)| == |Held(a, p)|
  {
    assert mkt.AtLeastAsGood(a, s);
    forall p ensures |Held(a, p)| <= |Held(s, p)| {
      NoProxyLoses(mkt, a, s, p);
    }
    forall p ensures s.Keys == a.Keys && |Held(s, p)| == |Held(a, p)| {
      NothingGained(a, s, p);
    }
    NothingGained(a, s, "");
  }

  /** A proxy left with room serves exactly the same clients in every stable assignment. */
  lemma RoomFixesClients(mkt: Market, a: Assignment, s: Assignment, p: Proxy)
    requires mkt.WellFormed() && mkt.ClientOptimal(a) && mkt.Stable(s)
    requires p in mkt.capacities && mkt.HasRoom(a, p)
    ensures Held(s, p) == Held(a, p)
  {
    EqualCounts(mkt, a, s);
    forall c | c in Held(a, p) ensures c in Held(s, p) {
      if c !in Held(s, p) {
        WouldRather(mkt, a, s, p, c);
        assert mkt.Blocks(s, c, p);
      }
    }
    SubsetCounts(Held(a, p), Held(s, p));
  }

  /** What clients gain proxies lose: whoever p holds in `s`, it ranks above everyone it holds only in `a`. */
  lemma {:induction false} ProxiesFareWorst(mkt: Market, a: Assignment, s: Assignment, p: Proxy, c: Client, d: Client)
    requires mkt.WellFormed() && mkt.ClientOptimal(a) && mkt.Stable(s)
    requires c in Held(a, p) && c !in Held(s, p) && d in Held(s, p)
    ensures mkt.Lists(c, p) && mkt.Lists(d, p) && mkt.Above(p, d, c)
  {
    WouldRather(mkt, a, s, p, c);
    assert mkt.Lists(d, s[d]);
    assert mkt.Acceptable(c, p) && mkt.Acceptable(d, p);
    assert !mkt.Blocks(s, c, p);
    assert !mkt.Above(p, c, d);
  }
}
