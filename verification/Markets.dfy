/** Two-sided markets of clients and proxies with capacities, and what it means for an assignment to be stable. */
module Markets {
  type Client = string
  type Proxy = string

  /** Each client's proxy, for the clients that have one. */
  type Assignment = map<Client, Proxy>

  ghost predicate Distinct<T>(s: seq<T>) {
    forall i, j :: 0 <= i < j < |s| ==> s[i] != s[j]
  }

  /** The position of the first occurrence, as `list.index` computes it. */
  function IndexOf<T(==)>(s: seq<T>, x: T): (i: nat)
    requires x in s
    ensures i < |s| && s[i] == x
    ensures forall j :: 0 <= j < i ==> s[j] != x
  {
    if s[0] == x then 0 else 1 + IndexOf(s[1..], x)
  }

  lemma IndexOfAt<T>(s: seq<T>, i: nat)
    requires Distinct(s) && i < |s|
    ensures IndexOf(s, s[i]) == i
  {}

  ghost function Held(a: Assignment, p: Proxy): set<Client> {
    set c | c in a && a[c] == p
  }

  datatype Market = Market(
    clientPrefs: map<Client, seq<Proxy>>,
    proxyPrefs: map<Proxy, seq<Client>>,
    capacities: map<Proxy, int>)
  {
    /** What keeps every lookup, `index` and `[-1]` of the matching from failing. Preference lists may be partial; a
        proxy may rank clients that never propose. */
    ghost predicate WellFormed() {
      && (forall c :: c in clientPrefs ==> Distinct(clientPrefs[c]))
      && (forall p :: p in proxyPrefs ==> Distinct(proxyPrefs[p]))
      && (forall c, p :: c in clientPrefs && p in clientPrefs[c] ==> Acceptable(c, p))
      && (forall p :: p in capacities ==> p in proxyPrefs && capacities[p] >= 0)
    }

    ghost predicate Acceptable(c: Client, p: Proxy) {
      p in capacities && capacities[p] > 0 && p in proxyPrefs && c in proxyPrefs[p]
    }

    ghost predicate Lists(c: Client, p: Proxy) {
      c in clientPrefs && p in clientPrefs[c]
    }

    ghost function ClientRank(c: Client, p: Proxy): nat
      requires Lists(c, p)
    {
      IndexOf(clientPrefs[c], p)
    }

    ghost function ProxyRank(p: Proxy, c: Client): nat
      requires p in proxyPrefs && c in proxyPrefs[p]
    {
      IndexOf(proxyPrefs[p], c)
    }

    /** Proxy p ranks c above d. */
    ghost predicate Above(p: Proxy, c: Client, d: Client)
      requires WellFormed() && Lists(c, p) && Lists(d, p)
    {
      assert Acceptable(c, p) && Acceptable(d, p);
      ProxyRank(p, c) < ProxyRank(p, d)
    }

    ghost predicate Feasible(a: Assignment) {
      && (forall c :: c in a ==> Lists(c, a[c]))
      && (forall p :: p in capacities ==> |Held(a, p)| <= capacities[p])
    }

    /** Client c would rather be at p than where `a` leaves it. */
    ghost predicate Prefers(a: Assignment, c: Client, p: Proxy)
      requires Feasible(a) && Lists(c, p)
    {
      c in a ==> ClientRank(c, p) < ClientRank(c, a[c])
    }

    ghost predicate HasRoom(a: Assignment, p: Proxy)
      requires p in capacities
    {
      |Held(a, p)| < capacities[p]
    }

    /** c prefers p, and p has room or holds somebody it ranks below c. */
    ghost predicate Blocks(a: Assignment, c: Client, p: Proxy)
      requires WellFormed() && Feasible(a)
    {
      && Lists(c, p)
      && Prefers(a, c, p)
      && (assert Acceptable(c, p); HasRoom(a, p) || exists d :: d in Held(a, p) && Above(p, c, d))
    }

    ghost predicate Stable(a: Assignment)
      requires WellFormed()
    {
      Feasible(a) && forall c, p :: !Blocks(a, c, p)
    }

    /** Every client does at least as well in `a` as in `b`. */
    ghost predicate AtLeastAsGood(a: Assignment, b: Assignment)
      requires Feasible(a) && Feasible(b)
    {
      forall c :: c in b ==> c in a && ClientRank(c, a[c]) <= ClientRank(c, b[c])
    }

    /** Stable, and no client does better in any stable assignment. */
    ghost predicate ClientOptimal(a: Assignment)
      requires WellFormed()
    {
      Stable(a) && forall b: Assignment :: Stable(b) ==> AtLeastAsGood(a, b)
    }
  }
}
