/** Capacity-aware deferred acceptance: clients propose down their lists, proxies hold the best they have seen. */
module DeferredAcceptance {
  import opened Markets
  import opened StableMatchings

  /** The members of `chosen`, in the order of `ranking`. */
  function Ranked(ranking: seq<Client>, chosen: set<Client>): seq<Client> {
    if ranking == [] then []
    else (if ranking[0] in chosen then [ranking[0]] else []) + Ranked(ranking[1..], chosen)
  }

  /** The list without `x`. */
  function Without(s: seq<Client>, x: Client): seq<Client> {
    if s == [] then [] else (if s[0] != x then [s[0]] else []) + Without(s[1..], x)
  }

  function Proposals(mkt: Market, remaining: map<Client, seq<Proxy>>, c: Client): int
    requires c in mkt.clientPrefs && c in remaining
  {
    |mkt.clientPrefs[c]| - |remaining[c]|
  }

  /** How many proxies have turned c away: all it proposed to, except one that still holds it. */
  function Refusals(mkt: Market, remaining: map<Client, seq<Proxy>>, held: Assignment, c: Client): int
    requires c in mkt.clientPrefs && c in remaining
  {
    Proposals(mkt, remaining, c) - (if c in held then 1 else 0)
  }

  /** The client is held by the last proxy it proposed to. */
  ghost predicate HeldByLast(mkt: Market, remaining: map<Client, seq<Proxy>>, held: Assignment, c: Client)
    requires c in held
  {
    && c in mkt.clientPrefs && c in remaining
    && 0 < Proposals(mkt, remaining, c) <= |mkt.clientPrefs[c]|
    && held[c] == mkt.clientPrefs[c][Proposals(mkt, remaining, c) - 1]
  }

  ghost predicate Suffix(s: seq<Proxy>, t: seq<Proxy>) {
    |s| <= |t| && s == t[|t| - |s|..]
  }

  /** Every client is waiting, held by exactly one proxy, or out of proposals. */
  ghost predicate Partition(mkt: Market, waiting: seq<Client>, remaining: map<Client, seq<Proxy>>, held: Assignment) {
    && Distinct(waiting)
    && remaining.Keys == mkt.clientPrefs.Keys
    && (forall c :: c in remaining ==> Suffix(remaining[c], mkt.clientPrefs[c]))
    && (forall c :: c in held ==> HeldByLast(mkt, remaining, held, c))
    && (forall c :: c in waiting ==> c in remaining && c !in held)
    && (forall c :: c in remaining ==> c in waiting || c in held || remaining[c] == [])
  }

  /** The proxies' lists hold exactly the held clients, best first, within capacity. */
  ghost predicate Listed(mkt: Market, results: map<Proxy, seq<Client>>, held: Assignment)
    requires mkt.WellFormed()
  {
    && results.Keys == mkt.capacities.Keys
    && forall p :: p in results ==>
         results[p] == Ranked(mkt.proxyPrefs[p], Held(held, p)) && |results[p]| <= mkt.capacities[p]
  }

  /** p is filled to capacity with clients it ranks above c. */
  ghost predicate FilledAbove(mkt: Market, held: Assignment, p: Proxy, c: Client)
    requires mkt.WellFormed() && mkt.Lists(c, p)
  {
    assert mkt.Acceptable(c, p);
    |Held(held, p)| == mkt.capacities[p] && forall d :: d in Held(held, p) ==> mkt.Lists(d, p) && mkt.Above(p, d, c)
  }

  ghost predicate Justified(mkt: Market, remaining: map<Client, seq<Proxy>>, held: Assignment)
    requires mkt.WellFormed() && remaining.Keys == mkt.clientPrefs.Keys
  {
    forall c, j :: c in remaining && 0 <= j < Refusals(mkt, remaining, held, c) && j < |mkt.clientPrefs[c]| ==>
      FilledAbove(mkt, held, mkt.clientPrefs[c][j], c)
  }

  /** If c has a partner in s, at least n entries of its list come before that partner. */
  ghost predicate PartnerFrom(mkt: Market, s: Assignment, c: Client, n: int) {
    c in s ==> mkt.Lists(c, s[c]) && mkt.ClientRank(c, s[c]) >= n
  }

  /** Nobody was turned away by a proxy it has in some stable assignment. */
  ghost predicate NothingLost(mkt: Market, remaining: map<Client, seq<Proxy>>, held: Assignment)
    requires mkt.WellFormed() && remaining.Keys == mkt.clientPrefs.Keys
  {
    forall s: Assignment, c :: mkt.Stable(s) && c in remaining ==>
         PartnerFrom(mkt, s, c, Refusals(mkt, remaining, held, c))
  }

  ghost predicate Inv(mkt: Market, waiting: seq<Client>, remaining: map<Client, seq<Proxy>>,
                      results: map<Proxy, seq<Client>>, held: Assignment)
  {
    && mkt.WellFormed()
    && Partition(mkt, waiting, remaining, held)
    && Listed(mkt, results, held)
    && Justified(mkt, remaining, held)
    && NothingLost(mkt, remaining, held)
  }

  function Total(order: seq<Client>, remaining: map<Client, seq<Proxy>>): nat
    requires forall c :: c in order ==> c in remaining
  {
    if order == [] then 0 else |remaining[order[0]]| + Total(order[1..], remaining)
  }

  /** Each client's list is cut down to the proxies below the one it got, if any. */
  ghost predicate CutDown(mkt: Market, remaining: map<Client, seq<Proxy>>, a: Assignment) {
    && remaining.Keys == mkt.clientPrefs.Keys
    && forall c :: c in remaining ==>
         if c in a then mkt.Lists(c, a[c]) && remaining[c] == mkt.clientPrefs[c][mkt.ClientRank(c, a[c]) + 1..]
         else remaining[c] == []
  }

  /** The result: the client-optimal assignment, each proxy's clients best first, and each client's
      list cut down to the proxies below the one it got. */
  ghost predicate Outcome(mkt: Market, results: map<Proxy, seq<Client>>, remaining: map<Client, seq<Proxy>>,
                          a: Assignment)
    requires mkt.WellFormed()
  {
    && mkt.ClientOptimal(a)
    && Listed(mkt, results, a)
    && CutDown(mkt, remaining, a)
  }

  /** One turn of a waiting client: it gives up, is taken, displaces somebody, or is turned away. */
  method TakeTurn(mkt: Market, ghost order: seq<Client>, student: Client, waiting: seq<Client>,
                  remaining: map<Client, seq<Proxy>>, results: map<Proxy, seq<Client>>, ghost held: Assignment)
    returns (waiting': seq<Client>, remaining': map<Client, seq<Proxy>>, results': map<Proxy, seq<Client>>,
             ghost held': Assignment)
    requires Inv(mkt, waiting, remaining, results, held) && student in waiting
    requires Distinct(order) && (forall c :: c in order <==> c in mkt.clientPrefs)
    ensures Inv(mkt, waiting', remaining', results', held')
    ensures forall c :: c in waiting && c != student ==> c in waiting'
    ensures Total(order, remaining') == Total(order, remaining) - (if remaining[student] == [] then 0 else 1)
    ensures Total(order, remaining') + |waiting'| < Total(order, remaining) + |waiting|
  {
    waiting', remaining', results', held' := waiting, remaining, results, held;
    WithoutProperties(waiting, student);
    if remaining[student] == [] {
      GiveUp(mkt, waiting, remaining, results, held, student);
      waiting' := Without(waiting, student);
      return;
    }
    TotalDrops(order, remaining, student);
    ProposalCases(mkt, waiting, remaining, results, held, student);
    var choice := remaining[student][0];
    remaining' := remaining[student := remaining[student][1..]];
    if |results[choice]| < mkt.capacities[choice] {
      Accept(mkt, waiting, remaining, results, held, student);
      var hopefuls := results[choice] + [student];
      results' := results[choice := Ranked(mkt.proxyPrefs[choice], set c | c in hopefuls)];
      waiting' := Without(waiting, student);
      held' := held[student := choice];
    } else {
      waiting', results', held' := Contest(mkt, student, waiting, remaining, results, held);
    }
  }

  /** A proposal to a full proxy: the student takes the place of the worst client held, or stays waiting. */
  method Contest(mkt: Market, student: Client, waiting: seq<Client>,
                 remaining: map<Client, seq<Proxy>>, results: map<Proxy, seq<Client>>, ghost held: Assignment)
    returns (waiting': seq<Client>, results': map<Proxy, seq<Client>>, ghost held': Assignment)
    requires Inv(mkt, waiting, remaining, results, held) && student in waiting && remaining[student] != []
    requires Full(mkt, results, remaining[student][0])
    ensures Inv(mkt, waiting', remaining[student := remaining[student][1..]], results', held')
    ensures forall c :: c in waiting && c != student ==> c in waiting'
    ensures |waiting'| == |waiting|
  {
    var choice := remaining[student][0];
    ProposalCases(mkt, waiting, remaining, results, held, student);
    var worst := results[choice][|results[choice]| - 1];
    if IndexOf(mkt.proxyPrefs[choice], student) < IndexOf(mkt.proxyPrefs[choice], worst) {
      Bump(mkt, waiting, remaining, results, held, student, worst);
      WithoutProperties(waiting, student);
      var hopefuls := results[choice] + [student];
      var ranked := Ranked(mkt.proxyPrefs[choice], set c | c in hopefuls);
      waiting' := Without(waiting, student) + [ranked[|ranked| - 1]];
      results' := results[choice := ranked[..|ranked| - 1]];
      held' := held[student := choice] - {worst};
    } else {
      Reject(mkt, waiting, remaining, results, held, student);
      waiting', results', held' := waiting, results, held;
    }
  }

  ghost predicate Full(mkt: Market, results: map<Proxy, seq<Client>>, p: Proxy) {
    p in results && p in mkt.capacities && |results[p]| >= mkt.capacities[p]
  }

  /** `order` is the insertion order of the clients' preference dictionary; `remaining` is what is left in it.
      `proposals` counts the proposals made, `turns` the turns of waiting clients. */
  method GetMatchedClients(order: seq<Client>, mkt: Market)
    returns (results: map<Proxy, seq<Client>>, remaining: map<Client, seq<Proxy>>, ghost proposals: nat,
             ghost turns: nat)
    requires mkt.WellFormed()
    requires Distinct(order) && (forall c :: c in order <==> c in mkt.clientPrefs)
    ensures exists a :: Outcome(mkt, results, remaining, a)
    ensures remaining.Keys == mkt.clientPrefs.Keys
    ensures proposals == Total(order, mkt.clientPrefs) - Total(order, remaining)
    ensures turns <= Total(order, mkt.clientPrefs) + |order|
  {
    proposals, turns := 0, 0;
    var waiting := order;
    results := map p | p in mkt.capacities :: [];
    remaining := mkt.clientPrefs;
    ghost var held: Assignment := map[];
    InitialInv(mkt, order);
    while waiting != []
      invariant Inv(mkt, waiting, remaining, results, held)
      invariant proposals == Total(order, mkt.clientPrefs) - Total(order, remaining)
      invariant turns + Total(order, remaining) + |waiting| <= Total(order, mkt.clientPrefs) + |order|
      decreases Total(order, remaining) + |waiting|
    {
      var round := waiting;
      ghost var before := Total(order, remaining) + |waiting|;
      for i := 0 to |round|
        invariant Inv(mkt, waiting, remaining, results, held)
        invariant forall j :: i <= j < |round| ==> round[j] in waiting
        invariant Total(order, remaining) + |waiting| + i <= before
        invariant proposals == Total(order, mkt.clientPrefs) - Total(order, remaining)
        invariant turns + Total(order, remaining) + |waiting| <= Total(order, mkt.clientPrefs) + |order|
      {
        turns := turns + 1;
        proposals := proposals + if remaining[round[i]] == [] then 0 else 1;
        waiting, remaining, results, held := TakeTurn(mkt, order, round[i], waiting, remaining, results, held);
      }
    }
    Finish(mkt, remaining, results, held);
  }

  // Lists.

  lemma {:induction false} RankedElements(ranking: seq<Client>, chosen: set<Client>, x: Client)
    ensures x in Ranked(ranking, chosen) <==> x in ranking && x in chosen
  {
    if ranking != [] {
      RankedElements(ranking[1..], chosen, x);
    }
  }

  lemma {:induction false} RankedSize(ranking: seq<Client>, chosen: set<Client>)
    requires Distinct(ranking)
    requires forall c :: c in chosen ==> c in ranking
    ensures |Ranked(ranking, chosen)| == |chosen|
  {
    if ranking != [] {
      var rest := chosen - {ranking[0]};
      RankedSize(ranking[1..], rest);
      RankedIgnores(ranking[1..], chosen, ranking[0]);
    }
  }

  lemma {:induction false} RankedIgnores(ranking: seq<Client>, chosen: set<Client>, x: Client)
    requires x !in ranking
    ensures Ranked(ranking, chosen) == Ranked(ranking, chosen - {x})
  {
    if ranking != [] {
      RankedIgnores(ranking[1..], chosen, x);
    }
  }

  /** The last of a ranked list is the worst, and dropping it is dropping it from the chosen set. */
  lemma {:induction false} RankedLast(ranking: seq<Client>, chosen: set<Client>)
    requires Distinct(ranking)
    requires Ranked(ranking, chosen) != []
    ensures var r := Ranked(ranking, chosen); var w := r[|r| - 1];
            && w in chosen && w in ranking
            && r[..|r| - 1] == Ranked(ranking, chosen - {w})
            && (forall d :: d in chosen && d in ranking && d != w ==> IndexOf(ranking, d) < IndexOf(ranking, w))
  {
    var first, rest := ranking[0], Ranked(ranking[1..], chosen);
    if rest == [] {
      RankedIgnores(ranking[1..], chosen, first);
      forall d | d in chosen && d in ranking ensures d == first {
        RankedElements(ranking[1..], chosen, d);
      }
    } else {
      RankedLast(ranking[1..], chosen);
      LastStaysWorst(ranking, chosen, rest[|rest| - 1]);
      LastOfLonger(ranking, chosen, rest, rest[|rest| - 1]);
    }
  }

  lemma LastStaysWorst(ranking: seq<Client>, chosen: set<Client>, w: Client)
    requires Distinct(ranking) && ranking != [] && w in ranking[1..]
    requires forall d :: d in chosen && d in ranking[1..] && d != w ==>
               IndexOf(ranking[1..], d) < IndexOf(ranking[1..], w)
    ensures forall d :: d in chosen && d in ranking && d != w ==> IndexOf(ranking, d) < IndexOf(ranking, w)
    ensures w != ranking[0]
  {
    forall d | d in chosen && d in ranking && d != w ensures IndexOf(ranking, d) < IndexOf(ranking, w) {
      assert d != ranking[0] ==> d in ranking[1..];
    }
  }

  lemma LastOfLonger(ranking: seq<Client>, chosen: set<Client>, rest: seq<Client>, w: Client)
    requires ranking != [] && rest == Ranked(ranking[1..], chosen) && rest != [] && w != ranking[0]
    requires rest[|rest| - 1] == w && rest[..|rest| - 1] == Ranked(ranking[1..], chosen - {w})
    ensures var r := Ranked(ranking, chosen);
            r != [] && r[|r| - 1] == w && r[..|r| - 1] == Ranked(ranking, chosen - {w})
  {
    var head := if ranking[0] in chosen then [ranking[0]] else [];
    assert (head + rest)[..|head + rest| - 1] == head + rest[..|rest| - 1];
  }

  lemma {:induction false} WithoutProperties(s: seq<Client>, x: Client)
    requires Distinct(s)
    ensures Distinct(Without(s, x))
    ensures forall c :: c in Without(s, x) <==> c in s && c != x
    ensures |Without(s, x)| == |s| - (if x in s then 1 else 0)
  {
    if s != [] {
      WithoutProperties(s[1..], x);
      assert s[0] !in s[1..];
      assert s[0] !in Without(s[1..], x);
    }
  }

  lemma {:induction false} TotalDrops(order: seq<Client>, remaining: map<Client, seq<Proxy>>, c: Client)
    requires Distinct(order) && forall d :: d in order ==> d in remaining
    requires c in remaining && remaining[c] != []
    ensures Total(order, remaining[c := remaining[c][1..]]) == Total(order, remaining) - (if c in order then 1 else 0)
  {
    if order != [] {
      TotalDrops(order[1..], remaining, c);
    }
  }

  // The invariant.

  lemma InitialInv(mkt: Market, order: seq<Client>)
    requires mkt.WellFormed() && Distinct(order) && (forall c :: c in order <==> c in mkt.clientPrefs)
    ensures Inv(mkt, order, mkt.clientPrefs, map p | p in mkt.capacities :: [], map[])
  {
    forall p | p in mkt.capacities ensures Ranked(mkt.proxyPrefs[p], Held(map[], p)) == [] {
      NobodyRanked(mkt.proxyPrefs[p]);
      assert Held(map[], p) == {};
    }
  }

  lemma NobodyRanked(ranking: seq<Client>)
    ensures Ranked(ranking, {}) == []
  {}

  lemma GiveUp(mkt: Market, waiting: seq<Client>, remaining: map<Client, seq<Proxy>>,
               results: map<Proxy, seq<Client>>, held: Assignment, c: Client)
    requires Inv(mkt, waiting, remaining, results, held)
    requires c in waiting && remaining[c] == []
    ensures Inv(mkt, Without(waiting, c), remaining, results, held)
  {
    WithoutProperties(waiting, c);
  }

  /** A waiting client's next choice is the entry after the ones it tried, and ranks it. */
  lemma NextProposal(mkt: Market, waiting: seq<Client>, remaining: map<Client, seq<Proxy>>,
                     results: map<Proxy, seq<Client>>, held: Assignment, c: Client)
    requires Inv(mkt, waiting, remaining, results, held)
    requires c in waiting && remaining[c] != []
    ensures var p, k := remaining[c][0], Proposals(mkt, remaining, c);
            && 0 <= k < |mkt.clientPrefs[c]| && mkt.clientPrefs[c][k] == p
            && mkt.Lists(c, p) && mkt.Acceptable(c, p) && mkt.ClientRank(c, p) == k
            && p in results && c !in Held(held, p)
            && (forall d :: d in Held(held, p) ==> mkt.Lists(d, p) && d in mkt.proxyPrefs[p])
            && |results[p]| == |Held(held, p)| <= mkt.capacities[p]
            && Suffix(remaining[c][1..], mkt.clientPrefs[c])
            && Refusals(mkt, remaining, held, c) == k
  {
    var p, k := remaining[c][0], Proposals(mkt, remaining, c);
    assert remaining[c][0] == mkt.clientPrefs[c][k];
    IndexOfAt(mkt.clientPrefs[c], k);
    assert mkt.Acceptable(c, p);
    forall d | d in Held(held, p) ensures mkt.Lists(d, p) && d in mkt.proxyPrefs[p] {
      assert mkt.Acceptable(d, p);
    }
    RankedSize(mkt.proxyPrefs[p], Held(held, p));
  }

  /** The heart of optimality: p may turn c away once it has its fill of clients it ranks higher,
      none of whom was turned away by a proxy it has in a stable assignment. */
  lemma RefusalIsSafe(mkt: Market, s: Assignment, p: Proxy, fill: set<Client>, c: Client)
    requires mkt.WellFormed() && mkt.Stable(s) && mkt.Lists(c, p)
    requires p in mkt.capacities && |fill| == mkt.capacities[p]
    requires forall d :: d in fill ==>
               mkt.Lists(d, p) && mkt.Above(p, d, c) && PartnerFrom(mkt, s, d, mkt.ClientRank(d, p))
    ensures !(c in s && s[c] == p)
  {
    if c in s && s[c] == p {
      var d := SomeoneElsewhere(fill, Held(s, p), c);
      assert mkt.Lists(d, p) && PartnerFrom(mkt, s, d, mkt.ClientRank(d, p));
      assert mkt.Prefers(s, d, p) && mkt.Above(p, d, c);
      assert mkt.Blocks(s, d, p);
    }
  }

  lemma SomeoneElsewhere(fill: set<Client>, holding: set<Client>, c: Client) returns (d: Client)
    requires |holding| <= |fill| && c in holding && c !in fill
    ensures d in fill && d !in holding
  {
    if fill <= holding {
      SubsetCounts(fill + {c}, holding);
      assert false;
    }
    d :| d in fill && d !in holding;
  }

  lemma HeldRank(mkt: Market, waiting: seq<Client>, remaining: map<Client, seq<Proxy>>,
                 results: map<Proxy, seq<Client>>, held: Assignment, d: Client)
    requires Inv(mkt, waiting, remaining, results, held) && d in held
    ensures mkt.Lists(d, held[d]) && mkt.Acceptable(d, held[d])
    ensures mkt.ClientRank(d, held[d]) == Refusals(mkt, remaining, held, d)
  {
    IndexOfAt(mkt.clientPrefs[d], Proposals(mkt, remaining, d) - 1);
    assert mkt.Lists(d, held[d]);
  }

  /** The fill of p, none of whom lost a stable partner before p. */
  ghost predicate SafeFill(mkt: Market, remaining: map<Client, seq<Proxy>>, held: Assignment, p: Proxy,
                           fill: set<Client>, x: Client)
    requires mkt.WellFormed() && remaining.Keys == mkt.clientPrefs.Keys && mkt.Lists(x, p)
  {
    && p in mkt.capacities && |fill| == mkt.capacities[p]
    && forall d :: d in fill ==>
         mkt.Lists(d, p) && mkt.Above(p, d, x) && Refusals(mkt, remaining, held, d) >= mkt.ClientRank(d, p)
  }

  lemma RefusedByNoPartner(mkt: Market, remaining: map<Client, seq<Proxy>>, held: Assignment, p: Proxy,
                           fill: set<Client>, x: Client)
    requires mkt.WellFormed() && remaining.Keys == mkt.clientPrefs.Keys && mkt.Lists(x, p)
    requires NothingLost(mkt, remaining, held) && SafeFill(mkt, remaining, held, p, fill, x)
    ensures forall s: Assignment :: mkt.Stable(s) ==> !(x in s && s[x] == p)
  {
    forall s: Assignment | mkt.Stable(s) ensures !(x in s && s[x] == p) {
      forall d | d in fill ensures PartnerFrom(mkt, s, d, mkt.ClientRank(d, p)) {
        assert PartnerFrom(mkt, s, d, Refusals(mkt, remaining, held, d));
      }
      RefusalIsSafe(mkt, s, p, fill, x);
    }
  }

  /** If only x was turned away once more, by p, which already has its fill, nothing more is lost. */
  lemma NothingMoreLost(mkt: Market, before: map<Client, seq<Proxy>>, held: Assignment,
                        after: map<Client, seq<Proxy>>, held': Assignment, x: Client, p: Proxy, fill: set<Client>)
    requires mkt.WellFormed() && before.Keys == after.Keys == mkt.clientPrefs.Keys
    requires NothingLost(mkt, before, held)
    requires forall c :: c in before && c != x ==> Refusals(mkt, after, held', c) <= Refusals(mkt, before, held, c)
    requires mkt.Lists(x, p) && Refusals(mkt, before, held, x) == mkt.ClientRank(x, p)
    requires Refusals(mkt, after, held', x) == mkt.ClientRank(x, p) + 1
    requires SafeFill(mkt, before, held, p, fill, x)
    ensures NothingLost(mkt, after, held')
  {
    RefusedByNoPartner(mkt, before, held, p, fill, x);
    forall s: Assignment, c | mkt.Stable(s) && c in after
      ensures PartnerFrom(mkt, s, c, Refusals(mkt, after, held', c))
    {
      assert PartnerFrom(mkt, s, c, Refusals(mkt, before, held, c));
      if c == x {
        PartnerAfter(mkt, s, x, p);
      }
    }
  }

  lemma PartnerAfter(mkt: Market, s: Assignment, x: Client, p: Proxy)
    requires mkt.Lists(x, p) && PartnerFrom(mkt, s, x, mkt.ClientRank(x, p)) && !(x in s && s[x] == p)
    ensures PartnerFrom(mkt, s, x, mkt.ClientRank(x, p) + 1)
  {}

  /** Filled proxies stay filled, so old refusals stay justified. */
  lemma StillJustified(mkt: Market, before: map<Client, seq<Proxy>>, held: Assignment,
                       after: map<Client, seq<Proxy>>, held': Assignment)
    requires mkt.WellFormed() && before.Keys == after.Keys == mkt.clientPrefs.Keys
    requires Justified(mkt, before, held)
    requires forall c, p :: mkt.Lists(c, p) && FilledAbove(mkt, held, p, c) ==> FilledAbove(mkt, held', p, c)
    requires forall c :: c in before ==> Refusals(mkt, after, held', c) == Refusals(mkt, before, held, c)
    ensures Justified(mkt, after, held')
  {
    forall c, j | c in after && 0 <= j < Refusals(mkt, after, held', c) && j < |mkt.clientPrefs[c]|
      ensures FilledAbove(mkt, held', mkt.clientPrefs[c][j], c)
    {
      assert mkt.Lists(c, mkt.clientPrefs[c][j]);
    }
  }

  /** What p holds when c proposes is a safe fill for turning c away, if c ranks below the worst of it. */
  lemma HeldIsSafeFill(mkt: Market, waiting: seq<Client>, remaining: map<Client, seq<Proxy>>,
                       results: map<Proxy, seq<Client>>, held: Assignment, c: Client)
    requires Inv(mkt, waiting, remaining, results, held)
    requires c in waiting && remaining[c] != []
    ensures var p := remaining[c][0];
            && mkt.Lists(c, p) && mkt.Acceptable(c, p) && p in results
            && (forall d :: d in Held(held, p) ==>
                 mkt.Lists(d, p) && Refusals(mkt, remaining, held, d) == mkt.ClientRank(d, p))
  {
    var p := remaining[c][0];
    NextProposal(mkt, waiting, remaining, results, held, c);
    forall d | d in Held(held, p) ensures mkt.Lists(d, p) && Refusals(mkt, remaining, held, d) == mkt.ClientRank(d, p) {
      HeldRank(mkt, waiting, remaining, results, held, d);
    }
  }

  /** c's proposal to p fails: p is full, and its worst client is not below c. */
  ghost predicate TurnedAway(mkt: Market, results: map<Proxy, seq<Client>>, p: Proxy, c: Client) {
    && mkt.Acceptable(c, p) && p in results && results[p] != [] && |results[p]| >= mkt.capacities[p]
    && var w := results[p][|results[p]| - 1];
       w in mkt.proxyPrefs[p] && IndexOf(mkt.proxyPrefs[p], c) >= IndexOf(mkt.proxyPrefs[p], w)
  }

  /** Exactly one of the three things that can happen to a proposal. */
  lemma ProposalCases(mkt: Market, waiting: seq<Client>, remaining: map<Client, seq<Proxy>>,
                      results: map<Proxy, seq<Client>>, held: Assignment, c: Client)
    requires Inv(mkt, waiting, remaining, results, held)
    requires c in waiting && remaining[c] != []
    ensures var p := remaining[c][0];
            && mkt.Acceptable(c, p) && p in results
            && (|results[p]| >= mkt.capacities[p] ==>
                 && results[p] != []
                 && var w := results[p][|results[p]| - 1];
                    && w in mkt.proxyPrefs[p] && w != c
                    && (Displaces(mkt, results, held, p, c, w) || TurnedAway(mkt, results, p, c))
                    && (Displaces(mkt, results, held, p, c, w) <==>
                         IndexOf(mkt.proxyPrefs[p], c) < IndexOf(mkt.proxyPrefs[p], w)))
  {
    var p := remaining[c][0];
    NextProposal(mkt, waiting, remaining, results, held, c);
    if |results[p]| >= mkt.capacities[p] {
      RankedLast(mkt.proxyPrefs[p], Held(held, p));
    }
  }

  /** Whoever does not rank above the worst of some clients ranks below them all. */
  lemma BelowTheWorst(ranking: seq<Client>, chosen: set<Client>, w: Client, c: Client)
    requires w in chosen && w in ranking && c in ranking && c !in chosen && IndexOf(ranking, c) >= IndexOf(ranking, w)
    requires forall d :: d in chosen && d in ranking && d != w ==> IndexOf(ranking, d) < IndexOf(ranking, w)
    ensures forall d :: d in chosen && d in ranking ==> IndexOf(ranking, d) < IndexOf(ranking, c)
  {
    assert ranking[IndexOf(ranking, w)] == w && ranking[IndexOf(ranking, c)] == c;
  }

  lemma TurnedAwayByFill(mkt: Market, waiting: seq<Client>, remaining: map<Client, seq<Proxy>>,
                         results: map<Proxy, seq<Client>>, held: Assignment, c: Client)
    requires Inv(mkt, waiting, remaining, results, held)
    requires c in waiting && remaining[c] != [] && TurnedAway(mkt, results, remaining[c][0], c)
    ensures mkt.Lists(c, remaining[c][0])
    ensures FilledAbove(mkt, held, remaining[c][0], c)
    ensures SafeFill(mkt, remaining, held, remaining[c][0], Held(held, remaining[c][0]), c)
  {
    var p := remaining[c][0];
    NextProposal(mkt, waiting, remaining, results, held, c);
    HeldIsSafeFill(mkt, waiting, remaining, results, held, c);
    RankedLast(mkt.proxyPrefs[p], Held(held, p));
    BelowTheWorst(mkt.proxyPrefs[p], Held(held, p), results[p][|results[p]| - 1], c);
  }

  lemma SuffixTail(s: seq<Proxy>, t: seq<Proxy>)
    requires Suffix(s, t) && s != []
    ensures Suffix(s[1..], t) && s[0] == t[|t| - |s|]
  {}

  lemma PopKeepsPartition(mkt: Market, waiting: seq<Client>, remaining: map<Client, seq<Proxy>>, held: Assignment,
                          c: Client)
    requires Partition(mkt, waiting, remaining, held)
    requires c in waiting && remaining[c] != []
    ensures Partition(mkt, waiting, remaining[c := remaining[c][1..]], held)
  {
    SuffixTail(remaining[c], mkt.clientPrefs[c]);
    var after := remaining[c := remaining[c][1..]];
    forall d | d in held ensures HeldByLast(mkt, after, held, d) {
      assert HeldByLast(mkt, remaining, held, d);
    }
  }

  lemma {:induction false} Reject(mkt: Market, waiting: seq<Client>, remaining: map<Client, seq<Proxy>>,
               results: map<Proxy, seq<Client>>, held: Assignment, c: Client)
    requires Inv(mkt, waiting, remaining, results, held)
    requires c in waiting && remaining[c] != [] && TurnedAway(mkt, results, remaining[c][0], c)
    ensures Inv(mkt, waiting, remaining[c := remaining[c][1..]], results, held)
  {
    var p := remaining[c][0];
    var after := remaining[c := remaining[c][1..]];
    NextProposal(mkt, waiting, remaining, results, held, c);
    TurnedAwayByFill(mkt, waiting, remaining, results, held, c);
    OneMoreJustified(mkt, remaining, held, after, held, p, c);
    NothingMoreLost(mkt, remaining, held, after, held, c, p, Held(held, p));
    PopKeepsPartition(mkt, waiting, remaining, held, c);
  }

  /** The client that just proposed to p leaves the waiting list and is held by p. */
  lemma HoldKeepsPartition(mkt: Market, waiting: seq<Client>, waiting': seq<Client>, after: map<Client, seq<Proxy>>,
                           held: Assignment, c: Client)
    requires Partition(mkt, waiting, after, held) && c in waiting
    requires 0 < Proposals(mkt, after, c) <= |mkt.clientPrefs[c]|
    requires Distinct(waiting') && forall d :: d in waiting' <==> d in waiting && d != c
    ensures Partition(mkt, waiting', after, held[c := mkt.clientPrefs[c][Proposals(mkt, after, c) - 1]])
  {
    var held' := held[c := mkt.clientPrefs[c][Proposals(mkt, after, c) - 1]];
    forall d | d in held' ensures HeldByLast(mkt, after, held', d) {
      assert d != c ==> HeldByLast(mkt, after, held, d);
    }
  }

  lemma AcceptPartition(mkt: Market, waiting: seq<Client>, remaining: map<Client, seq<Proxy>>, held: Assignment,
                        c: Client)
    requires Partition(mkt, waiting, remaining, held)
    requires c in waiting && remaining[c] != []
    ensures Partition(mkt, Without(waiting, c), remaining[c := remaining[c][1..]], held[c := remaining[c][0]])
  {
    var after := remaining[c := remaining[c][1..]];
    SuffixTail(remaining[c], mkt.clientPrefs[c]);
    assert Proposals(mkt, after, c) == Proposals(mkt, remaining, c) + 1;
    PopKeepsPartition(mkt, waiting, remaining, held, c);
    WithoutProperties(waiting, c);
    HoldKeepsPartition(mkt, waiting, Without(waiting, c), after, held, c);
  }

  /** Proposers are added in rank order. */
  lemma RankedWith(ranking: seq<Client>, chosen: set<Client>, list: seq<Client>, c: Client)
    requires list == Ranked(ranking, chosen)
    requires forall d :: d in chosen ==> d in ranking
    ensures (set d | d in list + [c]) == chosen + {c}
  {
    forall d ensures d in list <==> d in chosen {
      RankedElements(ranking, chosen, d);
    }
  }

  lemma HeldAfterHold(held: Assignment, c: Client, p: Proxy)
    requires c !in held
    ensures Held(held[c := p], p) == Held(held, p) + {c}
    ensures forall q :: q != p ==> Held(held[c := p], q) == Held(held, q)
  {}

  lemma NewList(mkt: Market, results: map<Proxy, seq<Client>>, held: Assignment, held': Assignment, p: Proxy,
                list: seq<Client>)
    requires mkt.WellFormed() && Listed(mkt, results, held) && p in results
    requires list == Ranked(mkt.proxyPrefs[p], Held(held', p)) && |list| <= mkt.capacities[p]
    requires forall q :: q != p ==> Held(held', q) == Held(held, q)
    ensures Listed(mkt, results[p := list], held')
  {}

  lemma AcceptListed(mkt: Market, waiting: seq<Client>, remaining: map<Client, seq<Proxy>>,
                     results: map<Proxy, seq<Client>>, held: Assignment, c: Client)
    requires Inv(mkt, waiting, remaining, results, held)
    requires c in waiting && remaining[c] != [] && mkt.Acceptable(c, remaining[c][0]) && remaining[c][0] in results
    requires |results[remaining[c][0]]| < mkt.capacities[remaining[c][0]]
    ensures var p := remaining[c][0];
            Listed(mkt, results[p := Ranked(mkt.proxyPrefs[p], set d | d in results[p] + [c])], held[c := p])
  {
    var p := remaining[c][0];
    var held' := held[c := p];
    NextProposal(mkt, waiting, remaining, results, held, c);
    RankedWith(mkt.proxyPrefs[p], Held(held, p), results[p], c);
    HeldAfterHold(held, c, p);
    RankedSize(mkt.proxyPrefs[p], Held(held, p) + {c});
    NewList(mkt, results, held, held', p, Ranked(mkt.proxyPrefs[p], Held(held, p) + {c}));
  }

  lemma AcceptJustified(mkt: Market, remaining: map<Client, seq<Proxy>>, after: map<Client, seq<Proxy>>,
                        held: Assignment, c: Client, p: Proxy)
    requires mkt.WellFormed() && remaining.Keys == after.Keys == mkt.clientPrefs.Keys
    requires Justified(mkt, remaining, held) && NothingLost(mkt, remaining, held)
    requires p in mkt.capacities && |Held(held, p)| < mkt.capacities[p] && c !in held
    requires forall d :: d in remaining ==> Refusals(mkt, after, held[c := p], d) == Refusals(mkt, remaining, held, d)
    ensures Justified(mkt, after, held[c := p]) && NothingLost(mkt, after, held[c := p])
  {
    var held' := held[c := p];
    forall d, q | mkt.Lists(d, q) && FilledAbove(mkt, held, q, d) ensures FilledAbove(mkt, held', q, d) {
      assert q != p;
      assert Held(held', q) == Held(held, q);
    }
    StillJustified(mkt, remaining, held, after, held');
  }

  lemma AcceptRefusals(mkt: Market, remaining: map<Client, seq<Proxy>>, held: Assignment, c: Client, p: Proxy)
    requires remaining.Keys == mkt.clientPrefs.Keys && c in remaining && remaining[c] != [] && c !in held
    ensures forall d :: d in remaining ==>
              Refusals(mkt, remaining[c := remaining[c][1..]], held[c := p], d) == Refusals(mkt, remaining, held, d)
  {}

  lemma Accept(mkt: Market, waiting: seq<Client>, remaining: map<Client, seq<Proxy>>,
               results: map<Proxy, seq<Client>>, held: Assignment, c: Client)
    requires Inv(mkt, waiting, remaining, results, held)
    requires c in waiting && remaining[c] != [] && mkt.Acceptable(c, remaining[c][0]) && remaining[c][0] in results
    requires |results[remaining[c][0]]| < mkt.capacities[remaining[c][0]]
    ensures var p := remaining[c][0];
            Inv(mkt, Without(waiting, c), remaining[c := remaining[c][1..]],
                results[p := Ranked(mkt.proxyPrefs[p], set d | d in results[p] + [c])], held[c := p])
  {
    NextProposal(mkt, waiting, remaining, results, held, c);
    AcceptRefusals(mkt, remaining, held, c, remaining[c][0]);
    AcceptJustified(mkt, remaining, remaining[c := remaining[c][1..]], held, c, remaining[c][0]);
    AcceptPartition(mkt, waiting, remaining, held, c);
    AcceptListed(mkt, waiting, remaining, results, held, c);
  }

  lemma ReleaseKeepsPartition(mkt: Market, waiting: seq<Client>, remaining: map<Client, seq<Proxy>>, held: Assignment,
                              w: Client)
    requires Partition(mkt, waiting, remaining, held) && w in held
    ensures Partition(mkt, waiting + [w], remaining, held - {w})
  {
    forall d | d in held - {w} ensures HeldByLast(mkt, remaining, held - {w}, d) {
      assert HeldByLast(mkt, remaining, held, d);
    }
  }

  /** c proposes to a full p and ranks above w, the worst that p holds. */
  ghost predicate Displaces(mkt: Market, results: map<Proxy, seq<Client>>, held: Assignment, p: Proxy, c: Client,
                            w: Client) {
    && mkt.Acceptable(c, p) && p in results && results[p] != [] && |results[p]| >= mkt.capacities[p]
    && w == results[p][|results[p]| - 1]
    && w in mkt.proxyPrefs[p] && IndexOf(mkt.proxyPrefs[p], c) < IndexOf(mkt.proxyPrefs[p], w)
  }

  /** After the swap p holds the same number of clients, all ranked above w, and w is last among old and new. */
  lemma DisplacedIsLast(mkt: Market, waiting: seq<Client>, remaining: map<Client, seq<Proxy>>,
                        results: map<Proxy, seq<Client>>, held: Assignment, c: Client, w: Client)
    requires Inv(mkt, waiting, remaining, results, held)
    requires c in waiting && remaining[c] != [] && Displaces(mkt, results, held, remaining[c][0], c, w)
    ensures var p := remaining[c][0]; var h := Held(held, p);
            && w in h && c !in h && |h - {w} + {c}| == |h| == mkt.capacities[p]
            && mkt.Lists(c, p) && mkt.Lists(w, p)
            && (forall d :: d in h - {w} + {c} ==> mkt.Lists(d, p) && mkt.Above(p, d, w))
  {
    var p := remaining[c][0];
    NextProposal(mkt, waiting, remaining, results, held, c);
    HeldIsSafeFill(mkt, waiting, remaining, results, held, c);
    RankedLast(mkt.proxyPrefs[p], Held(held, p));
    SwapKeepsSize(Held(held, p), w, c);
  }

  lemma SwapKeepsSize<T>(s: set<T>, x: T, y: T)
    requires x in s && y !in s
    ensures |s - {x} + {y}| == |s|
  {}

  lemma WorstIsLast(ranking: seq<Client>, chosen: set<Client>, w: Client)
    requires Distinct(ranking) && w in chosen
    requires forall d :: d in chosen ==> d in ranking
    requires forall d :: d in chosen && d != w ==> IndexOf(ranking, d) < IndexOf(ranking, w)
    ensures var r := Ranked(ranking, chosen);
            |r| == |chosen| > 0 && r[|r| - 1] == w && r[..|r| - 1] == Ranked(ranking, chosen - {w})
  {
    RankedSize(ranking, chosen);
    RankedElements(ranking, chosen, w);
    RankedLast(ranking, chosen);
  }

  /** Adding a newcomer to a ranked list and dropping the worst. */
  lemma {:induction false} RankedSwap(ranking: seq<Client>, chosen: set<Client>, list: seq<Client>, c: Client,
                                      w: Client)
    requires Distinct(ranking) && list == Ranked(ranking, chosen) && w in chosen && c !in chosen
    requires forall d :: d in chosen + {c} ==> d in ranking
    requires forall d :: d in chosen - {w} + {c} ==> IndexOf(ranking, d) < IndexOf(ranking, w)
    ensures var r := Ranked(ranking, set d | d in list + [c]);
            && |r| == |chosen| + 1 && r[|r| - 1] == w
            && r[..|r| - 1] == Ranked(ranking, chosen - {w} + {c})
  {
    RankedWith(ranking, chosen, list, c);
    assert chosen + {c} - {w} == chosen - {w} + {c};
    WorstIsLast(ranking, chosen + {c}, w);
  }

  lemma BumpedList(mkt: Market, waiting: seq<Client>, remaining: map<Client, seq<Proxy>>,
                   results: map<Proxy, seq<Client>>, held: Assignment, c: Client, w: Client)
    requires Inv(mkt, waiting, remaining, results, held)
    requires c in waiting && remaining[c] != [] && Displaces(mkt, results, held, remaining[c][0], c, w)
    ensures var p := remaining[c][0]; var r := Ranked(mkt.proxyPrefs[p], set d | d in results[p] + [c]);
            && r != [] && r[|r| - 1] == w
            && r[..|r| - 1] == Ranked(mkt.proxyPrefs[p], Held(held, p) - {w} + {c})
            && |r| == mkt.capacities[p] + 1
  {
    var p := remaining[c][0];
    NextProposal(mkt, waiting, remaining, results, held, c);
    DisplacedIsLast(mkt, waiting, remaining, results, held, c, w);
    forall d | d in Held(held, p) - {w} + {c} ensures IndexOf(mkt.proxyPrefs[p], d) < IndexOf(mkt.proxyPrefs[p], w) {
      assert mkt.Above(p, d, w);
    }
    RankedSwap(mkt.proxyPrefs[p], Held(held, p), results[p], c, w);
  }

  lemma HeldAfterSwap(held: Assignment, c: Client, p: Proxy, w: Client)
    requires c !in held && w in Held(held, p)
    ensures Held(held[c := p] - {w}, p) == Held(held, p) - {w} + {c}
    ensures forall q :: q != p ==> Held(held[c := p] - {w}, q) == Held(held, q)
  {}

  /** A proxy filled above some client stays so when it swaps its worst for a better one. */
  lemma SwapKeepsFilled(mkt: Market, held: Assignment, held': Assignment, p: Proxy, c: Client, w: Client)
    requires mkt.WellFormed() && mkt.Lists(c, p) && mkt.Lists(w, p)
    requires w in Held(held, p) && mkt.Above(p, c, w)
    requires Held(held', p) == Held(held, p) - {w} + {c} && |Held(held', p)| == |Held(held, p)|
    requires forall q :: q != p ==> Held(held', q) == Held(held, q)
    ensures forall q, d :: mkt.Lists(d, q) && FilledAbove(mkt, held, q, d) ==> FilledAbove(mkt, held', q, d)
  {
    forall q, d | mkt.Lists(d, q) && FilledAbove(mkt, held, q, d) ensures FilledAbove(mkt, held', q, d) {
      if q == p {
        assert mkt.Above(p, w, d);
      }
    }
  }

  lemma BumpSafeFill(mkt: Market, waiting: seq<Client>, remaining: map<Client, seq<Proxy>>,
                     results: map<Proxy, seq<Client>>, held: Assignment, c: Client, w: Client)
    requires Inv(mkt, waiting, remaining, results, held)
    requires c in waiting && remaining[c] != [] && Displaces(mkt, results, held, remaining[c][0], c, w)
    ensures var p := remaining[c][0];
            mkt.Lists(w, p) && SafeFill(mkt, remaining, held, p, Held(held, p) - {w} + {c}, w)
    ensures Refusals(mkt, remaining, held, w) == mkt.ClientRank(w, remaining[c][0])
  {
    NextProposal(mkt, waiting, remaining, results, held, c);
    HeldIsSafeFill(mkt, waiting, remaining, results, held, c);
    DisplacedIsLast(mkt, waiting, remaining, results, held, c, w);
  }

  lemma SwapLosesNothing(mkt: Market, remaining: map<Client, seq<Proxy>>, held: Assignment, c: Client, w: Client)
    requires mkt.WellFormed() && remaining.Keys == mkt.clientPrefs.Keys && NothingLost(mkt, remaining, held)
    requires c in remaining && remaining[c] != [] && c !in held && w in held && w in remaining
    requires mkt.Lists(w, remaining[c][0]) && Refusals(mkt, remaining, held, w) == mkt.ClientRank(w, remaining[c][0])
    requires SafeFill(mkt, remaining, held, remaining[c][0], Held(held, remaining[c][0]) - {w} + {c}, w)
    ensures NothingLost(mkt, remaining[c := remaining[c][1..]], held[c := remaining[c][0]] - {w})
  {
    var p := remaining[c][0];
    BumpRefusals(mkt, remaining, held, c, p, w);
    NothingMoreLost(mkt, remaining, held, remaining[c := remaining[c][1..]], held[c := p] - {w},
                    w, p, Held(held, p) - {w} + {c});
  }

  lemma {:induction false} BumpNothingLost(mkt: Market, waiting: seq<Client>, remaining: map<Client, seq<Proxy>>,
                        results: map<Proxy, seq<Client>>, held: Assignment, c: Client, w: Client)
    requires Inv(mkt, waiting, remaining, results, held)
    requires c in waiting && remaining[c] != [] && Displaces(mkt, results, held, remaining[c][0], c, w)
    ensures NothingLost(mkt, remaining[c := remaining[c][1..]], held[c := remaining[c][0]] - {w})
  {
    DisplacedIsLast(mkt, waiting, remaining, results, held, c, w);
    BumpSafeFill(mkt, waiting, remaining, results, held, c, w);
    SwapLosesNothing(mkt, remaining, held, c, w);
  }

  lemma OneMoreJustified(mkt: Market, before: map<Client, seq<Proxy>>, held: Assignment,
                         after: map<Client, seq<Proxy>>, held': Assignment, p: Proxy, w: Client)
    requires mkt.WellFormed() && before.Keys == after.Keys == mkt.clientPrefs.Keys
    requires Justified(mkt, before, held)
    requires forall q, d :: mkt.Lists(d, q) && FilledAbove(mkt, held, q, d) ==> FilledAbove(mkt, held', q, d)
    requires forall d :: d in before && d != w ==> Refusals(mkt, after, held', d) == Refusals(mkt, before, held, d)
    requires mkt.Lists(w, p) && FilledAbove(mkt, held', p, w)
    requires Refusals(mkt, before, held, w) == mkt.ClientRank(w, p)
    requires Refusals(mkt, after, held', w) == mkt.ClientRank(w, p) + 1
    ensures Justified(mkt, after, held')
  {
    forall c, j | c in after && 0 <= j < Refusals(mkt, after, held', c) && j < |mkt.clientPrefs[c]|
      ensures FilledAbove(mkt, held', mkt.clientPrefs[c][j], c)
    {
      var q := mkt.clientPrefs[c][j];
      assert mkt.Lists(c, q);
      if c == w && j == mkt.ClientRank(w, p) {
        LastRefusal(mkt, w, p);
      } else {
        assert FilledAbove(mkt, held, q, c);
      }
    }
  }

  lemma SwapJustified(mkt: Market, remaining: map<Client, seq<Proxy>>, held: Assignment, c: Client, p: Proxy, w: Client)
    requires mkt.WellFormed() && remaining.Keys == mkt.clientPrefs.Keys && Justified(mkt, remaining, held)
    requires c in remaining && remaining[c] != [] && c !in held && w in Held(held, p) && w in remaining
    requires mkt.Lists(c, p) && mkt.Lists(w, p) && p in mkt.capacities
    requires Refusals(mkt, remaining, held, w) == mkt.ClientRank(w, p)
    requires var fill := Held(held, p) - {w} + {c};
             && |fill| == |Held(held, p)| == mkt.capacities[p]
             && forall d :: d in fill ==> mkt.Lists(d, p) && mkt.Above(p, d, w)
    ensures Justified(mkt, remaining[c := remaining[c][1..]], held[c := p] - {w})
  {
    var after, held' := remaining[c := remaining[c][1..]], held[c := p] - {w};
    BumpRefusals(mkt, remaining, held, c, p, w);
    HeldAfterSwap(held, c, p, w);
    SwapKeepsFilled(mkt, held, held', p, c, w);
    assert FilledAbove(mkt, held', p, w);
    OneMoreJustified(mkt, remaining, held, after, held', p, w);
  }

  lemma BumpJustified(mkt: Market, waiting: seq<Client>, remaining: map<Client, seq<Proxy>>,
                      results: map<Proxy, seq<Client>>, held: Assignment, c: Client, w: Client)
    requires Inv(mkt, waiting, remaining, results, held)
    requires c in waiting && remaining[c] != [] && Displaces(mkt, results, held, remaining[c][0], c, w)
    ensures Justified(mkt, remaining[c := remaining[c][1..]], held[c := remaining[c][0]] - {w})
  {
    DisplacedIsLast(mkt, waiting, remaining, results, held, c, w);
    BumpSafeFill(mkt, waiting, remaining, results, held, c, w);
    SwapJustified(mkt, remaining, held, c, remaining[c][0], w);
  }

  lemma BumpRefusals(mkt: Market, remaining: map<Client, seq<Proxy>>, held: Assignment, c: Client, p: Proxy, w: Client)
    requires remaining.Keys == mkt.clientPrefs.Keys && c in remaining && remaining[c] != []
    requires c !in held && w in held && w in remaining
    ensures var after, held' := remaining[c := remaining[c][1..]], held[c := p] - {w};
            && Refusals(mkt, after, held', w) == Refusals(mkt, remaining, held, w) + 1
            && forall d :: d in remaining && d != w ==>
                 Refusals(mkt, after, held', d) == Refusals(mkt, remaining, held, d)
  {}

  /** Position `ClientRank` of a list is the proxy itself. */
  lemma LastRefusal(mkt: Market, w: Client, p: Proxy)
    requires mkt.Lists(w, p)
    ensures mkt.clientPrefs[w][mkt.ClientRank(w, p)] == p
  {}

  lemma Bump(mkt: Market, waiting: seq<Client>, remaining: map<Client, seq<Proxy>>,
             results: map<Proxy, seq<Client>>, held: Assignment, c: Client, w: Client)
    requires Inv(mkt, waiting, remaining, results, held)
    requires c in waiting && remaining[c] != [] && Displaces(mkt, results, held, remaining[c][0], c, w)
    ensures var p := remaining[c][0]; var r := Ranked(mkt.proxyPrefs[p], set d | d in results[p] + [c]);
            && r != [] && r[|r| - 1] == w
            && Inv(mkt, Without(waiting, c) + [w], remaining[c := remaining[c][1..]],
                   results[p := r[..|r| - 1]], held[c := p] - {w})
  {
    NextProposal(mkt, waiting, remaining, results, held, c);
    DisplacedIsLast(mkt, waiting, remaining, results, held, c, w);
    BumpedList(mkt, waiting, remaining, results, held, c, w);
    AcceptPartition(mkt, waiting, remaining, held, c);
    ReleaseKeepsPartition(mkt, Without(waiting, c), remaining[c := remaining[c][1..]], held[c := remaining[c][0]], w);
    HeldAfterSwap(held, c, remaining[c][0], w);
    var r := Ranked(mkt.proxyPrefs[remaining[c][0]], set d | d in results[remaining[c][0]] + [c]);
    NewList(mkt, results, held, held[c := remaining[c][0]] - {w}, remaining[c][0], r[..|r| - 1]);
    BumpJustified(mkt, waiting, remaining, results, held, c, w);
    BumpNothingLost(mkt, waiting, remaining, results, held, c, w);
  }

  lemma HeldIsFeasible(mkt: Market, remaining: map<Client, seq<Proxy>>, results: map<Proxy, seq<Client>>,
                       held: Assignment)
    requires Inv(mkt, [], remaining, results, held)
    ensures mkt.Feasible(held)
  {
    forall c | c in held ensures mkt.Lists(c, held[c]) {
      HeldRank(mkt, [], remaining, results, held, c);
    }
    forall p | p in mkt.capacities ensures |Held(held, p)| <= mkt.capacities[p] {
      forall d | d in Held(held, p) ensures d in mkt.proxyPrefs[p] {
        HeldRank(mkt, [], remaining, results, held, d);
      }
      RankedSize(mkt.proxyPrefs[p], Held(held, p));
    }
  }

  /** A proxy that c would rather have has turned c away. */
  lemma BetterHasRefused(mkt: Market, remaining: map<Client, seq<Proxy>>, results: map<Proxy, seq<Client>>,
                         held: Assignment, c: Client, p: Proxy)
    requires Inv(mkt, [], remaining, results, held) && mkt.Feasible(held)
    requires mkt.Lists(c, p) && mkt.Prefers(held, c, p)
    ensures FilledAbove(mkt, held, p, c)
  {
    if c in held {
      HeldRank(mkt, [], remaining, results, held, c);
    }
    assert mkt.clientPrefs[c][mkt.ClientRank(c, p)] == p;
  }

  /** With nobody waiting, the held clients form a stable assignment. */
  lemma NobodyBlocks(mkt: Market, remaining: map<Client, seq<Proxy>>, results: map<Proxy, seq<Client>>,
                     held: Assignment)
    requires Inv(mkt, [], remaining, results, held)
    ensures mkt.Stable(held)
  {
    HeldIsFeasible(mkt, remaining, results, held);
    forall c, p | mkt.Lists(c, p) && mkt.Prefers(held, c, p) ensures !mkt.Blocks(held, c, p) {
      BetterHasRefused(mkt, remaining, results, held, c, p);
    }
  }

  lemma NobodyDoesBetter(mkt: Market, remaining: map<Client, seq<Proxy>>, results: map<Proxy, seq<Client>>,
                         held: Assignment, s: Assignment)
    requires Inv(mkt, [], remaining, results, held) && mkt.Feasible(held) && mkt.Stable(s)
    ensures mkt.AtLeastAsGood(held, s)
  {
    forall c | c in s ensures c in held && mkt.ClientRank(c, held[c]) <= mkt.ClientRank(c, s[c]) {
      assert mkt.Lists(c, s[c]) && PartnerFrom(mkt, s, c, Refusals(mkt, remaining, held, c));
      if c in held {
        HeldRank(mkt, [], remaining, results, held, c);
      }
    }
  }

  lemma ListsCutDown(mkt: Market, remaining: map<Client, seq<Proxy>>, results: map<Proxy, seq<Client>>,
                     held: Assignment, c: Client)
    requires Inv(mkt, [], remaining, results, held) && c in held
    ensures mkt.Lists(c, held[c]) && c in remaining
    ensures remaining[c] == mkt.clientPrefs[c][mkt.ClientRank(c, held[c]) + 1..]
  {
    HeldRank(mkt, [], remaining, results, held, c);
    assert HeldByLast(mkt, remaining, held, c);
  }

  lemma {:induction false} Finish(mkt: Market, remaining: map<Client, seq<Proxy>>, results: map<Proxy, seq<Client>>,
                                  held: Assignment)
    requires Inv(mkt, [], remaining, results, held)
    ensures Outcome(mkt, results, remaining, held)
  {
    NobodyBlocks(mkt, remaining, results, held);
    forall s: Assignment | mkt.Stable(s) ensures mkt.AtLeastAsGood(held, s) {
      NobodyDoesBetter(mkt, remaining, results, held, s);
    }
    forall c | c in held
      ensures mkt.Lists(c, held[c]) && c in remaining
      ensures remaining[c] == mkt.clientPrefs[c][mkt.ClientRank(c, held[c]) + 1..]
    {
      ListsCutDown(mkt, remaining, results, held, c);
    }
  }

  // What the result means.

  /** Whatever the order of the dictionary and of the rounds, there is one possible result. */
  lemma {:induction false} OrderIndependent(mkt: Market,
                         results: map<Proxy, seq<Client>>, remaining: map<Client, seq<Proxy>>, a: Assignment,
                         results': map<Proxy, seq<Client>>, remaining': map<Client, seq<Proxy>>, a': Assignment)
    requires mkt.WellFormed()
    requires Outcome(mkt, results, remaining, a) && Outcome(mkt, results', remaining', a')
    ensures results == results' && remaining == remaining'
  {
    OptimalIsUnique(mkt, a, a');
    SameLists(mkt, results, results', a);
    SameRemaining(mkt, remaining, remaining', a);
  }

  lemma SameRemaining(mkt: Market, remaining: map<Client, seq<Proxy>>, remaining': map<Client, seq<Proxy>>,
                      a: Assignment)
    requires CutDown(mkt, remaining, a) && CutDown(mkt, remaining', a)
    ensures remaining == remaining'
  {
    assert forall c :: c in remaining ==> remaining[c] == remaining'[c];
  }

  lemma SameLists(mkt: Market, results: map<Proxy, seq<Client>>, results': map<Proxy, seq<Client>>, a: Assignment)
    requires mkt.WellFormed() && Listed(mkt, results, a) && Listed(mkt, results', a)
    ensures results == results'
  {
    assert forall p :: p in results ==> results[p] == results'[p];
  }

  /** A proxy's list holds exactly its clients, once each, best first, and no more than its capacity. */
  lemma ListsAreRanked(mkt: Market, results: map<Proxy, seq<Client>>, remaining: map<Client, seq<Proxy>>,
                       a: Assignment, p: Proxy)
    requires mkt.WellFormed() && Outcome(mkt, results, remaining, a) && p in results
    ensures |results[p]| == |Held(a, p)| <= mkt.capacities[p]
    ensures forall c :: c in results[p] <==> c in a && a[c] == p
    ensures forall i, j :: 0 <= i < j < |results[p]| ==>
              && results[p][i] in mkt.proxyPrefs[p] && results[p][j] in mkt.proxyPrefs[p]
              && mkt.ProxyRank(p, results[p][i]) < mkt.ProxyRank(p, results[p][j])
  {
    forall c | c in Held(a, p) ensures c in mkt.proxyPrefs[p] {
      assert mkt.Lists(c, p) && mkt.Acceptable(c, p);
    }
    RankedSize(mkt.proxyPrefs[p], Held(a, p));
    forall c ensures c in results[p] <==> c in Held(a, p) {
      RankedElements(mkt.proxyPrefs[p], Held(a, p), c);
    }
    RankedSorted(mkt.proxyPrefs[p], Held(a, p));
  }

  lemma {:induction false} RankedSorted(ranking: seq<Client>, chosen: set<Client>)
    requires Distinct(ranking)
    ensures var r := Ranked(ranking, chosen);
            forall i, j :: 0 <= i < j < |r| ==>
              r[i] in ranking && r[j] in ranking && IndexOf(ranking, r[i]) < IndexOf(ranking, r[j])
  {
    if ranking != [] {
      var rest := Ranked(ranking[1..], chosen);
      RankedSorted(ranking[1..], chosen);
      forall i | 0 <= i < |rest|
        ensures rest[i] in ranking[1..] && IndexOf(ranking, rest[i]) == 1 + IndexOf(ranking[1..], rest[i])
      {
        RankedElements(ranking[1..], chosen, rest[i]);
      }
    }
  }

  /** Stability, read off the returned lists: a proxy that c would rather have is filled with clients
      it ranks above c. */
  lemma BetterProxiesAreFull(mkt: Market, results: map<Proxy, seq<Client>>, remaining: map<Client, seq<Proxy>>,
                             a: Assignment, c: Client, p: Proxy)
    requires mkt.WellFormed() && Outcome(mkt, results, remaining, a)
    requires mkt.Lists(c, p) && mkt.Prefers(a, c, p)
    ensures p in results && |results[p]| == mkt.capacities[p]
    ensures forall d :: d in results[p] ==> mkt.Lists(d, p) && mkt.Above(p, d, c)
  {
    assert mkt.Acceptable(c, p);
    ListsAreRanked(mkt, results, remaining, a, p);
    assert !mkt.Blocks(a, c, p);
    forall d | d in results[p] ensures mkt.Lists(d, p) && mkt.Above(p, d, c) {
      assert d in Held(a, p) && mkt.Lists(d, p) && mkt.Acceptable(d, p);
      assert !mkt.Above(p, c, d);
    }
  }
}
