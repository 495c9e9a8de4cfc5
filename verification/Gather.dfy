/** Picking pool addresses for a payout (backend/src/attribution/pool-gatherer.ts).
    On-chain balances arrive as part of the input. */
module Gather {
  import opened Wrappers

  datatype Source = Source(address: string, derivationIndex: nat, gatherStrategy: string, balance: int)

  datatype Leg = Leg(address: string, derivationIndex: nat, gatherStrategy: string, amount: int)

  datatype GatherError = NonPositiveAmount | InsufficientPoolFunds(have: int, need: int)

  function LegOf(s: Source, amount: int): Leg
  {
    Leg(s.address, s.derivationIndex, s.gatherStrategy, amount)
  }

  /** What a list of sources holds. */
  function Total(sources: seq<Source>): int
  {
    if sources == [] then 0 else Total(sources[..|sources| - 1]) + sources[|sources| - 1].balance
  }

  function TotalLegs(legs: seq<Leg>): int
  {
    if legs == [] then 0 else TotalLegs(legs[..|legs| - 1]) + legs[|legs| - 1].amount
  }

  /** What the chosen addresses of a list hold. */
  function HeldBy(sources: seq<Source>, chosen: set<string>): int
  {
    if sources == [] then 0
    else
      var last := sources[|sources| - 1];
      HeldBy(sources[..|sources| - 1], chosen) + if last.address in chosen then last.balance else 0
  }

  ghost predicate DistinctAddresses(sources: seq<Source>)
  {
    forall i, j :: 0 <= i < j < |sources| ==> sources[i].address != sources[j].address
  }

  function Funded(sources: seq<Source>): (r: seq<Source>)
  {
    if sources == [] then []
    else
      var last := sources[|sources| - 1];
      Funded(sources[..|sources| - 1]) + if last.balance > 0 then [last] else []
  }

  lemma {:induction false} FundedMember(s: seq<Source>, y: Source)
    requires y in Funded(s)
    ensures y in s && y.balance > 0
  {
    var k := |s| - 1;
    if y in Funded(s[..k]) { FundedMember(s[..k], y); }
  }

  // ------------------------------------------------------------------ sorting

  ghost predicate Descending(s: seq<Source>)
  {
    forall i, j :: 0 <= i < j < |s| ==> s[i].balance >= s[j].balance
  }

  /** Stable insertion from the right, the order `Array.prototype.sort` gives equal keys. */
  function Insert(s: seq<Source>, x: Source): (r: seq<Source>)
    ensures |r| == |s| + 1
  {
    if s == [] || s[|s| - 1].balance >= x.balance then s + [x]
    else Insert(s[..|s| - 1], x) + [s[|s| - 1]]
  }

  function SortDescending(s: seq<Source>): (r: seq<Source>)
    ensures |r| == |s|
  {
    if s == [] then [] else Insert(SortDescending(s[..|s| - 1]), s[|s| - 1])
  }

  lemma {:induction false} InsertMember(s: seq<Source>, x: Source, y: Source)
    requires y in Insert(s, x)
    ensures y in s || y == x
  {
    if s != [] && s[|s| - 1].balance < x.balance {
      var k := |s| - 1;
      if y in Insert(s[..k], x) { InsertMember(s[..k], x, y); }
    }
  }

  lemma {:induction false} SortMember(s: seq<Source>, y: Source)
    requires y in SortDescending(s)
    ensures y in s
  {
    var k := |s| - 1;
    InsertMember(SortDescending(s[..k]), s[k], y);
    if y != s[k] { SortMember(s[..k], y); }
  }

  lemma {:induction false} InsertDescending(s: seq<Source>, x: Source)
    requires Descending(s)
    ensures Descending(Insert(s, x))
  {
    if s != [] && s[|s| - 1].balance < x.balance {
      var k := |s| - 1;
      InsertDescending(s[..k], x);
      forall y | y in Insert(s[..k], x) ensures y.balance >= s[k].balance {
        InsertMember(s[..k], x, y);
      }
      AppendDescending(Insert(s[..k], x), s[k]);
    } else {
      AppendDescending(s, x);
    }
  }

  lemma {:induction false} AppendDescending(s: seq<Source>, x: Source)
    requires Descending(s) && forall y :: y in s ==> y.balance >= x.balance
    ensures Descending(s + [x])
  {
  }

  lemma {:induction false} InsertPermutes(s: seq<Source>, x: Source)
    ensures multiset(Insert(s, x)) == multiset(s) + multiset{x}
  {
    if s != [] && s[|s| - 1].balance < x.balance {
      var k := |s| - 1;
      InsertPermutes(s[..k], x);
      assert s == s[..k] + [s[k]];
    }
  }

  /** Sorting puts the largest balance first and loses nothing. */
  lemma {:induction false} SortSorts(s: seq<Source>)
    ensures Descending(SortDescending(s)) && multiset(SortDescending(s)) == multiset(s)
  {
    if s != [] {
      var k := |s| - 1;
      SortSorts(s[..k]);
      InsertDescending(SortDescending(s[..k]), s[k]);
      SortPermutes(s);
    }
  }

  lemma {:induction false} SortPermutes(s: seq<Source>)
    ensures multiset(SortDescending(s)) == multiset(s)
  {
    if s != [] {
      var k := |s| - 1;
      SortPermutes(s[..k]);
      InsertPermutes(SortDescending(s[..k]), s[k]);
      assert s == s[..k] + [s[k]];
    }
  }

  lemma {:induction false} InsertHeldBy(s: seq<Source>, x: Source, chosen: set<string>)
    ensures HeldBy(Insert(s, x), chosen) == HeldBy(s + [x], chosen)
    ensures Total(Insert(s, x)) == Total(s + [x])
  {
    assert (s + [x])[..|s|] == s;
    if s != [] && s[|s| - 1].balance < x.balance {
      var k := |s| - 1;
      InsertHeldBy(s[..k], x, chosen);
      assert (s[..k] + [x])[..k] == s[..k];
      assert (Insert(s[..k], x) + [s[k]])[..|s|] == Insert(s[..k], x);
    }
  }

  /** Sorting and dropping empty addresses lose nothing a payout could use. */
  lemma {:induction false} SortHeldBy(s: seq<Source>, chosen: set<string>)
    ensures HeldBy(SortDescending(s), chosen) == HeldBy(s, chosen)
    ensures Total(SortDescending(s)) == Total(s)
  {
    if s != [] {
      var k := |s| - 1;
      SortHeldBy(s[..k], chosen);
      var t := SortDescending(s[..k]);
      InsertHeldBy(t, s[k], chosen);
      assert (t + [s[k]])[..k] == t;
    }
  }

  lemma {:induction false} FundedHeldBy(s: seq<Source>, chosen: set<string>)
    ensures HeldBy(s, chosen) <= HeldBy(Funded(s), chosen)
  {
    if s != [] {
      var k := |s| - 1;
      FundedHeldBy(s[..k], chosen);
      if s[k].balance > 0 { HeldBySnoc(Funded(s[..k]), s[k], chosen); } else { assert Funded(s) == Funded(s[..k]); }
    }
  }

  lemma {:induction false} HeldBySnoc(s: seq<Source>, x: Source, chosen: set<string>)
    ensures HeldBy(s + [x], chosen) == HeldBy(s, chosen) + if x.address in chosen then x.balance else 0
  {
    assert (s + [x])[..|s|] == s;
  }

  lemma {:induction false} FundedDistinct(s: seq<Source>)
    requires DistinctAddresses(s)
    ensures DistinctAddresses(Funded(s))
  {
    if s != [] {
      var k := |s| - 1;
      FundedDistinct(s[..k]);
      forall y | y in Funded(s[..k]) ensures y.address != s[k].address {
        FundedMember(s[..k], y);
      }
      AppendDistinct(Funded(s[..k]), s[k]);
    }
  }

  lemma {:induction false} AppendDistinct(s: seq<Source>, x: Source)
    requires DistinctAddresses(s) && forall y :: y in s ==> y.address != x.address
    ensures DistinctAddresses(s + [x]) && DistinctAddresses(s + [])
  {
    assert s + [] == s;
  }

  lemma {:induction false} SortDistinct(s: seq<Source>)
    requires DistinctAddresses(s)
    ensures DistinctAddresses(SortDescending(s))
  {
    if s != [] {
      var k := |s| - 1;
      SortDistinct(s[..k]);
      forall y | y in SortDescending(s[..k]) ensures y.address != s[k].address {
        SortMember(s[..k], y);
      }
      InsertDistinct(SortDescending(s[..k]), s[k]);
    }
  }

  lemma {:induction false} InsertDistinct(s: seq<Source>, x: Source)
    requires DistinctAddresses(s) && forall y :: y in s ==> y.address != x.address
    ensures DistinctAddresses(Insert(s, x))
  {
    if s != [] && s[|s| - 1].balance < x.balance {
      var k := |s| - 1;
      InsertDistinct(s[..k], x);
      forall y | y in Insert(s[..k], x) ensures y.address != s[k].address {
        InsertMember(s[..k], x, y);
      }
      AppendDistinct(Insert(s[..k], x), s[k]);
    } else {
      AppendDistinct(s, x);
    }
  }

  // ------------------------------------------------------------------- greedy

  ghost predicate Positive(s: seq<Source>)
  {
    forall i :: 0 <= i < |s| ==> s[i].balance > 0
  }

  /** The list the greedy loop runs over: largest first, one entry an address. */
  ghost predicate Ranked(s: seq<Source>)
  {
    Descending(s) && DistinctAddresses(s) && Positive(s)
  }

  lemma {:induction false} PoolIsRanked(addresses: seq<Source>)
    requires DistinctAddresses(addresses)
    ensures Ranked(SortDescending(Funded(addresses)))
  {
    FundedDistinct(addresses);
    SortDistinct(Funded(addresses));
    SortSorts(Funded(addresses));
    PoolIsPositive(addresses);
  }

  lemma {:induction false} PoolIsPositive(addresses: seq<Source>)
    ensures Positive(SortDescending(Funded(addresses)))
  {
    var s := SortDescending(Funded(addresses));
    forall i | 0 <= i < |s| ensures s[i].balance > 0 {
      SortMember(Funded(addresses), s[i]);
      FundedMember(addresses, s[i]);
    }
  }

  lemma {:induction false} RankedPrefix(s: seq<Source>)
    requires Ranked(s) && s != []
    ensures var n := |s| - 1;
      Ranked(s[..n]) && forall i :: 0 <= i < n ==> s[..n][i].address != s[n].address
  {
  }

  /** Addresses chosen from a ranked list never hold more than as many of its first
      entries. */
  lemma {:induction false} FirstAreLargest(s: seq<Source>, chosen: set<string>, k: nat)
    requires Ranked(s) && |chosen| <= k <= |s|
    ensures HeldBy(s, chosen) <= Total(s[..k])
  {
    if |s| > 0 {
      var n := |s| - 1;
      var last, rest := s[n], s[..n];
      RankedPrefix(s);
      if last.address in chosen {
        ForgetAbsent(rest, chosen, last.address);
        FirstAreLargest(rest, chosen - {last.address}, k - 1);
        TakeOneMore(s, k - 1);
      } else if k == |s| {
        HeldAtMostTotal(s, chosen);
        assert s[..k] == s;
      } else {
        FirstAreLargest(rest, chosen, k);
        assert rest[..k] == s[..k];
      }
    }
  }

  lemma {:induction false} TakeOneMore(s: seq<Source>, k: nat)
    requires k < |s| && Descending(s)
    ensures Total(s[..|s| - 1][..k]) + s[|s| - 1].balance <= Total(s[..k + 1])
  {
    assert s[..|s| - 1][..k] == s[..k] && s[..k + 1][..k] == s[..k];
  }

  lemma {:induction false} ForgetAbsent(s: seq<Source>, chosen: set<string>, a: string)
    requires forall i :: 0 <= i < |s| ==> s[i].address != a
    ensures HeldBy(s, chosen) == HeldBy(s, chosen - {a})
  {
    if s != [] { ForgetAbsent(s[..|s| - 1], chosen, a); }
  }

  lemma {:induction false} HeldAtMostTotal(s: seq<Source>, chosen: set<string>)
    requires Positive(s)
    ensures 0 <= HeldBy(s, chosen) <= Total(s)
  {
    if s != [] { HeldAtMostTotal(s[..|s| - 1], chosen); }
  }

  /** Each leg takes from its own source, more than nothing and no more than it holds. */
  ghost predicate Draws(legs: seq<Leg>, sources: seq<Source>)
  {
    && |legs| <= |sources|
    && forall i :: 0 <= i < |legs| ==>
         legs[i] == LegOf(sources[i], legs[i].amount) && 0 < legs[i].amount <= sources[i].balance
  }

  /** `gather`. It fails exactly when the funded total is short (or the amount is not
      positive); otherwise its legs come from the sorted funded list, sum to the amount,
      and without the last one would not cover it. */
  method Gather(addresses: seq<Source>, amount: int) returns (r: Result<seq<Leg>, GatherError>)
    ensures r.Failure? <==> amount <= 0 || Total(Funded(addresses)) < amount
    ensures r.Success? ==> Gathered(addresses, amount, r.value)
  {
    if amount <= 0 {
      return Failure(NonPositiveAmount);
    }
    var funded := CollectFunded(addresses);
    var sorted := SortDescending(funded);
    SortHeldBy(funded, {});
    PoolIsPositive(addresses);
    var legs, remaining := Take(sorted, amount);
    if remaining > 0 {
      return Failure(InsufficientPoolFunds(Total(funded), amount));
    }
    return Success(legs);
  }

  method CollectFunded(addresses: seq<Source>) returns (funded: seq<Source>)
    ensures funded == Funded(addresses)
  {
    funded := [];
    var i := 0;
    while i < |addresses|
      invariant 0 <= i <= |addresses|
      invariant funded == Funded(addresses[..i])
    {
      assert addresses[..i + 1][..i] == addresses[..i];
      if addresses[i].balance > 0 {
        funded := funded + [addresses[i]];
      }
      i := i + 1;
    }
    assert addresses[..i] == addresses;
  }

  /** The greedy loop over the sorted list. */
  method Take(sorted: seq<Source>, amount: int) returns (legs: seq<Leg>, remaining: int)
    requires amount > 0 && Positive(sorted)
    ensures Draws(legs, sorted) && TotalLegs(legs) == amount - remaining && remaining >= 0
    ensures remaining > 0 <==> Total(sorted) < amount
    ensures remaining == 0 ==> legs != [] && Total(sorted[..|legs| - 1]) < amount
    ensures Whole(legs, sorted, |legs| - 1) && (remaining > 0 ==> Whole(legs, sorted, |legs|))
  {
    legs, remaining := [], amount;
    while |legs| < |sorted| && remaining > 0
      invariant Draws(legs, sorted) && remaining >= 0
      invariant TotalLegs(legs) == amount - remaining
      invariant remaining > 0 ==> TotalLegs(legs) == Total(sorted[..|legs|])
      invariant remaining == 0 ==> legs != [] && Total(sorted[..|legs| - 1]) < amount
      invariant Whole(legs, sorted, |legs| - 1) && (remaining > 0 ==> Whole(legs, sorted, |legs|))
      decreases |sorted| - |legs|
    {
      var f := sorted[|legs|];
      var take := if f.balance < remaining then f.balance else remaining;
      OneMore(sorted, legs, LegOf(f, take));
      legs := legs + [LegOf(f, take)];
      remaining := remaining - take;
    }
    if remaining > 0 {
      assert sorted[..|legs|] == sorted;
    } else {
      DrawsWithin(legs, sorted);
    }
  }

  /** The first n legs take whole balances. */
  ghost predicate Whole(legs: seq<Leg>, sources: seq<Source>, n: int)
  {
    forall i :: 0 <= i < n && i < |legs| && i < |sources| ==> legs[i].amount == sources[i].balance
  }

  lemma {:induction false} OneMore(sorted: seq<Source>, legs: seq<Leg>, leg: Leg)
    requires Draws(legs, sorted) && |legs| < |sorted|
    requires leg == LegOf(sorted[|legs|], leg.amount) && 0 < leg.amount <= sorted[|legs|].balance
    ensures Draws(legs + [leg], sorted)
    ensures Total(sorted[..|legs| + 1]) == Total(sorted[..|legs|]) + sorted[|legs|].balance
    ensures TotalLegs(legs + [leg]) == TotalLegs(legs) + leg.amount
  {
    assert sorted[..|legs| + 1][..|legs|] == sorted[..|legs|];
    assert (legs + [leg])[..|legs|] == legs;
  }

  lemma {:induction false} DrawsWithin(legs: seq<Leg>, s: seq<Source>)
    requires Draws(legs, s) && Positive(s)
    ensures TotalLegs(legs) <= Total(s)
  {
    if legs == [] {
      HeldAtMostTotal(s, {});
    } else if |legs| < |s| {
      DrawsWithin(legs, s[..|s| - 1]);
    } else {
      DrawsWithin(legs[..|legs| - 1], s[..|s| - 1]);
    }
  }

  /** What `Gather` promises of the legs it returns. */
  ghost predicate Gathered(addresses: seq<Source>, amount: int, legs: seq<Leg>)
  {
    var sorted := SortDescending(Funded(addresses));
    && Draws(legs, sorted) && TotalLegs(legs) == amount
    && legs != [] && Total(sorted[..|legs| - 1]) < amount
  }

  /** No set of addresses that covers the amount is smaller than the list of legs. */
  lemma {:induction false} FewestLegs(addresses: seq<Source>, amount: int, legs: seq<Leg>, chosen: set<string>)
    requires DistinctAddresses(addresses) && Gathered(addresses, amount, legs)
    requires HeldBy(addresses, chosen) >= amount
    ensures |legs| <= |chosen|
  {
    if |chosen| < |legs| { TooFewFallShort(addresses, |legs| - 1, chosen); }
  }

  lemma {:induction false} TooFewFallShort(addresses: seq<Source>, k: nat, chosen: set<string>)
    requires DistinctAddresses(addresses) && |chosen| <= k <= |SortDescending(Funded(addresses))|
    ensures HeldBy(addresses, chosen) <= Total(SortDescending(Funded(addresses))[..k])
  {
    PoolIsRanked(addresses);
    FundedHeldBy(addresses, chosen);
    SortHeldBy(Funded(addresses), chosen);
    FirstAreLargest(SortDescending(Funded(addresses)), chosen, k);
  }

  /** The legs are on distinct addresses of the pool, each within its balance. */
  lemma {:induction false} LegsFromPool(addresses: seq<Source>, amount: int, legs: seq<Leg>)
    requires DistinctAddresses(addresses) && Gathered(addresses, amount, legs)
    ensures forall i, j :: 0 <= i < j < |legs| ==> legs[i].address != legs[j].address
    ensures forall i :: 0 <= i < |legs| ==> FromPool(addresses, legs[i])
  {
    var sorted := SortDescending(Funded(addresses));
    PoolIsRanked(addresses);
    forall i | 0 <= i < |legs| ensures FromPool(addresses, legs[i]) {
      SortMember(Funded(addresses), sorted[i]);
      FundedMember(addresses, sorted[i]);
      assert DrawnFrom(legs[i], sorted[i]);
    }
    forall i, j | 0 <= i < j < |legs| ensures legs[i].address != legs[j].address {
      assert sorted[i].address != sorted[j].address;
    }
  }

  ghost predicate FromPool(addresses: seq<Source>, leg: Leg)
  {
    exists a :: a in addresses && DrawnFrom(leg, a)
  }

  /** The leg names the address, its derivation index and its strategy, and takes no more than
      it holds. */
  predicate DrawnFrom(leg: Leg, a: Source)
  {
    && leg.address == a.address && leg.derivationIndex == a.derivationIndex && leg.gatherStrategy == a.gatherStrategy
    && 0 < leg.amount <= a.balance
  }
}
