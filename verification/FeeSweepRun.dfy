/** One whole fee sweep over every merchant, tenant and chain
    (backend/src/services/fee-sweep.service.ts), and what it does to the books. */
module FeeSweepRun {
  import opened Wrappers
  import opened Pattern
  import opened Ledger
  import opened Journal
  import opened LedgerStore
  import opened FeeSweep

  /** One group of pool addresses with what the outside world answers while it is swept:
      whether a treasury address is set, whether the lease was granted, the balances on
      chain, and which legs were sent. */
  datatype Site = Site(merchant: Merchant, chain: string, treasury: bool, leased: bool,
                       holdings: seq<Holding>, sends: seq<bool>)

  datatype Reason = NoTreasury | LeaseHeld | BelowDust | NotOnChain | LegFailed

  datatype Skip = Skip(merchant: string, chain: string, reason: Reason)

  datatype Report = Report(sweptCount: nat, total: int, skipped: seq<Skip>)

  datatype Progress = Progress(journal: seq<Entry>, report: Report)

  function Skipped(r: Report, site: Site, reason: Reason): Report
  {
    r.(skipped := r.skipped + [Skip(site.merchant.name, site.chain, reason)])
  }

  predicate Sent(sends: seq<bool>, i: nat) { i < |sends| && sends[i] }

  /** `feeSwept` for one leg. */
  function LegEntry(site: Site, asset: string, l: Leg): Result<Entry, LedgerError>
  {
    OutOfPool(SweepKey(site.chain, l.address, asset, l.amount), asset, l.amount, Treasury(site.chain),
              PoolAddr(site.chain, site.merchant.name), None)
  }

  function PostLeg(s: Progress, site: Site, asset: string, l: Leg, sent: bool): Progress
  {
    var entry := LegEntry(site, asset, l);
    if !sent || entry.Failure? then s.(report := Skipped(s.report, site, LegFailed))
    else Progress(Recorded(s.journal, entry.value),
                  s.report.(sweptCount := s.report.sweptCount + 1, total := s.report.total + l.amount))
  }

  /** The first n legs. */
  function PostLegs(s: Progress, site: Site, asset: string, legs: seq<Leg>, n: nat): Progress
    requires n <= |legs|
  {
    if n == 0 then s
    else PostLeg(PostLegs(s, site, asset, legs, n - 1), site, asset, legs[n - 1], Sent(site.sends, n - 1))
  }

  function ClaimOf(j: seq<Entry>, site: Site, asset: string): int
  {
    AtLeastZero(Surplus(j, site.merchant, asset))
  }

  ghost function SweepSite(s: Progress, site: Site, asset: string, dust: int): Progress
  {
    if !site.treasury then s.(report := Skipped(s.report, site, NoTreasury))
    else if !site.leased then s.(report := Skipped(s.report, site, LeaseHeld))
    else
      var claim := ClaimOf(s.journal, site, asset);
      var legs := PlanLegs(site.holdings, map[], dust, claim);
      if claim <= 0 then s
      else if legs == [] then
        s.(report := Skipped(s.report, site, if Funded(site.holdings, map[]) then BelowDust else NotOnChain))
      else PostLegs(s, site, asset, legs, |legs|)
  }

  /** The first n groups. */
  ghost function SweepSites(s: Progress, sites: seq<Site>, asset: string, dust: int, n: nat): Progress
    requires n <= |sites|
  {
    if n == 0 then s else SweepSite(SweepSites(s, sites, asset, dust, n - 1), sites[n - 1], asset, dust)
  }

  function Start(j: seq<Entry>): Progress { Progress(j, Report(0, 0, [])) }

  datatype SweepError = Halted | Untyped

  /** `sweep`: nothing under the kill switch; otherwise the groups in order, stopping only
      where the claim query meets an account of no type. */
  method Sweep(service: LedgerService, sites: seq<Site>, asset: string, dust: int, halted: bool)
    returns (r: Result<Report, SweepError>, ghost done: nat)
    requires service.store.Valid()
    modifies service.store
    ensures service.store.Valid() && done <= |sites|
    ensures halted ==> r == Failure(Halted) && done == 0
    ensures service.store.journal == SweepSites(Start(old(service.store.journal)), sites, asset, dust, done).journal
    ensures r.Success? ==> done == |sites|
    ensures r.Success? ==> r.value == SweepSites(Start(old(service.store.journal)), sites, asset, dust, done).report
    ensures r.Failure? && !halted ==> done < |sites| && !Typed(service.store.journal, sites[done].merchant, asset)
  {
    done := 0;
    if halted {
      return Failure(Halted), 0;
    }
    var report := Report(0, 0, []);
    var i := 0;
    while i < |sites|
      invariant 0 <= i <= |sites| && done == i && service.store.Valid()
      invariant Progress(service.store.journal, report)
             == SweepSites(Start(old(service.store.journal)), sites, asset, dust, i)
    {
      var swept := SweepGroup(service, sites[i], asset, dust, report);
      if swept.None? {
        return Failure(Untyped), done;
      }
      report := swept.value;
      i := i + 1;
      done := i;
    }
    return Success(report), done;
  }

  /** The body of the outer loop. */
  method SweepGroup(service: LedgerService, site: Site, asset: string, dust: int, before: Report)
    returns (r: Option<Report>)
    requires service.store.Valid()
    modifies service.store
    ensures service.store.Valid()
    ensures r.None? ==> service.store.journal == old(service.store.journal)
    ensures r.None? ==> !Typed(service.store.journal, site.merchant, asset)
    ensures r.Some? ==> Progress(service.store.journal, r.value)
                        == SweepSite(Progress(old(service.store.journal), before), site, asset, dust)
  {
    if !site.treasury {
      return Some(Skipped(before, site, NoTreasury));
    }
    if !site.leased {
      return Some(Skipped(before, site, LeaseHeld));
    }
    var claim := Claim(service.store, site.merchant, asset);
    if claim.None? {
      return None;
    }
    var plan := Plan(claim.value, site.holdings, map[], dust);
    if plan.claim <= 0 {
      return Some(before);
    }
    if |plan.legs| == 0 {
      return Some(Skipped(before, site, if plan.skippedDust > 0 then BelowDust else NotOnChain));
    }
    var report := before;
    var i := 0;
    while i < |plan.legs|
      invariant 0 <= i <= |plan.legs| && service.store.Valid()
      invariant Progress(service.store.journal, report)
             == PostLegs(Progress(old(service.store.journal), before), site, asset, plan.legs, i)
    {
      report := SendAndPost(service, site, asset, plan.legs[i], Sent(site.sends, i), report);
      i := i + 1;
    }
    return Some(report);
  }

  /** The body of the inner loop: the entry is posted once the leg has been sent. */
  method SendAndPost(service: LedgerService, site: Site, asset: string, l: Leg, sent: bool, before: Report)
    returns (after: Report)
    requires service.store.Valid()
    modifies service.store
    ensures service.store.Valid()
    ensures Progress(service.store.journal, after)
      == PostLeg(Progress(old(service.store.journal), before), site, asset, l, sent)
  {
    var entry := LegEntry(site, asset, l);
    if !sent || entry.Failure? {
      return Skipped(before, site, LegFailed);
    }
    MoveAccepted(Treasury(site.chain), PoolAddr(site.chain, site.merchant.name), asset, l.amount, None);
    var posted := service.Post(entry.value);
    after := before.(sweptCount := before.sweptCount + 1, total := before.total + l.amount);
  }

  // -------------------------------------------------------------- what one leg moves

  /** The pool account is never taken for a liability, nor the treasury for either. */
  lemma {:induction false} AccountsApart(m: Merchant, chain: string, name: string)
    ensures !Like(LiabilityPattern(m), PoolAddr(chain, name))
    ensures !Like(PoolPattern(m), Treasury(chain)) && !Like(LiabilityPattern(m), Treasury(chain))
  {
    var p, l, pool, treasury := PoolPattern(m), LiabilityPattern(m), PoolAddr(chain, name), Treasury(chain);
    assert p[0] == 'p' && l[0] == 'm' && pool[0] == 'p' && treasury[0] == 't';
    if Like(l, pool) { LikeFirst(l, pool); }
    if Like(p, treasury) { LikeFirst(p, treasury); }
    if Like(l, treasury) { LikeFirst(l, treasury); }
  }

  /** What a leg takes out of the merchant's pool assets. */
  ghost function Drawn(j: seq<Entry>, m: Merchant, site: Site, asset: string, l: Leg, sent: bool): int
  {
    var entry := LegEntry(site, asset, l);
    if sent && entry.Success? && entry.value.key !in Keys(j)
      && Like(PoolPattern(m), PoolAddr(site.chain, site.merchant.name))
    then l.amount else 0
  }

  lemma {:induction false} LegMoves(s: Progress, m: Merchant, site: Site, asset: string, l: Leg, sent: bool)
    ensures var after := PostLeg(s, site, asset, l, sent).journal;
      && PoolAssets(after, m, asset) == PoolAssets(s.journal, m, asset) - Drawn(s.journal, m, site, asset, l, sent)
      && Liabilities(after, m, asset) == Liabilities(s.journal, m, asset)
  {
    var entry := LegEntry(site, asset, l);
    if sent && entry.Success? && entry.value.key !in Keys(s.journal) {
      var ps := entry.value.postings;
      AccountsApart(m, site.chain, site.merchant.name);
      LegSums(OfPattern(PoolPattern(m), asset), s.journal, entry.value);
      LegSums(OfPattern(LiabilityPattern(m), asset), s.journal, entry.value);
    }
  }

  lemma {:induction false} LegSums(measure: Measure, j: seq<Entry>, e: Entry)
    requires |e.postings| == 2
    ensures Total(measure, j + [e]) == Total(measure, j) + Weigh(measure, e.postings[0]) + Weigh(measure, e.postings[1])
  {
    TotalSnoc(measure, j, e);
    SumPair(measure, e.postings[0], e.postings[1], []);
    assert e.postings == [e.postings[0], e.postings[1]] + [];
  }

  /** At most this much left the merchant's pool, and only through a pool account of its. */
  ghost predicate Drew(before: seq<Entry>, after: seq<Entry>, m: Merchant, site: Site, asset: string, most: int)
  {
    && Liabilities(after, m, asset) == Liabilities(before, m, asset)
    && 0 <= PoolAssets(before, m, asset) - PoolAssets(after, m, asset) <= most
    && (Like(PoolPattern(m), PoolAddr(site.chain, site.merchant.name))
        || PoolAssets(after, m, asset) == PoolAssets(before, m, asset))
  }

  lemma {:induction false} DrewMore(before: seq<Entry>, s: Progress, m: Merchant, site: Site, asset: string, most: int,
                                    l: Leg, sent: bool)
    requires Drew(before, s.journal, m, site, asset, most) && l.amount > 0
    ensures Drew(before, PostLeg(s, site, asset, l, sent).journal, m, site, asset, most + l.amount)
  {
    LegMoves(s, m, site, asset, l, sent);
  }

  /** Legs draw at most what they add up to. */
  lemma {:induction false} LegsMove(s: Progress, m: Merchant, site: Site, asset: string, legs: seq<Leg>, n: nat)
    requires n <= |legs| && forall l :: l in legs ==> l.amount > 0
    ensures Drew(s.journal, PostLegs(s, site, asset, legs, n).journal, m, site, asset, LegSum(legs[..n]))
  {
    if n > 0 {
      LegsMove(s, m, site, asset, legs, n - 1);
      assert legs[n - 1] in legs;
      DrewMore(s.journal, PostLegs(s, site, asset, legs, n - 1), m, site, asset, LegSum(legs[..n - 1]), legs[n - 1],
               Sent(site.sends, n - 1));
      LegSumSnoc(legs[..n - 1], legs[n - 1]);
      assert legs[..n] == legs[..n - 1] + [legs[n - 1]];
    }
  }

  // ------------------------------------------------------------------- whole sweeps

  /** Two merchants whose claims count the same accounts, as a merchant's own groups do. */
  ghost predicate SameClaims(m: Merchant, other: Merchant)
  {
    forall account: string :: Claimed(m, account) <==> Claimed(other, account)
  }

  lemma {:induction false} SameClaimsSum(ps: seq<Posting>, m: Merchant, other: Merchant, asset: string)
    requires SameClaims(m, other)
    ensures Sum(OfPattern(PoolPattern(m), asset), ps) + Sum(OfPattern(LiabilityPattern(m), asset), ps)
      == Sum(OfPattern(PoolPattern(other), asset), ps) + Sum(OfPattern(LiabilityPattern(other), asset), ps)
  {
    if ps != [] {
      var k := |ps| - 1;
      SameClaimsSum(ps[..k], m, other, asset);
      PatternsApart(m, ps[k].account);
      PatternsApart(other, ps[k].account);
      assert Claimed(m, ps[k].account) <==> Claimed(other, ps[k].account);
    }
  }

  lemma {:induction false} SameClaimsSameSurplus(j: seq<Entry>, m: Merchant, other: Merchant, asset: string)
    requires SameClaims(m, other)
    ensures Surplus(j, m, asset) == Surplus(j, other, asset)
  {
    SameClaimsSum(Flatten(j), m, other, asset);
    TotalIsSum(OfPattern(PoolPattern(m), asset), j);
    TotalIsSum(OfPattern(LiabilityPattern(m), asset), j);
    TotalIsSum(OfPattern(PoolPattern(other), asset), j);
    TotalIsSum(OfPattern(LiabilityPattern(other), asset), j);
  }

  /** The group's claims are the merchant's, or its pool account is not counted as the
      merchant's. */
  ghost predicate Apart(m: Merchant, site: Site)
  {
    SameClaims(m, site.merchant) || !Like(PoolPattern(m), PoolAddr(site.chain, site.merchant.name))
  }

  /** Assets only leave the pool, and a covered merchant stays covered. */
  ghost predicate Covered(before: seq<Entry>, after: seq<Entry>, m: Merchant, asset: string)
  {
    && Liabilities(after, m, asset) == Liabilities(before, m, asset)
    && PoolAssets(after, m, asset) <= PoolAssets(before, m, asset)
    && Surplus(after, m, asset) >= Min(0, Surplus(before, m, asset))
  }

  lemma {:induction false} SiteKeepsCover(s: Progress, m: Merchant, site: Site, asset: string, dust: int)
    requires Apart(m, site)
    ensures Covered(s.journal, SweepSite(s, site, asset, dust).journal, m, asset)
  {
    var claim := ClaimOf(s.journal, site, asset);
    var legs := PlanLegs(site.holdings, map[], dust, claim);
    if site.treasury && site.leased && claim > 0 && legs != [] {
      PlanWithin(site.holdings, map[], dust, claim);
      assert forall l :: l in legs ==> LegWithin(l, site.holdings, map[], dust);
      LegsMove(s, m, site, asset, legs, |legs|);
      assert legs[..|legs|] == legs;
      if SameClaims(m, site.merchant) { SameClaimsSameSurplus(s.journal, m, site.merchant, asset); }
    }
  }

  /** Over a whole sweep that runs alone, whatever the chains, leases and sends answer, no merchant's pool
      assets fall below its liabilities, provided no other group's pool account is counted
      as the merchant's. */
  lemma {:induction false} SweepKeepsCover(s: Progress, m: Merchant, sites: seq<Site>, asset: string, dust: int, n: nat)
    requires n <= |sites| && forall k :: 0 <= k < n ==> Apart(m, sites[k])
    ensures Covered(s.journal, SweepSites(s, sites, asset, dust, n).journal, m, asset)
  {
    if n > 0 {
      SweepKeepsCover(s, m, sites, asset, dust, n - 1);
      SiteKeepsCover(SweepSites(s, sites, asset, dust, n - 1), m, sites[n - 1], asset, dust);
    }
  }

  // ------------------------------------------------------------------- conservation

  /** Every entry the sweep adds is accepted, moves assets into the treasury and leaves the
      engine's asset total alone; the report never understates what the books show. */
  ghost predicate Conserved(s: Progress, t: Progress, asset: string)
  {
    && (forall a :: Total(OfType(Asset, a), t.journal) == Total(OfType(Asset, a), s.journal))
    && 0 <= Total(OfPattern("treasury:%", asset), t.journal) - Total(OfPattern("treasury:%", asset), s.journal)
         <= t.report.total - s.report.total
  }

  lemma {:induction false} TreasuryMatches(chain: string)
    ensures Like("treasury:%", Treasury(chain))
  {
    assert "treasury:%" == "treasury:" + "%";
    LikeHead("treasury:", "%", Treasury(chain));
    assert Treasury(chain)[..9] == "treasury:";
    LikeTail("", Treasury(chain)[9..]);
    assert "%" + "" == "%";
  }

  lemma {:induction false} PoolIsNoTreasury(chain: string, name: string)
    ensures !Like("treasury:%", PoolAddr(chain, name))
  {
    if Like("treasury:%", PoolAddr(chain, name)) { LikeFirst("treasury:%", PoolAddr(chain, name)); }
  }

  lemma {:induction false} LegConserves(s: Progress, site: Site, asset: string, l: Leg, sent: bool)
    requires l.amount > 0
    ensures Conserved(s, PostLeg(s, site, asset, l, sent), asset)
  {
    var entry := LegEntry(site, asset, l).value;
    if sent && entry.key !in Keys(s.journal) {
      forall a ensures Total(OfType(Asset, a), s.journal + [entry]) == Total(OfType(Asset, a), s.journal) {
        AssetsStay(s.journal, site, asset, l, a);
      }
      IntoTreasury(s.journal, site, asset, l);
    }
  }

  lemma {:induction false} AssetsStay(j: seq<Entry>, site: Site, asset: string, l: Leg, a: string)
    requires l.amount > 0
    ensures Total(OfType(Asset, a), j + [LegEntry(site, asset, l).value]) == Total(OfType(Asset, a), j)
  {
    TypesOfNames("", site.merchant.name, site.chain);
    LegSums(OfType(Asset, a), j, LegEntry(site, asset, l).value);
  }

  lemma {:induction false} IntoTreasury(j: seq<Entry>, site: Site, asset: string, l: Leg)
    requires l.amount > 0
    ensures Total(OfPattern("treasury:%", asset), j + [LegEntry(site, asset, l).value])
      == Total(OfPattern("treasury:%", asset), j) + l.amount
  {
    TreasuryMatches(site.chain);
    PoolIsNoTreasury(site.chain, site.merchant.name);
    LegSums(OfPattern("treasury:%", asset), j, LegEntry(site, asset, l).value);
  }

  lemma {:induction false} LegsConserve(s: Progress, site: Site, asset: string, legs: seq<Leg>, n: nat)
    requires n <= |legs| && forall l :: l in legs ==> l.amount > 0
    ensures Conserved(s, PostLegs(s, site, asset, legs, n), asset)
  {
    if n > 0 {
      LegsConserve(s, site, asset, legs, n - 1);
      assert legs[n - 1] in legs;
      LegConserves(PostLegs(s, site, asset, legs, n - 1), site, asset, legs[n - 1], Sent(site.sends, n - 1));
    }
  }

  lemma {:induction false} SiteConserves(s: Progress, site: Site, asset: string, dust: int)
    ensures Conserved(s, SweepSite(s, site, asset, dust), asset)
  {
    var claim := ClaimOf(s.journal, site, asset);
    var legs := PlanLegs(site.holdings, map[], dust, claim);
    PlanWithin(site.holdings, map[], dust, claim);
    assert forall l :: l in legs ==> LegWithin(l, site.holdings, map[], dust);
    LegsConserve(s, site, asset, legs, |legs|);
  }

  lemma {:induction false} SweepConserves(s: Progress, sites: seq<Site>, asset: string, dust: int, n: nat)
    requires n <= |sites|
    ensures Conserved(s, SweepSites(s, sites, asset, dust, n), asset)
  {
    if n > 0 {
      SweepConserves(s, sites, asset, dust, n - 1);
      SiteConserves(SweepSites(s, sites, asset, dust, n - 1), sites[n - 1], asset, dust);
    }
  }

  // ------------------------------------------------------------------------ reports

  /** A group without a treasury address or whose lease is held is not touched, and said so. */
  lemma {:induction false} UnavailableIsSkipped(s: Progress, site: Site, asset: string, dust: int)
    requires !site.treasury || !site.leased
    ensures var t := SweepSite(s, site, asset, dust);
      && t.journal == s.journal && t.report.sweptCount == s.report.sweptCount && t.report.total == s.report.total
      && t.report.skipped == s.report.skipped
         + [Skip(site.merchant.name, site.chain, if site.treasury then LeaseHeld else NoTreasury)]
  {
  }

  /** How many of the first n legs were sent, and for how much. */
  function SentCount(sends: seq<bool>, n: nat): nat
  {
    if n == 0 then 0 else SentCount(sends, n - 1) + if Sent(sends, n - 1) then 1 else 0
  }

  function SentSum(legs: seq<Leg>, sends: seq<bool>, n: nat): int
    requires n <= |legs|
  {
    if n == 0 then 0 else SentSum(legs, sends, n - 1) + if Sent(sends, n - 1) then legs[n - 1].amount else 0
  }

  /** The report counts the legs that were sent and what they carried, names every other leg as
      failed, and the journal gains no more entries than legs were sent. */
  ghost predicate Reports(s: Progress, t: Progress, site: Site, legs: seq<Leg>, n: nat)
    requires n <= |legs|
  {
    && t.report.sweptCount == s.report.sweptCount + SentCount(site.sends, n)
    && t.report.total == s.report.total + SentSum(legs, site.sends, n)
    && |t.report.skipped| == |s.report.skipped| + n - SentCount(site.sends, n)
    && s.report.skipped <= t.report.skipped
    && (forall i :: |s.report.skipped| <= i < |t.report.skipped| ==>
          t.report.skipped[i] == Skip(site.merchant.name, site.chain, LegFailed))
    && s.journal <= t.journal && |t.journal| - |s.journal| <= SentCount(site.sends, n)
  }

  lemma {:induction false} LegsReported(s: Progress, site: Site, asset: string, legs: seq<Leg>, n: nat)
    requires n <= |legs| && forall l :: l in legs ==> l.amount > 0
    ensures Reports(s, PostLegs(s, site, asset, legs, n), site, legs, n)
  {
    if n > 0 {
      LegsReported(s, site, asset, legs, n - 1);
      assert legs[n - 1] in legs;
    }
  }

  /** A group that is swept: nothing without a claim, one reason if no leg is worth sending,
      and otherwise the planned legs, each reported. */
  lemma {:induction false} SiteOutcome(s: Progress, site: Site, asset: string, dust: int)
    requires site.treasury && site.leased
    ensures var t, surplus := SweepSite(s, site, asset, dust), Surplus(s.journal, site.merchant, asset);
      var legs := PlanLegs(site.holdings, map[], dust, surplus);
      if surplus <= 0 then t == s
      else if legs == [] then
        t == s.(report := Skipped(s.report, site, if Funded(site.holdings, map[]) then BelowDust else NotOnChain))
      else Reports(s, t, site, legs, |legs|)
  {
    var surplus := Surplus(s.journal, site.merchant, asset);
    if surplus > 0 {
      var legs := PlanLegs(site.holdings, map[], dust, surplus);
      PlanWithin(site.holdings, map[], dust, surplus);
      forall l | l in legs ensures l.amount > 0 { assert LegWithin(l, site.holdings, map[], dust); }
      LegsReported(s, site, asset, legs, |legs|);
    }
  }

  /** Two legs share an entry exactly when they move the same amount of the same asset from the
      same address on the same chain. */
  lemma {:induction false} LegKeys(a: Site, l: Leg, asset: string, b: Site, k: Leg, other: string)
    requires LegEntry(a, asset, l).Success? && LegEntry(b, other, k).Success?
    ensures LegEntry(a, asset, l).value.key == LegEntry(b, other, k).value.key
      <==> a.chain == b.chain && l.address == k.address && asset == other && l.amount == k.amount
  {
  }

  /** None of the legs from the n-th on is in the journal yet. */
  ghost predicate Unposted(j: seq<Entry>, site: Site, asset: string, legs: seq<Leg>, n: nat)
  {
    forall i :: n <= i < |legs| ==> SweepKey(site.chain, legs[i].address, asset, legs[i].amount) !in Keys(j)
  }

  ghost predicate DifferentLegs(legs: seq<Leg>)
  {
    forall i, k :: 0 <= i < k < |legs| ==> legs[i].address != legs[k].address
  }

  /** Legs from different addresses whose entries are new take from the pool exactly what was
      sent. */
  lemma {:induction false} NewLegsTakeExactly(s: Progress, m: Merchant, site: Site, asset: string, legs: seq<Leg>,
                                              n: nat)
    requires n <= |legs| && (forall l :: l in legs ==> l.amount > 0) && DifferentLegs(legs)
    requires Unposted(s.journal, site, asset, legs, 0)
    requires Like(PoolPattern(m), PoolAddr(site.chain, site.merchant.name))
    ensures var t := PostLegs(s, site, asset, legs, n);
      && PoolAssets(t.journal, m, asset) == PoolAssets(s.journal, m, asset) - SentSum(legs, site.sends, n)
      && Unposted(t.journal, site, asset, legs, n)
  {
    if n > 0 {
      NewLegsTakeExactly(s, m, site, asset, legs, n - 1);
      var t, l, sent := PostLegs(s, site, asset, legs, n - 1), legs[n - 1], Sent(site.sends, n - 1);
      assert l in legs;
      LegMoves(t, m, site, asset, l, sent);
      RecordedKeys(t.journal, LegEntry(site, asset, l).value);
    }
  }
}
