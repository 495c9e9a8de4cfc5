/** What the fee sweep's claim is made of, over every run of the ledger
    (backend/src/chains/treasury/fee-sweep-planner.ts on the entries of
    backend/src/ledger/posting-flows.ts): fees that still stand, deposits that are still in
    quarantine, less what was swept before. */
module FeeClaim {
  import opened Wrappers
  import opened Pattern
  import opened Ledger
  import opened Journal
  import opened LedgerRuns
  import opened FeeSweep
  import opened FeeSweepRun
  import opened FeeSweepSafety

  /** A merchant's surplus over a list of postings. */
  function Net(m: Merchant, asset: string, ps: seq<Posting>): int
  {
    Sum(OfPattern(PoolPattern(m), asset), ps) + Sum(OfPattern(LiabilityPattern(m), asset), ps)
  }

  /** What one posting adds to it. */
  function Counted(m: Merchant, asset: string, p: Posting): int
  {
    if p.asset == asset && Claimed(m, p.account) then Signed(p) else 0
  }

  lemma {:induction false} NetPair(m: Merchant, asset: string, p: Posting, q: Posting, rest: seq<Posting>)
    ensures Net(m, asset, [p, q] + rest) == Counted(m, asset, p) + Counted(m, asset, q) + Net(m, asset, rest)
  {
    SumPair(OfPattern(PoolPattern(m), asset), p, q, rest);
    SumPair(OfPattern(LiabilityPattern(m), asset), p, q, rest);
    PatternsApart(m, p.account);
    PatternsApart(m, q.account);
  }

  lemma {:induction false} NetOne(m: Merchant, asset: string, p: Posting)
    ensures Net(m, asset, [p]) == Counted(m, asset, p)
  {
    SumOne(OfPattern(PoolPattern(m), asset), p);
    SumOne(OfPattern(LiabilityPattern(m), asset), p);
    PatternsApart(m, p.account);
  }

  // ------------------------------------------------------- what the claim counts

  /** The accounts of an event, as the merchant's claim sees them. */
  lemma {:induction false} ClaimedNames(m: Merchant, tenant: string, name: string, chain: string)
    requires SimpleNames(m) && SimpleNames(Merchant(tenant, name))
    ensures Claimed(m, PoolAddr(chain, name)) <==> name == m.name
    ensures Claimed(m, MerchantAvailable(tenant, name)) <==> m == Merchant(tenant, name)
    ensures Claimed(m, MerchantPendingWithdrawal(tenant, name)) <==> m == Merchant(tenant, name)
  {
    PoolByName(m, chain, name);
    AccountsApart(m, chain, name);
    LiabilityByNames(m, Merchant(tenant, name));
    NotPool(m, MerchantAvailable(tenant, name));
    NotPool(m, MerchantPendingWithdrawal(tenant, name));
  }

  lemma {:induction false} NotPool(m: Merchant, account: string)
    requires account != "" && account[0] != 'p'
    ensures !Like(PoolPattern(m), account)
  {
    assert PoolPattern(m)[0] == 'p';
    if Like(PoolPattern(m), account) { LikeFirst(PoolPattern(m), account); }
  }

  lemma {:induction false} NotLiability(m: Merchant, account: string)
    requires account != "" && account[0] != 'm'
    ensures !Like(LiabilityPattern(m), account)
  {
    assert LiabilityPattern(m)[0] == 'm';
    if Like(LiabilityPattern(m), account) { LikeFirst(LiabilityPattern(m), account); }
  }

  /** Suspense, revenue and treasury are no merchant's. */
  lemma {:induction false} UnclaimedNames(m: Merchant, tenant: string, chain: string)
    ensures !Claimed(m, ComplianceSuspense(tenant)) && !Claimed(m, FeeRevenue(tenant)) && !Claimed(m, Treasury(chain))
  {
    var c, r, t := ComplianceSuspense(tenant), FeeRevenue(tenant), Treasury(chain);
    assert c[0] == 'c' && r[0] == 'e' && t[0] == 't';
    NotPool(m, c);
    NotPool(m, r);
    NotPool(m, t);
    NotLiability(m, c);
    NotLiability(m, r);
    NotLiability(m, t);
  }

  // --------------------------------------------------------------- event by event

  datatype Part = StandingFee | Suspended | Swept

  /** What an event adds to each part of a merchant's claim, from its inputs. */
  function PartOf(part: Part, e: Event, m: Merchant, asset: string): int
  {
    match e
    case CreditDeposit(_, tenant, merchant, _, a, amount, bps) =>
      if part.StandingFee? && a == asset && m == Merchant(tenant, merchant) then FeeCharged(e, asset) else 0
    case QuarantineDeposit(_, tenant, merchant, _, a, amount) =>
      if part.Suspended? && a == asset && m == Merchant(tenant, merchant) then amount else 0
    case ReleaseDeposit(_, tenant, merchant, a, amount, fee) =>
      if a != asset || m != Merchant(tenant, merchant) then 0
      else if part.StandingFee? then fee
      else if part.Suspended? then -(amount + fee)
      else 0
    case SweepFee(_, merchant, _, a, amount, _) =>
      if part.Swept? && a == asset && m.name == merchant then amount else 0
    case _ => 0
  }

  function ClaimPart(e: Event, m: Merchant, asset: string): int
  {
    PartOf(StandingFee, e, m, asset) + PartOf(Suspended, e, m, asset) - PartOf(Swept, e, m, asset)
  }

  /** The merchant an event is about. */
  predicate Names(e: Event, tenant: string, name: string)
  {
    match e
    case CreditDeposit(_, t, n, _, _, _, _) => t == tenant && n == name
    case QuarantineDeposit(_, t, n, _, _, _) => t == tenant && n == name
    case ReleaseDeposit(_, t, n, _, _, _) => t == tenant && n == name
    case Lock(_, p) => p.tenant == tenant && p.merchant == name
    case Settle(_, p, _) => p.tenant == tenant && p.merchant == name
    case SweepFee(_, n, _, _, _, _) => n == name
    case ReverseDeposit(_) => false
  }

  predicate UnclaimedFee(fee: Option<NetworkFee>, m: Merchant)
  {
    fee.Some? ==> !Claimed(m, fee.value.gasFloat)
  }

  /** The event is of an engine whose account ids are plain and belong to one tenant, and its
      gas float is no pool account of the merchant. */
  ghost predicate Ordinary(e: Event, m: Merchant)
  {
    && (forall tenant, name :: Names(e, tenant, name) && !e.SweepFee? ==>
          SimpleNames(Merchant(tenant, name)) && (name == m.name ==> tenant == m.tenant))
    && (e.SweepFee? ==> Simple(e.merchant) && UnclaimedFee(e.networkFee, m))
    && (e.Settle? ==> UnclaimedFee(e.networkFee, m))
  }

  lemma {:induction false} FeeLegUnclaimed(fee: Option<NetworkFee>, m: Merchant, asset: string)
    requires FeeLegTyped(fee) && UnclaimedFee(fee, m)
    ensures Net(m, asset, NetworkFeePostings(fee)) == 0
  {
    var ps := NetworkFeePostings(fee);
    if ps != [] {
      assert ps == [ps[0], ps[1]] + [];
      NetPair(m, asset, ps[0], ps[1], []);
      ExpenseUnclaimed(m, fee.value.expense);
    }
  }

  lemma {:induction false} ExpenseUnclaimed(m: Merchant, account: string)
    requires AccountTypeOf(account) == Some(Expense)
    ensures !Claimed(m, account)
  {
    if Like(PoolPattern(m), account) { PoolType(m, account); }
    if Like(LiabilityPattern(m), account) { LiabilityType(m, account); }
  }

  lemma {:induction false} CreditPart(e: Event, entry: Entry, m: Merchant, asset: string)
    requires e.CreditDeposit? && Build(e) == Success(entry) && SimpleNames(m) && Ordinary(e, m)
    ensures Net(m, asset, entry.postings) == ClaimPart(e, m, asset)
  {
    assert Names(e, e.tenant, e.merchant);
    ClaimedNames(m, e.tenant, e.merchant, e.chain);
    UnclaimedNames(m, e.tenant, e.chain);
    var ps := entry.postings;
    assert ps == [ps[0], ps[1]] + ps[2..];
    NetPair(m, asset, ps[0], ps[1], ps[2..]);
    if |ps| == 3 { NetOne(m, asset, ps[2]); assert ps[2..] == [ps[2]]; } else { assert ps[2..] == []; }
  }

  lemma {:induction false} ReleasePart(e: Event, entry: Entry, m: Merchant, asset: string)
    requires e.ReleaseDeposit? && Build(e) == Success(entry) && SimpleNames(m) && Ordinary(e, m)
    ensures Net(m, asset, entry.postings) == ClaimPart(e, m, asset)
  {
    assert Names(e, e.tenant, e.merchant);
    ClaimedNames(m, e.tenant, e.merchant, "");
    UnclaimedNames(m, e.tenant, "");
    var ps := entry.postings;
    assert ps == [ps[0], ps[1]] + ps[2..];
    NetPair(m, asset, ps[0], ps[1], ps[2..]);
    if |ps| == 3 { NetOne(m, asset, ps[2]); assert ps[2..] == [ps[2]]; } else { assert ps[2..] == []; }
  }

  lemma {:induction false} QuarantinePart(e: Event, entry: Entry, m: Merchant, asset: string)
    requires e.QuarantineDeposit? && Build(e) == Success(entry) && SimpleNames(m) && Ordinary(e, m)
    ensures Net(m, asset, entry.postings) == ClaimPart(e, m, asset)
  {
    assert Names(e, e.tenant, e.merchant);
    ClaimedNames(m, e.tenant, e.merchant, e.chain);
    UnclaimedNames(m, e.tenant, e.chain);
    var ps := entry.postings;
    assert ps == [ps[0], ps[1]] + [];
    NetPair(m, asset, ps[0], ps[1], []);
  }

  /** Locking and settling leave the surplus as it was. */
  lemma {:induction false} PayoutPart(e: Event, entry: Entry, m: Merchant, asset: string)
    requires (e.Lock? || e.Settle?) && Legal(e) && Build(e) == Success(entry) && SimpleNames(m) && Ordinary(e, m)
    ensures Net(m, asset, entry.postings) == ClaimPart(e, m, asset)
  {
    assert Names(e, e.payout.tenant, e.payout.merchant);
    ClaimedNames(m, e.payout.tenant, e.payout.merchant, e.payout.chain);
    var ps, rest := entry.postings, if e.Settle? then NetworkFeePostings(e.networkFee) else [];
    assert ps == [ps[0], ps[1]] + rest;
    NetPair(m, asset, ps[0], ps[1], rest);
    if e.Settle? { FeeLegUnclaimed(e.networkFee, m, asset); }
  }

  lemma {:induction false} SweepPart(e: Event, entry: Entry, m: Merchant, asset: string)
    requires e.SweepFee? && Legal(e) && Build(e) == Success(entry) && SimpleNames(m) && Ordinary(e, m)
    ensures Net(m, asset, entry.postings) == ClaimPart(e, m, asset)
  {
    PoolByName(m, e.chain, e.merchant);
    AccountsApart(m, e.chain, e.merchant);
    UnclaimedNames(m, "", e.chain);
    var ps, rest := entry.postings, NetworkFeePostings(e.networkFee);
    assert ps == [ps[0], ps[1]] + rest;
    NetPair(m, asset, ps[0], ps[1], rest);
    FeeLegUnclaimed(e.networkFee, m, asset);
  }

  /** Every entry changes a merchant's surplus by what its event says. */
  lemma {:induction false} BuiltPart(e: Event, entry: Entry, m: Merchant, asset: string)
    requires !e.ReverseDeposit? && Legal(e) && Build(e) == Success(entry) && SimpleNames(m) && Ordinary(e, m)
    ensures Net(m, asset, entry.postings) == ClaimPart(e, m, asset)
  {
    match e
    case CreditDeposit(_, _, _, _, _, _, _) => CreditPart(e, entry, m, asset);
    case QuarantineDeposit(_, _, _, _, _, _) => QuarantinePart(e, entry, m, asset);
    case ReleaseDeposit(_, _, _, _, _, _) => ReleasePart(e, entry, m, asset);
    case Lock(_, _) => PayoutPart(e, entry, m, asset);
    case Settle(_, _, _) => PayoutPart(e, entry, m, asset);
    case SweepFee(_, _, _, _, _, _) => SweepPart(e, entry, m, asset);
  }

  // ------------------------------------------------------------------- whole runs

  /** One part summed over the entries that are neither reversed nor reversals. */
  function LivePart(part: Part, b: Book, m: Merchant, asset: string, dead: set<string>): int
    requires |b.journal| == |b.events|
    decreases |b.journal|
  {
    if b.journal == [] then 0
    else
      var n := |b.journal| - 1;
      LivePart(part, Shorter(b), m, asset, dead)
      + if Live(b.journal[n].key, dead) then PartOf(part, b.events[n], m, asset) else 0
  }

  lemma {:induction false} LiveClaim(b: Book, m: Merchant, asset: string, dead: set<string>)
    requires Inv(b) && SimpleNames(m) && forall e :: e in b.events ==> Ordinary(e, m)
    ensures LiveTotal(OfPattern(PoolPattern(m), asset), b.journal, dead)
          + LiveTotal(OfPattern(LiabilityPattern(m), asset), b.journal, dead)
      == LivePart(StandingFee, b, m, asset, dead) + LivePart(Suspended, b, m, asset, dead)
       - LivePart(Swept, b, m, asset, dead)
    decreases |b.journal|
  {
    if b.journal != [] {
      var n := |b.journal| - 1;
      ShorterInv(b);
      LiveClaim(Shorter(b), m, asset, dead);
      assert Explained(b, n);
      KeyOfEvent(b, n);
      assert b.events[n] in b.events;
      if !b.events[n].ReverseDeposit? { BuiltPart(b.events[n], b.journal[n], m, asset); }
    }
  }

  /** In every run of the ledger, a merchant's surplus is its standing fees, plus its deposits
      still in quarantine, less what was swept; the planner claims it unless it is negative. */
  lemma {:induction false} SurplusOverRuns(events: seq<Event>, m: Merchant, asset: string)
    requires AllLegal(events) && SimpleNames(m) && forall e :: e in events ==> Ordinary(e, m)
    ensures var b := Run(events);
      var dead := Dead(b.journal);
      && |b.journal| == |b.events|
      && Surplus(b.journal, m, asset)
         == LivePart(StandingFee, b, m, asset, dead) + LivePart(Suspended, b, m, asset, dead)
          - LivePart(Swept, b, m, asset, dead)
  {
    var b := Run(events);
    RunKeepsInv(events);
    RecordedEvents(events);
    ReversalsCancel(b, OfPattern(PoolPattern(m), asset));
    ReversalsCancel(b, OfPattern(LiabilityPattern(m), asset));
    LiveClaim(b, m, asset, Dead(b.journal));
  }

  /** So the claim, as `claim` returns it, exceeds the fees still to be swept if and only if
      something is in quarantine that earlier sweeps have not already overdrawn: money that
      is held for compliance is claimed as a fee. */
  lemma {:induction false} QuarantineIsClaimed(events: seq<Event>, m: Merchant, asset: string)
    requires AllLegal(events) && SimpleNames(m) && forall e :: e in events ==> Ordinary(e, m)
    ensures var b := Run(events);
      var dead := Dead(b.journal);
      && |b.journal| == |b.events|
      && var fees, suspended, swept := LivePart(StandingFee, b, m, asset, dead), LivePart(Suspended, b, m, asset, dead),
                                       LivePart(Swept, b, m, asset, dead);
         AtLeastZero(Surplus(b.journal, m, asset)) > AtLeastZero(fees - swept)
         <==> suspended > 0 && fees + suspended - swept > 0
  {
    SurplusOverRuns(events, m, asset);
  }

  /** It happens: after one quarantined deposit the whole of it is claimed. */
  lemma {:induction false} QuarantinedDepositIsClaimed(ref: string, m: Merchant, chain: string, asset: string,
                                                       amount: int)
    requires SimpleNames(m) && amount > 0
    ensures Surplus(Run([QuarantineDeposit(ref, m.tenant, m.name, chain, asset, amount)]).journal, m, asset) == amount
  {
    var e := QuarantineDeposit(ref, m.tenant, m.name, chain, asset, amount);
    var entry := Build(e).value;
    assert [e][..0] == [];
    assert Run([e]) == PostBuilt(EMPTY, e);
    QuarantinePart(e, entry, m, asset);
    TotalSnoc(OfPattern(PoolPattern(m), asset), [], entry);
    TotalSnoc(OfPattern(LiabilityPattern(m), asset), [], entry);
    assert [] + [entry] == [entry];
  }
}
