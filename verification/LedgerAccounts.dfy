/** What every event does to every account, and what each account holds over every run
    (backend/src/ledger/posting-flows.ts with the accounts that
    backend/src/chains/ingest/deposit-ingestor.ts and
    backend/src/services/payout.service.ts name). */
module LedgerAccounts {
  import opened Wrappers
  import opened Ledger
  import opened Journal
  import opened LedgerRuns

  // ------------------------------------------------------------ one event, any account

  function FeeOf(amount: int, bps: int): int
  {
    if SplitFee(amount, bps).Success? then SplitFee(amount, bps).value.0 else 0
  }

  function NetworkFeeEffect(fee: Option<NetworkFee>, account: string, asset: string): int
  {
    if fee.None? || fee.value.amount <= 0 || fee.value.asset != asset then 0
    else When(account == fee.value.expense, fee.value.amount) - When(account == fee.value.gasFloat, fee.value.amount)
  }

  /** What an event debits to an account less what it credits, from the event's inputs. */
  function Effect(e: Event, account: string, asset: string): int
  {
    match e
    case CreditDeposit(_, tenant, merchant, chain, a, amount, bps) =>
      When(a == asset && account == PoolAddr(chain, merchant), amount)
      - When(a == asset && account == MerchantAvailable(tenant, merchant), amount - FeeOf(amount, bps))
      - When(a == asset && account == FeeRevenue(tenant), FeeOf(amount, bps))
    case QuarantineDeposit(_, tenant, merchant, chain, a, amount) =>
      When(a == asset && account == PoolAddr(chain, merchant), amount)
      - When(a == asset && account == ComplianceSuspense(tenant), amount)
    case ReleaseDeposit(_, tenant, merchant, a, amount, fee) =>
      When(a == asset && account == ComplianceSuspense(tenant), amount + fee)
      - When(a == asset && account == MerchantAvailable(tenant, merchant), amount)
      - When(a == asset && account == FeeRevenue(tenant), fee)
    case Lock(_, p) =>
      When(p.asset == asset && account == MerchantAvailable(p.tenant, p.merchant), p.amount)
      - When(p.asset == asset && account == MerchantPendingWithdrawal(p.tenant, p.merchant), p.amount)
    case Settle(_, p, fee) =>
      NetworkFeeEffect(fee, account, asset)
      + When(p.asset == asset && account == MerchantPendingWithdrawal(p.tenant, p.merchant), p.amount)
      - When(p.asset == asset && account == PoolAddr(p.chain, p.merchant), p.amount)
    case SweepFee(_, merchant, chain, a, amount, fee) =>
      NetworkFeeEffect(fee, account, asset)
      + When(a == asset && account == Treasury(chain), amount)
      - When(a == asset && account == PoolAddr(chain, merchant), amount)
    case ReverseDeposit(_) => 0
  }

  lemma {:induction false} FeeLegEffect(fee: Option<NetworkFee>, account: string, asset: string)
    ensures Sum(OfAccount(account, asset), NetworkFeePostings(fee)) == NetworkFeeEffect(fee, account, asset)
  {
    var ps := NetworkFeePostings(fee);
    if ps != [] {
      assert ps == [ps[0], ps[1]] + [];
      SumPair(OfAccount(account, asset), ps[0], ps[1], []);
    }
  }

  lemma {:induction false} DepositEffect(e: Event, entry: Entry, account: string, asset: string)
    requires (e.CreditDeposit? || e.ReleaseDeposit?) && Build(e) == Success(entry)
    ensures Sum(OfAccount(account, asset), entry.postings) == Effect(e, account, asset)
  {
    var m, ps := OfAccount(account, asset), entry.postings;
    assert ps == [ps[0], ps[1]] + ps[2..];
    SumPair(m, ps[0], ps[1], ps[2..]);
    if |ps| == 3 {
      assert ps[2..] == [ps[2]];
      SumOne(m, ps[2]);
    } else {
      assert ps[2..] == [];
    }
  }

  lemma {:induction false} PlainEffect(e: Event, entry: Entry, account: string, asset: string)
    requires (e.QuarantineDeposit? || e.Lock?) && Build(e) == Success(entry)
    ensures Sum(OfAccount(account, asset), entry.postings) == Effect(e, account, asset)
  {
    var ps := entry.postings;
    assert ps == [ps[0], ps[1]] + [];
    SumPair(OfAccount(account, asset), ps[0], ps[1], []);
  }

  lemma {:induction false} OutEffect(e: Event, entry: Entry, account: string, asset: string)
    requires (e.Settle? || e.SweepFee?) && Build(e) == Success(entry)
    ensures Sum(OfAccount(account, asset), entry.postings) == Effect(e, account, asset)
  {
    var ps, rest := entry.postings, NetworkFeePostings(e.networkFee);
    assert ps == [ps[0], ps[1]] + rest;
    SumPair(OfAccount(account, asset), ps[0], ps[1], rest);
    FeeLegEffect(e.networkFee, account, asset);
  }

  /** Every entry changes every account by what its event says, and no other. */
  lemma {:induction false} BuiltEffect(e: Event, entry: Entry, account: string, asset: string)
    requires !e.ReverseDeposit? && Build(e) == Success(entry)
    ensures Sum(OfAccount(account, asset), entry.postings) == Effect(e, account, asset)
  {
    if e.CreditDeposit? || e.ReleaseDeposit? {
      DepositEffect(e, entry, account, asset);
    } else if e.QuarantineDeposit? || e.Lock? {
      PlainEffect(e, entry, account, asset);
    } else {
      OutEffect(e, entry, account, asset);
    }
  }

  // ------------------------------------------------------------ every account, any run

  function LiveEffect(b: Book, account: string, asset: string, dead: set<string>): int
    requires |b.journal| == |b.events|
    decreases |b.journal|
  {
    if b.journal == [] then 0
    else
      var n := |b.journal| - 1;
      LiveEffect(Shorter(b), account, asset, dead)
      + if Live(b.journal[n].key, dead) then Effect(b.events[n], account, asset) else 0
  }

  lemma {:induction false} LiveAccount(b: Book, account: string, asset: string, dead: set<string>)
    requires Inv(b)
    ensures LiveTotal(OfAccount(account, asset), b.journal, dead) == LiveEffect(b, account, asset, dead)
    decreases |b.journal|
  {
    if b.journal != [] {
      var n := |b.journal| - 1;
      ShorterInv(b);
      LiveAccount(Shorter(b), account, asset, dead);
      assert Explained(b, n);
      KeyOfEvent(b, n);
      if !b.events[n].ReverseDeposit? { BuiltEffect(b.events[n], b.journal[n], account, asset); }
    }
  }

  /** In every run the balance of every account is the sum of what the standing events say. */
  lemma {:induction false} AccountOverRuns(events: seq<Event>, account: string, asset: string)
    requires AllLegal(events)
    ensures var b := Run(events);
      && |b.journal| == |b.events|
      && Total(OfAccount(account, asset), b.journal) == LiveEffect(b, account, asset, Dead(b.journal))
  {
    var b := Run(events);
    RunKeepsInv(events);
    ReversalsCancel(b, OfAccount(account, asset));
    LiveAccount(b, account, asset, Dead(b.journal));
  }

  // -------------------------------------------------- the engine's own accounts

  datatype Flow = RevenueOf(tenant: string) | SuspenseOf(tenant: string) | TreasuryOf(chain: string)
    | PoolOf(chain: string, merchant: string)

  function AccountOf(f: Flow): string
  {
    match f
    case RevenueOf(tenant) => FeeRevenue(tenant)
    case SuspenseOf(tenant) => ComplianceSuspense(tenant)
    case TreasuryOf(chain) => Treasury(chain)
    case PoolOf(chain, merchant) => PoolAddr(chain, merchant)
  }

  /** What is paid out of the account for network fees. */
  function GasPaid(fee: Option<NetworkFee>, account: string, asset: string): int
  {
    When(fee.Some? && fee.value.asset == asset && fee.value.gasFloat == account && fee.value.amount > 0,
         if fee.Some? then fee.value.amount else 0)
  }

  /** What flows into an account with an event: fees into a tenant's revenue, held deposits
      into its suspense, sweeps into a chain's treasury, deposits into a pool and out again.
      A credit counts as an inflow for revenue and suspense, a debit for the others. */
  function FlowOf(f: Flow, e: Event, asset: string): int
  {
    match f
    case RevenueOf(t) =>
      (match e
       case CreditDeposit(_, tenant, _, _, a, amount, bps) => When(a == asset && tenant == t, FeeOf(amount, bps))
       case ReleaseDeposit(_, tenant, _, a, _, fee) => When(a == asset && tenant == t, fee)
       case _ => 0)
    case SuspenseOf(t) =>
      (match e
       case QuarantineDeposit(_, tenant, _, _, a, amount) => When(a == asset && tenant == t, amount)
       case ReleaseDeposit(_, tenant, _, a, amount, fee) => -When(a == asset && tenant == t, amount + fee)
       case _ => 0)
    case TreasuryOf(c) =>
      (match e
       case SweepFee(_, _, chain, a, amount, fee) =>
         When(a == asset && chain == c, amount) - GasPaid(fee, Treasury(c), asset)
       case Settle(_, _, fee) => -GasPaid(fee, Treasury(c), asset)
       case _ => 0)
    case PoolOf(c, m) =>
      (match e
       case CreditDeposit(_, _, merchant, chain, a, amount, _) =>
         When(a == asset && PoolAddr(chain, merchant) == PoolAddr(c, m), amount)
       case QuarantineDeposit(_, _, merchant, chain, a, amount) =>
         When(a == asset && PoolAddr(chain, merchant) == PoolAddr(c, m), amount)
       case Settle(_, p, fee) =>
         -When(p.asset == asset && PoolAddr(p.chain, p.merchant) == PoolAddr(c, m), p.amount)
         - GasPaid(fee, PoolAddr(c, m), asset)
       case SweepFee(_, merchant, chain, a, amount, fee) =>
         -When(a == asset && PoolAddr(chain, merchant) == PoolAddr(c, m), amount) - GasPaid(fee, PoolAddr(c, m), asset)
       case _ => 0)
  }

  /** Revenue and suspense are credit accounts. */
  function Toward(f: Flow, x: int): int { if f.RevenueOf? || f.SuspenseOf? then -x else x }

  /** Names with different prefixes differ, and names with one prefix differ in the rest. */
  lemma {:induction false} NamesApart(tenant: string, merchant: string, chain: string, f: Flow)
    ensures AccountOf(f) != MerchantAvailable(tenant, merchant)
    ensures AccountOf(f) != MerchantPendingWithdrawal(tenant, merchant)
    ensures !f.PoolOf? ==> AccountOf(f) != PoolAddr(chain, merchant)
    ensures AccountOf(f) == Treasury(chain) <==> f == TreasuryOf(chain)
    ensures AccountOf(f) == FeeRevenue(tenant) <==> f == RevenueOf(tenant)
    ensures AccountOf(f) == ComplianceSuspense(tenant) <==> f == SuspenseOf(tenant)
  {
    FirstLetters(tenant, merchant, chain);
    FlowLetter(f);
    match f
    case RevenueOf(t) => SameRest("egofi_fee_revenue" + ":", t, tenant);
    case SuspenseOf(t) => SameRest("compliance_suspense" + ":", t, tenant);
    case TreasuryOf(c) => SameRest("treasury" + ":", c, chain);
    case PoolOf(_, _) =>
  }

  lemma {:induction false} FirstLetters(tenant: string, merchant: string, chain: string)
    ensures |PoolAddr(chain, merchant)| > 0 && PoolAddr(chain, merchant)[0] == 'p'
    ensures |Treasury(chain)| > 0 && Treasury(chain)[0] == 't'
    ensures |FeeRevenue(tenant)| > 0 && FeeRevenue(tenant)[0] == 'e'
    ensures |ComplianceSuspense(tenant)| > 0 && ComplianceSuspense(tenant)[0] == 'c'
    ensures |MerchantAvailable(tenant, merchant)| > 0 && MerchantAvailable(tenant, merchant)[0] == 'm'
    ensures |MerchantPendingWithdrawal(tenant, merchant)| > 0 && MerchantPendingWithdrawal(tenant, merchant)[0] == 'm'
  {
  }

  lemma {:induction false} FlowLetter(f: Flow)
    ensures var a := AccountOf(f);
      |a| > 0 && a[0] == if f.RevenueOf? then 'e' else if f.SuspenseOf? then 'c' else if f.TreasuryOf? then 't' else 'p'
  {
    match f
    case RevenueOf(t) => FirstLetters(t, "", "");
    case SuspenseOf(t) => FirstLetters(t, "", "");
    case TreasuryOf(c) => FirstLetters("", "", c);
    case PoolOf(c, m) => FirstLetters("", m, c);
  }

  lemma {:induction false} SameRest(p: string, x: string, y: string)
    ensures p + x == p + y <==> x == y
  {
    assert (p + x)[|p|..] == x && (p + y)[|p|..] == y;
  }

  /** A network fee moves no tenant's revenue or suspense. */
  lemma {:induction false} FeeLegFlow(f: Flow, fee: Option<NetworkFee>, asset: string)
    requires FeeLegTyped(fee)
    ensures NetworkFeeEffect(fee, AccountOf(f), asset)
      == if f.RevenueOf? || f.SuspenseOf? then 0 else -GasPaid(fee, AccountOf(f), asset)
  {
    match f
    case RevenueOf(t) => TypesOfNames(t, "", "");
    case SuspenseOf(t) => TypesOfNames(t, "", "");
    case TreasuryOf(c) => TypesOfNames("", "", c);
    case PoolOf(c, m) => TypesOfNames("", m, c);
  }

  lemma {:induction false} FlowEffect(f: Flow, e: Event, entry: Entry, asset: string)
    requires !e.ReverseDeposit? && Legal(e) && Build(e) == Success(entry)
    ensures Effect(e, AccountOf(f), asset) == Toward(f, FlowOf(f, e, asset))
  {
    match e
    case CreditDeposit(_, tenant, merchant, chain, _, _, _) => NamesApart(tenant, merchant, chain, f);
    case QuarantineDeposit(_, tenant, merchant, chain, _, _) => NamesApart(tenant, merchant, chain, f);
    case ReleaseDeposit(_, tenant, merchant, _, _, _) => NamesApart(tenant, merchant, "", f);
    case Lock(_, p) => NamesApart(p.tenant, p.merchant, p.chain, f);
    case Settle(_, p, fee) =>
      NamesApart(p.tenant, p.merchant, p.chain, f);
      FeeLegFlow(f, fee, asset);
    case SweepFee(_, merchant, chain, _, _, fee) =>
      NamesApart("", merchant, chain, f);
      FeeLegFlow(f, fee, asset);
  }

  /** A flow summed over the entries that are neither reversed nor reversals. */
  function LiveFlow(f: Flow, b: Book, asset: string, dead: set<string>): int
    requires |b.journal| == |b.events|
    decreases |b.journal|
  {
    if b.journal == [] then 0
    else
      var n := |b.journal| - 1;
      LiveFlow(f, Shorter(b), asset, dead) + if Live(b.journal[n].key, dead) then FlowOf(f, b.events[n], asset) else 0
  }

  lemma {:induction false} LiveFlows(f: Flow, b: Book, asset: string, dead: set<string>)
    requires Inv(b)
    ensures LiveEffect(b, AccountOf(f), asset, dead) == Toward(f, LiveFlow(f, b, asset, dead))
    decreases |b.journal|
  {
    if b.journal != [] {
      var n := |b.journal| - 1;
      ShorterInv(b);
      LiveFlows(f, Shorter(b), asset, dead);
      assert Explained(b, n);
      KeyOfEvent(b, n);
      if !b.events[n].ReverseDeposit? { FlowEffect(f, b.events[n], b.journal[n], asset); }
    }
  }

  /** In every run: a tenant's revenue account holds the standing fees of that tenant's
      deposits and releases, its suspense account the standing quarantines less what was
      released, a chain's treasury what was swept there, and a pool account what came in and
      went out on that chain for that merchant. */
  lemma {:induction false} FlowsOverRuns(events: seq<Event>, f: Flow, asset: string)
    requires AllLegal(events)
    ensures var b := Run(events);
      && |b.journal| == |b.events|
      && Total(OfAccount(AccountOf(f), asset), b.journal) == Toward(f, LiveFlow(f, b, asset, Dead(b.journal)))
  {
    AccountOverRuns(events, AccountOf(f), asset);
    RunKeepsInv(events);
    LiveFlows(f, Run(events), asset, Dead(Run(events).journal));
  }
}
