/** What the payout protocol does to a merchant's balances, over every run of
    PayoutProtocol: locked funds are exactly the payouts not yet settled, and the
    available balance is never overdrawn (backend/src/services/payout.service.ts,
    backend/src/services/ledger.service.ts). */
module PayoutBalances {
  import opened Wrappers
  import opened Ledger
  import opened Journal
  import opened LedgerRuns
  import opened Policy
  import opened PayoutProtocol

  const AVAILABLE := "merchant_available"
  const PENDING := "merchant_pending_withdrawal"

  /** An account of the merchant that payouts move. */
  predicate MerchantAccount(account: string)
  {
    PrefixOf(account) == AVAILABLE || PrefixOf(account) == PENDING
  }

  /** What an event adds to what the merchant is owed on an account, from its inputs. */
  function Change(e: Event, account: string, asset: string): int
  {
    match e
    case CreditDeposit(_, tenant, merchant, _, a, amount, bps) =>
      When(a == asset && account == MerchantAvailable(tenant, merchant) && SplitFee(amount, bps).Success?,
           if SplitFee(amount, bps).Success? then SplitFee(amount, bps).value.1 else 0)
    case ReleaseDeposit(_, tenant, merchant, a, amount, _) =>
      When(a == asset && account == MerchantAvailable(tenant, merchant), amount)
    case Lock(_, p) =>
      When(p.asset == asset && account == MerchantPendingWithdrawal(p.tenant, p.merchant), p.amount)
      - When(p.asset == asset && account == MerchantAvailable(p.tenant, p.merchant), p.amount)
    case Settle(_, p, _) =>
      -When(p.asset == asset && account == MerchantPendingWithdrawal(p.tenant, p.merchant), p.amount)
    case _ => 0
  }

  /** The accounts an event touches besides the merchant's own are told apart by prefix or
      by type. */
  lemma {:induction false} OtherAccounts(account: string, tenant: string, merchant: string, chain: string)
    requires MerchantAccount(account)
    ensures account != PoolAddr(chain, merchant) && account != Treasury(chain)
    ensures account != ComplianceSuspense(tenant) && account != FeeRevenue(tenant)
    ensures MerchantAvailable(tenant, merchant) != MerchantPendingWithdrawal(tenant, merchant)
    ensures AccountTypeOf(account) == Some(Liability)
  {
    PrefixesOfNames(tenant, merchant, chain);
    TypesOfPrefixes();
    assert AVAILABLE[0] == 'm' && PENDING[0] == 'm' && AVAILABLE[9] != PENDING[9];
    assert "pool_addr"[0] == 'p' && "treasury"[0] == 't' && "compliance_suspense"[0] == 'c'
      && "egofi_fee_revenue"[0] == 'e';
  }

  lemma {:induction false} NoFeeLeg(account: string, asset: string, fee: Option<NetworkFee>)
    requires AccountTypeOf(account) == Some(Liability) && FeeLegTyped(fee)
    ensures Sum(OfAccount(account, asset), NetworkFeePostings(fee)) == 0
  {
    var m, rest := OfAccount(account, asset), NetworkFeePostings(fee);
    if rest != [] {
      assert rest == [rest[0], rest[1]] + [];
      SumPair(m, rest[0], rest[1], []);
    }
  }

  /** One debit, one credit and what follows, seen from one account. */
  lemma {:induction false} PairChange(account: string, asset: string, p: Posting, q: Posting, rest: seq<Posting>)
    requires p.direction == Debit && q.direction == Credit && p.asset == q.asset
    ensures -Sum(OfAccount(account, asset), [p, q] + rest)
      == When(p.asset == asset && account == q.account, q.amount)
       - When(p.asset == asset && account == p.account, p.amount)
       - Sum(OfAccount(account, asset), rest)
  {
    SumPair(OfAccount(account, asset), p, q, rest);
  }

  lemma {:induction false} DepositChange(e: Event, entry: Entry, account: string, asset: string)
    requires e.CreditDeposit? || e.ReleaseDeposit?
    requires MerchantAccount(account) && Build(e) == Success(entry)
    ensures -Sum(OfAccount(account, asset), entry.postings) == Change(e, account, asset)
  {
    var ps := entry.postings;
    OtherAccounts(account, e.tenant, e.merchant, if e.CreditDeposit? then e.chain else "");
    assert ps == [ps[0], ps[1]] + ps[2..];
    PairChange(account, asset, ps[0], ps[1], ps[2..]);
    if |ps| == 3 {
      assert ps[2..] == [ps[2]];
      SumOne(OfAccount(account, asset), ps[2]);
    } else {
      assert ps[2..] == [];
    }
  }

  lemma {:induction false} PayoutChange(e: Event, entry: Entry, account: string, asset: string)
    requires e.Lock? || e.Settle?
    requires MerchantAccount(account) && Legal(e) && Build(e) == Success(entry)
    ensures -Sum(OfAccount(account, asset), entry.postings) == Change(e, account, asset)
  {
    var ps := entry.postings;
    OtherAccounts(account, e.payout.tenant, e.payout.merchant, e.payout.chain);
    var rest := if e.Settle? then NetworkFeePostings(e.networkFee) else [];
    assert ps == [ps[0], ps[1]] + rest;
    PairChange(account, asset, ps[0], ps[1], rest);
    if e.Settle? { NoFeeLeg(account, asset, e.networkFee); }
  }

  lemma {:induction false} OtherChange(e: Event, entry: Entry, account: string, asset: string)
    requires e.QuarantineDeposit? || e.SweepFee?
    requires MerchantAccount(account) && Legal(e) && Build(e) == Success(entry)
    ensures Sum(OfAccount(account, asset), entry.postings) == 0
  {
    var ps := entry.postings;
    OtherAccounts(account, if e.SweepFee? then "" else e.tenant, e.merchant, e.chain);
    var rest := if e.SweepFee? then NetworkFeePostings(e.networkFee) else [];
    assert ps == [ps[0], ps[1]] + rest;
    PairChange(account, asset, ps[0], ps[1], rest);
    if e.SweepFee? { NoFeeLeg(account, asset, e.networkFee); }
  }

  /** Every entry changes a merchant account by what its event says. */
  lemma {:induction false} BuiltChange(e: Event, entry: Entry, account: string, asset: string)
    requires !e.ReverseDeposit? && MerchantAccount(account) && Legal(e) && Build(e) == Success(entry)
    ensures -Sum(OfAccount(account, asset), entry.postings) == Change(e, account, asset)
  {
    if e.CreditDeposit? || e.ReleaseDeposit? {
      DepositChange(e, entry, account, asset);
    } else if e.Lock? || e.Settle? {
      PayoutChange(e, entry, account, asset);
    } else {
      OtherChange(e, entry, account, asset);
    }
  }

  // ------------------------------------------------------------ open locks

  /** Amounts locked on an account whose payout is not in `settled`. */
  function OpenLocks(events: seq<Event>, account: string, asset: string, settled: set<string>): int
  {
    if events == [] then 0
    else
      var e := events[|events| - 1];
      OpenLocks(events[..|events| - 1], account, asset, settled)
      + if e.Lock? && e.key !in settled then Change(e, account, asset) else 0
  }

  function SettledKeys(j: seq<Entry>): set<string>
  {
    set i | 0 <= i < |j| && j[i].key.SettleKey? :: j[i].key.payout
  }

  ghost predicate PendingOk(b: Book, account: string, asset: string)
  {
    Owed(b.journal, account, asset) == OpenLocks(b.events, account, asset, SettledKeys(b.journal))
  }

  lemma {:induction false} SettledSnoc(j: seq<Entry>, entry: Entry)
    ensures SettledKeys(j + [entry]) == SettledKeys(j) + if entry.key.SettleKey? then {entry.key.payout} else {}
  {
    var l := j + [entry];
    forall k | k in SettledKeys(l)
      ensures k in SettledKeys(j) + if entry.key.SettleKey? then {entry.key.payout} else {}
    {
      var i :| 0 <= i < |l| && l[i].key == SettleKey(k);
      if i < |j| { assert j[i].key == SettleKey(k); }
    }
    forall k | k in SettledKeys(j) ensures k in SettledKeys(l) {
      var i :| 0 <= i < |j| && j[i].key == SettleKey(k);
      assert l[i].key == SettleKey(k);
    }
    if entry.key.SettleKey? { assert l[|j|].key == SettleKey(entry.key.payout); }
  }

  /** Settling a key closes its one lock. */
  lemma {:induction false} CloseLock(events: seq<Event>, account: string, asset: string, settled: set<string>, i: int)
    requires 0 <= i < |events| && events[i].Lock? && events[i].key !in settled
    requires forall k :: 0 <= k < |events| && k != i && events[k].Lock? ==> events[k].key != events[i].key
    ensures OpenLocks(events, account, asset, settled + {events[i].key})
      == OpenLocks(events, account, asset, settled) - Change(events[i], account, asset)
  {
    var n := |events| - 1;
    if i < n {
      CloseLock(events[..n], account, asset, settled, i);
    } else {
      KeepLocks(events[..n], account, asset, settled, events[i].key);
    }
  }

  lemma {:induction false} KeepLocks(events: seq<Event>, account: string, asset: string, settled: set<string>,
                                     key: string)
    requires forall k :: 0 <= k < |events| && events[k].Lock? ==> events[k].key != key
    ensures OpenLocks(events, account, asset, settled + {key}) == OpenLocks(events, account, asset, settled)
  {
    if events != [] { KeepLocks(events[..|events| - 1], account, asset, settled, key); }
  }

  /** Keys of entries and events agree. */
  lemma {:induction false} LockAt(b: Book, i: int)
    requires LedgerRuns.Inv(b) && 0 <= i < |b.journal|
    ensures b.journal[i].key.LockKey? <==> b.events[i].Lock?
    ensures b.events[i].Lock? ==> b.journal[i].key == LockKey(b.events[i].key)
    ensures b.journal[i].key.SettleKey? <==> b.events[i].Settle?
    ensures b.events[i].Settle? ==> b.journal[i].key == SettleKey(b.events[i].key)
  {
    assert Explained(b, i);
  }

  lemma {:induction false} FindLock(b: Book, key: string) returns (i: int)
    requires LedgerRuns.Inv(b) && HasLock(b, key)
    ensures 0 <= i < |b.events| && b.events[i].Lock? && b.events[i].key == key
    ensures forall k :: 0 <= k < |b.events| && k != i && b.events[k].Lock? ==> b.events[k].key != key
  {
    i :| 0 <= i < |b.journal| && b.journal[i].key == LockKey(key);
    LockAt(b, i);
    forall k | 0 <= k < |b.events| && k != i && b.events[k].Lock? ensures b.events[k].key != key {
      LockAt(b, k);
      assert if k < i then b.journal[k].key != b.journal[i].key else b.journal[i].key != b.journal[k].key;
    }
  }

  /** A settlement in the books has its lock. */
  lemma {:induction false} SettledHasLock(w: World, b: Book, key: string)
    requires BookOk(w, b) && key in SettledKeys(b.journal)
    ensures HasLock(b, key)
  {
    var i :| 0 <= i < |b.journal| && b.journal[i].key.SettleKey? && b.journal[i].key.payout == key;
    LockAt(b, i);
    assert EventOk(w, b, b.events[i]);
  }

  /** The part of an appended entry in a merchant account. */
  lemma {:induction false} AppendedOwed(b: Book, e: Event, entry: Entry, account: string, asset: string)
    ensures Owed(b.journal + [entry], account, asset)
      == Owed(b.journal, account, asset) - Sum(OfAccount(account, asset), entry.postings)
  {
    TotalSnoc(OfAccount(account, asset), b.journal, entry);
  }

  lemma {:induction false} OpenLocksSnoc(events: seq<Event>, e: Event, account: string, asset: string,
                                         settled: set<string>)
    ensures OpenLocks(events + [e], account, asset, settled)
      == OpenLocks(events, account, asset, settled)
       + if e.Lock? && e.key !in settled then Change(e, account, asset) else 0
  {
    assert (events + [e])[..|events|] == events;
  }

  /** A reversal never touches the pending account. */
  lemma {:induction false} ReversalSparesPending(b: Book, i: int, account: string, asset: string)
    requires LedgerRuns.Inv(b) && 0 <= i < |b.journal| && b.journal[i].key.DepositRef? && PrefixOf(account) == PENDING
    ensures Sum(OfAccount(account, asset), Flip(b.journal[i].postings)) == 0
  {
    assert Explained(b, i);
    var e := b.events[i];
    assert e.CreditDeposit? || e.QuarantineDeposit?;
    BuiltChange(e, b.journal[i], account, asset);
    PrefixesOfNames(e.tenant, e.merchant, e.chain);
    assert AVAILABLE[9] != PENDING[9];
    SumFlip(OfAccount(account, asset), b.journal[i].postings);
  }

  /** An entry of a non-payout event, or of a reversal, leaves the pending account alone. */
  lemma {:induction false} PlainAppendPending(b: Book, e: Event, entry: Entry, account: string, asset: string)
    requires PendingOk(b, account, asset) && !e.Lock? && !entry.key.SettleKey?
    requires Sum(OfAccount(account, asset), entry.postings) == 0
    ensures PendingOk(Book(b.journal + [entry], b.events + [e]), account, asset)
  {
    AppendedOwed(b, e, entry, account, asset);
    SettledSnoc(b.journal, entry);
    assert SettledKeys(b.journal + [entry]) == SettledKeys(b.journal);
    OpenLocksSnoc(b.events, e, account, asset, SettledKeys(b.journal));
  }

  lemma {:induction false} LockAppendPending(w: World, b: Book, e: Event, entry: Entry, account: string, asset: string)
    requires BookOk(w, b) && PendingOk(b, account, asset) && PrefixOf(account) == PENDING
    requires e.Lock? && Build(e) == Success(entry) && entry.key !in Keys(b.journal)
    ensures PendingOk(Book(b.journal + [entry], b.events + [e]), account, asset)
  {
    BuiltChange(e, entry, account, asset);
    AppendedOwed(b, e, entry, account, asset);
    SettledSnoc(b.journal, entry);
    var settled := SettledKeys(b.journal);
    assert SettledKeys(b.journal + [entry]) == settled;
    OpenLocksSnoc(b.events, e, account, asset, settled);
    UnsettledLock(w, b, e.key);
  }

  lemma {:induction false} UnsettledLock(w: World, b: Book, key: string)
    requires BookOk(w, b) && LockKey(key) !in Keys(b.journal)
    ensures key !in SettledKeys(b.journal)
  {
    if key in SettledKeys(b.journal) { SettledHasLock(w, b, key); }
  }

  lemma {:induction false} SettleAppendPending(w: World, b: Book, e: Event, entry: Entry, account: string,
                                               asset: string)
    requires BookOk(w, b) && PendingOk(b, account, asset) && PrefixOf(account) == PENDING
    requires e.Settle? && Legal(e) && EventOk(w, b, e) && Build(e) == Success(entry) && entry.key !in Keys(b.journal)
    ensures PendingOk(Book(b.journal + [entry], b.events + [e]), account, asset)
  {
    BuiltChange(e, entry, account, asset);
    AppendedOwed(b, e, entry, account, asset);
    SettledSnoc(b.journal, entry);
    var settled := SettledKeys(b.journal);
    var i := FindLock(b, e.key);
    assert EventOk(w, b, b.events[i]);
    assert e.key !in settled by { FreshSettle(b.journal, e.key); }
    CloseLock(b.events, account, asset, settled, i);
    OpenLocksSnoc(b.events, e, account, asset, settled + {e.key});
    SettleUndoesLock(b.events[i], e, account, asset);
  }

  lemma {:induction false} FreshSettle(j: seq<Entry>, key: string)
    requires SettleKey(key) !in Keys(j)
    ensures key !in SettledKeys(j)
  {
    forall i | 0 <= i < |j| ensures j[i].key != SettleKey(key) { assert j[i].key in Keys(j); }
  }

  lemma {:induction false} SettleUndoesLock(l: Event, e: Event, account: string, asset: string)
    requires l.Lock? && e.Settle? && l.payout == e.payout && PrefixOf(account) == PENDING
    ensures Change(e, account, asset) == -Change(l, account, asset)
  {
    PrefixesOfNames(e.payout.tenant, e.payout.merchant, e.payout.chain);
    assert AVAILABLE[9] != PENDING[9];
  }

  lemma {:induction false} ApplyPending(w: World, b: Book, e: Event, account: string, asset: string)
    requires BookOk(w, b) && Legal(e) && EventOk(w, b, e)
    requires PendingOk(b, account, asset) && PrefixOf(account) == PENDING
    ensures PendingOk(Apply(b, e), account, asset)
  {
    if Apply(b, e) != b {
      if e.ReverseDeposit? {
        var i := Find(b.journal, DepositRef(e.ref)).value;
        ReversalSparesPending(b, i, account, asset);
        PlainAppendPending(b, e, Entry(ReverseRef(e.ref), Flip(b.journal[i].postings)), account, asset);
      } else {
        var entry := Build(e).value;
        if e.Lock? {
          LockAppendPending(w, b, e, entry, account, asset);
        } else if e.Settle? {
          SettleAppendPending(w, b, e, entry, account, asset);
        } else {
          BuiltChange(e, entry, account, asset);
          OtherSparesPending(e, account, asset);
          PlainAppendPending(b, e, entry, account, asset);
        }
      }
    }
  }

  lemma {:induction false} OtherSparesPending(e: Event, account: string, asset: string)
    requires !e.Lock? && !e.Settle? && PrefixOf(account) == PENDING
    ensures Change(e, account, asset) == 0
  {
    if e.CreditDeposit? || e.ReleaseDeposit? {
      PrefixesOfNames(e.tenant, e.merchant, "");
      assert AVAILABLE[9] != PENDING[9];
    }
  }

  /** The event an await posts, if it posts one. */
  function Posted(w: World, s: State, id: nat, answer: Answer): Option<Event>
    requires id in s.calls
  {
    var c := s.calls[id];
    var p := w.params(c.key).payout;
    match c.pc
    case LockFunds(_) => Some(Lock(c.key, p))
    case PostSettle(_) => Some(Settle(c.key, p, None))
    case SweepFees(leg) => Some(SweepFee(FeeKey(c.key, leg), p.merchant, p.chain, p.asset, answer.amount, None))
    case _ => None
  }

  lemma {:induction false} StepBook(w: World, s: State, id: nat, answer: Answer)
    requires id in s.calls
    ensures var e := Posted(w, s, id, answer);
      Step(w, s, id, answer).book == s.book || (e.Some? && Step(w, s, id, answer).book == Apply(s.book, e.value))
  {
    match s.calls[id].pc
    case LockFunds(_) =>
    case PostSettle(_) =>
    case SweepFees(_) =>
    case SendLegs(_, _, _) =>
    case _ => assert Step(w, s, id, answer).book == s.book;
  }

  /** Every action changes the books by at most one event in order. */
  lemma {:induction false} DoBook(w: World, s: State, a: Action) returns (e: Event)
    requires Ok(w, s)
    ensures Do(w, s, a).book == s.book
      || (Do(w, s, a).book == Apply(s.book, e) && Legal(e) && EventOk(w, s.book, e)
          && (e.ReverseDeposit? ==> a == Action.Ledger(e)))
  {
    e := ReverseDeposit("");
    if a.Ledger? {
      e := a.event;
    } else if a.Advance? && a.call in s.calls {
      StepBook(w, s, a.call, a.answer);
      var posted := Posted(w, s, a.call, a.answer);
      assert CallOk(w, s, s.calls[a.call]);
      if posted.Some? { e := posted.value; }
    }
  }

  lemma {:induction false} OpenLocksNonNegative(w: World, b: Book, n: nat, account: string, asset: string,
                                                settled: set<string>)
    requires BookOk(w, b) && n <= |b.events| && PrefixOf(account) == PENDING
    ensures OpenLocks(b.events[..n], account, asset, settled) >= 0
  {
    if n > 0 {
      OpenLocksNonNegative(w, b, n - 1, account, asset, settled);
      assert b.events[..n][..n - 1] == b.events[..n - 1];
      var e := b.events[n - 1];
      if e.Lock? {
        assert Explained(b, n - 1);
        PrefixesOfNames(e.payout.tenant, e.payout.merchant, "");
        assert AVAILABLE[9] != PENDING[9];
      }
    }
  }

  /** In every state of every run, what a merchant has pending is exactly the sum of its
      payouts that are locked and not settled; it is never negative. */
  lemma {:induction false} PendingIsOpenLocks(w: World, actions: seq<Action>, account: string, asset: string)
    requires PrefixOf(account) == PENDING
    ensures var b := RunActions(w, actions).book;
      Owed(b.journal, account, asset) == OpenLocks(b.events, account, asset, SettledKeys(b.journal)) >= 0
  {
    if actions != [] {
      var before := actions[..|actions| - 1];
      var s := RunActions(w, before);
      PendingIsOpenLocks(w, before, account, asset);
      RunOk(w, before);
      var e := DoBook(w, s, actions[|actions| - 1]);
      if Do(w, s, actions[|actions| - 1]).book != s.book { ApplyPending(w, s.book, e, account, asset); }
    }
    RunOk(w, actions);
    var b := RunActions(w, actions).book;
    OpenLocksNonNegative(w, b, |b.events|, account, asset, SettledKeys(b.journal));
    assert b.events[..|b.events|] == b.events;
  }

  /** At most one lock and one settlement per key, and no settlement without its lock. */
  lemma {:induction false} OnePerKey(w: World, actions: seq<Action>, key: string)
    ensures var b := RunActions(w, actions).book;
      && (SettleKey(key) in Keys(b.journal) ==> LockKey(key) in Keys(b.journal))
      && (forall i, k :: 0 <= i < k < |b.journal| ==>
            !(b.journal[i].key == LockKey(key) && b.journal[k].key == LockKey(key))
            && !(b.journal[i].key == SettleKey(key) && b.journal[k].key == SettleKey(key)))
  {
    RunOk(w, actions);
    var b := RunActions(w, actions).book;
    if SettleKey(key) in Keys(b.journal) {
      var i :| 0 <= i < |b.journal| && b.journal[i].key == SettleKey(key);
      assert b.journal[i].key.payout in SettledKeys(b.journal);
      SettledHasLock(w, b, key);
    }
  }

  // --------------------------------------------------------------- available

  lemma {:induction false} ApplyAvailable(b: Book, e: Event, account: string, asset: string)
    requires LedgerRuns.Inv(b) && Legal(e) && !e.ReverseDeposit? && PrefixOf(account) == AVAILABLE
    requires Owed(b.journal, account, asset) >= 0
    ensures Owed(Apply(b, e).journal, account, asset) >= 0
  {
    if Apply(b, e) != b {
      var entry := Build(e).value;
      BuiltChange(e, entry, account, asset);
      AppendedOwed(b, e, entry, account, asset);
      AvailableChange(e, entry, account, asset);
    }
  }

  /** Only a lock takes from an available account, and exactly its amount. */
  lemma {:induction false} AvailableChange(e: Event, entry: Entry, account: string, asset: string)
    requires !e.ReverseDeposit? && Build(e) == Success(entry) && PrefixOf(account) == AVAILABLE
    ensures Change(e, account, asset) >= 0
      || (e.Lock? && e.payout.asset == asset && account == MerchantAvailable(e.payout.tenant, e.payout.merchant)
          && Change(e, account, asset) == -e.payout.amount)
  {
    if e.Lock? || e.Settle? {
      PrefixesOfNames(e.payout.tenant, e.payout.merchant, "");
      assert AVAILABLE[9] != PENDING[9];
    }
  }

  /** In every run without a reversal, no merchant is ever overdrawn. */
  lemma {:induction false} AvailableNeverNegative(w: World, actions: seq<Action>, account: string, asset: string)
    requires PrefixOf(account) == AVAILABLE
    requires forall i :: 0 <= i < |actions| && actions[i].Ledger? ==> !actions[i].event.ReverseDeposit?
    ensures Owed(RunActions(w, actions).book.journal, account, asset) >= 0
  {
    if actions != [] {
      var before, a := actions[..|actions| - 1], actions[|actions| - 1];
      var s := RunActions(w, before);
      AvailableNeverNegative(w, before, account, asset);
      RunOk(w, before);
      var e := DoBook(w, s, a);
      if Do(w, s, a).book != s.book { ApplyAvailable(s.book, e, account, asset); }
    }
  }

  // ------------------------------------------------ exactly when it is overdrawn

  /** The reversal finds its deposit and has not been posted before. */
  predicate Lands(b: Book, e: Event)
  {
    e.ReverseDeposit? && DepositRef(e.ref) in Keys(b.journal) && ReverseRef(e.ref) !in Keys(b.journal)
  }

  /** What reversing a deposit takes back from an account: what the deposit credited. */
  function TakenBack(b: Book, ref: string, account: string, asset: string): int
  {
    var i := Find(b.journal, DepositRef(ref));
    if i.Some? && i.value < |b.events| then Change(b.events[i.value], account, asset) else 0
  }

  lemma {:induction false} ReversalTakes(b: Book, ref: string, account: string, asset: string)
    requires LedgerRuns.Inv(b) && MerchantAccount(account) && Lands(b, ReverseDeposit(ref))
    ensures Owed(Apply(b, ReverseDeposit(ref)).journal, account, asset)
      == Owed(b.journal, account, asset) - TakenBack(b, ref, account, asset)
  {
    var e, i := ReverseDeposit(ref), Find(b.journal, DepositRef(ref)).value;
    var original := b.journal[i];
    assert Explained(b, i);
    KeyOfEvent(b, i);
    BuiltChange(b.events[i], original, account, asset);
    SumFlip(OfAccount(account, asset), original.postings);
    AppendedOwed(b, e, Entry(ReverseRef(ref), Flip(original.postings)), account, asset);
  }

  /** The books after the first n actions. */
  function BookAfter(w: World, actions: seq<Action>, n: nat): Book
    requires n <= |actions|
  {
    RunActions(w, actions[..n]).book
  }

  /** If action n reverses a deposit, the account still holds what the deposit credited. */
  ghost predicate Covered(w: World, actions: seq<Action>, n: nat, account: string, asset: string)
    requires n < |actions|
  {
    var b := BookAfter(w, actions, n);
    actions[n].Ledger? && Lands(b, actions[n].event) ==>
      TakenBack(b, actions[n].event.ref, account, asset) <= Owed(b.journal, account, asset)
  }

  ghost predicate NotOverdrawn(w: World, actions: seq<Action>, n: nat, account: string, asset: string)
    requires n <= |actions|
  {
    Owed(BookAfter(w, actions, n).journal, account, asset) >= 0
  }

  lemma {:induction false} OneMoreAction(w: World, actions: seq<Action>, n: nat, account: string, asset: string)
    requires n < |actions| && PrefixOf(account) == AVAILABLE && NotOverdrawn(w, actions, n, account, asset)
    ensures NotOverdrawn(w, actions, n + 1, account, asset) <==> Covered(w, actions, n, account, asset)
  {
    var s, a := RunActions(w, actions[..n]), actions[n];
    assert actions[..n + 1][..n] == actions[..n];
    assert RunActions(w, actions[..n + 1]) == Do(w, s, a);
    RunOk(w, actions[..n]);
    var e := DoBook(w, s, a);
    if a.Ledger? && Lands(s.book, a.event) {
      ReversalTakes(s.book, a.event.ref, account, asset);
    } else if Do(w, s, a).book != s.book {
      NotLandingIsNoReversal(s.book, e);
      ApplyAvailable(s.book, e, account, asset);
    }
  }

  lemma {:induction false} NotLandingIsNoReversal(b: Book, e: Event)
    requires Apply(b, e) != b
    ensures e.ReverseDeposit? ==> Lands(b, e)
  {
    if e.ReverseDeposit? {
      var i := Find(b.journal, DepositRef(e.ref));
      assert b.journal[i.value].key in Keys(b.journal);
    }
  }

  /** A merchant is never overdrawn during a run if and only if every reversal that lands
      finds at least what its deposit had credited. */
  lemma {:induction false} NeverOverdrawnExactly(w: World, actions: seq<Action>, account: string, asset: string)
    requires PrefixOf(account) == AVAILABLE
    ensures (forall n :: 0 <= n <= |actions| ==> NotOverdrawn(w, actions, n, account, asset))
      <==> (forall n :: 0 <= n < |actions| ==> Covered(w, actions, n, account, asset))
  {
    if forall n :: 0 <= n < |actions| ==> Covered(w, actions, n, account, asset) {
      forall n | 0 <= n <= |actions| ensures NotOverdrawn(w, actions, n, account, asset) {
        CoveredSoFar(w, actions, n, account, asset);
      }
    }
    if forall n :: 0 <= n <= |actions| ==> NotOverdrawn(w, actions, n, account, asset) {
      forall n | 0 <= n < |actions| ensures Covered(w, actions, n, account, asset) {
        assert NotOverdrawn(w, actions, n + 1, account, asset);
        OneMoreAction(w, actions, n, account, asset);
      }
    }
  }

  lemma {:induction false} CoveredSoFar(w: World, actions: seq<Action>, n: nat, account: string, asset: string)
    requires n <= |actions| && PrefixOf(account) == AVAILABLE
    requires forall k :: 0 <= k < n ==> Covered(w, actions, k, account, asset)
    ensures NotOverdrawn(w, actions, n, account, asset)
  {
    if n > 0 {
      CoveredSoFar(w, actions, n - 1, account, asset);
      OneMoreAction(w, actions, n - 1, account, asset);
    }
  }

  // ---------------------------------------------------------------- retried locks

  /** The books after more events. */
  function Later(b: Book, events: seq<Event>): Book
  {
    if events == [] then b else Apply(Later(b, events[..|events| - 1]), events[|events| - 1])
  }

  lemma {:induction false} KeysStay(b: Book, events: seq<Event>)
    ensures Keys(b.journal) <= Keys(Later(b, events).journal)
  {
    if events != [] {
      var c := Later(b, events[..|events| - 1]);
      KeysStay(b, events[..|events| - 1]);
      var d := Apply(c, events[|events| - 1]);
      if d != c {
        assert d.journal[..|c.journal|] == c.journal;
        KeysSnoc(d.journal);
      }
    }
  }

  /** `lockPayout` looks at the balance before the key. So the retry of a payout that is
      already locked goes through if and only if the balance before the first lock, with all
      that was gained or lost since the lock, covers the amount twice. */
  lemma {:induction false} RetryNeedsTwice(s: State, key: string, p: Payout, events: seq<Event>)
    requires LedgerRuns.Inv(s.book) && LockKey(key) !in Keys(s.book.journal) && LockSucceeds(s, p)
    ensures var account := MerchantAvailable(p.tenant, p.merchant);
      var locked := Apply(s.book, Lock(key, p));
      var t := s.(book := Later(locked, events));
      var gained := Owed(t.book.journal, account, p.asset) - Owed(locked.journal, account, p.asset);
      && HasLock(t.book, key)
      && (LockSucceeds(t, p) <==> 2 * p.amount <= Owed(s.book.journal, account, p.asset) + gained)
  {
    var e, account := Lock(key, p), MerchantAvailable(p.tenant, p.merchant);
    var entry := Build(e).value;
    LockLands(s, key, p);
    KeysStay(Apply(s.book, e), events);
    PrefixesOfNames(p.tenant, p.merchant, "");
    OtherAccounts(account, p.tenant, p.merchant, "");
    BuiltChange(e, entry, account, p.asset);
    AppendedOwed(s.book, e, entry, account, p.asset);
  }

  lemma {:induction false} RunSnoc(events: seq<Event>, e: Event)
    ensures Run(events + [e]) == Apply(Run(events), e)
  {
    assert (events + [e])[..|events|] == events;
  }

  lemma {:induction false} CreditedRun(ref: string, p: Payout) returns (entry: Entry)
    requires p.amount > 0
    ensures var credit := CreditDeposit(ref, p.tenant, p.merchant, p.chain, p.asset, p.amount, 0);
      var m := OfAccount(MerchantAvailable(p.tenant, p.merchant), p.asset);
      Run([credit]) == Book([entry], [credit]) && entry.key == DepositRef(ref)
      && Sum(m, entry.postings) == -p.amount && Total(m, [entry]) == -p.amount
  {
    var account := MerchantAvailable(p.tenant, p.merchant);
    var credit := CreditDeposit(ref, p.tenant, p.merchant, p.chain, p.asset, p.amount, 0);
    entry := Build(credit).value;
    RunSnoc([], credit);
    assert [] + [credit] == [credit] && [] + [entry] == [entry];
    PrefixesOfNames(p.tenant, p.merchant, p.chain);
    BuiltChange(credit, entry, account, p.asset);
    TotalSnoc(OfAccount(account, p.asset), [], entry);
  }

  lemma {:induction false} LockedRun(ref: string, key: string, p: Payout) returns (entry: Entry, lock: Entry)
    requires p.amount > 0
    ensures var credit := CreditDeposit(ref, p.tenant, p.merchant, p.chain, p.asset, p.amount, 0);
      var m := OfAccount(MerchantAvailable(p.tenant, p.merchant), p.asset);
      && Run([credit, Lock(key, p)]) == Book([entry, lock], [credit, Lock(key, p)])
      && entry.key == DepositRef(ref) && lock.key == LockKey(key)
      && Sum(m, entry.postings) == -p.amount && Total(m, [entry, lock]) == 0
  {
    var account := MerchantAvailable(p.tenant, p.merchant);
    var credit := CreditDeposit(ref, p.tenant, p.merchant, p.chain, p.asset, p.amount, 0);
    entry := CreditedRun(ref, p);
    lock := Build(Lock(key, p)).value;
    RunSnoc([credit], Lock(key, p));
    assert [credit] + [Lock(key, p)] == [credit, Lock(key, p)] && [entry] + [lock] == [entry, lock];
    assert lock.key !in Keys([entry]);
    PrefixesOfNames(p.tenant, p.merchant, p.chain);
    BuiltChange(Lock(key, p), lock, account, p.asset);
    OtherAccounts(account, p.tenant, p.merchant, p.chain);
    TotalSnoc(OfAccount(account, p.asset), [entry], lock);
  }

  /** With a reversal it can happen: a deposit that is locked for a payout and then
      reversed leaves the merchant overdrawn by the whole amount. */
  lemma {:induction false} ReversalCanOverdraw(ref: string, key: string, p: Payout)
    requires p.amount > 0
    ensures var credit := CreditDeposit(ref, p.tenant, p.merchant, p.chain, p.asset, p.amount, 0);
      var b := Run([credit, Lock(key, p), ReverseDeposit(ref)]);
      Owed(b.journal, MerchantAvailable(p.tenant, p.merchant), p.asset) == -p.amount
  {
    var m := OfAccount(MerchantAvailable(p.tenant, p.merchant), p.asset);
    var credit := CreditDeposit(ref, p.tenant, p.merchant, p.chain, p.asset, p.amount, 0);
    var entry, lock := LockedRun(ref, key, p);
    var undo := Entry(ReverseRef(ref), Flip(entry.postings));
    RunSnoc([credit, Lock(key, p)], ReverseDeposit(ref));
    assert [credit, Lock(key, p)] + [ReverseDeposit(ref)] == [credit, Lock(key, p), ReverseDeposit(ref)];
    assert Find([entry, lock], DepositRef(ref)) == Some(0) by { assert [entry, lock][..1] == [entry]; }
    assert undo.key !in Keys([entry, lock]);
    SumFlip(m, entry.postings);
    TotalSnoc(m, [entry, lock], undo);
  }

  // ------------------------------------------------------------------- sends

  /** Every transfer ever handed to a broadcaster, in every run: its funds were locked;
      above the approval threshold at least `required` different people are on record as
      approvers and none of them is the requester; above the time-lock threshold it was
      not sent before the first request plus the delay. */
  lemma {:induction false} SendsAreAuthorised(w: World, actions: seq<Action>, i: nat)
    requires i < |RunActions(w, actions).sends|
    ensures var s := RunActions(w, actions);
      var x := s.sends[i];
      var p, rows := w.params(x.key), ApproversFor(s, x.key);
      && x.key in s.rows && HasLock(s.book, x.key)
      && (w.config.approval.Some? && p.payout.amount > w.config.approval.value.threshold ==>
            |rows| >= w.config.approval.value.required
            && (forall a :: a in rows ==> a != "" && Some(a) != p.requester)
            && (forall j, k :: 0 <= j < k < |rows| ==> rows[j] != rows[k]))
      && (w.config.timeLock.Some? && p.payout.amount > w.config.timeLock.value.threshold ==>
            x.at >= s.rows[x.key].createdAt + w.config.timeLock.value.delayMs)
  {
    RunOk(w, actions);
    var s := RunActions(w, actions);
    var x := s.sends[i];
    assert SendOk(w, s, x);
    var rows, requester := ApproversFor(s, x.key), w.params(x.key).requester;
    assert ProperRows(rows, requester);
    CountingProper(rows, requester);
  }
}
